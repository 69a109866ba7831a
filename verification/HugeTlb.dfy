// The huge-page backed guest memory of devicemodel/core/hugetlb.c: how the four guest
// segments are laid out over the 1 GB and 2 MB memfds.
module HugeTlb {
  import opened Arithmetic
  import opened Options

  const MB := 1024 * 1024
  const GB := 1024 * MB
  const FB_SIZE := 16 * MB
  const HIGH_BASE := 4 * GB
  const LOWMEM_LIMIT := 2 * GB
  const MAX_REGIONS := 16

  datatype Seg = Low | High | Bios | Fb

  // The order in which the segments are mapped
  function Rank(g: Seg): int { match g case Low => 0 case High => 1 case Bios => 2 case Fb => 3 }

  // hugetlb_priv[level]: level 0 has 2 MB pages, level 1 has 1 GB pages.
  datatype Level = Level(fd: int, low: int, high: int, bios: int, fb: int, delta: int) {
    function Size(g: Seg): int
    { match g case Low => low case High => high case Bios => bios case Fb => fb }

    function Add(g: Seg, n: int): Level
    {
      match g
      case Low => this.(low := low + n)
      case High => this.(high := high + n)
      case Bios => this.(bios := bios + n)
      case Fb => this.(fb := fb + n)
    }

    function Total(): int { low + high + bios + fb }

    // get_*_param: where the segment starts in the level's memfd
    function Skip(g: Seg): int
    { match g case Low => 0 case High => low case Bios => low + high case Fb => low + high + bios }
  }

  function PageSize(l: int): int { if l == 0 then 2 * MB else GB }

  // get_*_param: how much of the segment the level has to provide
  function Len(l: int, lv: Level, g: Seg): int
  { if g == Fb then (if l == 0 then FB_SIZE else 0) else lv.Size(g) }

  datatype Ctx = Ctx(low: int, high: int, bios: int, fb: int) {
    function Size(g: Seg): int
    { match g case Low => low case High => high case Bios => bios case Fb => fb }

    function Base(g: Seg): int
    {
      match g
      case Low => 0
      case High => HIGH_BASE
      case Bios => 4 * GB - bios
      case Fb => 4 * GB - bios - fb
    }
  }

  datatype Region = Region(start: int, end: int, fd: int, off: int) {
    predicate Has(gpa: int) { start <= gpa < end }
  }

  function Kept(r: Region): seq<Region> { if r.start < r.end then [r] else [] }

  function NonEmpty(rs: seq<Region>): seq<Region>
  { if rs == [] then [] else Kept(rs[0]) + NonEmpty(rs[1..]) }

  lemma Associative(x: seq<Region>, y: seq<Region>, z: seq<Region>)
    ensures (x + y) + z == x + (y + z)
  {
  }

  lemma {:induction false} NonEmptyConcat(a: seq<Region>, b: seq<Region>)
    ensures NonEmpty(a + b) == NonEmpty(a) + NonEmpty(b)
  {
    if a == [] {
      assert a + b == b;
    } else {
      NonEmptyConcat(a[1..], b);
      assert (a + b)[1..] == a[1..] + b;
      Associative(Kept(a[0]), NonEmpty(a[1..]), NonEmpty(b));
    }
  }

  // The stretch of segment g that level l provides; level 1 comes first.
  function Piece(lvs: seq<Level>, c: Ctx, g: Seg, l: int): Region
    requires |lvs| == 2 && 0 <= l < 2
  {
    var start := c.Base(g) + if l == 1 then 0 else Len(1, lvs[1], g);
    Region(start, start + Len(l, lvs[l], g), lvs[l].fd, lvs[l].Skip(g))
  }

  function Pieces(lvs: seq<Level>, c: Ctx, g: Seg): seq<Region>
    requires |lvs| == 2
  { [Piece(lvs, c, g, 1), Piece(lvs, c, g, 0)] }

  function AllPieces(lvs: seq<Level>, c: Ctx): seq<Region>
    requires |lvs| == 2
  { Pieces(lvs, c, Low) + Pieces(lvs, c, High) + Pieces(lvs, c, Bios) + Pieces(lvs, c, Fb) }

  // mmap_mem_regions after a successful set-up
  function Regions(lvs: seq<Level>, c: Ctx): seq<Region>
    requires |lvs| == 2
  { NonEmpty(AllPieces(lvs, c)) }

  // The guest memory a configuration asks for.
  ghost predicate GoodCtx(c: Ctx)
  {
    && 0 < c.low <= LOWMEM_LIMIT && 0 <= c.high && 0 <= c.bios < GB && c.fb == FB_SIZE
    && c.low % (2 * MB) == 0 && c.high % (2 * MB) == 0 && c.bios % (2 * MB) == 0
  }

  // The levels split every segment into a multiple of 1 GB and a multiple of 2 MB.
  ghost predicate Split(lvs: seq<Level>, c: Ctx)
  {
    && |lvs| == 2
    && (forall g {:trigger lvs[0].Size(g)} {:trigger lvs[1].Size(g)} ::
          && 0 <= lvs[0].Size(g) && 0 <= lvs[1].Size(g) && lvs[0].Size(g) + lvs[1].Size(g) == c.Size(g)
          && lvs[0].Size(g) % (2 * MB) == 0 && lvs[1].Size(g) % GB == 0)
  }

  predicate InSegment(c: Ctx, g: Seg, gpa: int) { c.Base(g) <= gpa < c.Base(g) + c.Size(g) }

  predicate Backed(c: Ctx, gpa: int)
  { InSegment(c, Low, gpa) || InSegment(c, High, gpa) || InSegment(c, Bios, gpa) || InSegment(c, Fb, gpa) }

  ghost predicate Apart(a: Region, b: Region)
  { a.end <= b.start || b.end <= a.start || a.start >= a.end || b.start >= b.end }

  lemma SplitSizes(lvs: seq<Level>, c: Ctx)
    requires GoodCtx(c) && Split(lvs, c)
    ensures 0 <= lvs[0].low && 0 <= lvs[1].low && lvs[0].low + lvs[1].low == c.low
    ensures 0 <= lvs[0].high && 0 <= lvs[1].high && lvs[0].high + lvs[1].high == c.high
    ensures lvs[1].bios == 0 && lvs[0].bios == c.bios
    ensures lvs[1].fb == 0 && lvs[0].fb == FB_SIZE
    ensures lvs[0].low % (2 * MB) == 0 && lvs[0].high % (2 * MB) == 0 && lvs[1].low % GB == 0 && lvs[1].high % GB == 0
  {
    assert lvs[0].Size(Low) + lvs[1].Size(Low) == c.Size(Low);
    assert lvs[0].Size(High) + lvs[1].Size(High) == c.Size(High);
    assert lvs[0].Size(Bios) + lvs[1].Size(Bios) == c.Size(Bios);
    assert lvs[0].Size(Fb) + lvs[1].Size(Fb) == c.Size(Fb);
    assert lvs[1].bios % GB == 0 && lvs[1].fb % GB == 0;
  }

  // No two pieces share a guest address.
  lemma PiecesApart(lvs: seq<Level>, c: Ctx, i: int, j: int)
    requires GoodCtx(c) && Split(lvs, c) && 0 <= i < j < 8
    ensures Apart(AllPieces(lvs, c)[i], AllPieces(lvs, c)[j])
  {
    SplitSizes(lvs, c);
  }

  // Together they cover the four segments and nothing else.
  lemma PiecesCover(lvs: seq<Level>, c: Ctx, gpa: int)
    requires GoodCtx(c) && Split(lvs, c)
    ensures Backed(c, gpa) <==> exists i :: 0 <= i < 8 && AllPieces(lvs, c)[i].Has(gpa)
  {
    SplitSizes(lvs, c);
    var p := AllPieces(lvs, c);
    assert Backed(c, gpa) <==>
           || p[0].Has(gpa) || p[1].Has(gpa) || p[2].Has(gpa) || p[3].Has(gpa)
           || p[4].Has(gpa) || p[5].Has(gpa) || p[6].Has(gpa) || p[7].Has(gpa);
  }

  ghost predicate AllApart(rs: seq<Region>)
  { forall i, j :: 0 <= i < j < |rs| ==> Apart(rs[i], rs[j]) }

  lemma {:induction false} NonEmptyIn(rs: seq<Region>, k: int) returns (i: int)
    requires 0 <= k < |NonEmpty(rs)|
    ensures 0 <= i < |rs| && NonEmpty(rs)[k] == rs[i] && rs[i].start < rs[i].end
  {
    var n := if rs[0].start < rs[0].end then 1 else 0;
    if k < n {
      i := 0;
    } else {
      i := NonEmptyIn(rs[1..], k - n);
      i := i + 1;
    }
  }

  lemma {:induction false} InNonEmpty(rs: seq<Region>, i: int) returns (k: int)
    requires 0 <= i < |rs| && rs[i].start < rs[i].end
    ensures 0 <= k < |NonEmpty(rs)| && NonEmpty(rs)[k] == rs[i]
  {
    if i == 0 {
      k := 0;
    } else {
      k := InNonEmpty(rs[1..], i - 1);
      k := k + if rs[0].start < rs[0].end then 1 else 0;
    }
  }

  lemma {:induction false} NonEmptyApart(rs: seq<Region>)
    requires AllApart(rs)
    ensures AllApart(NonEmpty(rs)) && |NonEmpty(rs)| <= |rs|
  {
    if rs != [] {
      NonEmptyApart(rs[1..]);
      var n := if rs[0].start < rs[0].end then 1 else 0;
      var rest := NonEmpty(rs[1..]);
      forall k | 0 <= k < |rest| ensures Apart(rs[0], rest[k]) {
        var i := NonEmptyIn(rs[1..], k);
      }
    }
  }

  // The recorded regions are at most eight, no two of them share a guest address, and
  // together they are exactly the four segments.
  lemma RegionsTile(lvs: seq<Level>, c: Ctx)
    requires GoodCtx(c) && Split(lvs, c)
    ensures |Regions(lvs, c)| <= 8
    ensures forall i, j, gpa | 0 <= i < |Regions(lvs, c)| && 0 <= j < |Regions(lvs, c)| ::
              Regions(lvs, c)[i].Has(gpa) && Regions(lvs, c)[j].Has(gpa) ==> i == j
    ensures forall gpa :: Backed(c, gpa) <==> exists i :: 0 <= i < |Regions(lvs, c)| && Regions(lvs, c)[i].Has(gpa)
  {
    var p, rs := AllPieces(lvs, c), Regions(lvs, c);
    assert AllApart(p) by {
      forall i, j | 0 <= i < j < |p| ensures Apart(p[i], p[j]) { PiecesApart(lvs, c, i, j); }
    }
    NonEmptyApart(p);
    forall i, j, gpa | 0 <= i < |rs| && 0 <= j < |rs| && rs[i].Has(gpa) && rs[j].Has(gpa) ensures i == j {
      assert i < j ==> Apart(rs[i], rs[j]);
      assert j < i ==> Apart(rs[j], rs[i]);
    }
    forall gpa ensures Backed(c, gpa) <==> exists i :: 0 <= i < |rs| && rs[i].Has(gpa) {
      RegionsCover(lvs, c, gpa);
    }
  }

  lemma RegionsCover(lvs: seq<Level>, c: Ctx, gpa: int)
    requires GoodCtx(c) && Split(lvs, c)
    ensures Backed(c, gpa) <==> exists i :: 0 <= i < |Regions(lvs, c)| && Regions(lvs, c)[i].Has(gpa)
  {
    var p, rs := AllPieces(lvs, c), Regions(lvs, c);
    PiecesCover(lvs, c, gpa);
    if i :| 0 <= i < |p| && p[i].Has(gpa) {
      var k := InNonEmpty(p, i);
      assert rs[k].Has(gpa);
    }
    if k :| 0 <= k < |rs| && rs[k].Has(gpa) {
      var i := NonEmptyIn(p, k);
      assert p[i].Has(gpa);
    }
  }

  // A region lies in the memfd of one level, on page boundaries on both sides, and
  // inside what the memfd is sealed to.
  ghost predicate Seated(lvs: seq<Level>, r: Region, l: int)
    requires |lvs| == 2
  {
    && 0 <= l < 2 && r.fd == lvs[l].fd
    && r.start % PageSize(l) == 0 && r.end % PageSize(l) == 0 && r.off % PageSize(l) == 0
    && 0 <= r.off && r.off + (r.end - r.start) <= lvs[l].Total()
  }

  lemma MultipleSum(a: int, b: int, l: int)
    requires a % PageSize(l) == 0 && b % PageSize(l) == 0
    ensures (a + b) % PageSize(l) == 0 && (a - b) % PageSize(l) == 0
  {
    SumOfMultiples(a, b, PageSize(l));
  }

  lemma GigabyteIsWhole(a: int)
    requires a % GB == 0
    ensures a % (2 * MB) == 0
  {
    var k := a / GB;
    assert a == (2 * MB) * (512 * k);
    Multiple(2 * MB, 512 * k);
  }

  // Where the pieces of a level begin and end, in pages.
  lemma SkipAligned(lvs: seq<Level>, c: Ctx, g: Seg, l: int)
    requires GoodCtx(c) && Split(lvs, c) && 0 <= l < 2
    ensures lvs[l].Skip(g) % PageSize(l) == 0 && Len(l, lvs[l], g) % PageSize(l) == 0
  {
    SplitSizes(lvs, c);
    MultipleSum(lvs[l].low, lvs[l].high, l);
    MultipleSum(lvs[l].low + lvs[l].high, lvs[l].bios, l);
  }

  lemma SegmentAligned(c: Ctx, g: Seg)
    requires GoodCtx(c)
    ensures c.Base(g) % (2 * MB) == 0
  {
    Multiple(2 * MB, 2048);
    MultipleSum(4 * GB, c.bios, 0);
    MultipleSum(4 * GB - c.bios, c.fb, 0);
  }

  lemma BaseAligned(lvs: seq<Level>, c: Ctx, g: Seg, l: int)
    requires GoodCtx(c) && Split(lvs, c) && 0 <= l < 2 && 0 < Len(l, lvs[l], g)
    ensures Piece(lvs, c, g, l).start % PageSize(l) == 0
  {
    SplitSizes(lvs, c);
    if l == 0 {
      SegmentAligned(c, g);
      GigabyteIsWhole(Len(1, lvs[1], g));
      MultipleSum(c.Base(g), Len(1, lvs[1], g), 0);
    } else {
      assert g == Low || g == High;
    }
  }

  lemma PieceSeated(lvs: seq<Level>, c: Ctx, g: Seg, l: int)
    requires GoodCtx(c) && Split(lvs, c) && 0 <= l < 2 && 0 < Len(l, lvs[l], g)
    ensures Seated(lvs, Piece(lvs, c, g, l), l)
  {
    SplitSizes(lvs, c);
    SkipAligned(lvs, c, g, l);
    BaseAligned(lvs, c, g, l);
    MultipleSum(Piece(lvs, c, g, l).start, Len(l, lvs[l], g), l);
  }

  function SegAt(i: int): Seg { if i < 2 then Low else if i < 4 then High else if i < 6 then Bios else Fb }

  lemma RegionsSeated(lvs: seq<Level>, c: Ctx, k: int)
    requires GoodCtx(c) && Split(lvs, c) && 0 <= k < |Regions(lvs, c)|
    ensures exists l :: Seated(lvs, Regions(lvs, c)[k], l)
  {
    var i := NonEmptyIn(AllPieces(lvs, c), k);
    var l := if i % 2 == 0 then 1 else 0;
    assert AllPieces(lvs, c)[i] == Piece(lvs, c, SegAt(i), l);
    PieceSeated(lvs, c, SegAt(i), l);
  }

  // Two regions of the same memfd use different parts of it.
  ghost predicate FileApart(a: Region, b: Region)
  { a.fd == b.fd ==>
      a.off + (a.end - a.start) <= b.off || b.off + (b.end - b.start) <= a.off || a.start >= a.end || b.start >= b.end }

  lemma PiecesFileApart(lvs: seq<Level>, c: Ctx, i: int, j: int)
    requires GoodCtx(c) && Split(lvs, c) && lvs[0].fd != lvs[1].fd && 0 <= i < j < 8
    ensures FileApart(AllPieces(lvs, c)[i], AllPieces(lvs, c)[j])
  {
    SplitSizes(lvs, c);
  }

  // ---- from guest addresses to file offsets -------------------------------------------------

  datatype Place = Place(fd: int, off: int)

  // vm_find_memfd_region
  function Translate(rs: seq<Region>, gpa: int): Option<Place>
  {
    if rs == [] then None
    else if rs[0].Has(gpa) then Some(Place(rs[0].fd, gpa - rs[0].start + rs[0].off))
    else Translate(rs[1..], gpa)
  }

  lemma {:induction false} TranslateFinds(rs: seq<Region>, gpa: int) returns (i: int)
    requires Translate(rs, gpa).Some?
    ensures 0 <= i < |rs| && rs[i].Has(gpa) &&
            Translate(rs, gpa) == Some(Place(rs[i].fd, gpa - rs[i].start + rs[i].off))
  {
    if rs[0].Has(gpa) {
      i := 0;
    } else {
      i := TranslateFinds(rs[1..], gpa);
      i := i + 1;
    }
  }

  lemma {:induction false} TranslateMisses(rs: seq<Region>, gpa: int)
    requires Translate(rs, gpa).None?
    ensures forall i :: 0 <= i < |rs| ==> !rs[i].Has(gpa)
  {
    if rs != [] {
      TranslateMisses(rs[1..], gpa);
      forall i | 0 <= i < |rs| ensures !rs[i].Has(gpa) {
        assert i > 0 ==> rs[i] == rs[1..][i - 1];
      }
    }
  }

  // Exactly the backed addresses translate, to a place inside a sealed memfd, and no two
  // of them to the same place.
  lemma TranslateBacked(lvs: seq<Level>, c: Ctx, gpa: int)
    requires GoodCtx(c) && Split(lvs, c)
    ensures Translate(Regions(lvs, c), gpa).Some? <==> Backed(c, gpa)
    ensures Backed(c, gpa) ==> var p := Translate(Regions(lvs, c), gpa).value;
              exists l :: 0 <= l < 2 && p.fd == lvs[l].fd && 0 <= p.off < lvs[l].Total()
  {
    var rs := Regions(lvs, c);
    RegionsCover(lvs, c, gpa);
    if Translate(rs, gpa).None? {
      TranslateMisses(rs, gpa);
    } else {
      var i := TranslateFinds(rs, gpa);
      RegionsSeated(lvs, c, i);
    }
  }

  lemma TranslateInjective(lvs: seq<Level>, c: Ctx, x: int, y: int)
    requires GoodCtx(c) && Split(lvs, c) && lvs[0].fd != lvs[1].fd && Backed(c, x) && Backed(c, y) && x != y
    ensures Translate(Regions(lvs, c), x) != Translate(Regions(lvs, c), y)
  {
    var p, rs := AllPieces(lvs, c), Regions(lvs, c);
    TranslateBacked(lvs, c, x);
    TranslateBacked(lvs, c, y);
    var i := TranslateFinds(rs, x);
    var j := TranslateFinds(rs, y);
    var a := NonEmptyIn(p, i);
    var b := NonEmptyIn(p, j);
    if a < b {
      PiecesFileApart(lvs, c, a, b);
    } else if b < a {
      PiecesFileApart(lvs, c, b, a);
    }
  }

  // vm_map_gpa: the range lies in lowmem or in highmem
  predicate MapGpa(c: Ctx, gpa: int, len: int)
  {
    || (c.low > 0 && gpa < c.low && len <= c.low && gpa + len <= c.low)
    || (c.high > 0 && gpa >= HIGH_BASE && gpa < HIGH_BASE + c.high && len <= c.high && gpa + len <= HIGH_BASE + c.high)
  }

  lemma MapGpaBacked(lvs: seq<Level>, c: Ctx, gpa: int, len: int, x: int)
    requires GoodCtx(c) && Split(lvs, c) && 0 <= gpa && MapGpa(c, gpa, len) && gpa <= x < gpa + len
    ensures var rs := Regions(lvs, c);
            exists i :: 0 <= i < |rs| && rs[i].Has(x) && forall j :: 0 <= j < |rs| && rs[j].Has(x) ==> j == i
  {
    RegionsTile(lvs, c);
    assert Backed(c, x);
  }

  // vm_map_gpa accepts a range if and only if it begins and ends in lowmem, or in highmem.
  lemma MapGpaExactly(c: Ctx, gpa: int, len: int)
    requires GoodCtx(c) && 0 <= gpa && 0 < len
    ensures MapGpa(c, gpa, len) <==>
            || (InSegment(c, Low, gpa) && InSegment(c, Low, gpa + len - 1))
            || (InSegment(c, High, gpa) && InSegment(c, High, gpa + len - 1))
  {
  }

  // vm_allow_dmabuf
  predicate AllowDmabuf(lvs: seq<Level>, c: Ctx)
    requires |lvs| == 2
  {
    && !(c.high != 0 && lvs[0].fd > 0 && lvs[0].high != 0 && lvs[1].fd > 0 && lvs[1].high != 0)
    && !(c.low != 0 && lvs[0].fd > 0 && lvs[0].low != 0 && lvs[1].fd > 0 && lvs[1].low != 0)
  }

  // If dma-buf is allowed, lowmem and highmem are each contiguous in one memfd.
  lemma DmabufContiguous(lvs: seq<Level>, c: Ctx, g: Seg, x: int, y: int)
    requires GoodCtx(c) && Split(lvs, c) && (g == Low || g == High)
    requires (lvs[0].Size(g) != 0 ==> lvs[0].fd > 0) && (lvs[1].Size(g) != 0 ==> lvs[1].fd > 0)
    requires AllowDmabuf(lvs, c) && InSegment(c, g, x) && InSegment(c, g, y)
    ensures var p, q := Translate(Regions(lvs, c), x), Translate(Regions(lvs, c), y);
            p.Some? && q.Some? && p.value.fd == q.value.fd && q.value.off - p.value.off == y - x
  {
    SplitSizes(lvs, c);
    TranslateIs(lvs, c, g, if lvs[1].Size(g) != 0 then 1 else 0, x);
    TranslateIs(lvs, c, g, if lvs[1].Size(g) != 0 then 1 else 0, y);
  }

  lemma TranslateIs(lvs: seq<Level>, c: Ctx, g: Seg, l: int, gpa: int)
    requires GoodCtx(c) && Split(lvs, c) && 0 <= l < 2 && Piece(lvs, c, g, l).Has(gpa)
    ensures Translate(Regions(lvs, c), gpa) == Some(Place(lvs[l].fd, gpa - Piece(lvs, c, g, l).start + lvs[l].Skip(g)))
  {
    var p, rs := AllPieces(lvs, c), Regions(lvs, c);
    var i := (match g case Low => 0 case High => 2 case Bios => 4 case Fb => 6) + (if l == 1 then 0 else 1);
    assert p[i] == Piece(lvs, c, g, l);
    var k := InNonEmpty(p, i);
    RegionsTile(lvs, c);
    if Translate(rs, gpa).None? {
      TranslateMisses(rs, gpa);
    } else {
      var j := TranslateFinds(rs, gpa);
      assert j == k;
    }
  }

  // The translations of x and y are as far apart in one memfd as x and y are.
  ghost predicate SameStretch(lvs: seq<Level>, c: Ctx, x: int, y: int)
    requires |lvs| == 2
  {
    var p, q := Translate(Regions(lvs, c), x), Translate(Regions(lvs, c), y);
    p.Some? && q.Some? && p.value.fd == q.value.fd && q.value.off - p.value.off == y - x
  }

  ghost predicate OneStretch(lvs: seq<Level>, c: Ctx, g: Seg)
    requires |lvs| == 2
  { forall x, y :: InSegment(c, g, x) && InSegment(c, g, y) ==> SameStretch(lvs, c, x, y) }

  // A segment on both levels is in two memfds.
  lemma TwoStretches(lvs: seq<Level>, c: Ctx, g: Seg)
    requires GoodCtx(c) && Split(lvs, c) && (g == Low || g == High) && lvs[0].fd != lvs[1].fd
    requires lvs[0].Size(g) != 0 && lvs[1].Size(g) != 0
    ensures !OneStretch(lvs, c, g)
  {
    SplitSizes(lvs, c);
    var x, y := Piece(lvs, c, g, 1).start, Piece(lvs, c, g, 0).start;
    TranslateIs(lvs, c, g, 1, x);
    TranslateIs(lvs, c, g, 0, y);
    assert InSegment(c, g, x) && InSegment(c, g, y) && !SameStretch(lvs, c, x, y);
  }

  // dma-buf is allowed if and only if lowmem and highmem are each one stretch of a memfd.
  lemma DmabufExactly(lvs: seq<Level>, c: Ctx)
    requires GoodCtx(c) && Split(lvs, c) && lvs[0].fd > 0 && lvs[0].fd != lvs[1].fd
    requires lvs[1].low != 0 || lvs[1].high != 0 ==> lvs[1].fd > 0
    ensures AllowDmabuf(lvs, c) <==> OneStretch(lvs, c, Low) && OneStretch(lvs, c, High)
  {
    SplitSizes(lvs, c);
    if AllowDmabuf(lvs, c) {
      forall x, y | InSegment(c, Low, x) && InSegment(c, Low, y) ensures SameStretch(lvs, c, x, y) {
        DmabufContiguous(lvs, c, Low, x, y);
      }
      forall x, y | InSegment(c, High, x) && InSegment(c, High, y) ensures SameStretch(lvs, c, x, y) {
        DmabufContiguous(lvs, c, High, x, y);
      }
    } else {
      TwoStretches(lvs, c, if lvs[0].low != 0 && lvs[1].low != 0 then Low else High);
    }
  }

  // A stretch of whole pages holds all of a page or nothing.
  lemma SamePage(a: int, b: int, k: int, m: int, x: int, y: int)
    requires m > 0 && a * m <= x < b * m && k * m <= x < k * m + m && k * m <= y < k * m + m
    ensures a * m <= y < b * m
  {
    if a > k {
      Scale(k + 1, a, m);
    } else {
      Scale(a, k, m);
    }
    if b > k {
      Scale(k + 1, b, m);
    } else {
      Scale(b, k, m);
    }
  }

  // Every 2 MB page of the guest lies in one stretch.
  lemma PageTogether(lvs: seq<Level>, c: Ctx, x: int, y: int)
    requires GoodCtx(c) && Split(lvs, c) && Backed(c, x) && x / (2 * MB) == y / (2 * MB)
    ensures Backed(c, y) && SameStretch(lvs, c, x, y)
  {
    var rs := Regions(lvs, c);
    TranslateBacked(lvs, c, x);
    var i := TranslateFinds(rs, x);
    RegionsSeated(lvs, c, i);
    var l :| Seated(lvs, rs[i], l);
    if l == 1 {
      GigabyteIsWhole(rs[i].start);
      GigabyteIsWhole(rs[i].end);
    }
    DivBounds(x, 2 * MB);
    DivBounds(y, 2 * MB);
    SamePage(rs[i].start / (2 * MB), rs[i].end / (2 * MB), x / (2 * MB), 2 * MB, x, y);
    RegionsCover(lvs, c, y);
    TranslateBacked(lvs, c, y);
    var j := TranslateFinds(rs, y);
    RegionsTile(lvs, c);
  }

  // lowmem starts at 0, highmem at 4 GB, and firmware and frame buffer end below 4 GB.
  lemma BackedMeans(c: Ctx, gpa: int)
    requires GoodCtx(c)
    ensures Backed(c, gpa) <==>
            || 0 <= gpa < c.low || 0x1_0000_0000 <= gpa < 0x1_0000_0000 + c.high
            || 0x1_0000_0000 - c.bios - 0x100_0000 <= gpa < 0x1_0000_0000
  {
  }

  // Every byte of a memfd is at some guest address.
  lemma TranslateOnto(lvs: seq<Level>, c: Ctx, l: int, o: int) returns (gpa: int)
    requires GoodCtx(c) && Split(lvs, c) && 0 <= l < 2 && 0 <= o < lvs[l].Total()
    ensures Translate(Regions(lvs, c), gpa) == Some(Place(lvs[l].fd, o))
  {
    SplitSizes(lvs, c);
    var lv := lvs[l];
    var g := if o < lv.Skip(High) then Low
             else if o < lv.Skip(Bios) then High
             else if o < lv.Skip(Fb) then Bios
             else Fb;
    gpa := Piece(lvs, c, g, l).start + (o - lv.Skip(g));
    TranslateIs(lvs, c, g, l, gpa);
  }

  // In a memfd the segments lie in the order in which they are mapped.
  lemma TranslateOrdered(lvs: seq<Level>, c: Ctx, g: Seg, h: Seg, x: int, y: int)
    requires GoodCtx(c) && Split(lvs, c) && lvs[0].fd != lvs[1].fd && Rank(g) < Rank(h)
    requires InSegment(c, g, x) && InSegment(c, h, y)
    ensures var p, q := Translate(Regions(lvs, c), x), Translate(Regions(lvs, c), y);
      p.Some? && q.Some? && (p.value.fd == q.value.fd ==> p.value.off < q.value.off)
  {
    SplitSizes(lvs, c);
    var k := if x < Piece(lvs, c, g, 0).start then 1 else 0;
    var l := if y < Piece(lvs, c, h, 0).start then 1 else 0;
    TranslateIs(lvs, c, g, k, x);
    TranslateIs(lvs, c, h, l, y);
  }
}
