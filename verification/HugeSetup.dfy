// hugetlb_setup_memory and hugetlb_reserve_pages: the levels and the recorded regions are
// updated in place, and every answer of the kernel is arbitrary.
module HugeSetup {
  import opened Arithmetic
  import opened HugeTlb
  import opened Options

  const ENOMEM := 12
  const EFAULT := 14

  function AlignDown(x: int, a: int): int
    requires a > 0
  { x - x % a }

  // n bytes of segment g went from the 1 GB level to the 2 MB level.
  ghost predicate Moved(a: seq<Level>, b: seq<Level>, g: Seg, n: int)
  {
    && |a| == 2 && 0 <= n <= a[1].Size(g) && n % GB == 0
    && b == [a[0].Add(g, n), a[1].Add(g, -n)]
  }

  // Sizes are never negative and the 1 GB level holds whole pages.
  ghost predicate Sized(lvs: seq<Level>)
  {
    && |lvs| == 2
    && forall g :: 0 <= lvs[0].Size(g) && 0 <= lvs[1].Size(g) && lvs[1].Size(g) % GB == 0
  }

  lemma MovedSized(a: seq<Level>, b: seq<Level>, g: Seg, n: int)
    requires Sized(a) && Moved(a, b, g, n)
    ensures Sized(b)
    ensures forall h :: b[0].Size(h) + b[1].Size(h) == a[0].Size(h) + a[1].Size(h)
    ensures forall h :: h != g ==> b[0].Size(h) == a[0].Size(h) && b[1].Size(h) == a[1].Size(h)
    ensures b[0].Skip(g) == a[0].Skip(g) && b[1].Skip(g) == a[1].Skip(g)
    ensures b[0].fd == a[0].fd && b[1].fd == a[1].fd
  {
    MultipleSum(a[1].Size(g), n, 1);
    forall h ensures b[1].Size(h) % GB == 0 && 0 <= b[0].Size(h) && 0 <= b[1].Size(h) {
      assert a[1].Size(h) % GB == 0 && 0 <= a[0].Size(h);
    }
  }

  lemma MovedAgain(a: seq<Level>, b: seq<Level>, d: seq<Level>, g: Seg, n: int)
    requires Sized(a) && Moved(a, b, g, n) && 0 < b[1].Size(g) && d == [b[0].Add(g, GB), b[1].Add(g, -GB)]
    ensures Moved(a, d, g, n + GB)
  {
    MovedSized(a, b, g, n);
    assert b[1].Size(g) % GB == 0;
    MultipleSum(n, GB, 1);
  }

  function Need(lv: Level, l: int): int { lv.Total() / PageSize(l) }

  // Open descriptors are positive and different.
  ghost predicate Fds(lvs: seq<Level>)
  {
    && |lvs| == 2 && (lvs[0].fd == -1 || lvs[0].fd > 0) && (lvs[1].fd == -1 || lvs[1].fd > 0)
    && (lvs[0].fd > 0 ==> lvs[0].fd != lvs[1].fd)
  }

  // A set-up that succeeded: the split is exact, and every level in use has its own memfd.
  ghost predicate Ready(lvs: seq<Level>, c: Ctx)
  {
    && Split(lvs, c) && lvs[0].fd > 0 && lvs[0].fd != lvs[1].fd
    && (forall g :: lvs[1].Size(g) != 0 ==> lvs[1].fd > 0)
  }

  // What mapping the segments from rank r on keeps.
  ghost predicate Follows(a: seq<Level>, b: seq<Level>, c: Ctx, r: int)
  {
    && |a| == |b| == 2 && Sized(b) && (Split(a, c) ==> Split(b, c))
    && (forall h :: Rank(h) < r ==> Pieces(b, c, h) == Pieces(a, c, h))
    && (forall h :: a[1].Size(h) == 0 ==> b[1].Size(h) == 0)
    && b[0].fd == a[0].fd && b[1].fd == a[1].fd
  }

  // Moving whole pages from the 1 GB to the 2 MB level keeps the split exact.
  lemma MovedExact(a: seq<Level>, b: seq<Level>, c: Ctx, g: Seg, n: int)
    requires Sized(a) && Moved(a, b, g, n) && Sized(b) && Split(a, c)
    ensures Split(b, c)
  {
    assert a[0].Size(g) % (2 * MB) == 0;
    GigabyteIsWhole(n);
    MultipleSum(a[0].Size(g), n, 0);
    forall h ensures && 0 <= b[0].Size(h) && 0 <= b[1].Size(h) && b[0].Size(h) + b[1].Size(h) == c.Size(h)
                     && b[0].Size(h) % (2 * MB) == 0 && b[1].Size(h) % GB == 0 {
      assert a[0].Size(h) + a[1].Size(h) == c.Size(h);
    }
  }

  // Moving pages of one segment leaves the segments mapped before it where they are.
  lemma MovedSplit(a: seq<Level>, b: seq<Level>, c: Ctx, g: Seg, n: int)
    requires Sized(a) && Moved(a, b, g, n)
    ensures Follows(a, b, c, Rank(g)) && (n == 0 ==> a == b)
  {
    MovedSized(a, b, g, n);
    forall h | Rank(h) < Rank(g) ensures Pieces(b, c, h) == Pieces(a, c, h) { MovedPieces(a, b, c, g, n, h); }
    if Split(a, c) {
      MovedExact(a, b, c, g, n);
    }
    assert n == 0 ==> b[0] == a[0] && b[1] == a[1];
  }

  lemma MovedPieces(a: seq<Level>, b: seq<Level>, c: Ctx, g: Seg, n: int, h: Seg)
    requires Sized(a) && Moved(a, b, g, n) && Rank(h) < Rank(g)
    ensures Pieces(b, c, h) == Pieces(a, c, h)
  {
  }

  lemma AllMapped(lvs: seq<Level>, c: Ctx)
    requires |lvs| == 2
    ensures NonEmpty(Pieces(lvs, c, Low)) + NonEmpty(Pieces(lvs, c, High)) + NonEmpty(Pieces(lvs, c, Bios)) +
            NonEmpty(Pieces(lvs, c, Fb)) == Regions(lvs, c)
  {
    NonEmptyConcat(Pieces(lvs, c, Low), Pieces(lvs, c, High));
    NonEmptyConcat(Pieces(lvs, c, Low) + Pieces(lvs, c, High), Pieces(lvs, c, Bios));
    NonEmptyConcat(Pieces(lvs, c, Low) + Pieces(lvs, c, High) + Pieces(lvs, c, Bios), Pieces(lvs, c, Fb));
  }

  // Each level's account is what is missing; the 2 MB level also carries the 1 GB pages that
  // could not be had.
  ghost predicate Tracked(lvs: seq<Level>, free: seq<int>, taken: int, lvMax: int, carry: int)
  {
    && |lvs| == |free| == 2
    && lvs[0].delta == Need(lvs[0], 0) + 512 * carry - free[0]
    && (lvMax == 2 ==> lvs[1].delta == Need(lvs[1], 1) - (free[1] + taken))
  }

  // The 1 GB pages that the account of the level says it is short of
  ghost function Short(lvs: seq<Level>, lvMax: int): int
    requires |lvs| == 2
  { if lvMax == 2 && lvs[1].delta > 0 then lvs[1].delta else 0 }

  // The 1 GB pages that are needed and not there, but for those the kernel took unasked
  ghost function Unmet(lvs: seq<Level>, free: seq<int>, taken: int, lvMax: int): int
    requires |lvs| == |free| == 2
  { if lvMax == 2 && Need(lvs[1], 1) > free[1] + taken then Need(lvs[1], 1) - (free[1] + taken) else 0 }

  // Accounts that are settled tell what is there and what is missing.
  lemma Settled(lvs: seq<Level>, free: seq<int>, taken: int, lvMax: int)
    requires |lvs| == 2 && Tracked(lvs, free, taken, lvMax, Short(lvs, lvMax))
    ensures lvs[0].delta <= 0 <==> Need(lvs[0], 0) + 512 * Short(lvs, lvMax) <= free[0]
    ensures Unmet(lvs, free, taken, lvMax) == Short(lvs, lvMax)
    ensures lvMax == 2 ==> (Need(lvs[1], 1) <= free[1] + taken <==> lvs[1].delta <= 0)
    ensures lvMax == 2 ==> (Need(lvs[1], 1) < free[1] + taken <==> lvs[1].delta < 0)
  {
  }

  // The last answers refused to take back a page: the command did not run, or the level has no
  // page less.
  ghost predicate KeepsPage(kernel: nat -> int, asked: nat)
  { (asked >= 1 && kernel(asked - 1) == 0) || (asked >= 3 && kernel(asked - 1) >= kernel(asked - 3)) }

  // The kernel refused something.
  ghost predicate Refusal(kernel: nat -> int, from: nat, to: nat)
  { exists k: nat :: from <= k < to && kernel(k) <= 0 }

  lemma RefusalLater(kernel: nat -> int, from: nat, mid: nat, to: nat)
    requires from <= mid
    ensures Refusal(kernel, mid, to) ==> Refusal(kernel, from, to)
  {
  }

  // Not a new descriptor beside other
  predicate NoNewFd(fd: int, other: int) { fd <= 0 || fd == other }

  // The 2 MB pages that the guest fills
  function Pages(c: Ctx): int { (c.low + c.high + c.bios + c.fb) / (2 * MB) }

  // Whatever it is asked, the kernel answers with at least n.
  ghost predicate Generous(kernel: nat -> int, n: int) { forall k: nat :: kernel(k) >= n }

  // Only the page accounts differ.
  ghost predicate SamePlan(a: seq<Level>, b: seq<Level>)
  { |a| == |b| == 2 && b[0] == a[0].(delta := b[0].delta) && b[1] == a[1].(delta := b[1].delta) }

  lemma PlanKept(a: seq<Level>, b: seq<Level>, c: Ctx)
    requires SamePlan(a, b) && Sized(a)
    ensures Sized(b) && (Split(a, c) ==> Split(b, c))
    ensures forall g :: b[0].Size(g) == a[0].Size(g) && b[1].Size(g) == a[1].Size(g)
  {
    forall g ensures b[0].Size(g) == a[0].Size(g) && b[1].Size(g) == a[1].Size(g) {
    }
  }

  function Filled(lv: Level, rest: Ctx, pg: int): Level
    requires pg > 0
  {
    lv.(low := AlignDown(rest.low, pg), high := AlignDown(rest.high, pg),
        bios := AlignDown(rest.bios, pg), fb := AlignDown(rest.fb, pg))
  }

  function Remaining(c: Ctx, lv: Level): Ctx
  { Ctx(c.low - lv.low, c.high - lv.high, c.bios - lv.bios, c.fb - lv.fb) }

  lemma AlignSplit(x: int)
    requires 0 <= x && x % (2 * MB) == 0
    ensures var y := AlignDown(x, GB); 0 <= y <= x < y + GB && y % GB == 0 && (x - y) % (2 * MB) == 0
    ensures AlignDown(x, 2 * MB) == x
  {
    var y := AlignDown(x, GB);
    DivBounds(x, GB);
    Multiple(GB, x / GB);
    GigabyteIsWhole(y);
    MultipleSum(x, y, 0);
  }

  lemma TotalOfSizes(lv: Level)
    ensures lv.Total() == lv.Size(Low) + lv.Size(High) + lv.Size(Bios) + lv.Size(Fb)
    ensures (forall g :: lv.Size(g) == 0) ==> lv.Total() == 0
  {
  }

  lemma FilledUpper(lv: Level, c: Ctx)
    requires GoodCtx(c) && lv.fd >= 0
    ensures UpperSplit(Filled(lv, c, GB), Remaining(c, Filled(lv, c, GB)), c)
    ensures forall g :: Remaining(c, Filled(lv, c, GB)).Size(g) < GB
  {
    AlignSplit(c.low);
    AlignSplit(c.high);
    AlignSplit(c.bios);
    AlignSplit(c.fb);
  }

  lemma FilledLower(lv: Level, rest: Ctx)
    requires forall g :: 0 <= rest.Size(g) && rest.Size(g) % (2 * MB) == 0
    ensures forall g :: Filled(lv, rest, 2 * MB).Size(g) == rest.Size(g)
  {
    assert rest.low == rest.Size(Low) && rest.high == rest.Size(High) && rest.bios == rest.Size(Bios) &&
           rest.fb == rest.Size(Fb);
    AlignSplit(rest.low);
    AlignSplit(rest.high);
    AlignSplit(rest.bios);
    AlignSplit(rest.fb);
  }

  // The 1 GB level holds whole pages of every segment, and rest is what remains.
  ghost predicate UpperSplit(up: Level, rest: Ctx, c: Ctx)
  {
    && (forall g :: 0 <= up.Size(g) && up.Size(g) % GB == 0 && up.Size(g) + rest.Size(g) == c.Size(g))
    && (forall g :: 0 <= rest.Size(g) && rest.Size(g) % (2 * MB) == 0)
    && (up.fd < 0 ==> forall g :: up.Size(g) == 0)
  }

  // What mmap_hugetlbfs has recorded when it turns to the given level.
  ghost predicate Progress(lvs: seq<Level>, c: Ctx, g: Seg, level: int,
                           regs0: seq<Region>, regs: seq<Region>, offset: int, ret: int)
    requires |lvs| == 2
  {
    && (level == 1 ==> regs == regs0 && ret == 0 && offset == c.Base(g))
    && (level == 0 ==>
        && regs == regs0 + NonEmpty([Piece(lvs, c, g, 1)]) && offset == Piece(lvs, c, g, 0).start
        && (ret < 0 ==> 0 < Len(0, lvs[0], g)))
    && (level == -1 ==>
        regs == regs0 + NonEmpty(Pieces(lvs, c, g)) && ret >= 0 && (0 < Len(0, lvs[0], g) ==> lvs[0].fd >= 0))
  }

  lemma MappedMore(before: seq<Level>, lvs: seq<Level>, c: Ctx, g: Seg, level: int,
                   regs0: seq<Region>, regs: seq<Region>, offset: int, ret: int, m: int)
    requires Sized(before) && Moved(before, lvs, g, m) && 0 <= level < 2
    requires offset == Piece(before, c, g, level).start
    requires level == 1 ==> (ret < 0 ==> 0 < m) && regs == regs0 + NonEmpty([Piece(lvs, c, g, 1)])
    requires level == 0 ==>
             && lvs == before && ret >= 0
             && regs == regs0 + NonEmpty([Piece(before, c, g, 1)]) + NonEmpty([Piece(lvs, c, g, 0)])
    requires level == 0 ==> (0 < Len(0, lvs[0], g) ==> lvs[0].fd >= 0)
    ensures Progress(lvs, c, g, level - 1, regs0, regs, offset + Len(level, lvs[level], g), ret)
  {
    MovedSized(before, lvs, g, m);
    if level == 0 {
      NonEmptyConcat([Piece(lvs, c, g, 1)], [Piece(lvs, c, g, 0)]);
      assert [Piece(lvs, c, g, 1)] + [Piece(lvs, c, g, 0)] == Pieces(lvs, c, g);
    }
  }

  lemma AllMappedAfter(a: seq<Level>, b: seq<Level>, c: Ctx)
    requires Follows(a, b, c, 2)
    ensures NonEmpty(Pieces(a, c, Low)) + NonEmpty(Pieces(a, c, High)) + NonEmpty(Pieces(b, c, Bios)) +
            NonEmpty(Pieces(b, c, Fb)) == Regions(b, c)
  {
    AllMapped(b, c);
    assert Rank(Low) < 2 && Rank(High) < 2;
  }

  lemma FollowsOn(a: seq<Level>, b: seq<Level>, d: seq<Level>, c: Ctx)
    requires Follows(a, b, c, 0) && Follows(b, d, c, 2)
    ensures Follows(a, d, c, 0)
  {
  }

  lemma AtMostTwo(lvs: seq<Level>, c: Ctx, g: Seg)
    requires |lvs| == 2
    ensures |NonEmpty(Pieces(lvs, c, g))| <= 2
  {
    NonEmptyConcat([Piece(lvs, c, g, 1)], [Piece(lvs, c, g, 0)]);
    assert [Piece(lvs, c, g, 1)] + [Piece(lvs, c, g, 0)] == Pieces(lvs, c, g);
  }

  // No level needs more pages than the guest would fill with small ones.
  lemma NeedPages(lvs: seq<Level>, c: Ctx, l: int)
    requires GoodCtx(c) && Split(lvs, c) && 0 <= l < 2
    ensures Need(lvs[l], l) <= Pages(c)
  {
    SplitSizes(lvs, c);
  }

  class Memory {
    const kernel: nat -> int
    var asked: nat
    var lvs: seq<Level>
    var lvMax: int
    var regions: seq<Region>
    // the sizes the memfds were truncated and sealed to
    var sealed: seq<int>
    // instrumentation: the free pages of each level, as far as the kernel's answers tell,
    // and how many 1 GB pages it took beyond those it was asked to take back
    ghost var free: seq<int>
    ghost var taken: int
    // whether it granted every 2 MB reservation in full, refused to take back a surplus 1 GB
    // page, or refused something that cannot be done without
    ghost var granted: bool
    ghost var refused: bool
    ghost var denied: bool
    // one page for every 1 GB mapping it refused
    ghost var lost: int

    ghost predicate Valid()
      reads this
    { |lvs| == 2 && 1 <= lvMax <= 2 && (lvMax == 1 ==> forall g :: lvs[1].Size(g) == 0) }

    constructor (kernel: nat -> int, lvMax: int)
      requires 1 <= lvMax <= 2
      ensures Valid() && Fds(lvs) && this.lvMax == lvMax && |sealed| == 2 && this.kernel == kernel && asked == 0
      ensures lvs[0].fd == -1 && lvs[1].fd == -1
    {
      this.kernel, asked, this.lvMax := kernel, 0, lvMax;
      lvs := [Level(-1, 0, 0, 0, 0, 0), Level(-1, 0, 0, 0, 0, 0)];
      regions, sealed, free, taken := [], [0, 0], [0, 0], 0;
      granted, refused, denied, lost := true, false, false, 0;
    }

    // The next answer of the kernel, whatever it is
    method Ask() returns (a: int)
      modifies this`asked
      ensures a == kernel(old(asked)) && asked == old(asked) + 1
    {
      a := kernel(asked);
      asked := asked + 1;
    }

    // mmap_hugetlbfs_from_level
    method MmapFromLevel(level: int, len: int, offset: int, skip: int) returns (ret: int)
      requires |lvs| == 2 && 0 <= level < 2
      modifies this`asked, this`regions, this`denied, this`lost
      ensures ret <= 0
      ensures ret < 0 <==> |old(regions)| >= MAX_REGIONS || lvs[level].fd < 0 || kernel(old(asked)) == 0
      ensures ret < 0 ==> regions == old(regions)
      ensures ret == 0 ==> regions == old(regions) + [Region(offset, offset + len, lvs[level].fd, skip)]
      ensures asked == if |old(regions)| >= MAX_REGIONS then old(asked) else old(asked) + 1
      ensures lost == old(lost) + if ret < 0 && level == 1 then GB else 0
      ensures denied == (old(denied) || (asked > old(asked) && kernel(old(asked)) == 0 && level == 0))
    {
      if |regions| >= MAX_REGIONS {
        lost := lost + if level == 1 then GB else 0;
        return -EFAULT;
      }
      var fd := lvs[level].fd;
      var mapped := Ask();
      denied := denied || (mapped == 0 && level == 0);
      if fd < 0 || mapped == 0 {
        lost := lost + if level == 1 then GB else 0;
        return -ENOMEM;
      }
      regions := regions + [Region(offset, offset + len, fd, skip)];
      return 0;
    }

    // The while loop of mmap_hugetlbfs: the 1 GB level gives up one page after another
    method MmapLevel(c: Ctx, g: Seg, level: int, offset: int) returns (ret: int, ghost n: int)
      requires Valid() && Sized(lvs) && 0 <= level < lvMax && offset == Piece(lvs, c, g, level).start
      modifies this`asked, this`regions, this`lvs, this`denied, this`lost
      ensures Moved(old(lvs), lvs, g, n) && Valid() && (level == 0 ==> lvs == old(lvs))
      ensures level == 1 ==> (ret < 0 ==> 0 < n) && regions == old(regions) + NonEmpty([Piece(lvs, c, g, 1)])
      ensures level == 0 && ret >= 0 ==> regions == old(regions) + NonEmpty([Piece(lvs, c, g, 0)])
      ensures level == 0 && ret >= 0 && 0 < Len(0, lvs[0], g) ==> lvs[0].fd >= 0
      // a page moves for every mapping refused
      ensures n == lost - old(lost) && asked >= old(asked)
      ensures level == 0 && ret < 0 ==> denied || lvs[0].fd < 0 || |old(regions)| >= MAX_REGIONS
      ensures denied && !old(denied) ==> level == 0 && ret < 0 && Refusal(kernel, old(asked), asked)
      ensures old(denied) ==> denied
    {
      var len, skip := Len(level, lvs[level], g), lvs[level].Skip(g);
      ret, n := 0, 0;
      while len > 0
        invariant Moved(old(lvs), lvs, g, n) && len == Len(level, lvs[level], g) && skip == lvs[level].Skip(g)
        invariant regions == old(regions) && Valid() &&
                  (if level == 0 then lvs == old(lvs) && ret == 0 else ret < 0 ==> 0 < n)
        invariant n == lost - old(lost) && denied == old(denied) && asked >= old(asked)
        decreases len
      {
        ret := MmapFromLevel(level, len, offset, skip);
        if ret < 0 && level > 0 {
          ghost var before := lvs;
          lvs := [lvs[0].Add(g, GB), lvs[1].Add(g, -GB)];
          MovedAgain(old(lvs), before, lvs, g, n);
          n := n + GB;
          len := lvs[level].Size(g);
        } else {
          return;
        }
      }
    }

    // mmap_hugetlbfs
    method MmapSegment(c: Ctx, g: Seg) returns (ret: int, ghost n: int)
      requires Valid() && Sized(lvs)
      modifies this`asked, this`regions, this`lvs, this`denied, this`lost
      ensures Moved(old(lvs), lvs, g, n) && Valid()
      ensures ret >= 0 ==> regions == old(regions) + NonEmpty(Pieces(lvs, c, g))
      ensures ret >= 0 && 0 < Len(0, lvs[0], g) ==> lvs[0].fd >= 0
      ensures n == lost - old(lost) && asked >= old(asked)
      ensures ret < 0 ==> denied || lvs[0].fd < 0 || |old(regions)| + 1 >= MAX_REGIONS
      ensures denied && !old(denied) ==> ret < 0 && Refusal(kernel, old(asked), asked)
      ensures old(denied) ==> denied
    {
      ret, n := 0, 0;
      var offset, level := c.Base(g), lvMax - 1;
      while level >= 0
        invariant -1 <= level < lvMax && Moved(old(lvs), lvs, g, n) && Valid()
        invariant level == 1 ==> lvs == old(lvs)
        invariant Progress(lvs, c, g, level, old(regions), regions, offset, ret)
        invariant n == lost - old(lost) && asked >= old(asked) && denied == old(denied)
      {
        MovedSized(old(lvs), lvs, g, n);
        ghost var before, asked0 := lvs, asked;
        ghost var m;
        ret, m := MmapLevel(c, g, level, offset);
        if level == 0 && ret < 0 {
          RefusalLater(kernel, old(asked), asked0, asked);
          return;
        }
        n := if level == 1 then m else n;
        MappedMore(before, lvs, c, g, level, old(regions), regions, offset, ret, m);
        offset := offset + Len(level, lvs[level], g);
        level := level - 1;
      }
    }

    // What the kernel says about the free pages of level l when asked from the n-th question on
    ghost function Told(l: int, n: nat): int
      requires |lvs| == 2 && 0 <= l < 2
      reads this
    {
      if l >= lvMax || lvs[l].fd < 0 then 0
      else if l == 1 && lvs[0].fd >= 0 then kernel(n + 1)
      else kernel(n)
    }

    // The account of one level: what it needs and the kernel does not have
    method CheckLevel(lvl: int) returns (gap: bool)
      requires |lvs| == |free| == 2 && 0 <= lvl < 2 && (lvs[lvl].fd < 0 ==> lvs[lvl].Total() == 0)
      modifies this`asked, this`lvs, this`free
      ensures |lvs| == |free| == 2 && asked == old(asked) + if lvs[lvl].fd < 0 then 0 else 1
      ensures free == old(free)[lvl := if lvs[lvl].fd < 0 then 0 else kernel(old(asked))]
      ensures lvs == old(lvs)[lvl := old(lvs)[lvl].(delta := Need(lvs[lvl], lvl) - free[lvl])]
      ensures gap <==> Need(lvs[lvl], lvl) > free[lvl]
    {
      gap := false;
      if lvs[lvl].fd < 0 {
        lvs := lvs[lvl := lvs[lvl].(delta := 0)];
        free := free[lvl := 0];
      } else {
        var freePages := Ask();
        var needPages := Need(lvs[lvl], lvl);
        lvs := lvs[lvl := lvs[lvl].(delta := needPages - freePages)];
        free := free[lvl := freePages];
        gap := lvs[lvl].delta > 0;
      }
    }

    // hugetlb_check_memgap
    method CheckMemgap() returns (hasGap: bool)
      requires Valid() && forall l :: 0 <= l < 2 && lvs[l].fd < 0 ==> lvs[l].Total() == 0
      modifies this`asked, this`lvs, this`free, this`taken
      ensures Valid() && SamePlan(old(lvs), lvs) && taken == 0 && asked >= old(asked)
      ensures free == [old(Told(0, asked)), old(Told(1, asked))]
      ensures Tracked(lvs, free, taken, lvMax, 0)
      ensures hasGap <==> exists l :: 0 <= l < lvMax && Need(lvs[l], l) > free[l]
    {
      hasGap := false;
      free, taken := [0, 0], 0;
      for lvl := 0 to lvMax
        invariant Valid() && SamePlan(old(lvs), lvs) && |free| == 2 && taken == 0 && lvMax == old(lvMax)
        invariant asked == old(asked) + (if lvl > 0 && old(lvs)[0].fd >= 0 then 1 else 0) +
                           (if lvl > 1 && old(lvs)[1].fd >= 0 then 1 else 0)
        invariant free == [if lvl > 0 then old(Told(0, asked)) else 0, if lvl > 1 then old(Told(1, asked)) else 0]
        invariant forall l :: 0 <= l < lvl ==> Need(lvs[l], l) - free[l] == lvs[l].delta
        invariant hasGap <==> exists l :: 0 <= l < lvl && Need(lvs[l], l) > free[l]
      {
        assert lvs[lvl].Total() == old(lvs)[lvl].Total();
        var gap := CheckLevel(lvl);
        hasGap := hasGap || gap;
      }
    }

    // reserve_more_pages; inc is how many pages the level gained by the kernel's answers
    method ReserveMore(level: int) returns (ghost inc: int)
      requires |lvs| == 2 && |free| == 2 && 0 <= level < 2
      modifies this`asked, this`lvs, this`free, this`granted
      ensures inc == if kernel(old(asked) + 1) == 0 then 0 else kernel(old(asked) + 2) - kernel(old(asked))
      ensures lvs == old(lvs)[level := old(lvs)[level].(delta := old(lvs)[level].delta - inc)]
      ensures free == old(free)[level := old(free)[level] + inc]
      ensures granted == (old(granted) && (level == 1 || inc >= old(lvs)[level].delta))
      ensures asked >= old(asked)
    {
      var orig := Ask();
      var total := orig + lvs[level].delta;
      var ran := Ask();
      inc := 0;
      granted := granted && (level == 1 || lvs[level].delta <= 0);
      if ran != 0 {
        var cur := Ask();
        inc := cur - orig;
        granted := old(granted) && (level == 1 || cur >= total);
        lvs := lvs[level := lvs[level].(delta := total - cur)];
        free := free[level := free[level] + inc];
      }
    }

    // release_larger_freepage
    method ReleaseLarger(limit: int) returns (ok: bool)
      requires |lvs| == 2 && |free| == 2 && limit == 1 && 1 <= lvMax <= 2
      modifies this`asked, this`lvs, this`free, this`taken, this`refused
      ensures |lvs| == 2 && |free| == 2 && lvs[0] == old(lvs)[0] && free[0] == old(free)[0]
      ensures lvs[1] == old(lvs)[1].(delta := old(lvs)[1].delta + if ok then 1 else 0)
      // a page is released if and only if there is one to spare and the kernel takes one
      ensures ok <==> && old(lvs)[1].delta < 0 && lvMax == 2
                      && kernel(old(asked) + 1) != 0 && kernel(old(asked) + 2) < kernel(old(asked))
      ensures refused == (!ok && lvMax == 2 && old(lvs)[1].delta < 0)
      ensures refused ==> KeepsPage(kernel, asked)
      // one page by request; what else is gone was taken unasked
      ensures taken >= old(taken) && (!ok ==> taken == old(taken) && free[1] >= old(free)[1])
      ensures !ok && !refused ==> free == old(free)
      ensures ok ==> free[1] + taken == old(free)[1] + old(taken) - 1
      ensures asked >= old(asked)
    {
      var level := lvMax - 1;
      refused := false;
      while level >= limit
        invariant 0 <= level < lvMax && lvs == old(lvs) && free == old(free) && taken == old(taken) && !refused
        invariant asked == old(asked) && (level == 1 || lvMax == 1 || lvs[1].delta >= 0)
      {
        if lvs[level].delta < 0 {
          var orig := Ask();
          var ran := Ask();
          if ran == 0 {
            refused := true;
            return false;
          }
          var cur := Ask();
          free := free[level := free[level] + (cur - orig)];
          taken := taken + if cur < orig - 1 then orig - 1 - cur else 0;
          if cur < orig {
            lvs := lvs[level := lvs[level].(delta := lvs[level].delta + 1)];
            return true;
          }
          refused := true;
          return false;
        }
        level := level - 1;
      }
      return false;
    }

    // Pages that a level could not reserve are asked of the next smaller level instead.
    method CarryDown(level: int) returns (ghost carry: int)
      requires Valid() && level == 1 && lvMax == 2 && |free| == 2 && lvs[1].delta > 0 &&
               Tracked(lvs, free, taken, lvMax, 0)
      modifies this`lvs
      ensures Valid() && SamePlan(old(lvs), lvs) && lvs[1] == old(lvs)[1] && carry == lvs[1].delta
      ensures Tracked(lvs, free, taken, lvMax, carry)
    {
      var leftGap := lvs[level].delta;
      var more := leftGap * (PageSize(level) / PageSize(level - 1));
      lvs := lvs[level - 1 := lvs[level - 1].(delta := lvs[level - 1].delta + more)];
      carry := leftGap;
    }

    // A level with a gap asks for more pages.
    method TopUp(level: int, ghost carry: int)
      requires Valid() && 0 <= level < lvMax && Tracked(lvs, free, taken, lvMax, carry)
      modifies this`asked, this`lvs, this`free, this`granted
      ensures Valid() && SamePlan(old(lvs), lvs) && lvs[1 - level] == old(lvs)[1 - level]
      ensures Tracked(lvs, free, taken, lvMax, carry) && asked >= old(asked)
      ensures old(lvs)[level].delta <= 0 ==> lvs[level].delta <= 0
      ensures granted ==> old(granted) && (level == 0 ==> lvs[0].delta <= 0)
    {
      if lvs[level].delta > 0 {
        ghost var inc := ReserveMore(level);
      }
    }

    // hugetlb_reserve_pages
    method ReservePages() returns (ok: bool)
      requires Valid() && |free| == 2 && Tracked(lvs, free, taken, lvMax, 0)
      modifies this`asked, this`lvs, this`free, this`taken, this`granted, this`refused
      ensures Valid() && SamePlan(old(lvs), lvs) && |free| == 2 && asked >= old(asked)
      // it succeeds if and only if the 2 MB pages cover their own need and everything the 1 GB
      // level is still short of
      ensures ok <==> Need(lvs[0], 0) + 512 * Short(lvs, lvMax) <= free[0]
      ensures Unmet(lvs, free, taken, lvMax) == Short(lvs, lvMax)
      // it gives up only without a 1 GB page to spare, or when the kernel does not take one
      ensures !ok ==> refused || (lvMax == 2 ==> Need(lvs[1], 1) >= free[1] + taken)
      ensures refused ==> !ok && lvMax == 2 && KeepsPage(kernel, asked)
      // and never if every 2 MB reservation is granted in full
      ensures granted ==> ok && old(granted)
      ensures taken >= old(taken) && (lvMax == 2 && lvs[1].delta <= 0 ==> Need(lvs[1], 1) <= free[1] + taken)
      ensures old(lvs)[1].delta <= 0 ==> lvs[1].delta <= 0
    {
      var level := lvMax - 1;
      ghost var carry := 0;
      refused := false;
      while level >= 0
        invariant -1 <= level < lvMax && Valid() && SamePlan(old(lvs), lvs) && |free| == 2 && asked >= old(asked)
        invariant taken >= old(taken) && Tracked(lvs, free, taken, lvMax, carry) && !refused
        invariant level == 1 ==> carry == 0
        invariant level < 1 ==> carry == Short(lvs, lvMax)
        invariant level == -1 ==> lvs[0].delta <= 0
        invariant old(lvs)[1].delta <= 0 ==> lvs[1].delta <= 0
        invariant granted ==> old(granted)
        decreases level + 1, if lvs[1].delta < 0 then -lvs[1].delta else 0
      {
        TopUp(level, carry);
        if lvs[level].delta <= 0 {
          level := level - 1;
        } else if level > 0 {
          carry := CarryDown(level);
          level := level - 1;
        } else {
          Settled(lvs, free, taken, lvMax);
          var released := ReleaseLarger(level + 1);
          if !released {
            return false;
          }
        }
      }
      Settled(lvs, free, taken, lvMax);
      return true;
    }

    // The split of hugetlb_setup_memory
    method SplitLevels(c: Ctx)
      requires Valid() && GoodCtx(c)
      modifies this`lvs
      ensures Valid() && Sized(lvs) && lvs[0].fd == old(lvs)[0].fd && lvs[1].fd == old(lvs)[1].fd
      ensures lvs[0].fd >= 0 ==> Split(lvs, c)
      ensures lvs[1].fd < 0 ==> forall g :: lvs[1].Size(g) == 0
      // what fills a 1 GB page is on the 1 GB level
      ensures lvMax == 2 && lvs[1].fd >= 0 ==> forall g :: lvs[0].Size(g) < GB
      ensures forall l :: 0 <= l < 2 && lvs[l].fd < 0 ==> lvs[l].Total() == 0
    {
      var rest := c;
      var level := lvMax - 1;
      while level >= 0
        invariant -1 <= level < lvMax && |lvs| == 2 && lvs[0].fd == old(lvs)[0].fd && lvs[1].fd == old(lvs)[1].fd
        invariant level == 1 ==> rest == c && lvs == old(lvs)
        invariant lvMax == 1 ==> forall g :: lvs[1].Size(g) == 0
        invariant level < 1 ==> UpperSplit(lvs[1], rest, c)
        invariant level < 1 && lvMax == 2 && lvs[1].fd >= 0 ==> forall g :: rest.Size(g) < GB
        invariant level == -1 ==> forall g :: lvs[0].Size(g) == if lvs[0].fd < 0 then 0 else rest.Size(g)
      {
        if lvs[level].fd < 0 {
          lvs := lvs[level := lvs[level].(low := 0, high := 0, bios := 0, fb := 0)];
        } else {
          lvs := lvs[level := Filled(lvs[level], rest, PageSize(level))];
          if level > 0 {
            FilledUpper(old(lvs)[1], c);
            rest := Remaining(rest, lvs[level]);
            var left := lvs[level - 1].(low := rest.low, high := rest.high, bios := rest.bios, fb := rest.fb);
            lvs := lvs[level - 1 := left];
          } else {
            FilledLower(old(lvs)[0], rest);
          }
        }
        level := level - 1;
      }
      TotalOfSizes(lvs[0]);
      TotalOfSizes(lvs[1]);
    }

    // vm_find_memfd_region
    method FindRegion(gpa: int) returns (r: Option<Place>)
      ensures r == Translate(regions, gpa)
    {
      var i := 0;
      while i < |regions| && !regions[i].Has(gpa)
        invariant 0 <= i <= |regions| && Translate(regions, gpa) == Translate(regions[i..], gpa)
      {
        i := i + 1;
      }
      if i == |regions| {
        return None;
      }
      return Some(Place(regions[i].fd, gpa - regions[i].start + regions[i].off));
    }

    // vm_allow_dmabuf
    method Dmabuf(c: Ctx) returns (allowed: bool)
      requires |lvs| == 2
      ensures allowed == AllowDmabuf(lvs, c)
    {
      var flags := 0;
      if c.high != 0 {
        flags := (if lvs[0].fd > 0 && lvs[0].high != 0 then 1 else 0) +
            (if lvs[1].fd > 0 && lvs[1].high != 0 then 2 else 0);
        if flags == 3 {
          return false;
        }
      }
      if c.low != 0 {
        flags := (if lvs[0].fd > 0 && lvs[0].low != 0 then 1 else 0) +
            (if lvs[1].fd > 0 && lvs[1].low != 0 then 2 else 0);
        if flags == 3 {
          return false;
        }
      }
      return true;
    }

    // memfd_create for the levels whose descriptor is closed; a new descriptor is positive
    // and not in use
    method Reopen()
      requires Valid() && Fds(lvs)
      modifies this`asked, this`lvs, this`denied
      ensures Valid() && Fds(lvs) && lvs == [old(lvs)[0].(fd := lvs[0].fd), old(lvs)[1].(fd := lvs[1].fd)]
      ensures asked >= old(asked) && denied == (old(denied) || lvs[0].fd < 0)
      // a level stays closed only if the kernel gives it no descriptor of its own
      ensures lvs[0].fd < 0 ==> lvs == old(lvs) && asked > old(asked) && NoNewFd(kernel(old(asked)), lvs[1].fd)
      ensures lvs[0].fd > 0 && lvs[1].fd < 0 ==> asked > old(asked) && NoNewFd(kernel(asked - 1), lvs[0].fd)
      ensures forall l :: 0 <= l < 2 && old(lvs)[l].fd > 0 ==> lvs[l].fd == old(lvs)[l].fd
    {
      for level := 0 to 2
        invariant Valid() && Fds(lvs) && lvs == [old(lvs)[0].(fd := lvs[0].fd), old(lvs)[1].(fd := lvs[1].fd)]
        invariant asked >= old(asked) && denied == old(denied)
        invariant level == 0 ==> lvs == old(lvs) && asked == old(asked)
        invariant level >= 1 ==> lvs[0].fd > 0
        invariant level == 2 ==> lvs[1].fd > 0
        invariant forall l :: 0 <= l < 2 && old(lvs)[l].fd > 0 ==> lvs[l].fd == old(lvs)[l].fd
      {
        if lvs[level].fd <= 0 {
          var fd := Ask();
          if NoNewFd(fd, lvs[1 - level].fd) {
            denied := denied || level == 0;
            break;
          }
          lvs := lvs[level := lvs[level].(fd := fd)];
          assert forall g :: lvs[1].Size(g) == old(lvs)[1].Size(g);
        }
      }
    }

    // Two of the mmap_hugetlbfs calls of hugetlb_setup_memory, in order
    method MmapTwo(c: Ctx, g: Seg, h: Seg) returns (ok: bool)
      requires Valid() && Sized(lvs) && Rank(g) < Rank(h)
      modifies this`asked, this`regions, this`lvs, this`denied, this`lost
      ensures Valid() && Follows(old(lvs), lvs, c, Rank(g))
      ensures ok ==> regions == old(regions) + NonEmpty(Pieces(lvs, c, g)) + NonEmpty(Pieces(lvs, c, h))
      ensures ok ==> |regions| <= |old(regions)| + 4
      ensures ok && 0 < Len(0, lvs[0], h) ==> lvs[0].fd >= 0
      ensures lost >= old(lost) && (lost == old(lost) ==> lvs == old(lvs))
      ensures !ok ==> denied || lvs[0].fd < 0 || |old(regions)| + 3 >= MAX_REGIONS
      ensures denied && !old(denied) ==> !ok && Refusal(kernel, old(asked), asked)
      ensures asked >= old(asked) && (old(denied) ==> denied)
    {
      ghost var v0 := lvs;
      var ret;
      ghost var n;
      ret, n := MmapSegment(c, g);
      MovedSplit(v0, lvs, c, g, n);
      if ret < 0 {
        return false;
      }
      ghost var v1, asked1 := lvs, asked;
      AtMostTwo(lvs, c, g);
      ret, n := MmapSegment(c, h);
      MovedSplit(v1, lvs, c, h, n);
      RefusalLater(kernel, old(asked), asked1, asked);
      AtMostTwo(lvs, c, h);
      return ret >= 0;
    }

    // The four mmap_hugetlbfs calls; the table of regions has room for them
    method MmapAll(c: Ctx) returns (ok: bool)
      requires Valid() && Sized(lvs) && regions == []
      modifies this`asked, this`regions, this`lvs, this`denied, this`lost
      ensures Valid() && Follows(old(lvs), lvs, c, 0)
      ensures ok ==> lvs[0].fd >= 0 && regions == Regions(lvs, c)
      ensures lost >= old(lost) && (lost == old(lost) ==> lvs == old(lvs))
      ensures !ok ==> denied || lvs[0].fd < 0
      ensures denied && !old(denied) ==> !ok && Refusal(kernel, old(asked), asked)
      ensures asked >= old(asked) && (old(denied) ==> denied)
    {
      ghost var v0 := lvs;
      ok := MmapTwo(c, Low, High);
      if ok {
        ghost var v1, asked1 := lvs, asked;
        assert regions == NonEmpty(Pieces(v1, c, Low)) + NonEmpty(Pieces(v1, c, High));
        ok := MmapTwo(c, Bios, Fb);
        AllMappedAfter(v1, lvs, c);
        FollowsOn(v0, v1, lvs, c);
        RefusalLater(kernel, old(asked), asked1, asked);
      }
    }

    // ftruncate and F_ADD_SEALS
    method Seal() returns (ok: bool)
      requires Valid() && |sealed| == 2
      modifies this`asked, this`sealed, this`denied
      ensures |sealed| == 2
      ensures ok ==> forall l :: 0 <= l < lvMax && lvs[l].fd > 0 ==> sealed[l] == lvs[l].Total()
      ensures asked >= old(asked) && denied == (old(denied) || !ok)
      ensures !ok ==> Refusal(kernel, old(asked), asked)
    {
      for level := 0 to lvMax
        invariant |sealed| == 2 && forall l :: 0 <= l < level && lvs[l].fd > 0 ==> sealed[l] == lvs[l].Total()
        invariant asked >= old(asked) && denied == old(denied)
      {
        if lvs[level].fd > 0 {
          var truncated := Ask();
          var added := Ask();
          if truncated == -1 || added == -1 {
            denied := true;
            assert kernel(asked - 2) <= 0 || kernel(asked - 1) <= 0;
            return false;
          }
          sealed := sealed[level := lvs[level].Total()];
        }
      }
      return true;
    }

    // From the free pages to the reserved ones
    method Reserve(c: Ctx) returns (ok: bool)
      requires Valid() && Sized(lvs) && (lvs[0].fd >= 0 ==> Split(lvs, c)) && GoodCtx(c)
      requires forall l :: 0 <= l < 2 && lvs[l].fd < 0 ==> lvs[l].Total() == 0
      modifies this`asked, this`lvs, this`free, this`taken, this`granted, this`refused
      ensures Valid() && SamePlan(old(lvs), lvs) && asked >= old(asked)
      ensures !ok ==> !granted
      ensures old(granted) && lvs[0].fd >= 0 && Generous(kernel, Pages(c)) ==> granted
    {
      ghost var plan := lvs;
      var gap := CheckMemgap();
      if lvs[0].fd >= 0 {
        PlanKept(plan, lvs, c);
        NeedPages(lvs, c, 0);
        NeedPages(lvs, c, 1);
      }
      ok := true;
      if gap {
        ok := ReservePages();
      }
    }

    // From the overview mapping to the seals
    method Map(c: Ctx) returns (ok: bool)
      requires Valid() && Sized(lvs) && regions == [] && |sealed| == 2
      modifies this`asked, this`lvs, this`regions, this`sealed, this`denied, this`lost
      ensures Valid() && |sealed| == 2 && Follows(old(lvs), lvs, c, 0)
      ensures ok ==> lvs[0].fd >= 0 && regions == Regions(lvs, c)
      ensures ok ==> forall l :: 0 <= l < lvMax && lvs[l].fd > 0 ==> sealed[l] == lvs[l].Total()
      ensures lost >= old(lost) && (lost == old(lost) ==> lvs == old(lvs))
      ensures !ok ==> denied || lvs[0].fd < 0
      ensures denied && !old(denied) ==> !ok && Refusal(kernel, old(asked), asked)
      ensures asked >= old(asked) && (old(denied) ==> denied)
    {
      var overview := Ask();
      if overview == 0 {
        denied := true;
        return false;
      }
      ghost var asked1 := asked;
      ok := MmapAll(c);
      if ok {
        ghost var asked2 := asked;
        ok := Seal();
        RefusalLater(kernel, old(asked), asked2, asked);
      }
      RefusalLater(kernel, old(asked), asked1, asked);
    }

    // The steps of hugetlb_setup_memory from the split to the seals
    method Build(c: Ctx) returns (ok: bool)
      requires Valid() && Fds(lvs) && GoodCtx(c) && regions == [] && |sealed| == 2
      modifies this`asked, this`lvs, this`regions, this`sealed, this`free, this`taken
      modifies this`granted, this`refused, this`denied, this`lost
      ensures Valid() && Fds(lvs) && |sealed| == 2 && lvs[0].fd == old(lvs)[0].fd
      ensures ok ==> Ready(lvs, c) && regions == Regions(lvs, c)
      ensures ok ==> forall l :: 0 <= l < lvMax && lvs[l].fd > 0 ==> sealed[l] == lvs[l].Total()
      // unless a 1 GB mapping is refused, nothing that fills a 1 GB page is on small pages
      ensures ok && lvMax == 2 && lvs[1].fd > 0 && lost == old(lost) ==> forall g :: lvs[0].Size(g) < GB
      ensures !ok ==> denied || !granted || lvs[0].fd < 0
      ensures denied && !old(denied) ==> !ok && Refusal(kernel, old(asked), asked)
      ensures asked >= old(asked) && (old(denied) ==> denied)
      ensures old(granted) && lvs[0].fd >= 0 && Generous(kernel, Pages(c)) ==> granted
    {
      SplitLevels(c);
      ghost var plan := lvs;
      ok := Reserve(c);
      PlanKept(plan, lvs, c);
      if ok {
        ghost var asked1 := asked;
        ok := Map(c);
        RefusalLater(kernel, old(asked), asked1, asked);
      }
    }

    // hugetlb_setup_memory up to its error exit
    method Attempt(c: Ctx) returns (ok: bool)
      requires Valid() && Fds(lvs) && |sealed| == 2 && granted && !denied
      requires 0 <= c.low <= LOWMEM_LIMIT && 0 <= c.high && 0 <= c.bios < GB && c.fb == FB_SIZE
      modifies this
      ensures Valid() && Fds(lvs) && |sealed| == 2
      ensures ok ==> GoodCtx(c) && Ready(lvs, c) && regions == Regions(lvs, c)
      ensures ok ==> forall l :: 0 <= l < lvMax && lvs[l].fd > 0 ==> sealed[l] == lvs[l].Total()
      ensures ok && lvMax == 2 && lvs[1].fd > 0 && lost == old(lost) ==> forall g :: lvs[0].Size(g) < GB
      ensures !ok ==> !GoodCtx(c) || denied || !granted
      ensures denied ==> Refusal(kernel, old(asked), asked) || old(lvs)[1].fd > 0
      ensures Generous(kernel, Pages(c)) ==> granted || denied
    {
      regions, ok := [], false;
      if c.low != 0 {
        Reopen();
        ghost var asked1 := asked;
        assert denied && old(lvs)[1].fd < 0 ==> kernel(old(asked)) <= 0;
        if c.low % (2 * MB) == 0 && c.high % (2 * MB) == 0 && c.bios % (2 * MB) == 0 && c.fb % (2 * MB) == 0 {
          ok := Build(c);
        }
        RefusalLater(kernel, old(asked), asked1, asked);
      }
    }

    // hugetlb_setup_memory
    method Setup(c: Ctx) returns (ok: bool)
      requires Valid() && Fds(lvs) && |sealed| == 2
      requires 0 <= c.low <= LOWMEM_LIMIT && 0 <= c.high && 0 <= c.bios < GB && c.fb == FB_SIZE
      modifies this
      ensures Valid() && Fds(lvs) && |sealed| == 2
      ensures ok ==> GoodCtx(c) && Ready(lvs, c) && regions == Regions(lvs, c)
      ensures ok ==> forall l :: 0 <= l < lvMax && lvs[l].fd > 0 ==> sealed[l] == lvs[l].Total()
      ensures ok && lvMax == 2 && lvs[1].fd > 0 && lost == old(lost) ==> forall g :: lvs[0].Size(g) < GB
      // it fails only over the sizes, over what the kernel refuses, or for want of pages
      ensures !ok ==> !GoodCtx(c) || denied || !granted
      ensures denied ==> Refusal(kernel, old(asked), asked) || old(lvs)[1].fd > 0
      ensures Generous(kernel, Pages(c)) ==> granted || denied
    {
      granted, denied := true, false;
      ok := Attempt(c);
      if !ok {
        // close_hugetlbfs
        lvs := [lvs[0].(fd := -1), if lvMax == 2 then lvs[1].(fd := -1) else lvs[1]];
        assert forall g :: lvMax == 1 ==> lvs[1].Size(g) == 0;
      }
    }
  }

  // vm_setup_memory: what does not fit below the limit goes above 4 GB.
  function VmCtx(memsize: int, bios: int): (c: Ctx)
    ensures 0 <= memsize ==> c.low + c.high == memsize && 0 <= c.low <= LOWMEM_LIMIT && 0 <= c.high
    ensures c.high == 0 || c.low == LOWMEM_LIMIT
    ensures c.bios == bios && c.fb == FB_SIZE
  {
    if memsize > LOWMEM_LIMIT then Ctx(LOWMEM_LIMIT, memsize - LOWMEM_LIMIT, bios, FB_SIZE)
    else Ctx(memsize, 0, bios, FB_SIZE)
  }

  // The largest firmware image the loader accepts
  const OVMF_SZ_LIMIT := 2 * MB

  // high_bios_size
  function HighBiosSize(image: int): (r: int)
    requires 0 <= image <= OVMF_SZ_LIMIT
    ensures image <= r < image + 2 * MB && r % (2 * MB) == 0 && r <= OVMF_SZ_LIMIT
  { (image + (2 * MB - 1)) / (2 * MB) * (2 * MB) }

  // Set-up accepts the memory sizes that are positive multiples of 2 MB.
  predicate Acceptable(memsize: int) { 0 < memsize && memsize % (2 * MB) == 0 }

  lemma AcceptableIs(memsize: int, image: int)
    requires 0 <= memsize && 0 <= image <= OVMF_SZ_LIMIT
    ensures GoodCtx(VmCtx(memsize, HighBiosSize(image))) <==> Acceptable(memsize)
    ensures Acceptable(memsize) ==> Pages(VmCtx(memsize, HighBiosSize(image))) > 0
  {
    var c := VmCtx(memsize, HighBiosSize(image));
    Multiple(2 * MB, 1024);
    if c.high > 0 {
      if memsize % (2 * MB) == 0 {
        MultipleSum(memsize, LOWMEM_LIMIT, 0);
      }
      if c.high % (2 * MB) == 0 {
        SumOfMultiples(c.low, c.high, 2 * MB);
      }
    }
  }

  // A memfd with the size it was sealed to
  datatype File = File(fd: int, size: int)

  predicate Inside(files: seq<File>, p: Place)
  { exists l :: 0 <= l < |files| && files[l].fd == p.fd && 0 <= p.off < files[l].size }

  // Both in lowmem, or both in highmem
  predicate Together(c: Ctx, x: int, y: int)
  { (InSegment(c, Low, x) && InSegment(c, Low, y)) || (InSegment(c, High, x) && InSegment(c, High, y)) }

  ghost predicate Contiguous(x: int, p: Option<Place>, y: int, q: Option<Place>)
  { p.Some? && q.Some? ==> p.value.fd == q.value.fd && q.value.off - p.value.off == y - x }

  // Where the guest addresses are: exactly the backed ones somewhere, inside the sealed
  // files, different ones in different places, and with dma-buf each of lowmem and highmem in
  // one piece.
  ghost predicate Located(c: Ctx, files: seq<File>, gpas: seq<int>, places: seq<Option<Place>>, dmabuf: bool)
  {
    && |places| == |gpas|
    && (forall i :: 0 <= i < |gpas| ==> (places[i].Some? <==> Backed(c, gpas[i])))
    && (forall i :: 0 <= i < |gpas| && places[i].Some? ==> Inside(files, places[i].value))
    && (forall i, j :: 0 <= i < |gpas| && 0 <= j < |gpas| && gpas[i] != gpas[j] && places[i].Some? ==>
          places[i] != places[j])
    && (forall i, j :: 0 <= i < |gpas| && 0 <= j < |gpas| && dmabuf && Together(c, gpas[i], gpas[j]) ==>
          Contiguous(gpas[i], places[i], gpas[j], places[j]))
  }

  // What a set-up that succeeded left behind
  ghost predicate Sealed(lvs: seq<Level>, lvMax: int, c: Ctx, files: seq<File>)
  {
    && Ready(lvs, c) && |files| == 2 && files[0].fd == lvs[0].fd && files[1].fd == lvs[1].fd
    && (forall l :: 0 <= l < lvMax <= 2 && lvs[l].fd > 0 ==> files[l].size == lvs[l].Total())
    && 1 <= lvMax <= 2 && (lvMax == 1 ==> lvs[1].Total() == 0)
  }

  lemma PlaceInside(lvs: seq<Level>, lvMax: int, c: Ctx, files: seq<File>, gpa: int)
    requires GoodCtx(c) && Sealed(lvs, lvMax, c, files) && Backed(c, gpa)
    ensures Translate(Regions(lvs, c), gpa).Some? && Inside(files, Translate(Regions(lvs, c), gpa).value)
  {
    TranslateBacked(lvs, c, gpa);
    var p := Translate(Regions(lvs, c), gpa).value;
    var l :| 0 <= l < 2 && p.fd == lvs[l].fd && 0 <= p.off < lvs[l].Total();
    TotalOfSizes(lvs[1]);
    assert files[l].fd == p.fd && files[l].size == lvs[l].Total();
  }

  lemma TranslationLocates(lvs: seq<Level>, lvMax: int, c: Ctx, files: seq<File>, gpas: seq<int>,
                           places: seq<Option<Place>>, dmabuf: bool)
    requires GoodCtx(c) && Sealed(lvs, lvMax, c, files) && |places| == |gpas| && dmabuf == AllowDmabuf(lvs, c)
    requires forall i :: 0 <= i < |gpas| ==> places[i] == Translate(Regions(lvs, c), gpas[i])
    ensures Located(c, files, gpas, places, dmabuf)
  {
    forall i | 0 <= i < |gpas|
      ensures places[i].Some? <==> Backed(c, gpas[i])
      ensures places[i].Some? ==> Inside(files, places[i].value)
    {
      TranslateBacked(lvs, c, gpas[i]);
      if Backed(c, gpas[i]) {
        PlaceInside(lvs, lvMax, c, files, gpas[i]);
      }
    }
    forall i, j | 0 <= i < |gpas| && 0 <= j < |gpas| && gpas[i] != gpas[j] && places[i].Some?
      ensures places[i] != places[j]
    {
      if places[j].Some? {
        TranslateInjective(lvs, c, gpas[i], gpas[j]);
      }
    }
    forall i, j | 0 <= i < |gpas| && 0 <= j < |gpas| && dmabuf && Together(c, gpas[i], gpas[j])
      ensures Contiguous(gpas[i], places[i], gpas[j], places[j])
    {
      DmabufContiguous(lvs, c, if InSegment(c, Low, gpas[i]) then Low else High, gpas[i], gpas[j]);
    }
  }

  // A whole set-up, for every behaviour of the kernel, and then the translation of any
  // guest addresses
  method SetupVm(kernel: nat -> int, lvMax: int, memsize: int, image: int, gpas: seq<int>)
    returns (ok: bool, files: seq<File>, places: seq<Option<Place>>, dmabuf: bool)
    requires 1 <= lvMax <= 2 && 0 <= memsize && 0 <= image <= OVMF_SZ_LIMIT
    ensures ok ==> Acceptable(memsize) && Located(VmCtx(memsize, HighBiosSize(image)), files, gpas, places, dmabuf)
    // every acceptable size is set up if the kernel refuses nothing and has the pages
    ensures Acceptable(memsize) && Generous(kernel, Pages(VmCtx(memsize, HighBiosSize(image)))) ==> ok
  {
    var c := VmCtx(memsize, HighBiosSize(image));
    var memory := new Memory(kernel, lvMax);
    files, places, dmabuf := [], [], false;
    AcceptableIs(memsize, image);
    ok := memory.Setup(c);
    if ok {
      for i := 0 to |gpas|
        modifies {}
        invariant |places| == i && forall j :: 0 <= j < i ==> places[j] == Translate(memory.regions, gpas[j])
      {
        var p := memory.FindRegion(gpas[i]);
        places := places + [p];
      }
      dmabuf := memory.Dmabuf(c);
      files := [File(memory.lvs[0].fd, memory.sealed[0]), File(memory.lvs[1].fd, memory.sealed[1])];
      TotalOfSizes(memory.lvs[1]);
      TranslationLocates(memory.lvs, memory.lvMax, c, files, gpas, places, dmabuf);
    }
  }
}
