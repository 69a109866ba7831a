// The guest's physical memory map of devicemodel/core/sw_load_common.c, an E820 table as
// section 15.1 of the ACPI specification describes it.
module E820 {
  import HugeTlb
  import opened Options

  const RAM := 1
  const RESERVED := 2
  const MB := 0x10_0000
  const GB := 0x4000_0000
  const ECFG_BASE := 0xE000_0000   // PCI_EMUL_ECFG_BASE
  const HIGHRAM_START := 4 * GB
  const VIDEO_BASE := 0xA_0000
  const NUM_ENTRIES := 7

  datatype Entry = Entry(base: int, length: int, kind: int)
  {
    function End(): int { base + length }
    predicate Holds(x: int) { base <= x < End() }
    predicate Contains(start: int, size: int) { base <= start && start + size <= End() }
  }

  // The type the table gives to address x
  function TypeAt(t: seq<Entry>, x: int): Option<int>
  {
    if t == [] then None else if t[0].Holds(x) then Some(t[0].kind) else TypeAt(t[1..], x)
  }

  ghost predicate Sorted(t: seq<Entry>)
  {
    && (forall i :: 0 <= i < |t| ==> t[i].length >= 0)
    && forall i, j :: 0 <= i < j < |t| ==> t[i].End() <= t[j].base
  }

  ghost predicate NoEmpty(t: seq<Entry>) { forall i :: 0 <= i < |t| ==> t[i].length != 0 }

  predicate Fits(t: seq<Entry>, start: int, size: int)
  { exists i :: 0 <= i < |t| && t[i].Contains(start, size) }

  // ---- add_e820_entry ------------------------------------------------------------------------

  // What becomes of the entry that contains the range
  function Pieces(e: Entry, start: int, size: int, kind: int): seq<Entry>
  {
    (if e.base == start then [] else [Entry(e.base, start - e.base, e.kind)])
    + [Entry(start, size, kind)]
    + (if e.End() == start + size then [] else [Entry(start + size, e.End() - (start + size), e.kind)])
  }

  function FirstFit(t: seq<Entry>, start: int, size: int): (i: int)
    ensures 0 <= i <= |t| && (i < |t| ==> t[i].Contains(start, size))
    ensures forall j :: 0 <= j < i ==> !t[j].Contains(start, size)
  { if t == [] then 0 else if t[0].Contains(start, size) then 0 else 1 + FirstFit(t[1..], start, size) }

  function Added(t: seq<Entry>, start: int, size: int, kind: int): seq<Entry>
  {
    var i := FirstFit(t, start, size);
    if i == |t| then t else t[..i] + Pieces(t[i], start, size, kind) + t[i + 1..]
  }

  lemma {:induction false} TypeAtConcat(s: seq<Entry>, t: seq<Entry>, x: int)
    ensures TypeAt(s + t, x) == if TypeAt(s, x).Some? then TypeAt(s, x) else TypeAt(t, x)
  {
    if s == [] {
      assert s + t == t;
    } else {
      assert (s + t)[1..] == s[1..] + t;
      TypeAtConcat(s[1..], t, x);
    }
  }

  lemma {:induction false} TypeAtSome(t: seq<Entry>, x: int)
    ensures TypeAt(t, x).Some? <==> exists i :: 0 <= i < |t| && t[i].Holds(x)
  {
    if t != [] {
      TypeAtSome(t[1..], x);
      assert TypeAt(t[1..], x).Some? ==> exists i :: 0 <= i < |t[1..]| && t[1..][i].Holds(x) && t[i + 1].Holds(x);
      forall i | 0 < i < |t| && t[i].Holds(x) ensures TypeAt(t, x).Some? { assert t[1..][i - 1].Holds(x); }
    }
  }

  lemma PiecesTypes(e: Entry, start: int, size: int, kind: int, x: int)
    requires e.Contains(start, size) && size >= 0
    ensures TypeAt(Pieces(e, start, size, kind), x) ==
            if start <= x < start + size then Some(kind) else if e.Holds(x) then Some(e.kind) else None
  {
    var p1 := if e.base == start then [] else [Entry(e.base, start - e.base, e.kind)];
    var p2 := [Entry(start, size, kind)];
    var p3 := if e.End() == start + size then [] else [Entry(start + size, e.End() - (start + size), e.kind)];
    TypeAtConcat(p1 + p2, p3, x);
    TypeAtConcat(p1, p2, x);
  }

  lemma PiecesSorted(e: Entry, start: int, size: int, kind: int)
    requires e.Contains(start, size) && size >= 0
    ensures var p := Pieces(e, start, size, kind);
            && Sorted(p) && 1 <= |p| <= 3 && p[0].base == e.base && p[|p| - 1].End() == e.End()
            && (size > 0 ==> NoEmpty(p)) && Above(p, e.base) && Below(p, e.End())
  {
  }

  lemma AddedTypes(t: seq<Entry>, start: int, size: int, kind: int, x: int)
    requires Sorted(t) && size >= 0 && Fits(t, start, size)
    ensures TypeAt(Added(t, start, size, kind), x) == if start <= x < start + size then Some(kind) else TypeAt(t, x)
  {
    var i := FirstFit(t, start, size);
    var e, p := t[i], Pieces(t[i], start, size, kind);
    PiecesTypes(e, start, size, kind, x);
    TypeAtConcat(t[..i] + p, t[i + 1..], x);
    TypeAtConcat(t[..i], p, x);
    assert t == t[..i] + [e] + t[i + 1..];
    TypeAtConcat(t[..i] + [e], t[i + 1..], x);
    TypeAtConcat(t[..i], [e], x);
    TypeAtSome(t[..i], x);
    assert TypeAt(t[..i], x).Some? ==> exists j :: 0 <= j < i && t[j].Holds(x);
  }

  ghost predicate Below(t: seq<Entry>, m: int) { forall i :: 0 <= i < |t| ==> t[i].End() <= m }

  ghost predicate Above(t: seq<Entry>, m: int) { forall i :: 0 <= i < |t| ==> t[i].base >= m }

  lemma SortedConcat(s: seq<Entry>, t: seq<Entry>, m: int)
    requires Sorted(s) && Sorted(t) && Below(s, m) && Above(t, m)
    ensures Sorted(s + t) && (NoEmpty(s) && NoEmpty(t) ==> NoEmpty(s + t))
  {
  }

  lemma SortedParts(t: seq<Entry>, i: int)
    requires Sorted(t) && 0 <= i < |t|
    ensures Sorted(t[..i]) && Below(t[..i], t[i].base) && Sorted(t[i + 1..]) && Above(t[i + 1..], t[i].End())
    ensures NoEmpty(t) ==> NoEmpty(t[..i]) && NoEmpty(t[i + 1..])
  {
  }

  lemma AddedSorted(t: seq<Entry>, start: int, size: int, kind: int)
    requires Sorted(t) && size >= 0
    ensures Sorted(Added(t, start, size, kind)) && |t| <= |Added(t, start, size, kind)| <= |t| + 2
    ensures size > 0 && NoEmpty(t) ==> NoEmpty(Added(t, start, size, kind))
    ensures !Fits(t, start, size) ==> Added(t, start, size, kind) == t
  {
    var i := FirstFit(t, start, size);
    if i < |t| {
      var e, p := t[i], Pieces(t[i], start, size, kind);
      PiecesSorted(e, start, size, kind);
      SortedParts(t, i);
      SortedConcat(t[..i], p, e.base);
      SortedConcat(t[..i] + p, t[i + 1..], e.End());
    }
  }

  // No address gains or loses an entry.
  lemma AddedCovers(t: seq<Entry>, start: int, size: int, kind: int, x: int)
    requires Sorted(t) && size >= 0
    ensures TypeAt(Added(t, start, size, kind), x).Some? <==> TypeAt(t, x).Some?
  {
    AddedSorted(t, start, size, kind);
    if Fits(t, start, size) {
      AddedTypes(t, start, size, kind, x);
      TypeAtSome(t, x);
      var i := FirstFit(t, start, size);
      assert start <= x < start + size ==> t[i].Holds(x);
    }
  }

  datatype Request = Request(start: int, size: int, kind: int)

  // Any number of additions, one after the other
  function AddAll(t: seq<Entry>, rs: seq<Request>): seq<Entry>
  {
    if rs == [] then t
    else var r := rs[|rs| - 1]; Added(AddAll(t, rs[..|rs| - 1]), r.start, r.size, r.kind)
  }

  // The last accepted request that holds the address decides its type.
  ghost function LastType(t: seq<Entry>, rs: seq<Request>, x: int): Option<int>
  {
    if rs == [] then TypeAt(t, x)
    else
      var before, r := rs[..|rs| - 1], rs[|rs| - 1];
      if Fits(AddAll(t, before), r.start, r.size) && r.start <= x < r.start + r.size then Some(r.kind)
      else LastType(t, before, x)
  }

  lemma {:induction false} AddAllTypes(t: seq<Entry>, rs: seq<Request>, x: int)
    requires Sorted(t) && forall i :: 0 <= i < |rs| ==> rs[i].size >= 0
    ensures Sorted(AddAll(t, rs)) && TypeAt(AddAll(t, rs), x) == LastType(t, rs, x)
    ensures TypeAt(AddAll(t, rs), x).Some? <==> TypeAt(t, x).Some?
  {
    if rs != [] {
      var before, r := rs[..|rs| - 1], rs[|rs| - 1];
      AddAllTypes(t, before, x);
      AddedSorted(AddAll(t, before), r.start, r.size, r.kind);
      AddedCovers(AddAll(t, before), r.start, r.size, r.kind, x);
      if Fits(AddAll(t, before), r.start, r.size) {
        AddedTypes(AddAll(t, before), r.start, r.size, r.kind, x);
      }
    }
  }

  // add_e820_entry.  The table is the first len entries of a; the caller owns room for the
  // entries a split adds.
  method AddEntry(a: array<Entry>, len: int, start: int, size: int, kind: int) returns (n: int)
    requires 0 <= len <= a.Length && |Added(a[..len], start, size, kind)| <= a.Length
    modifies a
    ensures len <= n <= a.Length && a[..n] == Added(old(a[..len]), start, size, kind)
    ensures a[n..] == old(a[n..])
  {
    ghost var t := a[..len];
    var i := Search(a, len, start, size);
    if i < len {
      assert a[..i] == t[..i] && a[i] == t[i] && a[i + 1..len] == t[i + 1..];
      n := Split(a, len, i, start, size, kind);
    } else {
      n := len;
    }
  }

  // Its loop
  method Search(a: array<Entry>, len: int, start: int, size: int) returns (i: int)
    requires 0 <= len <= a.Length
    ensures i == FirstFit(a[..len], start, size)
  {
    i := 0;
    while i < len
      invariant 0 <= i <= FirstFit(a[..len], start, size)
    {
      assert a[..len][i] == a[i];
      if a[i].Contains(start, size) {
        return;
      }
      i := i + 1;
    }
  }

  // memmove: the entries from..len move up by d places.
  method MoveUp(a: array<Entry>, from: int, len: int, d: int)
    requires 0 <= from <= len && 0 <= d && len + d <= a.Length
    modifies a
    ensures a[..from] == old(a[..from]) && a[from + d..] == old(a[from..len]) + old(a[len + d..])
  {
    forall j | from <= j < len { a[j + d] := a[j]; }
    assert forall j :: from <= j < len ==> a[j + d] == old(a[j]);
  }

  // The entry at index at contains the range: make room and write its pieces.
  method Split(a: array<Entry>, len: int, at: int, start: int, size: int, kind: int) returns (n: int)
    requires 0 <= at < len <= a.Length && a[at].Contains(start, size)
    requires len - 1 + |Pieces(a[at], start, size, kind)| <= a.Length
    modifies a
    ensures n == len - 1 + |Pieces(old(a[at]), start, size, kind)|
    ensures a[..n] == old(a[..at]) + Pieces(old(a[at]), start, size, kind) + old(a[at + 1..len])
    ensures a[n..] == old(a[n..])
  {
    var e := a[at];
    var s, f := if e.base == start then 1 else 0, if e.End() == start + size then 2 else 3;
    n := len - 1 + (f - s);
    ghost var lower, upper, rest := a[..at], a[at + 1..len], a[n..];
    ghost var p := Pieces(e, start, size, kind);
    MakeRoom(a, len, at, f - s);
    assert a[at + (f - s)..] == upper + rest;
    WritePieces(a, at, e, start, size, kind, s, f);
    assert a[..] == lower + p + (upper + rest);
    Reassemble(a[..], lower, p, upper, rest);
  }

  lemma Reassemble(c: seq<Entry>, lower: seq<Entry>, p: seq<Entry>, upper: seq<Entry>, rest: seq<Entry>)
    requires c == lower + p + (upper + rest)
    ensures var n := |lower| + |p| + |upper|; c[..n] == lower + p + upper && c[n..] == rest
  {
  }

  method MakeRoom(a: array<Entry>, len: int, at: int, pieces: int)
    requires 0 <= at < len <= a.Length && 1 <= pieces && len - 1 + pieces <= a.Length
    modifies a
    ensures a[..at] == old(a[..at])
    ensures a[at + pieces..] == old(a[at + 1..len]) + old(a[len - 1 + pieces..])
  {
    if at != len - 1 && pieces > 1 {
      MoveUp(a, at + 1, len, pieces - 1);
      assert a[..at] == a[..at + 1][..at];
    }
  }

  // The pieces by the four points that bound them
  lemma PieceAt(e: Entry, start: int, size: int, kind: int, k: int)
    requires var s, f := if e.base == start then 1 else 0, if e.End() == start + size then 2 else 3; s <= k < f
    ensures var s := if e.base == start then 1 else 0;
            var pt, types := [e.base, start, start + size, e.End()], [e.kind, kind, e.kind];
            && k - s < |Pieces(e, start, size, kind)|
            && Pieces(e, start, size, kind)[k - s] == Entry(pt[k], pt[k + 1] - pt[k], types[k])
  {
  }

  // Entry e of the table, at index at, gives way to its pieces s..f.
  method WritePieces(a: array<Entry>, at: int, e: Entry, start: int, size: int, kind: int, s: int, f: int)
    requires s == (if e.base == start then 1 else 0) && f == if e.End() == start + size then 2 else 3
    requires 0 <= at && at + (f - s) <= a.Length
    modifies a
    ensures a[..] == old(a[..at]) + Pieces(e, start, size, kind) + old(a[at + (f - s)..])
  {
    var pt, types := [e.base, start, start + size, e.End()], [e.kind, kind, e.kind];
    ghost var p := Pieces(e, start, size, kind);
    var i, k := at, s;
    while k < f
      invariant s <= k <= f && i == at + (k - s)
      invariant forall j :: 0 <= j < a.Length ==> a[j] == if at <= j < i then p[j - at] else old(a[j])
    {
      PieceAt(e, start, size, kind, k);
      a[i] := Entry(pt[k], pt[k + 1] - pt[k], types[k]);
      i, k := i + 1, k + 1;
    }
  }

  // ---- acrn_create_e820_table ----------------------------------------------------------------

  // The guest's memory: RAM below and above 4 GB, the limit of the lower part, and the two
  // reserved areas inside it, absent when their base is 0.
  datatype Guest = Guest(lowmem: int, limit: int, highmem: int,
                         gpuBase: int, gpuSize: int, ssramBase: int, ssramSize: int)
  {
    // Where the reserved areas begin and end
    function Gpu(): int { if gpuBase != 0 then gpuBase else limit }
    function GpuEnd(): int { if gpuBase != 0 then gpuBase + gpuSize else limit }
    function Ssram(): int { if ssramBase != 0 then ssramBase else Gpu() }
    function SsramEnd(): int { if ssramBase != 0 then ssramBase + ssramSize else Gpu() }

    // What the rest of the device model guarantees: vm_setup_memory keeps lowmem within its
    // limit, which is 2 GB, and init_vssram_gpa_range puts the SSRAM area below the GPU area.
    // The GPU area itself may be anywhere.
    ghost predicate Placed()
    {
      && 0 <= lowmem <= limit <= ECFG_BASE && 0 <= highmem
      && 0 <= gpuBase && 0 <= gpuSize && 0 <= ssramBase && 0 <= ssramSize && SsramEnd() <= Gpu()
    }

    // Guest memory, or what lies of it in front of the reserved areas, does not reach 1 MB:
    // the length of the second entry wraps around.
    predicate Wraps() { lowmem < MB || Ssram() < MB }

    // No wrap-around, and each reserved area ends in front of the PCI hole.
    ghost predicate Fitting()
    {
      && !Wraps()
      && (ssramBase != 0 && ssramSize > 0 ==> SsramEnd() <= ECFG_BASE)
      && (gpuBase != 0 && gpuSize > 0 ==> GpuEnd() <= ECFG_BASE)
    }
  }

  // uint64_t subtraction of two uint64_t values
  function Minus(x: int, y: int): int { if x >= y then x - y else x - y + 0x1_0000_0000_0000_0000 }

  // The seven entries before the empty ones are removed
  function Filled(g: Guest): (t: seq<Entry>)
    ensures |t| == NUM_ENTRIES
  {
    var split := g.lowmem > g.Ssram();
    [Entry(0, VIDEO_BASE, RAM),
     Entry(MB, Minus(if split then g.Ssram() else g.lowmem, MB), RAM),
     Entry(g.Ssram(), if g.ssramBase != 0 then g.ssramSize else 0, RESERVED),
     Entry(g.Gpu(), if g.gpuBase != 0 then g.gpuSize else 0, RESERVED),
     if split && g.lowmem > g.GpuEnd() then Entry(g.GpuEnd(), Minus(g.lowmem, g.GpuEnd()), RAM)
     else Entry(if split then g.GpuEnd() else 0, 0, RESERVED),
     Entry(ECFG_BASE, 4 * GB - ECFG_BASE, RESERVED),
     Entry(HIGHRAM_START, if g.highmem > 0 then g.highmem else 0, if g.highmem > 0 then RAM else RESERVED)]
  }

  function Filter(t: seq<Entry>): seq<Entry>
  { if t == [] then [] else Filter(t[..|t| - 1]) + if t[|t| - 1].length == 0 then [] else [t[|t| - 1]] }

  lemma FilterNext(t: seq<Entry>, m: int)
    requires 0 <= m < |t|
    ensures Filter(t[..m + 1]) == Filter(t[..m]) + if t[m].length == 0 then [] else [t[m]]
  {
    assert t[..m + 1][..m] == t[..m];
  }

  // Every empty entry goes, except that the last one is never looked at.
  function Table(t: seq<Entry>): seq<Entry>
    requires |t| > 0
  { Filter(t[..|t| - 1]) + [t[|t| - 1]] }

  // One round of the removal: the first m entries are done, the others are still to be seen.
  lemma CompactStep(t: seq<Entry>, m: int)
    requires 0 <= m < |t|
    ensures var f, g := Filter(t[..m]), Filter(t[..m + 1]);
      var before, after := f + t[m..], g + t[m + 1..];
      && before[|f|] == t[m]
      && (t[m].length == 0 ==> before[..|f|] + before[|f| + 1..] == after && |g| == |f|)
      && (t[m].length != 0 ==> before == after && |g| == |f| + 1)
  {
    FilterNext(t, m);
    var f := Filter(t[..m]);
    var before := f + t[m..];
    assert before[..|f|] == f && before[|f| + 1..] == t[m + 1..];
    assert t[m..] == [t[m]] + t[m + 1..];
  }

  lemma CutInPrefix(c: seq<Entry>, k: int, n: int)
    requires 0 <= k < n <= |c|
    ensures (c[..k] + c[k + 1..])[..n - 1] == c[..n][..k] + c[..n][k + 1..]
  {
  }

  // The loop that removes empty entries in place; k-- and k++ cancel out when one goes.
  method Compact(a: array<Entry>) returns (n: int)
    requires a.Length >= NUM_ENTRIES
    modifies a
    ensures 0 < n <= NUM_ENTRIES && a[..n] == Table(old(a[..NUM_ENTRIES]))
    ensures a[NUM_ENTRIES..] == old(a[NUM_ENTRIES..])
  {
    ghost var t := a[..NUM_ENTRIES];
    var removed, k := 0, 0;
    ghost var seen := 0;
    assert Filter(t[..0]) + t[0..] == t;
    while k < NUM_ENTRIES - 1 - removed
      invariant 0 <= k && 0 <= removed && seen == k + removed <= NUM_ENTRIES - 1
      invariant k == |Filter(t[..seen])|
      invariant a[..NUM_ENTRIES - removed] == Filter(t[..seen]) + t[seen..]
      invariant a[NUM_ENTRIES..] == old(a[NUM_ENTRIES..])
      decreases NUM_ENTRIES - k - removed
    {
      CompactStep(t, seen);
      assert a[k] == a[..NUM_ENTRIES - removed][k];
      if a[k].length == 0 {
        RemoveAt(a, k, NUM_ENTRIES - removed);
        removed := removed + 1;
      } else {
        k := k + 1;
      }
      seen := seen + 1;
    }
    n := NUM_ENTRIES - removed;
  }

  // memmove: everything behind entry k moves down, the stale tail included.
  method RemoveAt(a: array<Entry>, k: int, ghost n: int)
    requires 0 <= k < n <= NUM_ENTRIES <= a.Length
    modifies a
    ensures a[..n - 1] == old(a[..n])[..k] + old(a[..n])[k + 1..]
    ensures a[NUM_ENTRIES..] == old(a[NUM_ENTRIES..])
  {
    ghost var c := a[..NUM_ENTRIES];
    forall j | k <= j < NUM_ENTRIES - 1 { a[j] := a[j + 1]; }
    assert a[..NUM_ENTRIES - 1] == c[..k] + c[k + 1..];
    CutInPrefix(c, k, n);
    assert c[..n] == old(a[..n]) && a[..n - 1] == a[..NUM_ENTRIES - 1][..n - 1];
  }

  // acrn_create_e820_table: the default entries, then one field after another
  method Create(a: array<Entry>, g: Guest) returns (n: int)
    requires a.Length >= NUM_ENTRIES
    modifies a
    ensures 0 < n <= NUM_ENTRIES && a[..n] == Table(Filled(g))
    ensures a[NUM_ENTRIES..] == old(a[NUM_ENTRIES..])
  {
    Fill(a, g);
    n := Compact(a);
  }

  method Fill(a: array<Entry>, g: Guest)
    requires a.Length >= NUM_ENTRIES
    modifies a
    ensures a[..NUM_ENTRIES] == Filled(g) && a[NUM_ENTRIES..] == old(a[NUM_ENTRIES..])
  {
    Defaults(a);
    FillReserved(a, g);
    FillLow(a, g);
    if g.highmem > 0 {
      a[6] := a[6].(kind := RAM, length := g.highmem);
    }
    assert a[..NUM_ENTRIES] == [a[0], a[1], a[2], a[3], a[4], a[5], a[6]];
  }

  // e820_default_entries
  method Defaults(a: array<Entry>)
    requires a.Length >= NUM_ENTRIES
    modifies a
    ensures a[0] == Entry(0, VIDEO_BASE, RAM) && a[1] == Entry(MB, 0, RAM)
    ensures a[2] == a[3] == a[4] == Entry(0, 0, RESERVED)
    ensures a[5] == Entry(ECFG_BASE, 4 * GB - ECFG_BASE, RESERVED) && a[6] == Entry(HIGHRAM_START, 0, RESERVED)
    ensures a[NUM_ENTRIES..] == old(a[NUM_ENTRIES..])
  {
    a[0], a[1] := Entry(0, VIDEO_BASE, RAM), Entry(MB, 0, RAM);
    a[2], a[3], a[4] := Entry(0, 0, RESERVED), Entry(0, 0, RESERVED), Entry(0, 0, RESERVED);
    a[5], a[6] := Entry(ECFG_BASE, 4 * GB - ECFG_BASE, RESERVED), Entry(HIGHRAM_START, 0, RESERVED);
  }

  method FillReserved(a: array<Entry>, g: Guest)
    requires a.Length >= NUM_ENTRIES && a[2] == a[3] == Entry(0, 0, RESERVED)
    modifies a
    ensures a[2] == Filled(g)[2] && a[3] == Filled(g)[3]
    ensures forall i :: 0 <= i < a.Length && i != 2 && i != 3 ==> a[i] == old(a[i])
  {
    if g.gpuBase != 0 {
      a[3] := a[3].(base := g.gpuBase, length := g.gpuSize);
    } else {
      a[3] := a[3].(base := g.limit);
    }
    if g.ssramBase != 0 {
      a[2] := a[2].(base := g.ssramBase, length := g.ssramSize);
    } else {
      a[2] := a[2].(base := a[3].base);
    }
  }

  // The two parts of RAM below 4 GB, before and after the reserved areas
  method FillLow(a: array<Entry>, g: Guest)
    requires a.Length >= NUM_ENTRIES && a[1] == Entry(MB, 0, RAM) && a[4] == Entry(0, 0, RESERVED)
    requires a[2] == Filled(g)[2] && a[3] == Filled(g)[3]
    modifies a
    ensures a[1] == Filled(g)[1] && a[4] == Filled(g)[4]
    ensures forall i :: 0 <= i < a.Length && i != 1 && i != 4 ==> a[i] == old(a[i])
  {
    if g.lowmem <= a[2].base {
      a[1] := a[1].(length := Minus(g.lowmem, a[1].base));
    } else {
      a[1] := a[1].(length := Minus(a[2].base, a[1].base));
      a[4] := a[4].(base := a[3].base + a[3].length);
      if g.lowmem > a[4].base {
        a[4] := a[4].(length := Minus(g.lowmem, a[4].base), kind := RAM);
      }
    }
  }

  // ---- what the table says -------------------------------------------------------------------

  // In order once the empty entries are left aside
  ghost predicate Stacked(t: seq<Entry>)
  {
    && (forall i :: 0 <= i < |t| ==> t[i].length >= 0)
    && forall i, j :: 0 <= i < j < |t| && t[i].length > 0 && t[j].length > 0 ==> t[i].End() <= t[j].base
  }

  lemma {:induction false} FilterTypes(t: seq<Entry>, x: int)
    ensures TypeAt(Filter(t), x) == TypeAt(t, x)
  {
    if t != [] {
      var n := |t| - 1;
      FilterTypes(t[..n], x);
      TypeAtConcat(t[..n], [t[n]], x);
      TypeAtConcat(Filter(t[..n]), if t[n].length == 0 then [] else [t[n]], x);
      assert t == t[..n] + [t[n]];
    }
  }

  lemma {:induction false} FilterIs(t: seq<Entry>)
    requires Stacked(t)
    ensures Sorted(Filter(t)) && NoEmpty(Filter(t)) && |Filter(t)| <= |t|
  {
    if t != [] {
      var n := |t| - 1;
      FilterIs(t[..n]);
      if t[n].length > 0 {
        FilterBelow(t[..n], t[n].base);
        SortedConcat(Filter(t[..n]), [t[n]], t[n].base);
      }
    }
  }

  lemma {:induction false} FilterBelow(t: seq<Entry>, m: int)
    requires forall i :: 0 <= i < |t| && t[i].length != 0 ==> t[i].End() <= m
    ensures Below(Filter(t), m)
  {
    if t != [] {
      FilterBelow(t[..|t| - 1], m);
    }
  }

  lemma {:induction false} FilterHas(t: seq<Entry>, i: int)
    requires 0 <= i < |t| && t[i].length != 0
    ensures t[i] in Filter(t)
  {
    if i < |t| - 1 {
      FilterHas(t[..|t| - 1], i);
    }
  }

  lemma SortedPrefix(s: seq<Entry>, t: seq<Entry>)
    requires Sorted(s + t)
    ensures Sorted(s)
  {
    assert forall i :: 0 <= i < |s| ==> (s + t)[i] == s[i];
  }

  lemma SortedLast(s: seq<Entry>, e: Entry, f: Entry)
    requires Sorted(s + [f]) && e in s
    ensures e.End() <= f.base
  {
    var i :| 0 <= i < |s| && s[i] == e;
    assert (s + [f])[i] == e && (s + [f])[|s|] == f;
  }

  // A filtered table is sorted only if its non-empty entries are in order.
  lemma {:induction false} FilterOnly(t: seq<Entry>)
    requires Sorted(Filter(t)) && forall i :: 0 <= i < |t| ==> t[i].length >= 0
    ensures Stacked(t)
  {
    if t != [] {
      var n := |t| - 1;
      var last := if t[n].length == 0 then [] else [t[n]];
      SortedPrefix(Filter(t[..n]), last);
      FilterOnly(t[..n]);
      forall i | 0 <= i < n && t[i].length > 0 && t[n].length > 0 ensures t[i].End() <= t[n].base {
        FilterHas(t[..n], i);
        SortedLast(Filter(t[..n]), t[i], t[n]);
      }
    }
  }

  lemma FilledLengths(g: Guest)
    requires g.Placed()
    ensures forall i :: 0 <= i < NUM_ENTRIES ==> Filled(g)[i].length >= 0
  {
  }

  // Areas that are in order fit ...
  lemma StackedFits(g: Guest)
    requires g.Placed() && Stacked(Filled(g)[..6])
    ensures g.Fitting()
  {
    var t := Filled(g)[..6];
    assert t[1].length > 0 ==> t[1].End() <= t[5].base;
    assert t[2].length > 0 ==> t[2].End() <= t[5].base;
    assert t[3].length > 0 ==> t[3].End() <= t[5].base;
  }

  // ... and areas that fit are in order.
  lemma FitsStacked(g: Guest)
    requires g.Placed() && g.Fitting()
    ensures Stacked(Filled(g)[..6])
    ensures forall i :: 0 <= i < 6 && Filled(g)[i].length != 0 ==> Filled(g)[i].End() <= HIGHRAM_START
  {
  }

  // The table is sorted and without overlaps if and only if the areas fit.  It keeps an empty
  // entry only at the end, and exactly when there is no memory above 4 GB.
  lemma TableSorted(g: Guest)
    requires g.Placed()
    ensures var t := Table(Filled(g)); Sorted(t) <==> g.Fitting()
    ensures var t := Table(Filled(g)); (NoEmpty(t) <==> g.highmem > 0) && NoEmpty(t[..|t| - 1])
  {
    var t := Filled(g);
    var f := Filter(t[..6]);
    FilledLengths(g);
    FilterNoEmpty(t[..6]);
    if g.Fitting() {
      FitsStacked(g);
      FilterIs(t[..6]);
      FilterBelow(t[..6], t[6].base);
      SortedConcat(f, [t[6]], t[6].base);
    }
    if Sorted(Table(t)) {
      SortedPrefix(f, [t[6]]);
      FilterOnly(t[..6]);
      StackedFits(g);
    }
    assert Table(t)[|Table(t)| - 1] == t[6];
    assert Table(t)[..|Table(t)| - 1] == f;
  }

  lemma {:induction false} FilterNoEmpty(t: seq<Entry>)
    ensures NoEmpty(Filter(t))
  {
    if t != [] {
      FilterNoEmpty(t[..|t| - 1]);
    }
  }

  // Memory in front of and behind the reserved areas
  ghost predicate InLowRam(g: Guest, x: int)
  { 0 <= x < VIDEO_BASE || (MB <= x < g.lowmem && !(g.Ssram() <= x < g.GpuEnd())) }

  ghost predicate InArea(g: Guest, x: int)
  {
    || (g.ssramBase != 0 && g.Ssram() <= x < g.SsramEnd())
    || (g.gpuBase != 0 && g.Gpu() <= x < g.GpuEnd())
  }

  ghost predicate InHighRam(g: Guest, x: int)
  { HIGHRAM_START <= x < HIGHRAM_START + g.highmem }

  // Without wrap-around, what every address is told to be, wherever the GPU area is: where it
  // meets memory above 4 GB, the area wins.
  lemma TableTypes(g: Guest, x: int)
    requires g.Placed() && !g.Wraps()
    ensures TypeAt(Table(Filled(g)), x) ==
            if InLowRam(g, x) then Some(RAM)
            else if InArea(g, x) || ECFG_BASE <= x < HIGHRAM_START then Some(RESERVED)
            else if InHighRam(g, x) then Some(RAM) else None
  {
    TableIsFilled(g, x);
    TypesOfSeven(Filled(g), x);
    FilledHolds(g, x);
  }

  // Which of the seven entries hold an address
  lemma FilledHolds(g: Guest, x: int)
    requires g.Placed() && !g.Wraps()
    ensures var t := Filled(g);
      && (t[0].Holds(x) || t[1].Holds(x) || t[4].Holds(x) <==> InLowRam(g, x))
      && (t[2].Holds(x) || t[3].Holds(x) <==> InArea(g, x)) && !(t[4].Holds(x) && InArea(g, x))
      && (t[5].Holds(x) <==> ECFG_BASE <= x < HIGHRAM_START) && (t[6].Holds(x) <==> InHighRam(g, x))
      && (t[4].Holds(x) ==> t[4].kind == RAM) && (t[6].Holds(x) ==> t[6].kind == RAM)
  {
    LowHolds(g, x);
    var t := Filled(g);
    assert t[0].Holds(x) <==> 0 <= x < VIDEO_BASE;
    assert t[2].Holds(x) <==> g.ssramBase != 0 && g.Ssram() <= x < g.SsramEnd();
    assert t[3].Holds(x) <==> g.gpuBase != 0 && g.Gpu() <= x < g.GpuEnd();
    assert t[5].Holds(x) <==> ECFG_BASE <= x < HIGHRAM_START;
    assert t[6].Holds(x) <==> HIGHRAM_START <= x < HIGHRAM_START + g.highmem;
  }

  lemma LowHolds(g: Guest, x: int)
    requires g.Placed() && !g.Wraps()
    ensures var t := Filled(g);
      && (t[1].Holds(x) || t[4].Holds(x) <==> MB <= x < g.lowmem && !(g.Ssram() <= x < g.GpuEnd()))
      && (t[4].Holds(x) ==> t[4].kind == RAM && g.GpuEnd() <= x)
  {
    LowBounds(g);
    var t := Filled(g);
    assert t[1].Holds(x) <==> MB <= x < g.lowmem && x < g.Ssram();
    assert t[4].Holds(x) <==> g.GpuEnd() <= x < g.lowmem;
  }

  lemma LowBounds(g: Guest)
    requires g.Placed() && !g.Wraps()
    ensures var t := Filled(g);
      && t[1].base == MB && t[1].End() == (if g.lowmem > g.Ssram() then g.Ssram() else g.lowmem)
      && (if g.lowmem > g.GpuEnd() then t[4] == Entry(g.GpuEnd(), g.lowmem - g.GpuEnd(), RAM) else t[4].length == 0)
    ensures MB <= g.Ssram() <= g.GpuEnd()
  {
  }

  // With wrap-around every 64-bit address from 1 MB on is told to be RAM.
  lemma WrappedTypes(g: Guest, x: int)
    requires NonNegative(g) && g.Wraps() && MB <= x < 0x1_0000_0000_0000_0000
    ensures TypeAt(Table(Filled(g)), x) == Some(RAM)
  {
    TableIsFilled(g, x);
    TypesOfSeven(Filled(g), x);
    var first := if g.lowmem > g.Ssram() then g.Ssram() else g.lowmem;
    assert Filled(g)[1] == Entry(MB, first - MB + 0x1_0000_0000_0000_0000, RAM);
  }

  lemma TypesOfSeven(t: seq<Entry>, x: int)
    requires |t| == 7
    ensures TypeAt(t, x) ==
            if t[0].Holds(x) then Some(t[0].kind) else if t[1].Holds(x) then Some(t[1].kind)
            else if t[2].Holds(x) then Some(t[2].kind) else if t[3].Holds(x) then Some(t[3].kind)
            else if t[4].Holds(x) then Some(t[4].kind) else if t[5].Holds(x) then Some(t[5].kind)
            else if t[6].Holds(x) then Some(t[6].kind) else None
  {
    assert TypeAt(t[6..], x) == if t[6].Holds(x) then Some(t[6].kind) else None;
    assert TypeAt(t[5..], x) == if t[5].Holds(x) then Some(t[5].kind) else TypeAt(t[5..][1..], x);
    assert TypeAt(t[4..], x) == if t[4].Holds(x) then Some(t[4].kind) else TypeAt(t[4..][1..], x);
    assert TypeAt(t[3..], x) == if t[3].Holds(x) then Some(t[3].kind) else TypeAt(t[3..][1..], x);
    assert TypeAt(t[2..], x) == if t[2].Holds(x) then Some(t[2].kind) else TypeAt(t[2..][1..], x);
    assert TypeAt(t[1..], x) == if t[1].Holds(x) then Some(t[1].kind) else TypeAt(t[1..][1..], x);
    assert t[5..][1..] == t[6..] && t[4..][1..] == t[5..] && t[3..][1..] == t[4..] && t[2..][1..] == t[3..] &&
           t[1..][1..] == t[2..];
  }

  ghost predicate InMemory(g: Guest, x: int)
  { 0 <= x < g.lowmem || HIGHRAM_START <= x < HIGHRAM_START + g.highmem }

  ghost predicate NonNegative(g: Guest)
  {
    && 0 <= g.lowmem && 0 <= g.limit && 0 <= g.highmem
    && 0 <= g.gpuBase && 0 <= g.gpuSize && 0 <= g.ssramBase && 0 <= g.ssramSize
  }

  // Which address the table calls RAM does not depend on the empty entries.
  lemma TableIsFilled(g: Guest, x: int)
    ensures TypeAt(Table(Filled(g)), x) == TypeAt(Filled(g), x)
  {
    var t := Filled(g);
    FilterTypes(t[..6], x);
    TypeAtConcat(Filter(t[..6]), [t[6]], x);
    TypeAtConcat(t[..6], [t[6]], x);
    assert t == t[..6] + [t[6]];
  }

  ghost predicate OnlyMemoryIsRam(g: Guest)
  { forall x :: TypeAt(Table(Filled(g)), x) == Some(RAM) ==> InMemory(g, x) }

  // For every layout of the reserved areas, RAM is reported only where the guest has memory if
  // and only if nothing wraps around.
  lemma RamInside(g: Guest)
    requires NonNegative(g) && g.lowmem < HIGHRAM_START
    ensures OnlyMemoryIsRam(g) <==> !g.Wraps()
  {
    if !g.Wraps() {
      forall x | TypeAt(Table(Filled(g)), x) == Some(RAM) ensures InMemory(g, x) { RamInsideAt(g, x); }
    } else {
      var x := if g.lowmem < MB then MB else g.lowmem;
      WrappedTypes(g, x);
      assert !InMemory(g, x);
    }
  }

  lemma LowEntries(g: Guest, x: int)
    requires NonNegative(g) && !g.Wraps()
    ensures var t := Filled(g); t[1].Holds(x) || t[4].Holds(x) ==> InMemory(g, x)
  {
    var t := Filled(g);
    assert t[1].length == (if g.lowmem > g.Ssram() then g.Ssram() else g.lowmem) - MB;
    assert t[4].length != 0 ==> t[4].base == g.GpuEnd() && t[4].length == g.lowmem - g.GpuEnd();
  }

  lemma OuterEntries(g: Guest, x: int)
    requires NonNegative(g) && g.lowmem >= MB
    ensures var t := Filled(g); t[0].Holds(x) || t[6].Holds(x) ==> InMemory(g, x)
    ensures var t := Filled(g); t[2].kind == t[3].kind == t[5].kind == RESERVED
  {
    var t := Filled(g);
    assert t[0] == Entry(0, VIDEO_BASE, RAM);
    assert t[6].base == HIGHRAM_START && t[6].length == g.highmem;
  }

  lemma RamFrom(t: seq<Entry>, g: Guest, x: int)
    requires |t| == 7 && t[2].kind == t[3].kind == t[5].kind == RESERVED
    requires t[1].Holds(x) || t[4].Holds(x) ==> InMemory(g, x)
    requires t[0].Holds(x) || t[6].Holds(x) ==> InMemory(g, x)
    ensures TypeAt(t, x) == Some(RAM) ==> InMemory(g, x)
  {
    TypesOfSeven(t, x);
  }

  // Without wrap-around the entries for RAM lie inside guest memory.
  lemma RamInsideAt(g: Guest, x: int)
    requires NonNegative(g) && !g.Wraps()
    ensures TypeAt(Table(Filled(g)), x) == Some(RAM) ==> InMemory(g, x)
  {
    TableIsFilled(g, x);
    LowEntries(g, x);
    OuterEntries(g, x);
    RamFrom(Filled(g), g, x);
  }

  // Of memory that hugetlb_setup_memory accepts, a multiple of 2 MB, that leaves the reserved
  // areas as the only cause: RAM is reported only where it is if and only if they begin at
  // 1 MB or above.
  lemma SetUpMemoryInside(c: HugeTlb.Ctx, g: Guest)
    requires HugeTlb.GoodCtx(c) && g.lowmem == c.low && g.highmem == c.high && NonNegative(g)
    ensures OnlyMemoryIsRam(g) <==> g.Ssram() >= MB
  {
    assert c.low >= 2 * HugeTlb.MB;
    RamInside(g);
  }

  // ---- inputs on which the table is wrong ----------------------------------------------------

  const GPU_OPREGION_SIZE := 0x5000

  // passthru_gpu_dsm_opregion: the area begins in front of the stolen memory, and its address
  // is kept in 32 bits.
  function GpuGuest(lowmem: int, stolenBase: int, stolenSize: int): Guest
  {
    Guest(lowmem, 2 * GB, 0, (stolenBase - GPU_OPREGION_SIZE) % 0x1_0000_0000,
          GPU_OPREGION_SIZE + stolenSize, 0, 0)
  }

  // With half a megabyte of memory the address 1 MB is called RAM; set-up rules that out ...
  lemma RamOutside()
    ensures var g := Guest(MB / 2, 2 * GB, 0, 0, 0, 0, 0);
      g.Placed() && g.lowmem < MB && TypeAt(Table(Filled(g)), MB) == Some(RAM) && !InMemory(g, MB)
  {
    WrappedTypes(Guest(MB / 2, 2 * GB, 0, 0, 0, 0, 0), MB);
  }

  // ... but not stolen memory 1 MB above 4 GB, whose truncated address puts the GPU area below
  // 1 MB: then the end of memory, and everything above it, is called RAM.
  lemma RamBeyondMemory()
    ensures var g, c := GpuGuest(2 * GB, 0x1_0010_0000, 64 * MB), HugeTlb.Ctx(2 * GB, 0, 0, HugeTlb.FB_SIZE);
      && HugeTlb.GoodCtx(c) && g.lowmem == c.low && g.highmem == c.high && g.Placed() && g.gpuBase == 0xF_B000
      && TypeAt(Table(Filled(g)), 2 * GB) == Some(RAM) && !InMemory(g, 2 * GB)
  {
    WrappedTypes(GpuGuest(2 * GB, 0x1_0010_0000, 64 * MB), 2 * GB);
  }

  // Stolen memory at 3.5 GB runs into the PCI hole, and the table is no longer sorted.
  lemma Unsorted()
    ensures var g := GpuGuest(2 * GB, ECFG_BASE, 64 * MB);
      g.Placed() && !g.Wraps() && !Sorted(Table(Filled(g)))
  {
    var g := GpuGuest(2 * GB, ECFG_BASE, 64 * MB);
    assert g.gpuBase == 0xDFFF_B000;
    TableSorted(g);
  }
}
