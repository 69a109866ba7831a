// The disk geometry of blockif_chs in devicemodel/hw/block_if.c, after the CHS calculation in
// the appendix of the Virtual Hard Disk Image Format Specification.
module Chs {
  import opened Arithmetic

  // The largest disk a geometry can describe
  const MAX_SECTORS := 65535 * 16 * 255

  datatype Geometry = Geometry(cylinders: int, heads: int, sectors: int)

  function Clamp(sectors: int): int { if sectors > MAX_SECTORS then MAX_SECTORS else sectors }

  // Tracks, heads and sectors per track, on unbounded integers: as few sectors per track as
  // the heads allow
  datatype Shape = Shape(tracks: int, heads: int, sectors: int)

  function ShapeOf(n: int): (r: Shape)
    requires n >= 0
    ensures 4 <= r.heads <= 16 && r.sectors in {17, 31, 63, 255} && r.tracks == n / r.sectors
  {
    if n >= 65536 * 16 * 63 then Shape(n / 255, 16, 255)
    else
      var tracks := n / 17;
      var heads := if (tracks + 1023) / 1024 < 4 then 4 else (tracks + 1023) / 1024;
      if tracks < heads * 1024 && heads <= 16 then Shape(tracks, heads, 17)
      else if n / 31 < 16 * 1024 then Shape(n / 31, 16, 31)
      else Shape(n / 63, 16, 63)
  }

  function Layout(n: int): Geometry
    requires n >= 0
  { var r := ShapeOf(n); Geometry(r.tracks / r.heads, r.heads, r.sectors) }

  // blockif_chs, with the cylinders in 16 bits
  method Compute(size: int, sectsz: int) returns (c: int, h: int, s: int)
    requires 0 <= size && 0 < sectsz
    ensures Geometry(c, h, s) == Layout(Clamp(size / sectsz))
  {
    var sectors := size / sectsz;
    if sectors > MAX_SECTORS {
      sectors := MAX_SECTORS;
    }
    var hcyl, heads, secpt := Choose(sectors);
    Bounds(sectors);
    c := Low16(hcyl / heads);
    h, s := heads, secpt;
  }

  // A cylinder count that fits is stored as it is.
  method Low16(x: int) returns (c: int)
    ensures 0 <= x < 65536 ==> c == x
  {
    c := x % 65536;
  }

  // Its choice of heads and sectors per track, with the heads in 8 bits
  method Choose(sectors: int) returns (hcyl: int, heads: int, secpt: int)
    requires 0 <= sectors <= MAX_SECTORS
    ensures Shape(hcyl, heads, secpt) == ShapeOf(sectors)
  {
    if sectors >= 65536 * 16 * 63 {
      secpt, heads := 255, 16;
      hcyl := sectors / secpt;
    } else {
      secpt := 17;
      hcyl := sectors / secpt;
      heads := ((hcyl + 1023) / 1024) % 256;
      if heads < 4 {
        heads := 4;
      }
      if hcyl >= heads * 1024 || heads > 16 {
        secpt, heads := 31, 16;
        hcyl := sectors / secpt;
      }
      if hcyl >= heads * 1024 {
        secpt, heads := 63, 16;
        hcyl := sectors / secpt;
      }
    }
  }

  // The geometry fits its fields, never claims a sector the disk does not have, and leaves
  // out less than one cylinder.
  lemma Bounds(n: int)
    requires 0 <= n <= MAX_SECTORS
    ensures var g := Layout(n);
      && 0 <= g.cylinders < 65536 && 4 <= g.heads <= 16 && g.sectors in {17, 31, 63, 255}
      && 0 <= n - g.cylinders * g.heads * g.sectors < g.heads * g.sectors
  {
    var g := Layout(n);
    Cylinders(n, g.sectors, g.heads);
  }

  lemma Cylinders(n: int, s: int, h: int)
    requires 0 <= n && 0 < s && 0 < h
    ensures 0 <= n - (n / s / h) * h * s < h * s
  {
    var t := n / s;
    var c := t / h;
    DivBounds(n, s);
    DivBounds(t, h);
    Scale(c * h, t, s);
    Scale(t + 1, c * h + h, s);
  }

  // 17 sectors per track serve a disk of less than 16384 tracks, unless those fill all the
  // heads they call for to the last track.
  predicate FitsSmallTracks(n: int)
  { n / 17 < 16384 && (n / 17 < 4096 || n / 17 % 1024 != 0) }

  // Which tracks a disk gets, and how many heads
  lemma ShapeMeans(n: int)
    requires n >= 0
    ensures ShapeOf(n).sectors == 255 <==> n >= 66060288
    ensures ShapeOf(n).sectors == 17 <==> n < 66060288 && FitsSmallTracks(n)
    ensures ShapeOf(n).sectors == 31 <==> n < 507904 && !FitsSmallTracks(n)
    ensures ShapeOf(n).sectors == 63 <==> 507904 <= n < 66060288
    ensures ShapeOf(n).sectors != 17 ==> ShapeOf(n).heads == 16
    // the fewest heads, but at least four, that have 1024 tracks or less each
    ensures ShapeOf(n).sectors == 17 ==>
            var h := ShapeOf(n).heads; n / 17 < 1024 * h && (h == 4 || n / 17 > 1024 * (h - 1))
  {
    var t := n / 17;
    var h := (t + 1023) / 1024;
    DivBounds(t + 1023, 1024);
    DivBounds(t, 1024);
    assert n < 507904 <==> n / 31 < 16384;
  }

  // Up to 267382800 sectors the disk is described as it is; a larger one gets the largest
  // geometry there is.
  lemma ClampMeans(n: int)
    requires n >= 0
    ensures n <= 267382800 ==> Clamp(n) == n
    ensures n >= 267382800 ==> Layout(Clamp(n)) == Geometry(65535, 16, 255)
  {
    if n >= 267382800 {
      assert Clamp(n) / 255 == 65535 * 16;
    }
  }
}
