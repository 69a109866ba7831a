// Conversion between ticks and time of devicemodel/include/timer.h, with the wrap-around of
// its 64-bit arithmetic.
module Timer {
  import opened Arithmetic

  const NS_PER_SEC := 1_000_000_000
  const TWO_64 := 0x1_0000_0000_0000_0000

  datatype Timespec = Timespec(sec: int, nsec: int)
  {
    function Ns(): int { sec * NS_PER_SEC + nsec }
  }

  // uint64_t
  function U64(x: int): int { x % TWO_64 }

  function TsToTicks(freq: int, ts: Timespec): int
  { U64(U64(ts.sec * freq) + U64(ts.nsec * freq) / NS_PER_SEC) }

  function TicksToTs(freq: int, ticks: int): Timespec
    requires freq > 0
  {
    var ns := U64(U64(ticks * NS_PER_SEC) + (freq - 1)) / freq;
    Timespec(ns / NS_PER_SEC, ns % NS_PER_SEC)
  }

  // The product with NS_PER_SEC and the rounding up stay within 64 bits.
  predicate Fits(freq: int, ticks: int) { ticks * NS_PER_SEC + (freq - 1) < TWO_64 }

  ghost predicate RoundTrip(freq: int, ticks: int)
    requires freq > 0
  { TsToTicks(freq, TicksToTs(freq, ticks)) == ticks }

  // After ns nanoseconds ticks of a clock of this frequency have elapsed.
  predicate Elapsed(freq: int, ns: int, ticks: int) { ticks * NS_PER_SEC <= ns * freq }

  // ---- arithmetic ----------------------------------------------------------------------------

  // Seconds and nanoseconds are converted apart, and nothing is lost by it.
  lemma ApartIsWhole(freq: int, ts: Timespec)
    requires 0 < freq && 0 <= ts.sec && 0 <= ts.nsec < NS_PER_SEC && ts.Ns() * freq < TWO_64
    ensures TsToTicks(freq, ts) == ts.Ns() * freq / NS_PER_SEC
  {
    Scale(0, ts.sec, freq);
    Scale(0, ts.nsec, freq);
    assert ts.Ns() * freq == (ts.sec * freq) * NS_PER_SEC + ts.nsec * freq;
    SumApart(ts.sec * freq, ts.nsec * freq);
  }

  lemma SumApart(a: int, b: int)
    requires 0 <= a && 0 <= b && a * NS_PER_SEC + b < TWO_64
    ensures U64(U64(a) + U64(b) / NS_PER_SEC) == (a * NS_PER_SEC + b) / NS_PER_SEC
  {
  }

  lemma TsParts(ns: int)
    requires ns >= 0
    ensures var ts := Timespec(ns / NS_PER_SEC, ns % NS_PER_SEC);
            0 <= ts.sec && 0 <= ts.nsec < NS_PER_SEC && ts.Ns() == ns
  {
  }

  // ---- the theorems --------------------------------------------------------------------------

  // The time produced is the first nanosecond at which the ticks have elapsed.
  lemma Earliest(freq: int, ticks: int, ns: int)
    requires 0 < freq && 0 <= ticks && Fits(freq, ticks)
    ensures var t := TicksToTs(freq, ticks);
            t.Ns() >= 0 && 0 <= t.nsec < NS_PER_SEC && (Elapsed(freq, ns, ticks) <==> t.Ns() <= ns)
  {
    var x := ticks * NS_PER_SEC + (freq - 1);
    var first := x / freq;
    DivBounds(x, freq);
    TsParts(first);
    if first <= ns {
      Scale(first, ns, freq);
    } else {
      Scale(ns + 1, first, freq);
    }
  }

  // Within 64 bits the way back divides the produced time exactly.
  lemma BackIs(freq: int, ticks: int)
    requires 0 < freq && 0 <= ticks
    ensures var t := TicksToTs(freq, ticks);
      && t.Ns() == U64(ticks * NS_PER_SEC + (freq - 1)) / freq && t.Ns() * freq <= U64(ticks * NS_PER_SEC + (freq - 1))
      && TsToTicks(freq, t) == t.Ns() * freq / NS_PER_SEC
  {
    var w := U64(ticks * NS_PER_SEC + (freq - 1));
    WrapTwice(ticks * NS_PER_SEC, freq - 1);
    DivBounds(w, freq);
    assert w / freq >= 0;
    TsParts(w / freq);
    ApartIsWhole(freq, TicksToTs(freq, ticks));
  }

  lemma WrapTwice(x: int, y: int)
    ensures U64(U64(x) + y) == U64(x + y)
  {
  }

  // How late the produced time is, in units of a tick divided by NS_PER_SEC: what rounding up
  // to a whole nanosecond adds
  function Late(freq: int, ticks: int): (r: int)
    requires freq > 0
    ensures 0 <= r < freq
  { freq - 1 - (ticks * NS_PER_SEC + (freq - 1)) % freq }

  lemma NsIs(freq: int, ticks: int)
    requires 0 < freq && 0 <= ticks && Fits(freq, ticks)
    ensures TicksToTs(freq, ticks).Ns() == (ticks * NS_PER_SEC + (freq - 1)) / freq
  {
    BackIs(freq, ticks);
    NoWrap(ticks * NS_PER_SEC + (freq - 1));
  }

  lemma NoWrap(x: int)
    requires 0 <= x < TWO_64
    ensures U64(x) == x
  {
  }

  lemma LateIs(freq: int, ticks: int)
    requires 0 < freq && 0 <= ticks && Fits(freq, ticks)
    ensures TicksToTs(freq, ticks).Ns() * freq == ticks * NS_PER_SEC + Late(freq, ticks)
  {
    NsIs(freq, ticks);
    Remainder(ticks * NS_PER_SEC + (freq - 1), freq);
  }

  lemma Remainder(x: int, y: int)
    requires y > 0
    ensures (x / y) * y == x - x % y
  {
  }

  // Within 64 bits the ticks come back if and only if the time is less than a tick late.
  lemma BackExact(freq: int, ticks: int)
    requires 0 < freq && 0 <= ticks && Fits(freq, ticks)
    ensures TicksToTs(freq, ticks).Ns() * freq / NS_PER_SEC == ticks <==> Late(freq, ticks) < NS_PER_SEC
  {
    LateIs(freq, ticks);
    var x := TicksToTs(freq, ticks).Ns() * freq;
    if Late(freq, ticks) < NS_PER_SEC {
      DivIs(x, NS_PER_SEC, ticks);
    } else {
      DivBounds(x, NS_PER_SEC);
    }
  }

  // After an overflow the way back cannot reach the ticks any more.
  lemma BackShort(freq: int, ticks: int)
    requires 0 < freq <= TWO_64 && 0 <= ticks && !Fits(freq, ticks)
    ensures TicksToTs(freq, ticks).Ns() * freq / NS_PER_SEC < ticks
  {
    BackIs(freq, ticks);
    var x := TicksToTs(freq, ticks).Ns() * freq;
    var total := ticks * NS_PER_SEC + (freq - 1);
    assert U64(total) <= total - TWO_64;
    DivBounds(x, NS_PER_SEC);
    Scale(ticks, Max(ticks, x / NS_PER_SEC), NS_PER_SEC);
  }

  function Max(a: int, b: int): int { if a < b then b else a }

  // For every 32-bit frequency, ticks survive the round trip if and only if nothing overflows
  // and rounding up to a nanosecond adds less than a tick.
  lemma RoundTripIff(freq: int, ticks: int)
    requires 1 <= freq < 0x1_0000_0000 && 0 <= ticks
    ensures RoundTrip(freq, ticks) <==> Fits(freq, ticks) && Late(freq, ticks) < NS_PER_SEC
  {
    BackIs(freq, ticks);
    if Fits(freq, ticks) {
      BackExact(freq, ticks);
    } else {
      BackShort(freq, ticks);
    }
  }

  // For a clock of at most 1 GHz that is: if and only if nothing overflows.
  lemma RoundTripExact(freq: int, ticks: int)
    requires 1 <= freq <= NS_PER_SEC && 0 <= ticks
    ensures RoundTrip(freq, ticks) <==> Fits(freq, ticks)
  {
    RoundTripIff(freq, ticks);
  }

  // A faster clock cannot be converted back: two tick counts share a nanosecond.
  lemma {:induction false} Spread(freq: int, ticks: int)
    requires NS_PER_SEC < freq < 0x1_0000_0000 && 0 <= ticks <= freq
    requires forall t :: 0 <= t <= freq ==> RoundTrip(freq, t)
    ensures TicksToTs(freq, ticks).Ns() >= ticks
    decreases ticks
  {
    Earliest(freq, ticks, 0);
    if ticks > 0 {
      Spread(freq, ticks - 1);
      assert RoundTrip(freq, ticks) && RoundTrip(freq, ticks - 1);
      var a, b := TicksToTs(freq, ticks - 1), TicksToTs(freq, ticks);
      Earliest(freq, ticks - 1, b.Ns());
      Earliest(freq, ticks, b.Ns());
      if a.Ns() == b.Ns() {
        SameNs(a, b);
      }
    }
  }

  lemma SameNs(a: Timespec, b: Timespec)
    requires a.Ns() == b.Ns() && 0 <= a.nsec < NS_PER_SEC && 0 <= b.nsec < NS_PER_SEC
    ensures a == b
  {
  }

  // Over all tick counts a 32-bit frequency is exact if and only if it is at most 1 GHz.
  lemma ExactFrequencies(freq: int)
    requires 1 <= freq < 0x1_0000_0000
    ensures (forall t :: t >= 0 && Fits(freq, t) ==> RoundTrip(freq, t)) <==> freq <= NS_PER_SEC
  {
    if freq <= NS_PER_SEC {
      forall t | t >= 0 && Fits(freq, t) ensures RoundTrip(freq, t) { RoundTripExact(freq, t); }
    } else if forall t :: t >= 0 && Fits(freq, t) ==> RoundTrip(freq, t) {
      assert forall t :: 0 <= t <= freq ==> Fits(freq, t);
      Spread(freq, freq);
      Earliest(freq, freq, NS_PER_SEC);
    }
  }

  // The first tick count whose product overflows comes back as another one ...
  lemma OverflowLoses()
    ensures !Fits(1, 18_446_744_074) && !RoundTrip(1, 18_446_744_074)
  {
    assert U64(18_446_744_074 * NS_PER_SEC) == 290_448_384;
    assert TicksToTs(1, 18_446_744_074) == Timespec(0, 290_448_384);
  }

  // ... and one tick of a 2 GHz clock comes back as two.
  lemma FastClockLoses()
    ensures Fits(2_000_000_000, 1) && TsToTicks(2_000_000_000, TicksToTs(2_000_000_000, 1)) == 2
  {
    assert TicksToTs(2_000_000_000, 1) == Timespec(0, 1);
  }
}
