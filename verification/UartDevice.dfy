// uart_core.c as it is written: a ring buffer, byte registers and a pin, changed in place.
// Every operation takes exactly the step of Uart that it stands for.
module UartDevice {
  import opened Uart
  import UartHistory

  function Wrap(i: int, n: int): int { if i >= n then i - n else i }

  // The bytes of a ring of n slots, from index r on
  function Ring(b: seq<bv8>, r: int, num: int, n: int): (s: seq<bv8>)
    requires 0 <= r < n <= |b| && 0 <= num <= n
    ensures |s| == num && forall i :: 0 <= i < num ==> s[i] == b[Wrap(r + i, n)]
  { seq(num, i requires 0 <= i < num => b[Wrap(r + i, n)]) }

  lemma WrapIsMod(i: int, n: int)
    requires 0 <= i < n
    ensures (i + 1) % n == Wrap(i + 1, n)
  {
    if i + 1 == n {
      assert n % n == 0;
    }
  }

  lemma RingAppend(b: seq<bv8>, r: int, num: int, n: int, ch: bv8)
    requires 0 <= r < n <= |b| && 0 <= num < n
    ensures Ring(b[Wrap(r + num, n) := ch], r, num + 1, n) == Ring(b, r, num, n) + [ch]
  {
  }

  lemma NextSlot(r: int, num: int, n: int)
    requires 0 <= r < n && 0 <= num < n
    ensures Wrap(Wrap(r + num, n) + 1, n) == Wrap(r + (num + 1), n)
  {
  }

  lemma RingRest(b: seq<bv8>, r: int, num: int, n: int)
    requires 0 <= r < n <= |b| && 0 < num <= n
    ensures Ring(b, Wrap(r + 1, n), num - 1, n) == Ring(b, r, num, n)[1..]
  {
  }

  // struct fifo, its backend and the FIFO control register
  class Receiver {
    const size: int
    const tty: bool
    const buf: array<bv8>
    var rindex: int
    var windex: int
    var num: int
    var cap: int
    var fcr: bv8
    var event: bool
    var input: seq<bv8>
    ghost var accepted: seq<bv8>
    ghost var given: seq<bv8>

    ghost predicate Valid()
      reads this
    {
      && buf.Length == size && 1 <= cap <= size && 0 <= num <= cap && 0 <= rindex < cap
      && windex == Wrap(rindex + num, cap)
    }

    ghost function R(): Rx
      requires Valid()
      reads this, buf
    { Rx(fcr, Ring(buf[..], rindex, num, cap), cap, size, tty, event, input, accepted, given) }

    constructor (size: int, tty: bool)
      requires size >= 1
      ensures Valid() && fresh(buf) && R() == Init(size, tty).rx
    {
      this.size, this.tty := size, tty;
      buf := new bv8[size];
      rindex, windex, num, cap, fcr, event, input := 0, 0, 0, 1, 0, tty, [];
      accepted, given := [], [];
    }

    // uart_reset_backend: 32 bytes at a time until a read comes back short, then the event
    method ResetBackend()
      modifies this`input, this`event
      ensures input == (if tty then [] else old(input)) && event == (old(event) || tty)
    {
      if !tty {
        return;
      }
      var n := 32;
      while n == 32
        invariant 0 <= n <= 32 && (n != 32 ==> input == [])
        decreases |input| + n
      {
        n := Min(32, |input|);
        input := input[n..];
      }
      event := true;
    }

    // rxfifo_reset
    method ResetFifo(n: int)
      requires Valid() && 1 <= n
      modifies this
      ensures Valid() && R() == Reset(old(R()), n)
    {
      rindex, windex, num := 0, 0, 0;
      cap := if n > size then size else n;
      accepted, given := [], [];
      ResetBackend();
    }

    predicate Available() reads this { num < cap }

    // rxfifo_putchar
    method PutChar(ch: bv8) returns (ok: bool)
      requires Valid()
      modifies this, buf
      ensures Valid() && R() == Put(old(R()), ch) && ok == (old(num) < cap)
    {
      ok := num < cap;
      if ok {
        ghost var b := buf[..];
        RingAppend(b, rindex, num, cap, ch);
        NextSlot(rindex, num, cap);
        Store(ch);
        if !Available() && tty {
          event := false;
        }
      }
    }

    // The ring write: the byte goes to the next slot.
    method Store(ch: bv8)
      requires Valid() && num < cap
      modifies this`windex, this`num, this`accepted, buf
      ensures buf[..] == old(buf[..])[old(windex) := ch] && windex == Wrap(old(windex) + 1, cap)
      ensures num == old(num) + 1 && accepted == old(accepted) + [ch]
    {
      buf[windex] := ch;
      WrapIsMod(windex, cap);
      windex := (windex + 1) % cap;
      num := num + 1;
      accepted := accepted + [ch];
    }

    // rxfifo_getchar
    method GetChar() returns (ok: bool, c: bv8)
      requires Valid()
      modifies this
      ensures Valid() && R() == Get(old(R())) && ok == (old(num) > 0)
      ensures c == if ok then old(R()).q[0] else 0xFF
    {
      ok, c := num > 0, 0xFF;
      if ok {
        RingRest(buf[..], rindex, num, cap);
        var wasFull := !Available();
        c := buf[rindex];
        WrapIsMod(rindex, cap);
        rindex := (rindex + 1) % cap;
        num := num - 1;
        given := given + [c];
        if wasFull && tty {
          event := true;
        }
      }
    }

    // uart_backend_read; quota counts the reads that still succeed.
    method BackendRead(quota: int) returns (ok: bool, ch: bv8)
      modifies this`input
      ensures ok == (tty && old(input) != [] && quota > 0)
      ensures if ok then ch == old(input)[0] && input == old(input)[1..] else input == old(input)
    {
      ok, ch := tty && input != [] && quota > 0, 0;
      if ok {
        ch := input[0];
        input := input[1..];
      }
    }

    method WriteFifoControl(v: bv8)
      requires Valid()
      modifies this
      ensures Valid() && R() == WriteFcr(old(R()), v)
    {
      if (fcr & ENABLE) != (v & ENABLE) {
        ResetFifo(if v & ENABLE != 0 then size else 1);
      }
      if v & ENABLE == 0 {
        fcr := 0;
      } else {
        if v & RCV_RST != 0 {
          ResetFifo(size);
        }
        fcr := v & (ENABLE | DMA | RX_MASK);
      }
    }

    // uart_drain in loopback
    method DiscardOne(quota: int)
      requires Valid()
      modifies this`input
      ensures Valid() && R() == Discard(old(R()), quota)
    {
      var ok, ch := BackendRead(quota);
    }

    // The loop of uart_drain
    method DrainAll(quota: int)
      requires Valid()
      modifies this, buf
      ensures Valid() && R() == Fill(old(R()), quota)
    {
      ghost var r := R();
      var left := quota;
      while Available()
        invariant Valid() && left <= quota && (quota <= 0 ==> left == quota) && (quota > 0 ==> left >= 0)
        invariant 0 <= quota - left <= Room(r, quota) && R() == Fill(r, quota - left)
        decreases |input|
      {
        var ok, ch := BackendRead(left);
        if !ok {
          FillStop(r, quota, left);
          return;
        }
        ghost var r2 := R();
        var put := PutChar(ch);
        left := left - 1;
        FillMore(r, quota - left - 1, quota);
        assert R() == Put(r2, ch);
      }
      FillFull(r, quota, quota - left);
    }
  }

  lemma FillStop(r: Rx, quota: int, left: int)
    requires 0 <= quota - left <= Room(r, quota)
    requires var t := Fill(r, quota - left); !(t.tty && t.input != [] && left > 0) && |t.q| < t.cap
    ensures Fill(r, quota - left) == Fill(r, quota)
  {
  }

  lemma FillFull(r: Rx, quota: int, done: int)
    requires 0 <= done <= Room(r, quota) && |Fill(r, done).q| >= r.cap
    ensures Fill(r, done) == Fill(r, quota)
  {
  }

  lemma FillMore(r: Rx, done: int, quota: int)
    requires 0 <= done <= Room(r, quota) && |r.q| <= r.cap && r.tty
    requires var t := Fill(r, done); |t.q| < t.cap && t.input != [] && done < quota
    ensures var t := Fill(r, done);
            done < Room(r, quota) && Fill(r, done + 1) == Put(t.(input := t.input[1..]), t.input[0])
  {
  }

  // struct uart_vdev
  class Device {
    const rx: Receiver
    var ier: bv8
    var thre: bool
    var lsr: bv8
    var mcr: bv8
    var msr: bv8
    var lcr: bv8
    var scr: bv8
    var dll: bv8
    var dlh: bv8
    var output: seq<bv8>
    var pin: bool
    ghost var lost: int
    ghost var seen: seq<bv8>

    ghost predicate Valid() reads this, rx { rx.Valid() }

    ghost function S(): State
      requires Valid()
      reads this, rx, rx.buf
    {
      State(rx.R(), Irq(ier, thre), Status(lsr, lost), Modem(mcr, msr, seen), Latches(lcr, scr, dll, dlh),
            output, pin)
    }

    // uart_init and uart_reset
    constructor (size: int, tty: bool)
      requires size >= 1
      ensures Valid() && fresh(rx) && fresh(rx.buf) && S() == Init(size, tty)
    {
      rx := new Receiver(size, tty);
      ier, thre, lsr, mcr, msr, lcr, scr, dll, dlh := 0, true, 0, 0, DCD | DSR, 0, 0, 12, 0;
      output, pin, lost, seen := [], false, 0, [DCD | DSR];
    }

    // uart_intr_reason
    method IntrReason() returns (r: bv8)
      requires Valid()
      ensures r == Pending(S())
    {
      if lsr & OE != 0 && ier & ERLS != 0 {
        r := RLS;
      } else if rx.num > 0 && ier & ERXRDY != 0 {
        r := RXTOUT;
      } else if thre && ier & ETXRDY != 0 {
        r := TXRDY;
      } else if msr & DELTA_MASK != 0 && ier & EMSC != 0 {
        r := MLSC;
      } else {
        r := NOPEND;
      }
    }

    method ToggleIntr()
      requires Valid()
      modifies this`pin
      ensures S() == Toggle(old(S()))
    {
      var r := IntrReason();
      pin := r != NOPEND;
    }

    method WriteThr(v: bv8)
      requires Valid()
      modifies this`thre, this`lsr, this`output, this`pin, this`lost, rx, rx.buf
      ensures Valid() && S() == WriteData(old(S()), v).(pin := pin)
    {
      thre := false;
      ToggleIntr();
      if mcr & LOOPBACK != 0 {
        PutLoopback(v);
      } else if rx.tty {
        output := output + [v];
      }
      thre := true;
    }

    method WriteInterruptEnable(v: bv8)
      requires Valid()
      modifies this`ier, this`thre
      ensures S() == old(S()).(irq := WriteIer(old(S()).irq, v))
    {
      if ier & ETXRDY == 0 && v & ETXRDY != 0 {
        thre := true;
      }
      ier := v & 0x0F;
    }

    method WriteModemControl(v: bv8)
      requires Valid()
      modifies this`mcr, this`msr, this`seen
      ensures S() == old(S()).(modem := WriteMcr(old(S()).modem, v))
    {
      mcr := v & 0x1F;
      var now := ModemStatus(mcr);
      msr := UpdateMsr(msr, now);
      seen := seen + [now];
    }

    // The tests of uart_write on the modem inputs, then the update that keeps the deltas
    static method UpdateMsr(was: bv8, now: bv8) returns (msr: bv8)
      ensures msr == NewMsr(was, now)
    {
      msr := Raise(was, now, CTS, DCTS);
      ghost var d1 := if (now ^ was) & CTS != 0 then DCTS else 0;
      KeepsInput(was, now, d1);
      msr := Raise(msr, now, DSR, DDSR);
      ghost var d2 := if (now ^ was) & DSR != 0 then DDSR else 0;
      KeepsInput(was, now, d1 | d2);
      OrOr(was, d1, d2);
      msr := Raise(msr, now, DCD, DDCD);
      ghost var d3 := if (now ^ was) & DCD != 0 then DDCD else 0;
      KeepsInput(was, now, d1 | d2 | d3);
      OrOr(was, d1 | d2, d3);
      ghost var d4 := if was & RI != 0 && now & RI == 0 then TERI else 0;
      if msr & RI != 0 && now & RI == 0 {
        msr := msr | TERI;
      }
      OrOr(was, d1 | d2 | d3, d4);
      msr := msr & DELTA_MASK;
      msr := msr | now;
    }

    // Delta bits leave the inputs of the register alone.
    static lemma KeepsInput(was: bv8, now: bv8, d: bv8)
      requires d & !DELTA_MASK == 0
      ensures (now ^ (was | d)) & DSR == (now ^ was) & DSR && (now ^ (was | d)) & DCD == (now ^ was) & DCD
      ensures (was | d) & RI == was & RI
    {
    }

    static lemma OrOr(a: bv8, b: bv8, c: bv8)
      ensures (a | b) | c == a | (b | c) && a | 0 == a
    {
    }

    static method Raise(msr: bv8, now: bv8, input: bv8, delta: bv8) returns (r: bv8)
      ensures r == msr | if (now ^ msr) & input != 0 then delta else 0
    {
      r := msr;
      if (now & input) ^ (msr & input) != 0 {
        r := msr | delta;
      }
    }

    // Transmission in loopback
    method PutLoopback(v: bv8)
      requires Valid()
      modifies this`lsr, this`lost, rx, rx.buf
      ensures Valid() && rx.R() == Put(old(rx.R()), v)
      ensures if old(rx.num) < old(rx.cap) then lsr == old(lsr) && lost == old(lost)
              else lsr == old(lsr) | OE && lost == old(lost) + 1
    {
      var ok := rx.PutChar(v);
      if !ok {
        lsr := lsr | OE;
        lost := lost + 1;
      }
    }

    // uart_write
    method WriteRegister(offset: int, v: bv8)
      requires Valid()
      modifies this, rx, rx.buf
      ensures Valid() && S() == Step(old(S()), Write(offset, v))
    {
      var reg := Select(lcr, offset);
      Store(reg, v);
      ToggleIntr();
    }

    method Store(reg: Reg, v: bv8)
      requires Valid()
      modifies this, rx, rx.buf
      ensures Valid() && S() == Written(old(S()), reg, v).(pin := pin)
    {
      match reg
      case Dll => dll := v;
      case Dlh => dlh := v;
      case Data => WriteThr(v);
      case Ier => WriteInterruptEnable(v);
      case Fifo => rx.WriteFifoControl(v);
      case Lcr => lcr := v;
      case Mcr => WriteModemControl(v);
      case Scr => scr := v;
      case _ =>
    }

    // uart_read
    method ReadRegister(offset: int) returns (v: bv8)
      requires Valid()
      modifies this, rx
      ensures Valid() && S() == Step(old(S()), Read(offset))
      ensures v == Value(old(S()), Select(old(lcr), offset))
    {
      var reg := Select(lcr, offset);
      v := Load(reg);
      ToggleIntr();
    }

    method Load(reg: Reg) returns (v: bv8)
      requires Valid()
      modifies this, rx
      ensures Valid() && S() == AfterRead(old(S()), reg) && v == Value(old(S()), reg)
    {
      match reg
      case Dll => v := dll;
      case Dlh => v := dlh;
      case Data =>
        var ok, c := rx.GetChar();
        v := c;
      case Ier => v := ier;
      case Fifo => v := LoadIir();
      case Lcr => v := lcr;
      case Mcr => v := mcr;
      case Lsr => v := LoadLsr();
      case Msr =>
        v := msr;
        msr := msr & !DELTA_MASK;
        seen := [ModemStatus(mcr)];
      case Scr => v := scr;
      case Nothing => v := 0xFF;
    }

    method LoadIir() returns (v: bv8)
      requires Valid()
      modifies this`thre
      ensures S() == AfterRead(old(S()), Fifo) && v == Value(old(S()), Fifo)
    {
      var fifo := if rx.fcr & ENABLE != 0 then FIFO_MASK else 0;
      var reason := IntrReason();
      if reason == TXRDY {
        thre := false;
      }
      v := fifo | reason;
    }

    method LoadLsr() returns (v: bv8)
      requires Valid()
      modifies this`lsr, this`lost
      ensures S() == AfterRead(old(S()), Lsr) && v == Value(old(S()), Lsr)
    {
      lsr := lsr | TEMT | THRE;
      if rx.num > 0 {
        lsr := lsr | RXRDY;
      } else {
        lsr := lsr & !RXRDY;
      }
      v := lsr;
      lsr := lsr & !OE;
      lost := 0;
    }

    // uart_drain
    method DrainEvent(quota: int)
      requires Valid()
      modifies this`pin, rx, rx.buf
      ensures Valid() && S() == Step(old(S()), Drain(quota))
    {
      if mcr & LOOPBACK != 0 {
        rx.DiscardOne(quota);
      } else {
        rx.DrainAll(quota);
        ToggleIntr();
      }
    }

    // More input at the terminal
    method ArriveInput(bytes: seq<bv8>)
      requires Valid()
      modifies rx`input
      ensures Valid() && S() == Step(old(S()), Arrive(bytes))
    {
      if rx.tty {
        rx.input := rx.input + bytes;
      }
    }
  }

  // The values a guest reads in a run of the specification
  function Values(s: State, ops: seq<Op>): seq<bv8>
  {
    if ops == [] then []
    else
      var t, op := Run(s, ops[..|ops| - 1]), ops[|ops| - 1];
      Values(s, ops[..|ops| - 1]) + if op.Read? then [Value(t, Select(t.latches.lcr, op.offset))] else []
  }

  method Perform(dev: Device, op: Op, before: seq<bv8>) returns (values: seq<bv8>)
    requires dev.Valid()
    modifies dev, dev.rx, dev.rx.buf
    ensures dev.Valid() && dev.S() == Step(old(dev.S()), op)
    ensures values == before + if op.Read? then [Value(old(dev.S()), Select(old(dev.lcr), op.offset))] else []
  {
    values := before;
    match op
    case Write(offset, v) => dev.WriteRegister(offset, v);
    case Read(offset) =>
      var v := dev.ReadRegister(offset);
      values := before + [v];
    case Drain(quota) => dev.DrainEvent(quota);
    case Arrive(bytes) => dev.ArriveInput(bytes);
  }

  lemma {:induction false} ValuesTold(size: int, tty: bool, ops: seq<Op>)
    requires size >= 1
    ensures Values(Init(size, tty), ops) == UartHistory.Answers(size, tty, ops)
  {
    if ops != [] {
      var n := |ops| - 1;
      ValuesTold(size, tty, ops[..n]);
      UartHistory.RunTold(size, tty, ops[..n]);
      if ops[n].Read? {
        UartHistory.ReadTold(size, tty, Run(Init(size, tty), ops[..n]), ops[..n], ops[n].offset);
      }
    }
  }

  // Any history of accesses, from a new device on: the guest reads, the terminal gets and the
  // pin shows what the accesses themselves tell, which is what the specification says.
  method Replay(size: int, tty: bool, ops: seq<Op>) returns (values: seq<bv8>, output: seq<bv8>, pin: bool)
    requires size >= 1
    ensures values == UartHistory.Answers(size, tty, ops)
    ensures output == if tty then UartHistory.Sent(ops) else []
    ensures pin == (UartHistory.Cause(size, tty, ops) != 0x01)
    ensures values == Values(Init(size, tty), ops) && pin == Run(Init(size, tty), ops).pin
  {
    var dev := new Device(size, tty);
    values := [];
    ghost var s := Init(size, tty);
    for i := 0 to |ops|
      invariant fresh(dev) && fresh(dev.rx) && fresh(dev.rx.buf)
      invariant dev.Valid() && dev.S() == Run(s, ops[..i]) && values == Values(s, ops[..i])
    {
      assert ops[..i + 1][..i] == ops[..i];
      values := Perform(dev, ops[i], values);
    }
    assert ops[..|ops|] == ops;
    output, pin := dev.output, dev.pin;
    ValuesTold(size, tty, ops);
    UartHistory.RunTold(size, tty, ops);
    UartHistory.PendingTold(size, tty, dev.S(), ops);
  }
}
