// The register-level behaviour of the emulated 16550 of devicemodel/hw/uart_core.c, after
// sections 8.4 to 8.9 of the PC16550D datasheet, as one step per register access or event.
module Uart {
  // The registers an access can address; Fifo is the FCR when written and the IIR when read.
  datatype Reg = Data | Ier | Fifo | Lcr | Mcr | Lsr | Msr | Scr | Dll | Dlh | Nothing

  const ERXRDY: bv8 := 0x01
  const ETXRDY: bv8 := 0x02
  const ERLS: bv8 := 0x04
  const EMSC: bv8 := 0x08
  const RLS: bv8 := 0x6
  const RXTOUT: bv8 := 0xC
  const TXRDY: bv8 := 0x2
  const NOPEND: bv8 := 0x1
  const MLSC: bv8 := 0x0
  const FIFO_MASK: bv8 := 0xC0
  const DLAB: bv8 := 0x80
  const DTR: bv8 := 0x01
  const RTS: bv8 := 0x02
  const OUT1: bv8 := 0x04
  const OUT2: bv8 := 0x08
  const LOOPBACK: bv8 := 0x10
  const TEMT: bv8 := 0x40
  const THRE: bv8 := 0x20
  const OE: bv8 := 0x02
  const RXRDY: bv8 := 0x01
  const DCD: bv8 := 0x80
  const RI: bv8 := 0x40
  const DSR: bv8 := 0x20
  const CTS: bv8 := 0x10
  const DDCD: bv8 := 0x08
  const TERI: bv8 := 0x04
  const DDSR: bv8 := 0x02
  const DCTS: bv8 := 0x01
  const DELTA_MASK: bv8 := 0x0F
  const ENABLE: bv8 := 0x01
  const RCV_RST: bv8 := 0x02
  const DMA: bv8 := 0x08
  const RX_MASK: bv8 := 0xC0

  // The receive queue q of capacity cap (struct fifo), the FIFO control register and the
  // terminal that feeds the queue (struct uart_backend): is there one, is its event enabled,
  // which bytes has it not been asked for yet.  The last two fields record history: the bytes
  // accepted into the queue and those given to the guest since the last reset.
  datatype Rx = Rx(fcr: bv8, q: seq<bv8>, cap: int, size: int, tty: bool, event: bool, input: seq<bv8>,
                   accepted: seq<bv8>, given: seq<bv8>)

  // Interrupt enable register, and whether the transmitter has an interrupt to report
  datatype Irq = Irq(ier: bv8, thre: bool)

  // Line status register; as history, how many bytes an overrun lost since it was last read
  datatype Status = Status(lsr: bv8, lost: int)

  // Modem control and status; as history, the modem inputs since the status was last read
  datatype Modem = Modem(mcr: bv8, msr: bv8, seen: seq<bv8>)

  // Registers that only hold what was written to them
  datatype Latches = Latches(lcr: bv8, scr: bv8, dll: bv8, dlh: bv8)

  // The whole device, with the bytes it sent to the terminal and its interrupt pin
  datatype State = State(rx: Rx, irq: Irq, status: Status, modem: Modem, latches: Latches, output: seq<bv8>, pin: bool)

  datatype Op =
    | Write(offset: int, value: bv8)
    | Read(offset: int)
    | Drain(quota: int)            // the terminal's event; quota reads succeed at most
    | Arrive(bytes: seq<bv8>)      // more input at the terminal

  // ---- the receive queue ---------------------------------------------------------------------

  function Reset(r: Rx, n: int): Rx
  {
    r.(q := [], cap := if n > r.size then r.size else n, accepted := [], given := [],
       input := if r.tty then [] else r.input, event := r.event || r.tty)
  }

  function Put(r: Rx, ch: bv8): Rx
  {
    if |r.q| < r.cap then
      r.(q := r.q + [ch], accepted := r.accepted + [ch], event := r.event && !(r.tty && |r.q| + 1 >= r.cap))
    else r
  }

  function Get(r: Rx): Rx
  {
    if |r.q| > 0 then
      r.(q := r.q[1..], given := r.given + [r.q[0]], event := r.event || (r.tty && |r.q| >= r.cap))
    else r
  }

  function Min(a: int, b: int): int { if a < b then a else b }

  // How many bytes one run of uart_drain takes: as many as there are, as fit and as can be read
  function Room(r: Rx, quota: int): (n: int)
    ensures 0 <= n <= |r.input|
  { if r.tty && |r.q| < r.cap && quota > 0 then Min(quota, Min(|r.input|, r.cap - |r.q|)) else 0 }

  // uart_drain outside loopback
  function Fill(r: Rx, quota: int): Rx
  {
    var n := Room(r, quota);
    r.(q := r.q + r.input[..n], accepted := r.accepted + r.input[..n], input := r.input[n..],
       event := r.event && !(n > 0 && |r.q| + n >= r.cap))
  }

  // uart_drain in loopback: one byte is read and thrown away.
  function Discard(r: Rx, quota: int): Rx
  { if r.tty && r.input != [] && quota > 0 then r.(input := r.input[1..]) else r }

  function WriteFcr(r: Rx, v: bv8): Rx
  {
    var r1 := if (r.fcr & ENABLE) != (v & ENABLE) then Reset(r, if v & ENABLE != 0 then r.size else 1) else r;
    if v & ENABLE == 0 then r1.(fcr := 0)
    else (if v & RCV_RST != 0 then Reset(r1, r1.size) else r1).(fcr := v & (ENABLE | DMA | RX_MASK))
  }

  // ---- status --------------------------------------------------------------------------------

  function ModemStatus(mcr: bv8): bv8
  {
    if mcr & LOOPBACK != 0 then
      (if mcr & RTS != 0 then CTS else 0) | (if mcr & DTR != 0 then DSR else 0) |
      (if mcr & OUT1 != 0 then RI else 0) | (if mcr & OUT2 != 0 then DCD else 0)
    else DCD | DSR
  }

  predicate Loopback(m: Modem) { m.mcr & LOOPBACK != 0 }

  // The delta bits a change of the modem inputs raises
  function Delta(was: bv8, now: bv8): bv8
  {
    (if (now ^ was) & CTS != 0 then DCTS else 0) | (if (now ^ was) & DSR != 0 then DDSR else 0) |
    (if (now ^ was) & DCD != 0 then DDCD else 0) | (if was & RI != 0 && now & RI == 0 then TERI else 0)
  }

  // The delta bits of a whole history of inputs
  function Deltas(seen: seq<bv8>): (d: bv8)
    ensures d & !DELTA_MASK == 0
  {
    if |seen| < 2 then 0 else Deltas(seen[..|seen| - 1]) | Delta(seen[|seen| - 2], seen[|seen| - 1])
  }

  function NewMsr(msr: bv8, now: bv8): bv8 { ((msr | Delta(msr, now)) & DELTA_MASK) | now }

  function WriteMcr(m: Modem, v: bv8): Modem
  {
    var now := ModemStatus(v & 0x1F);
    Modem(v & 0x1F, NewMsr(m.msr, now), m.seen + [now])
  }

  function ReadMsr(m: Modem): Modem { Modem(m.mcr, m.msr & !DELTA_MASK, [ModemStatus(m.mcr)]) }

  function Overrun(t: Status): Status { Status(t.lsr | OE, t.lost + 1) }

  function LineStatus(lsr: bv8, data: bool): bv8
  { if data then lsr | TEMT | THRE | RXRDY else (lsr | TEMT | THRE) & !RXRDY }

  function ReadLsr(t: Status, data: bool): Status { Status(LineStatus(t.lsr, data) & !OE, 0) }

  function WriteIer(i: Irq, v: bv8): Irq
  { Irq(v & 0x0F, i.thre || (i.ier & ETXRDY == 0 && v & ETXRDY != 0)) }

  // The highest pending interrupt
  function Reason(rx: Rx, irq: Irq, status: Status, modem: Modem): bv8
  {
    if status.lsr & OE != 0 && irq.ier & ERLS != 0 then RLS
    else if |rx.q| > 0 && irq.ier & ERXRDY != 0 then RXTOUT
    else if irq.thre && irq.ier & ETXRDY != 0 then TXRDY
    else if modem.msr & DELTA_MASK != 0 && irq.ier & EMSC != 0 then MLSC
    else NOPEND
  }

  function Pending(s: State): bv8 { Reason(s.rx, s.irq, s.status, s.modem) }

  function Toggle(s: State): State { s.(pin := Pending(s) != NOPEND) }

  // ---- register accesses ---------------------------------------------------------------------

  // Which register an offset addresses: DLAB puts the divisor latch over the first two.
  function Select(lcr: bv8, offset: int): Reg
  {
    if lcr & DLAB != 0 && offset == 0 then Dll
    else if lcr & DLAB != 0 && offset == 1 then Dlh
    else if 0 <= offset <= 7 then [Data, Ier, Fifo, Lcr, Mcr, Lsr, Msr, Scr][offset]
    else Nothing
  }

  function WriteData(s: State, v: bv8): State
  {
    var t := s.(irq := s.irq.(thre := true));
    if Loopback(s.modem) then
      if |s.rx.q| < s.rx.cap then t.(rx := Put(s.rx, v)) else t.(status := Overrun(s.status))
    else if s.rx.tty then t.(output := s.output + [v])
    else t
  }

  function Written(s: State, reg: Reg, v: bv8): State
  {
    match reg
    case Dll => s.(latches := s.latches.(dll := v))
    case Dlh => s.(latches := s.latches.(dlh := v))
    case Data => WriteData(s, v)
    case Ier => s.(irq := WriteIer(s.irq, v))
    case Fifo => s.(rx := WriteFcr(s.rx, v))
    case Lcr => s.(latches := s.latches.(lcr := v))
    case Mcr => s.(modem := WriteMcr(s.modem, v))
    case Scr => s.(latches := s.latches.(scr := v))
    case _ => s
  }

  // What a read leaves behind
  function AfterRead(s: State, reg: Reg): State
  {
    match reg
    case Data => s.(rx := Get(s.rx))
    case Fifo => s.(irq := s.irq.(thre := s.irq.thre && Pending(s) != TXRDY))
    case Lsr => s.(status := ReadLsr(s.status, |s.rx.q| > 0))
    case Msr => s.(modem := ReadMsr(s.modem))
    case _ => s
  }

  // The value the guest gets
  function Value(s: State, reg: Reg): bv8
  {
    match reg
    case Dll => s.latches.dll
    case Dlh => s.latches.dlh
    case Data => (if |s.rx.q| > 0 then s.rx.q[0] else 0xFF)
    case Ier => s.irq.ier
    case Fifo => (if s.rx.fcr & ENABLE != 0 then FIFO_MASK else 0) | Pending(s)
    case Lcr => s.latches.lcr
    case Mcr => s.modem.mcr
    case Lsr => LineStatus(s.status.lsr, |s.rx.q| > 0)
    case Msr => s.modem.msr
    case Scr => s.latches.scr
    case Nothing => 0xFF
  }

  function Step(s: State, op: Op): State
  {
    match op
    case Write(offset, v) => Toggle(Written(s, Select(s.latches.lcr, offset), v))
    case Read(offset) => Toggle(AfterRead(s, Select(s.latches.lcr, offset)))
    case Drain(quota) =>
      if Loopback(s.modem) then s.(rx := Discard(s.rx, quota)) else Toggle(s.(rx := Fill(s.rx, quota)))
    case Arrive(bytes) => if s.rx.tty then s.(rx := s.rx.(input := s.rx.input + bytes)) else s
  }

  // calloc, uart_reset, and then the terminal with its event, if there is one
  function Init(size: int, tty: bool): State
  {
    State(Rx(0, [], 1, size, tty, tty, [], [], []), Irq(0, true), Status(0, 0), Modem(0, DCD | DSR, [DCD | DSR]),
          Latches(0, 0, 12, 0), [], false)
  }

  function Run(s: State, ops: seq<Op>): State
  { if ops == [] then s else Step(Run(s, ops[..|ops| - 1]), ops[|ops| - 1]) }

  // ---- what every run keeps ------------------------------------------------------------------

  ghost predicate Queue(r: Rx)
  {
    && r.size >= 1 && r.cap == (if r.fcr & ENABLE != 0 then r.size else 1) && |r.q| <= r.cap
    // between resets the bytes accepted are the bytes read followed by the queue
    && r.accepted == r.given + r.q
    // flow control
    && (r.tty ==> (r.event <==> |r.q| < r.cap))
  }

  // An overrun shows exactly while a byte was lost since the last read.
  ghost predicate LineOk(t: Status) { t.lost >= 0 && (t.lsr & OE != 0 <==> t.lost > 0) }

  // The modem status is the present inputs and what has changed since the last read.
  ghost predicate ModemOk(m: Modem)
  { |m.seen| > 0 && m.seen[|m.seen| - 1] == ModemStatus(m.mcr) && m.msr == Deltas(m.seen) | ModemStatus(m.mcr) }

  ghost predicate Inv(s: State)
  { Queue(s.rx) && LineOk(s.status) && ModemOk(s.modem) && s.pin == (Pending(s) != NOPEND) }

  lemma FillQueue(r: Rx, quota: int)
    requires Queue(r)
    ensures Queue(Fill(r, quota))
  {
    var n := Room(r, quota);
    assert r.given + r.q + r.input[..n] == r.given + (r.q + r.input[..n]);
  }

  lemma GetQueue(r: Rx)
    requires Queue(r)
    ensures Queue(Get(r))
  {
    if |r.q| > 0 {
      assert r.given + r.q == r.given + [r.q[0]] + r.q[1..];
    }
  }

  lemma PutQueue(r: Rx, v: bv8)
    requires Queue(r)
    ensures Queue(Put(r, v))
  {
    assert r.given + r.q + [v] == r.given + (r.q + [v]);
  }

  lemma FcrQueue(r: Rx, v: bv8)
    requires Queue(r)
    ensures Queue(WriteFcr(r, v))
  {
    assert v & ENABLE != 0 ==> (v & (ENABLE | DMA | RX_MASK)) & ENABLE != 0;
    assert (r.fcr & ENABLE != 0) == (v & ENABLE != 0) <==> r.fcr & ENABLE == v & ENABLE;
  }

  lemma OverrunLine(t: Status)
    requires LineOk(t)
    ensures LineOk(Overrun(t))
  {
  }

  lemma ReadLine(t: Status, data: bool)
    ensures LineOk(ReadLsr(t, data))
  {
    ClearsOverrun(LineStatus(t.lsr, data));
  }

  lemma ClearsOverrun(lsr: bv8)
    ensures (lsr & !OE) & OE == 0
  {
  }

  lemma McrModem(m: Modem, v: bv8)
    requires ModemOk(m)
    ensures ModemOk(WriteMcr(m, v))
  {
    ModemHigh(m.mcr);
    ModemHigh(v & 0x1F);
    NextMsr(m.msr, m.seen, ModemStatus(v & 0x1F));
  }

  lemma NextMsr(msr: bv8, seen: seq<bv8>, now: bv8)
    requires |seen| > 0 && seen[|seen| - 1] & DELTA_MASK == 0 && now & DELTA_MASK == 0
    requires msr == Deltas(seen) | seen[|seen| - 1]
    ensures NewMsr(msr, now) == Deltas(seen + [now]) | now
  {
    MsrFrom(msr, seen, now);
    DeltasMore(seen, now);
  }

  lemma MsrFrom(msr: bv8, seen: seq<bv8>, now: bv8)
    requires |seen| > 0 && seen[|seen| - 1] & DELTA_MASK == 0 && now & DELTA_MASK == 0
    requires msr == Deltas(seen) | seen[|seen| - 1]
    ensures NewMsr(msr, now) == (Deltas(seen) | Delta(seen[|seen| - 1], now)) | now
  {
    var was, d := seen[|seen| - 1], Deltas(seen);
    DeltaHigh(msr, was, now, d);
    MixBits(msr, was, now, d, Delta(was, now));
  }

  lemma DeltasMore(seen: seq<bv8>, now: bv8)
    requires |seen| > 0
    ensures Deltas(seen + [now]) == Deltas(seen) | Delta(seen[|seen| - 1], now)
  {
    assert (seen + [now])[..|seen|] == seen;
  }

  lemma MsrModem(m: Modem)
    requires ModemOk(m)
    ensures ModemOk(ReadMsr(m))
  {
    ModemHigh(m.mcr);
    LowBits(m.msr, ModemStatus(m.mcr), Deltas(m.seen));
  }

  lemma LowBits(msr: bv8, high: bv8, low: bv8)
    requires high & DELTA_MASK == 0 && low & !DELTA_MASK == 0 && msr == low | high
    ensures msr & !DELTA_MASK == high && 0 | high == high && msr & DELTA_MASK == low
    ensures (msr & DCTS != 0 <==> low & DCTS != 0) && (msr & DDSR != 0 <==> low & DDSR != 0)
    ensures (msr & DDCD != 0 <==> low & DDCD != 0) && (msr & TERI != 0 <==> low & TERI != 0)
  {
  }

  // The delta bits do not look at the delta bits they join.
  lemma DeltaHigh(msr: bv8, was: bv8, now: bv8, d: bv8)
    requires d & !DELTA_MASK == 0 && msr == d | was
    ensures Delta(msr, now) == Delta(was, now) && Delta(was, now) & !DELTA_MASK == 0
  {
  }

  lemma MixBits(msr: bv8, was: bv8, now: bv8, d: bv8, x: bv8)
    requires was & DELTA_MASK == 0 && d & !DELTA_MASK == 0 && msr == d | was && x & !DELTA_MASK == 0
    ensures ((msr | x) & DELTA_MASK) | now == (d | x) | now
  {
  }

  lemma ModemHigh(mcr: bv8)
    ensures ModemStatus(mcr) & DELTA_MASK == 0
  {
  }

  lemma WriteInv(s: State, reg: Reg, v: bv8)
    requires Inv(s)
    ensures Inv(Toggle(Written(s, reg, v)))
  {
    match reg
    case Data =>
      PutQueue(s.rx, v);
      OverrunLine(s.status);
    case Fifo => FcrQueue(s.rx, v);
    case Mcr => McrModem(s.modem, v);
    case _ =>
  }

  lemma ReadInv(s: State, reg: Reg)
    requires Inv(s)
    ensures Inv(Toggle(AfterRead(s, reg)))
  {
    GetQueue(s.rx);
    ReadLine(s.status, |s.rx.q| > 0);
    MsrModem(s.modem);
  }

  lemma StepInv(s: State, op: Op)
    requires Inv(s)
    ensures Inv(Step(s, op))
  {
    match op
    case Write(offset, v) => WriteInv(s, Select(s.latches.lcr, offset), v);
    case Read(offset) => ReadInv(s, Select(s.latches.lcr, offset));
    case Drain(quota) => FillQueue(s.rx, quota);
    case Arrive(_) =>
  }

  // Over every run: conservation of received bytes, flow control, the size of the queue, the
  // two status registers and the level of the interrupt pin
  lemma {:induction false} RunInv(size: int, tty: bool, ops: seq<Op>)
    requires size >= 1
    ensures Inv(Run(Init(size, tty), ops))
  {
    if ops == [] {
      assert ModemStatus(0) == DCD | DSR;
      assert Deltas([DCD | DSR]) == 0;
    } else {
      RunInv(size, tty, ops[..|ops| - 1]);
      StepInv(Run(Init(size, tty), ops[..|ops| - 1]), ops[|ops| - 1]);
    }
  }

  // ---- what the status bits mean -------------------------------------------------------------

  ghost predicate Changed(seen: seq<bv8>, mask: bv8)
  { exists i :: 0 <= i < |seen| - 1 && Differ(seen[i], seen[i + 1], mask) }

  predicate Differ(a: bv8, b: bv8, mask: bv8) { (a ^ b) & mask != 0 }

  ghost predicate RingEnded(seen: seq<bv8>)
  { exists i :: 0 <= i < |seen| - 1 && Fell(seen[i], seen[i + 1]) }

  predicate Fell(a: bv8, b: bv8) { a & RI != 0 && b & RI == 0 }

  lemma DeltaMeans(was: bv8, now: bv8, d: bv8)
    ensures (d | Delta(was, now)) & DCTS != 0 <==> d & DCTS != 0 || Differ(was, now, CTS)
    ensures (d | Delta(was, now)) & DDSR != 0 <==> d & DDSR != 0 || Differ(was, now, DSR)
    ensures (d | Delta(was, now)) & DDCD != 0 <==> d & DDCD != 0 || Differ(was, now, DCD)
    ensures (d | Delta(was, now)) & TERI != 0 <==> d & TERI != 0 || Fell(was, now)
  {
  }

  lemma ChangedMore(seen: seq<bv8>, mask: bv8)
    requires |seen| >= 2
    ensures var n := |seen| - 1; Changed(seen, mask) <==> Changed(seen[..n], mask) || Differ(seen[n - 1], seen[n], mask)
  {
    var n := |seen| - 1;
    ChangedUp(seen, n, mask);
    if Changed(seen, mask) {
      var i :| 0 <= i < n && Differ(seen[i], seen[i + 1], mask);
      assert i < n - 1 ==> Differ(seen[..n][i], seen[..n][i + 1], mask);
    }
  }

  lemma ChangedUp(seen: seq<bv8>, n: int, mask: bv8)
    requires 0 <= n <= |seen|
    ensures Changed(seen[..n], mask) ==> Changed(seen, mask)
  {
    if Changed(seen[..n], mask) {
      var i :| 0 <= i < n - 1 && Differ(seen[..n][i], seen[..n][i + 1], mask);
      assert Differ(seen[i], seen[i + 1], mask);
    }
  }

  lemma RingEndedMore(seen: seq<bv8>)
    requires |seen| >= 2
    ensures var n := |seen| - 1; RingEnded(seen) <==> RingEnded(seen[..n]) || Fell(seen[n - 1], seen[n])
  {
    var n := |seen| - 1;
    if RingEnded(seen[..n]) {
      var i :| 0 <= i < n - 1 && Fell(seen[..n][i], seen[..n][i + 1]);
      assert Fell(seen[i], seen[i + 1]);
    }
    if RingEnded(seen) && !Fell(seen[n - 1], seen[n]) {
      var i :| 0 <= i < n && Fell(seen[i], seen[i + 1]);
      assert Fell(seen[..n][i], seen[..n][i + 1]);
    }
  }

  // Each delta bit is set if and only if its input changed, and the ring bit if and only if
  // the ring indicator fell, at some write since the modem status was last read.
  lemma {:induction false} DeltasMean(seen: seq<bv8>)
    ensures Deltas(seen) & DCTS != 0 <==> Changed(seen, CTS)
    ensures Deltas(seen) & DDSR != 0 <==> Changed(seen, DSR)
    ensures Deltas(seen) & DDCD != 0 <==> Changed(seen, DCD)
    ensures Deltas(seen) & TERI != 0 <==> RingEnded(seen)
  {
    if |seen| >= 2 {
      var n := |seen| - 1;
      DeltasMean(seen[..n]);
      DeltaMeans(seen[n - 1], seen[n], Deltas(seen[..n]));
      ChangedMore(seen, CTS);
      ChangedMore(seen, DSR);
      ChangedMore(seen, DCD);
      RingEndedMore(seen);
    }
  }

  // Over every run the modem status shows the inputs that the modem control register makes,
  // and exactly the changes since it was last read.
  lemma ModemBits(size: int, tty: bool, ops: seq<Op>)
    requires size >= 1
    ensures var m := Run(Init(size, tty), ops).modem;
      && m.msr & !DELTA_MASK == ModemStatus(m.mcr)
      && (m.msr & DCTS != 0 <==> Changed(m.seen, CTS)) && (m.msr & DDSR != 0 <==> Changed(m.seen, DSR))
      && (m.msr & DDCD != 0 <==> Changed(m.seen, DCD)) && (m.msr & TERI != 0 <==> RingEnded(m.seen))
  {
    RunInv(size, tty, ops);
    var m := Run(Init(size, tty), ops).modem;
    DeltasMean(m.seen);
    ModemHigh(m.mcr);
    LowBits(m.msr, ModemStatus(m.mcr), Deltas(m.seen));
  }

  lemma LineBitsOf(lsr: bv8, data: bool)
    ensures LineStatus(lsr, data) & RXRDY != 0 <==> data
    ensures LineStatus(lsr, data) & OE != 0 <==> lsr & OE != 0
    ensures LineStatus(lsr, data) & (TEMT | THRE) == TEMT | THRE
  {
  }

  // Over every run a read of the line status says whether a byte is there, whether one was
  // lost since the last read, and that the transmitter is idle.
  lemma LineBits(size: int, tty: bool, ops: seq<Op>)
    requires size >= 1
    ensures var s := Run(Init(size, tty), ops);
      && (Value(s, Lsr) & RXRDY != 0 <==> s.rx.q != [])
      && (Value(s, Lsr) & OE != 0 <==> s.status.lost > 0)
      && Value(s, Lsr) & (TEMT | THRE) == TEMT | THRE
  {
    RunInv(size, tty, ops);
    var s := Run(Init(size, tty), ops);
    LineBitsOf(s.status.lsr, |s.rx.q| > 0);
  }

  // The interrupt sources that are active and enabled
  predicate Asking(s: State)
  {
    || (s.status.lost > 0 && s.irq.ier & ERLS != 0) || (s.rx.q != [] && s.irq.ier & ERXRDY != 0)
    || (s.irq.thre && s.irq.ier & ETXRDY != 0) || (s.modem.msr & DELTA_MASK != 0 && s.irq.ier & EMSC != 0)
  }

  // Over every run the pin is high if and only if a source asks, and a transmitter interrupt
  // that the guest has read about is withdrawn.
  lemma PinMeans(size: int, tty: bool, ops: seq<Op>)
    requires size >= 1
    ensures var s := Run(Init(size, tty), ops);
      && (s.pin <==> Asking(s))
      && (Pending(s) == TXRDY ==> Pending(AfterRead(s, Fifo)) != TXRDY)
  {
    RunInv(size, tty, ops);
  }

  // ---- nothing is lost -----------------------------------------------------------------------

  // Everything the terminal sent since the last reset, wherever it is now
  function Total(r: Rx): seq<bv8> { r.given + r.q + r.input }

  predicate Resets(r: Rx, v: bv8)
  { (r.fcr & ENABLE) != (v & ENABLE) || (v & ENABLE != 0 && v & RCV_RST != 0) }

  // A step that neither resets the queue nor uses loopback
  predicate Plain(s: State, op: Op)
  {
    match op
    case Write(offset, v) =>
      && (Select(s.latches.lcr, offset) == Fifo ==> !Resets(s.rx, v))
      && (Select(s.latches.lcr, offset) == Data ==> !Loopback(s.modem))
    case Drain(_) => !Loopback(s.modem)
    case _ => true
  }

  function Came(s: State, op: Op): seq<bv8> { if op.Arrive? && s.rx.tty then op.bytes else [] }

  // The byte of received data a step hands to the guest
  function Handed(s: State, op: Op): seq<bv8>
  {
    if op.Read? && Select(s.latches.lcr, op.offset) == Data && |s.rx.q| > 0 then [Value(s, Data)] else []
  }

  lemma FillConserves(r: Rx, quota: int)
    ensures Total(Fill(r, quota)) == Total(r) && Fill(r, quota).given == r.given
  {
    var n := Room(r, quota);
    assert r.input == r.input[..n] + r.input[n..];
    assert r.given + (r.q + r.input[..n]) + r.input[n..] == Total(r);
  }

  lemma GetConserves(r: Rx)
    ensures Total(Get(r)) == Total(r) && Get(r).given == r.given + if |r.q| > 0 then [r.q[0]] else []
  {
    if |r.q| > 0 {
      assert r.given + [r.q[0]] + r.q[1..] == r.given + r.q;
    }
  }

  lemma WriteConserves(s: State, reg: Reg, v: bv8)
    requires (reg == Fifo ==> !Resets(s.rx, v)) && (reg == Data ==> !Loopback(s.modem))
    ensures Written(s, reg, v).rx == s.rx.(fcr := Written(s, reg, v).rx.fcr)
  {
  }

  lemma StepConserves(s: State, op: Op)
    requires Plain(s, op)
    ensures Total(Step(s, op).rx) == Total(s.rx) + Came(s, op)
    ensures Step(s, op).rx.given == s.rx.given + Handed(s, op)
  {
    match op
    case Write(offset, v) => WriteConserves(s, Select(s.latches.lcr, offset), v);
    case Read(offset) => GetConserves(s.rx);
    case Drain(quota) => FillConserves(s.rx, quota);
    case Arrive(bytes) =>
  }

  ghost predicate PlainRun(s: State, ops: seq<Op>)
  { forall i :: 0 <= i < |ops| ==> Plain(Run(s, ops[..i]), ops[i]) }

  ghost function Arrived(s: State, ops: seq<Op>): seq<bv8>
  {
    if ops == [] then []
    else Arrived(s, ops[..|ops| - 1]) + Came(Run(s, ops[..|ops| - 1]), ops[|ops| - 1])
  }

  ghost function Obtained(s: State, ops: seq<Op>): seq<bv8>
  {
    if ops == [] then []
    else Obtained(s, ops[..|ops| - 1]) + Handed(Run(s, ops[..|ops| - 1]), ops[|ops| - 1])
  }

  // In a run of such steps what arrived is what the guest has read, then what the queue holds,
  // then what the terminal still has: no byte is dropped, doubled or reordered.
  lemma {:induction false} RunConserves(s: State, ops: seq<Op>)
    requires PlainRun(s, ops) && s.rx.given == s.rx.q == s.rx.input == []
    ensures var r := Run(s, ops).rx; Arrived(s, ops) == Obtained(s, ops) + r.q + r.input && r.given == Obtained(s, ops)
  {
    if ops != [] {
      var n := |ops| - 1;
      forall i | 0 <= i < n ensures Plain(Run(s, ops[..n][..i]), ops[..n][i]) { assert ops[..n][..i] == ops[..i]; }
      RunConserves(s, ops[..n]);
      StepConserves(Run(s, ops[..n]), ops[n]);
    }
  }
}
