// The emulated 16550 of devicemodel/hw/uart_core.c, told from the accesses made so far: every
// register, the bytes sent and received, and what the next read returns.
module UartHistory {
  import opened Uart

  // ---- the registers -------------------------------------------------------------------------

  // The last value written to the line control register
  function LcrOf(ops: seq<Op>): bv8
  {
    if ops == [] then 0
    else
      var n := |ops| - 1;
      if ops[n].Write? && ops[n].offset == 3 then ops[n].value else LcrOf(ops[..n])
  }

  // Bit 7 of the line control register puts the divisor latch over offsets 0 and 1.
  predicate Over(ops: seq<Op>) { LcrOf(ops) & 0x80 != 0 }

  // The last value written at an offset; over tells which of the two registers at offsets 0
  // and 1 is meant.
  function Latest(ops: seq<Op>, offset: int, over: bool, initial: bv8): bv8
  {
    if ops == [] then initial
    else
      var n := |ops| - 1;
      if ops[n].Write? && ops[n].offset == offset && (offset > 1 || Over(ops[..n]) == over) then ops[n].value
      else Latest(ops[..n], offset, over, initial)
  }

  function McrOf(ops: seq<Op>): bv8 { Latest(ops, 4, false, 0) & 0x1F }

  function IerOf(ops: seq<Op>): bv8 { Latest(ops, 1, false, 0) & 0x0F }

  // Without its enable bit the FIFO control register holds nothing.
  function FcrOf(ops: seq<Op>): bv8
  { var v := Latest(ops, 2, false, 0); if v & 0x01 != 0 then v & 0xC9 else 0 }

  predicate Looping(ops: seq<Op>) { McrOf(ops) & 0x10 != 0 }

  // ---- one step, component by component ------------------------------------------------------

  lemma SelectIs(lcr: bv8, offset: int)
    ensures offset == 0 ==> Select(lcr, offset) == if lcr & 0x80 != 0 then Dll else Data
    ensures offset == 1 ==> Select(lcr, offset) == if lcr & 0x80 != 0 then Dlh else Ier
    ensures offset == 2 ==> Select(lcr, offset) == Fifo
    ensures offset == 3 ==> Select(lcr, offset) == Lcr
    ensures offset == 4 ==> Select(lcr, offset) == Mcr
    ensures offset == 5 ==> Select(lcr, offset) == Lsr
    ensures offset == 6 ==> Select(lcr, offset) == Msr
    ensures offset == 7 ==> Select(lcr, offset) == Scr
    ensures offset < 0 || offset > 7 ==> Select(lcr, offset) == Nothing
  {
  }

  lemma WrittenIs(s: State, reg: Reg, v: bv8)
    ensures var t := Written(s, reg, v);
      && t.latches == (match reg case Dll => s.latches.(dll := v) case Dlh => s.latches.(dlh := v)
                                 case Lcr => s.latches.(lcr := v) case Scr => s.latches.(scr := v) case _ => s.latches)
      && t.modem == (if reg == Mcr then WriteMcr(s.modem, v) else s.modem)
      && t.irq == (if reg == Ier then WriteIer(s.irq, v) else if reg == Data then s.irq.(thre := true) else s.irq)
      && t.status == (if reg == Data && Loopback(s.modem) && |s.rx.q| >= s.rx.cap then Overrun(s.status) else s.status)
      && t.rx == (if reg == Fifo then WriteFcr(s.rx, v)
                  else if reg == Data && Loopback(s.modem) then Put(s.rx, v) else s.rx)
      && t.output == (if reg == Data && !Loopback(s.modem) && s.rx.tty then s.output + [v] else s.output)
  {
  }

  lemma AfterReadIs(s: State, reg: Reg)
    ensures var t := AfterRead(s, reg);
      && t.latches == s.latches && t.output == s.output
      && t.modem == (if reg == Msr then ReadMsr(s.modem) else s.modem)
      && t.irq == (if reg == Fifo then s.irq.(thre := s.irq.thre && Pending(s) != TXRDY) else s.irq)
      && t.status == (if reg == Lsr then ReadLsr(s.status, |s.rx.q| > 0) else s.status)
      && t.rx == (if reg == Data then Get(s.rx) else s.rx)
  {
  }

  // What one operation does to each part of the device
  lemma StepLatches(s: State, op: Op)
    ensures var o := s.latches;
      Step(s, op).latches ==
      if op.Write? && op.offset == 0 && o.lcr & 0x80 != 0 then o.(dll := op.value)
      else if op.Write? && op.offset == 1 && o.lcr & 0x80 != 0 then o.(dlh := op.value)
      else if op.Write? && op.offset == 3 then o.(lcr := op.value)
      else if op.Write? && op.offset == 7 then o.(scr := op.value)
      else o
  {
    match op
    case Write(offset, v) => SelectIs(s.latches.lcr, offset); WrittenIs(s, Select(s.latches.lcr, offset), v);
    case Read(offset) => AfterReadIs(s, Select(s.latches.lcr, offset));
    case _ =>
  }

  lemma StepModem(s: State, op: Op)
    ensures Step(s, op).modem ==
            if op.Write? && op.offset == 4 then WriteMcr(s.modem, op.value)
            else if op.Read? && op.offset == 6 then ReadMsr(s.modem)
            else s.modem
  {
    match op
    case Write(offset, v) => SelectIs(s.latches.lcr, offset); WrittenIs(s, Select(s.latches.lcr, offset), v);
    case Read(offset) => SelectIs(s.latches.lcr, offset); AfterReadIs(s, Select(s.latches.lcr, offset));
    case _ =>
  }

  lemma StepIrq(s: State, op: Op)
    ensures var under := s.latches.lcr & 0x80 == 0;
      Step(s, op).irq ==
      if op.Write? && op.offset == 0 && under then s.irq.(thre := true)
      else if op.Write? && op.offset == 1 && under then WriteIer(s.irq, op.value)
      else if op.Read? && op.offset == 2 then s.irq.(thre := s.irq.thre && Pending(s) != TXRDY)
      else s.irq
  {
    match op
    case Write(offset, v) => SelectIs(s.latches.lcr, offset); WrittenIs(s, Select(s.latches.lcr, offset), v);
    case Read(offset) => SelectIs(s.latches.lcr, offset); AfterReadIs(s, Select(s.latches.lcr, offset));
    case _ =>
  }

  lemma StepStatus(s: State, op: Op)
    ensures Step(s, op).status ==
            if op.Write? && op.offset == 0 && s.latches.lcr & 0x80 == 0 && Loopback(s.modem) && |s.rx.q| >= s.rx.cap
            then Overrun(s.status)
            else if op.Read? && op.offset == 5 then ReadLsr(s.status, |s.rx.q| > 0)
            else s.status
  {
    match op
    case Write(offset, v) => SelectIs(s.latches.lcr, offset); WrittenIs(s, Select(s.latches.lcr, offset), v);
    case Read(offset) => SelectIs(s.latches.lcr, offset); AfterReadIs(s, Select(s.latches.lcr, offset));
    case _ =>
  }

  lemma StepRx(s: State, op: Op)
    ensures var under := s.latches.lcr & 0x80 == 0;
      Step(s, op).rx ==
      match op
      case Write(offset, v) =>
        (if offset == 2 then WriteFcr(s.rx, v)
         else if offset == 0 && under && Loopback(s.modem) then Put(s.rx, v)
         else s.rx)
      case Read(offset) => (if offset == 0 && under then Get(s.rx) else s.rx)
      case Drain(quota) => (if Loopback(s.modem) then Discard(s.rx, quota) else Fill(s.rx, quota))
      case Arrive(bytes) => (if s.rx.tty then s.rx.(input := s.rx.input + bytes) else s.rx)
  {
    match op
    case Write(offset, v) => SelectIs(s.latches.lcr, offset); WrittenIs(s, Select(s.latches.lcr, offset), v);
    case Read(offset) => SelectIs(s.latches.lcr, offset); AfterReadIs(s, Select(s.latches.lcr, offset));
    case _ =>
  }

  lemma StepOutput(s: State, op: Op)
    ensures Step(s, op).output == s.output +
            if op.Write? && op.offset == 0 && s.latches.lcr & 0x80 == 0 && !Loopback(s.modem) && s.rx.tty
            then [op.value] else []
  {
    match op
    case Write(offset, v) => SelectIs(s.latches.lcr, offset); WrittenIs(s, Select(s.latches.lcr, offset), v);
    case Read(offset) => AfterReadIs(s, Select(s.latches.lcr, offset));
    case _ =>
  }

  // ---- the registers follow the history -------------------------------------------------------

  predicate LatchesTold(o: Latches, ops: seq<Op>)
  { o == Latches(LcrOf(ops), Latest(ops, 7, false, 0), Latest(ops, 0, true, 12), Latest(ops, 1, true, 0)) }

  predicate RegistersTold(s: State, ops: seq<Op>)
  {
    && LatchesTold(s.latches, ops) && s.modem.mcr == McrOf(ops) && s.irq.ier == IerOf(ops) && s.rx.fcr == FcrOf(ops)
  }

  // What follows is stated for the last operation of ops, made in state s.
  lemma NextLatches(s: State, ops: seq<Op>)
    requires ops != [] && LatchesTold(s.latches, ops[..|ops| - 1])
    ensures LatchesTold(Step(s, ops[|ops| - 1]).latches, ops)
  {
    StepLatches(s, ops[|ops| - 1]);
  }

  lemma NextMcr(s: State, ops: seq<Op>)
    requires ops != [] && s.modem.mcr == McrOf(ops[..|ops| - 1])
    ensures Step(s, ops[|ops| - 1]).modem.mcr == McrOf(ops)
  {
    StepModem(s, ops[|ops| - 1]);
  }

  lemma NextIer(s: State, ops: seq<Op>)
    requires ops != [] && s.irq.ier == IerOf(ops[..|ops| - 1]) && s.latches.lcr == LcrOf(ops[..|ops| - 1])
    ensures Step(s, ops[|ops| - 1]).irq.ier == IerOf(ops)
  {
    StepIrq(s, ops[|ops| - 1]);
  }

  lemma FcrIs(r: Rx, v: bv8)
    ensures WriteFcr(r, v).fcr == if v & 0x01 != 0 then v & 0xC9 else 0
  {
    assert (ENABLE | DMA | RX_MASK) == 0xC9;
  }

  lemma NextFcr(s: State, ops: seq<Op>)
    requires ops != [] && s.rx.fcr == FcrOf(ops[..|ops| - 1])
    ensures Step(s, ops[|ops| - 1]).rx.fcr == FcrOf(ops)
  {
    var op := ops[|ops| - 1];
    StepRx(s, op);
    if op.Write? && op.offset == 2 {
      FcrIs(s.rx, op.value);
    }
  }

  // ---- bytes sent ----------------------------------------------------------------------------

  // The bytes written to the data register outside loopback, in order
  function Sent(ops: seq<Op>): seq<bv8>
  {
    if ops == [] then []
    else
      var n := |ops| - 1;
      Sent(ops[..n]) +
      if ops[n].Write? && ops[n].offset == 0 && !Over(ops[..n]) && !Looping(ops[..n]) then [ops[n].value] else []
  }

  lemma NextOutput(s: State, ops: seq<Op>)
    requires ops != [] && s.latches.lcr == LcrOf(ops[..|ops| - 1]) && s.modem.mcr == McrOf(ops[..|ops| - 1])
    requires s.output == if s.rx.tty then Sent(ops[..|ops| - 1]) else []
    ensures Step(s, ops[|ops| - 1]).output == if s.rx.tty then Sent(ops) else []
  {
    StepOutput(s, ops[|ops| - 1]);
  }

  // ---- bytes received ------------------------------------------------------------------------

  // The bytes that entered the receive queue since it was last reset, how many of them the
  // guest has read, and what waits at the terminal
  datatype Line = Line(entered: seq<bv8>, popped: int, waiting: seq<bv8>) {
    predicate Empty() { popped >= |entered| }
  }

  function Capacity(size: int, ops: seq<Op>): int { if FcrOf(ops) & 0x01 != 0 then size else 1 }

  function Free(size: int, ops: seq<Op>, l: Line): int { Capacity(size, ops) - (|l.entered| - l.popped) }

  // A write to the FIFO control register empties the queue if it turns the FIFO on or off, or
  // asks for it with the FIFO on.
  predicate Flushes(ops: seq<Op>, v: bv8) { (FcrOf(ops) & 0x01) != (v & 0x01) || v & 0x03 == 0x03 }

  function Least(a: int, b: int): int { if a <= b then a else b }

  // The line after one more operation
  function Onward(size: int, tty: bool, ops: seq<Op>, l: Line, op: Op): Line
  {
    match op
    case Write(offset, v) =>
      if offset == 2 && Flushes(ops, v) then Line([], 0, if tty then [] else l.waiting)
      else if offset == 0 && !Over(ops) && Looping(ops) && Free(size, ops, l) > 0 then l.(entered := l.entered + [v])
      else l
    case Read(offset) =>
      if offset == 0 && !Over(ops) && !l.Empty() then l.(popped := l.popped + 1) else l
    case Drain(quota) =>
      if !tty || quota <= 0 || l.waiting == [] then l
      else if Looping(ops) then l.(waiting := l.waiting[1..])
      else if Free(size, ops, l) <= 0 then l
      else
        var k := Least(quota, Least(|l.waiting|, Free(size, ops, l)));
        l.(entered := l.entered + l.waiting[..k], waiting := l.waiting[k..])
    case Arrive(bytes) => if tty then l.(waiting := l.waiting + bytes) else l
  }

  function LineOf(size: int, tty: bool, ops: seq<Op>): Line
  {
    if ops == [] then Line([], 0, [])
    else
      var n := |ops| - 1;
      Onward(size, tty, ops[..n], LineOf(size, tty, ops[..n]), ops[n])
  }

  predicate LineTold(r: Rx, l: Line)
  { 0 <= l.popped <= |l.entered| && r.q == l.entered[l.popped..] && r.input == l.waiting }

  lemma PutTold(r: Rx, l: Line, v: bv8)
    requires LineTold(r, l)
    ensures LineTold(Put(r, v), if |r.q| < r.cap then l.(entered := l.entered + [v]) else l)
  {
    assert (l.entered + [v])[l.popped..] == l.entered[l.popped..] + [v];
  }

  lemma GetTold(r: Rx, l: Line)
    requires LineTold(r, l)
    ensures LineTold(Get(r), if l.Empty() then l else l.(popped := l.popped + 1))
  {
  }

  lemma FillTold(r: Rx, l: Line, quota: int)
    requires LineTold(r, l) && r.tty && quota > 0 && l.waiting != []
    ensures var k := Least(quota, Least(|l.waiting|, r.cap - |r.q|));
      LineTold(Fill(r, quota),
               if |r.q| >= r.cap then l
               else l.(entered := l.entered + l.waiting[..k], waiting := l.waiting[k..]))
  {
    var k := Room(r, quota);
    assert (l.entered + l.waiting[..k])[l.popped..] == l.entered[l.popped..] + l.waiting[..k];
    assert k == 0 ==> r.input[..k] == [] && r.input[k..] == r.input;
  }

  lemma NothingToFill(r: Rx, quota: int)
    requires !r.tty || quota <= 0 || r.input == []
    ensures Fill(r, quota).q == r.q && Fill(r, quota).input == r.input && Discard(r, quota) == r
  {
    assert r.input[..0] == [] && r.input[0..] == r.input;
  }

  lemma FcrTold(r: Rx, l: Line, ops: seq<Op>, v: bv8)
    requires LineTold(r, l) && r.fcr == FcrOf(ops)
    ensures LineTold(WriteFcr(r, v), if Flushes(ops, v) then Line([], 0, if r.tty then [] else l.waiting) else l)
  {
    assert v & 0x03 == 0x03 <==> v & 0x01 != 0 && v & 0x02 != 0;
    assert v & 0x01 == 0 || v & 0x01 == 0x01;
  }

  lemma DrainTold(s: State, size: int, ops: seq<Op>, l: Line, quota: int)
    requires LineTold(s.rx, l) && s.modem.mcr == McrOf(ops) && s.rx.cap == Capacity(size, ops)
    ensures LineTold(if Loopback(s.modem) then Discard(s.rx, quota) else Fill(s.rx, quota),
                     Onward(size, s.rx.tty, ops, l, Drain(quota)))
  {
    if !s.rx.tty || quota <= 0 || l.waiting == [] {
      NothingToFill(s.rx, quota);
    } else if !Loopback(s.modem) {
      FillTold(s.rx, l, quota);
    }
  }

  lemma WriteTold(s: State, size: int, ops: seq<Op>, l: Line, offset: int, v: bv8)
    requires LineTold(s.rx, l) && s.latches.lcr == LcrOf(ops) && s.modem.mcr == McrOf(ops) && s.rx.fcr == FcrOf(ops)
    requires s.rx.cap == Capacity(size, ops)
    ensures LineTold(Step(s, Write(offset, v)).rx, Onward(size, s.rx.tty, ops, l, Write(offset, v)))
  {
    StepRx(s, Write(offset, v));
    if offset == 2 {
      FcrTold(s.rx, l, ops, v);
    } else {
      PutTold(s.rx, l, v);
    }
  }

  lemma NextLine(s: State, size: int, ops: seq<Op>, l: Line, op: Op)
    requires LineTold(s.rx, l) && s.latches.lcr == LcrOf(ops) && s.modem.mcr == McrOf(ops) && s.rx.fcr == FcrOf(ops)
    requires s.rx.cap == Capacity(size, ops)
    ensures LineTold(Step(s, op).rx, Onward(size, s.rx.tty, ops, l, op))
    ensures Step(s, op).rx.size == s.rx.size && Step(s, op).rx.tty == s.rx.tty
  {
    StepRx(s, op);
    match op
    case Write(offset, v) => WriteTold(s, size, ops, l, offset, v);
    case Read(_) => GetTold(s.rx, l);
    case Drain(quota) => DrainTold(s, size, ops, l, quota);
    case Arrive(_) =>
  }

  // How many bytes of the guest's own an overrun lost since it last read the line status
  function LostOf(size: int, tty: bool, ops: seq<Op>): int
  {
    if ops == [] then 0
    else
      var n := |ops| - 1;
      var lost, op := LostOf(size, tty, ops[..n]), ops[n];
      if op.Write? && op.offset == 0 && !Over(ops[..n]) && Looping(ops[..n])
         && Free(size, ops[..n], LineOf(size, tty, ops[..n])) <= 0
      then lost + 1
      else if op.Read? && op.offset == 5 then 0
      else lost
  }

  lemma NextLost(s: State, size: int, tty: bool, ops: seq<Op>)
    requires ops != [] && s.latches.lcr == LcrOf(ops[..|ops| - 1]) && s.modem.mcr == McrOf(ops[..|ops| - 1])
    requires s.rx.cap == Capacity(size, ops[..|ops| - 1]) && LineTold(s.rx, LineOf(size, tty, ops[..|ops| - 1]))
    requires s.status.lost == LostOf(size, tty, ops[..|ops| - 1])
    ensures Step(s, ops[|ops| - 1]).status.lost == LostOf(size, tty, ops)
  {
    StepStatus(s, ops[|ops| - 1]);
  }

  // No bit of the line status but those for data, overrun and the idle transmitter is ever set.
  predicate LineClean(t: Status) { t.lsr & 0x9C == 0 }

  lemma NextClean(s: State, op: Op)
    requires LineClean(s.status)
    ensures LineClean(Step(s, op).status)
  {
    StepStatus(s, op);
    CleanBits(s.status.lsr, |s.rx.q| > 0);
  }

  lemma CleanBits(lsr: bv8, data: bool)
    requires lsr & 0x9C == 0
    ensures (lsr | OE) & 0x9C == 0 && (LineStatus(lsr, data) & !OE) & 0x9C == 0
    ensures LineStatus(lsr, data) == 0x60 | (if data then 0x01 else 0) | (if lsr & OE != 0 then 0x02 else 0)
  {
  }

  // ---- the modem inputs ----------------------------------------------------------------------

  // In loopback the four control outputs are wired to the status inputs: RTS to CTS, DTR to
  // DSR, OUT1 to RI and OUT2 to DCD.  Otherwise DCD and DSR are on.
  function Inputs(mcr: bv8): bv8
  { if mcr & 0x10 == 0 then 0xA0 else ((mcr & 0x02) << 3) | ((mcr & 0x01) << 5) | ((mcr & 0x0C) << 4) }

  lemma WiringIs(mcr: bv8)
    ensures ModemStatus(mcr) == Inputs(mcr)
  {
  }

  // The inputs at the last read of the modem status and after each write of the modem control
  // register since
  function SeenOf(ops: seq<Op>): seq<bv8>
  {
    if ops == [] then [0xA0]
    else
      var n := |ops| - 1;
      if ops[n].Write? && ops[n].offset == 4 then SeenOf(ops[..n]) + [Inputs(ops[n].value & 0x1F)]
      else if ops[n].Read? && ops[n].offset == 6 then [Inputs(McrOf(ops[..n]))]
      else SeenOf(ops[..n])
  }

  lemma NextSeen(s: State, ops: seq<Op>)
    requires ops != [] && s.modem.mcr == McrOf(ops[..|ops| - 1]) && s.modem.seen == SeenOf(ops[..|ops| - 1])
    ensures Step(s, ops[|ops| - 1]).modem.seen == SeenOf(ops)
  {
    var op := ops[|ops| - 1];
    StepModem(s, op);
    WiringIs(s.modem.mcr);
    if op.Write? {
      WiringIs(op.value & 0x1F);
    }
  }

  // Bits 0, 1 and 3 tell that CTS, DSR or DCD has changed, bit 2 that RI has gone off.
  ghost function Changes(seen: seq<bv8>): bv8
  {
    (if Changed(seen, 0x10) then 0x01 else 0) | (if Changed(seen, 0x20) then 0x02 else 0) |
    (if RingEnded(seen) then 0x04 else 0) | (if Changed(seen, 0x80) then 0x08 else 0)
  }

  lemma FromBits(msr: bv8, cts: bool, dsr: bool, ri: bool, dcd: bool)
    requires (msr & 0x01 != 0 <==> cts) && (msr & 0x02 != 0 <==> dsr) && (msr & 0x04 != 0 <==> ri)
    requires msr & 0x08 != 0 <==> dcd
    ensures msr & 0x0F == (if cts then 0x01 else 0) | (if dsr then 0x02 else 0) |
                          (if ri then 0x04 else 0) | (if dcd then 0x08 else 0)
    ensures msr == (msr & !DELTA_MASK) | (msr & 0x0F)
  {
  }

  lemma MsrTold(m: Modem)
    requires ModemOk(m)
    ensures m.msr == Inputs(m.mcr) | Changes(m.seen) && m.msr & DELTA_MASK == Changes(m.seen)
  {
    DeltasMean(m.seen);
    ModemHigh(m.mcr);
    LowBits(m.msr, ModemStatus(m.mcr), Deltas(m.seen));
    WiringIs(m.mcr);
    FromBits(m.msr, Changed(m.seen, CTS), Changed(m.seen, DSR), RingEnded(m.seen), Changed(m.seen, DCD));
  }

  // ---- interrupts ----------------------------------------------------------------------------

  // A lost byte, or a byte to read, goes before the transmitter.
  predicate Urgent(size: int, tty: bool, ops: seq<Op>)
  {
    || (LostOf(size, tty, ops) > 0 && IerOf(ops) & 0x04 != 0)
    || (!LineOf(size, tty, ops).Empty() && IerOf(ops) & 0x01 != 0)
  }

  // The transmitter has an interrupt to report from the start, and again after each byte sent
  // and whenever its interrupt is enabled, until the guest reads of it.
  function ThreOf(size: int, tty: bool, ops: seq<Op>): bool
  {
    if ops == [] then true
    else
      var n := |ops| - 1;
      var thre, op := ThreOf(size, tty, ops[..n]), ops[n];
      if op.Write? && op.offset == 0 && !Over(ops[..n]) then true
      else if op.Write? && op.offset == 1 && !Over(ops[..n]) then
        thre || (IerOf(ops[..n]) & 0x02 == 0 && op.value & 0x02 != 0)
      else if op.Read? && op.offset == 2 then
        thre && (Urgent(size, tty, ops[..n]) || IerOf(ops[..n]) & 0x02 == 0)
      else thre
  }

  // The reason the interrupt identification register gives
  ghost function Cause(size: int, tty: bool, ops: seq<Op>): bv8
  {
    if LostOf(size, tty, ops) > 0 && IerOf(ops) & 0x04 != 0 then 0x06
    else if !LineOf(size, tty, ops).Empty() && IerOf(ops) & 0x01 != 0 then 0x0C
    else if ThreOf(size, tty, ops) && IerOf(ops) & 0x02 != 0 then 0x02
    else if Changes(SeenOf(ops)) != 0 && IerOf(ops) & 0x08 != 0 then 0x00
    else 0x01
  }

  // ---- everything together --------------------------------------------------------------------

  ghost predicate Told(size: int, tty: bool, s: State, ops: seq<Op>)
  {
    && RegistersTold(s, ops) && s.output == (if tty then Sent(ops) else [])
    && s.rx.size == size && s.rx.tty == tty && LineTold(s.rx, LineOf(size, tty, ops))
    && s.status.lost == LostOf(size, tty, ops) && LineClean(s.status)
    && s.irq.thre == ThreOf(size, tty, ops) && s.modem.seen == SeenOf(ops)
  }

  lemma CapacityIs(size: int, tty: bool, s: State, ops: seq<Op>)
    requires Inv(s) && Told(size, tty, s, ops)
    ensures s.rx.cap == Capacity(size, ops)
  {
  }

  lemma PendingTold(size: int, tty: bool, s: State, ops: seq<Op>)
    requires Inv(s) && Told(size, tty, s, ops)
    ensures Pending(s) == Cause(size, tty, ops) && s.pin == (Cause(size, tty, ops) != 0x01)
  {
    MsrTold(s.modem);
  }

  lemma NextThre(s: State, size: int, tty: bool, ops: seq<Op>)
    requires ops != [] && Inv(s) && Told(size, tty, s, ops[..|ops| - 1])
    ensures Step(s, ops[|ops| - 1]).irq.thre == ThreOf(size, tty, ops)
  {
    StepIrq(s, ops[|ops| - 1]);
    PendingTold(size, tty, s, ops[..|ops| - 1]);
  }

  lemma NextTold(s: State, size: int, tty: bool, ops: seq<Op>)
    requires ops != [] && Inv(s) && Told(size, tty, s, ops[..|ops| - 1])
    ensures Told(size, tty, Step(s, ops[|ops| - 1]), ops)
  {
    var n := |ops| - 1;
    CapacityIs(size, tty, s, ops[..n]);
    NextLatches(s, ops);
    NextMcr(s, ops);
    NextIer(s, ops);
    NextFcr(s, ops);
    NextOutput(s, ops);
    NextLine(s, size, ops[..n], LineOf(size, tty, ops[..n]), ops[n]);
    NextLost(s, size, tty, ops);
    NextClean(s, ops[n]);
    NextThre(s, size, tty, ops);
    NextSeen(s, ops);
  }

  // Over every run the whole device is what the history says.
  lemma {:induction false} RunTold(size: int, tty: bool, ops: seq<Op>)
    requires size >= 1
    ensures Inv(Run(Init(size, tty), ops)) && Told(size, tty, Run(Init(size, tty), ops), ops)
  {
    RunInv(size, tty, ops);
    if ops != [] {
      var n := |ops| - 1;
      RunTold(size, tty, ops[..n]);
      NextTold(Run(Init(size, tty), ops[..n]), size, tty, ops);
    }
  }

  // What a read at an offset returns after ops
  ghost function Answer(size: int, tty: bool, ops: seq<Op>, offset: int): bv8
  {
    var l := LineOf(size, tty, ops);
    if offset == 0 && Over(ops) then Latest(ops, 0, true, 12)
    else if offset == 0 then (if 0 <= l.popped < |l.entered| then l.entered[l.popped] else 0xFF)
    else if offset == 1 && Over(ops) then Latest(ops, 1, true, 0)
    else if offset == 1 then IerOf(ops)
    else if offset == 2 then (if FcrOf(ops) & 0x01 != 0 then 0xC0 else 0) | Cause(size, tty, ops)
    else if offset == 3 then LcrOf(ops)
    else if offset == 4 then McrOf(ops)
    else if offset == 5 then
      0x60 | (if l.Empty() then 0 else 0x01) | (if LostOf(size, tty, ops) > 0 then 0x02 else 0)
    else if offset == 6 then Inputs(McrOf(ops)) | Changes(SeenOf(ops))
    else if offset == 7 then Latest(ops, 7, false, 0)
    else 0xFF
  }

  lemma ReadTold(size: int, tty: bool, s: State, ops: seq<Op>, offset: int)
    requires Inv(s) && Told(size, tty, s, ops)
    ensures Value(s, Select(s.latches.lcr, offset)) == Answer(size, tty, ops, offset)
  {
    SelectIs(s.latches.lcr, offset);
    PendingTold(size, tty, s, ops);
    MsrTold(s.modem);
    CleanBits(s.status.lsr, |s.rx.q| > 0);
  }

  ghost function Answers(size: int, tty: bool, ops: seq<Op>): seq<bv8>
  {
    if ops == [] then []
    else
      var n := |ops| - 1;
      Answers(size, tty, ops[..n]) + if ops[n].Read? then [Answer(size, tty, ops[..n], ops[n].offset)] else []
  }
}
