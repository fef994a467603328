/**
 The bit-banged I2C master (src/device/software_i2c.c) as steps on the two lines, and a bus monitor that decodes what
 goes over them (I2C specification UM10204, sections 3.1.3 to 3.1.6).
 */
module SoftwareI2c {
  import opened Buffers

  const ERR_NACK: int := -2
  const ERR_TIMEOUT: int := -3
  const ERR_ARB: int := -4
  const ERR_WEDGE: int := -5

  datatype Line = Line(scl: bool, sda: bool)

  // What a slave does around one clock pulse: its SDA while the clock is low, its SDA during the pulse (which it must
  // not change while the clock is high), and whether it lets the clock rise in time.
  datatype Reply = Reply(before: bool, during: bool, rises: bool)

  // ----- The monitor

  datatype Symbol = Start | Stop | Bit(value: bool)

  // changed: SDA has moved in the current high phase of the clock, so that phase carries no bit.
  datatype Monitor = Monitor(line: Line, changed: bool, symbols: seq<Symbol>)

  // SDA may only change while SCL is low; a change at other times is a START or a STOP. A bit counts when its
  // high phase is over.
  function Observe(m: Monitor, line: Line): Monitor {
    if m.line.scl && line.scl then
      if m.line.sda && !line.sda then Monitor(line, true, m.symbols + [Start])
      else if !m.line.sda && line.sda then Monitor(line, true, m.symbols + [Stop])
      else m.(line := line)
    else if m.line.scl then
      Monitor(line, false, if m.changed then m.symbols else m.symbols + [Bit(m.line.sda)])
    else
      Monitor(line, false, m.symbols)
  }

  // An idle bus, watched from there.
  const IDLE: Monitor := Monitor(Line(true, true), false, [])

  function Monitored(trace: seq<Line>): Monitor {
    if trace == [] then IDLE else Observe(Monitored(trace[..|trace| - 1]), trace[|trace| - 1])
  }

  lemma OneMoreLine(trace: seq<Line>, line: Line)
    ensures Monitored(trace + [line]) == Observe(Monitored(trace), line)
  {
    assert (trace + [line])[..|trace|] == trace;
  }

  // Symbols added without a STOP.
  ghost predicate NoStop(was: seq<Symbol>, now: seq<Symbol>) {
    was <= now && forall i :: |was| <= i < |now| ==> now[i] != Stop
  }

  // ----- What a transfer should look like

  // The low n bits of a number, most significant first.
  function Bits(v: nat, n: nat): (s: seq<Symbol>)
    ensures |s| == n
  {
    if n == 0 then [] else Bits(v / 2, n - 1) + [Bit(v % 2 == 1)]
  }

  function ShiftedRight(v: nat, n: nat): nat {
    if n == 0 then v else ShiftedRight(v, n - 1) / 2
  }

  // A byte and its acknowledge slot: a low level acknowledges.
  function Slot(b: byte, ack: bool): seq<Symbol> {
    Bits(b, 8) + [Bit(!ack)]
  }

  datatype Segment = Segment(slave: nat, read: bool, data: seq<byte>)

  function AddressByte(s: Segment): byte {
    (s.slave * 2 + if s.read then 1 else 0) % 0x100
  }

  // Every byte is acknowledged but the last one read.
  function Acked(s: Segment, i: nat): bool {
    !s.read || i + 1 < |s.data|
  }

  function DataSymbols(s: Segment, n: nat): seq<Symbol>
    requires n <= |s.data|
  {
    if n == 0 then [] else DataSymbols(s, n - 1) + Slot(s.data[n - 1], Acked(s, n - 1))
  }

  function SegmentSymbols(s: Segment): seq<Symbol> {
    [Start] + Slot(AddressByte(s), true) + DataSymbols(s, |s.data|)
  }

  function TransferSymbols(ss: seq<Segment>): seq<Symbol> {
    if ss == [] then [] else TransferSymbols(ss[..|ss| - 1]) + SegmentSymbols(ss[|ss| - 1])
  }

  // ----- What a slave has to do for it

  // A bit sent: nobody holds SDA low against a one, and the clock rises in time.
  predicate BitTaken(r: Reply, bit: bool) {
    r.rises && (bit ==> r.before && r.during)
  }

  // Bit k of a byte, from the most significant on.
  function BitOf(b: nat, k: nat): bool
    requires k < 8
  {
    ShiftedRight(b, 7 - k) % 2 == 1
  }

  // A byte sent from pulse p on is taken and acknowledged.
  ghost predicate ByteTaken(env: nat -> Reply, p: nat, b: byte) {
    && (forall k: nat :: k < 8 ==> BitTaken(env(p + k), BitOf(b, k)))
    && env(p + 8).rises && !env(p + 8).during
  }

  // What a slave shows in the n pulses from p on, most significant bit first.
  function Shown(env: nat -> Reply, p: nat, n: nat): (v: nat)
    ensures v < Pow2(n)
  {
    if n == 0 then 0 else Shown(env, p, n - 1) * 2 + if env(p + (n - 1)).during then 1 else 0
  }

  predicate RisesAt(env: nat -> Reply, p: nat, k: nat) {
    env(p + k).rises
  }

  // A byte received from pulse p on: the clock rises for every bit, and the answer gets through.
  ghost predicate ByteGiven(env: nat -> Reply, p: nat, ack: bool) {
    (forall k: nat :: k < 8 ==> RisesAt(env, p, k)) && BitTaken(env(p + 8), !ack)
  }

  // A START takes one pulse; only a repeated one depends on the slave.
  predicate StartTaken(r: Reply, idle: bool) {
    idle || (r.rises && r.during)
  }

  ghost predicate DataTaken(env: nat -> Reply, p: nat, s: Segment, i: nat)
    requires i < |s.data|
  {
    if s.read then ByteGiven(env, p + 9 * i, Acked(s, i)) else ByteTaken(env, p + 9 * i, s.data[i])
  }

  ghost predicate AllDataTaken(env: nat -> Reply, p: nat, s: Segment) {
    forall i: nat :: i < |s.data| ==> DataTaken(env, p, s, i)
  }

  ghost predicate SegmentTaken(env: nat -> Reply, p: nat, s: Segment, idle: bool) {
    && StartTaken(env(p), idle)
    && ByteTaken(env, p + 1, AddressByte(s))
    && AllDataTaken(env, p + 10, s)
  }

  function SegmentPulses(s: Segment): nat {
    10 + 9 * |s.data|
  }

  function Pulses(ss: seq<Segment>): nat {
    if ss == [] then 0 else Pulses(ss[..|ss| - 1]) + SegmentPulses(ss[|ss| - 1])
  }

  ghost predicate TakenIn(env: nat -> Reply, p: nat, ss: seq<Segment>, i: nat, idle: bool)
    requires i < |ss|
  {
    SegmentTaken(env, p + Pulses(ss[..i]), ss[i], idle && i == 0)
  }

  // Every segment is taken, and the clock rises for the STOP.
  ghost predicate TransferTaken(env: nat -> Reply, p: nat, ss: seq<Segment>, idle: bool) {
    && (forall i: nat :: i < |ss| ==> TakenIn(env, p, ss, i, idle))
    && env(p + Pulses(ss)).rises
  }

  // A segment with what the slave shows in the bytes that are read.
  function Answered(env: nat -> Reply, p: nat, s: Segment): Segment {
    if s.read then s.(data := seq(|s.data|, i requires i >= 0 => ShownByte(env, p + 10 + 9 * i))) else s
  }

  function ShownByte(env: nat -> Reply, p: nat): byte {
    ByteRange();
    Shown(env, p, 8)
  }

  function Answers(env: nat -> Reply, p: nat, ss: seq<Segment>): seq<Segment> {
    if ss == [] then [] else
    Answers(env, p, ss[..|ss| - 1]) + [Answered(env, p + Pulses(ss[..|ss| - 1]), ss[|ss| - 1])]
  }

  // ----- The master

  class I2cBus {
    const env: nat -> Reply
    var pulse: nat
    // What the master drives, and what the lines are.
    var sclOut: bool
    var sdaOut: bool
    var level: bool
    var line: Line
    ghost var trace: seq<Line>

    constructor (env: nat -> Reply)
      ensures Valid() && line == Line(true, true) && Seen() == [] && level && sdaOut && sclOut
      ensures this.env == env && pulse == 0
    {
      this.env := env;
      pulse := 0;
      sclOut, sdaOut, level := true, true, true;
      line := Line(true, true);
      trace := [];
    }

    ghost predicate Valid()
      reads this
    {
      && Monitored(trace).line == line
      && line.sda == (sdaOut && level)
      && (line.scl ==> sclOut)
    }

    ghost function Seen(): seq<Symbol>
      reads this
    {
      Monitored(trace).symbols
    }

    ghost predicate Changed()
      reads this
    {
      Monitored(trace).changed
    }

    // The lines after a step.
    method Record(next: Line)
      modifies this`line, this`trace
      ensures line == next && trace == old(trace) + [next]
      ensures Monitored(trace) == Observe(old(Monitored(trace)), next)
    {
      OneMoreLine(trace, next);
      line := next;
      trace := trace + [next];
    }

    method SetSda(value: bool)
      requires Valid()
      modifies this`sdaOut, this`line, this`trace
      ensures Valid() && sdaOut == value && line == Line(old(line).scl, value && level)
      ensures !line.scl ==> Seen() == old(Seen()) && !Changed()
      ensures line.scl && old(line).sda == line.sda ==> Seen() == old(Seen()) && Changed() == old(Changed())
      ensures line.scl && old(line).sda && !line.sda ==> Seen() == old(Seen()) + [Start] && Changed()
      ensures line.scl && !old(line).sda && line.sda ==> Seen() == old(Seen()) + [Stop] && Changed()
    {
      sdaOut := value;
      Record(Line(line.scl, value && level));
    }

    // A slave changes SDA only while the clock is low.
    method SlaveMoves(value: bool)
      requires Valid()
      modifies this`level, this`line, this`trace
      ensures Valid() && Seen() == old(Seen()) && line.scl == old(line).scl
      ensures line.scl ==> line == old(line) && level == old(level) && Changed() == old(Changed())
      ensures !line.scl ==> level == value && !Changed()
    {
      if !line.scl {
        level := value;
        Record(Line(false, sdaOut && value));
      }
    }

    // Letting go of SCL and waiting for it to rise.
    method RaiseScl() returns (ok: bool)
      requires Valid()
      modifies this`sclOut, this`line, this`trace
      ensures Valid() && Seen() == old(Seen()) && line.sda == old(line).sda
      ensures ok ==> line.scl
      ensures ok && old(line).scl ==> Changed() == old(Changed())
      ensures ok && !old(line).scl ==> !Changed()
      ensures ok <==> old(line).scl || env(pulse).rises
    {
      sclOut := true;
      if line.scl {
        return true;
      }
      if !env(pulse).rises {
        return false;
      }
      Record(Line(true, line.sda));
      return true;
    }

    // Pulling SCL low ends the pulse.
    method LowerScl()
      requires Valid() && line.scl
      modifies this`sclOut, this`line, this`trace, this`pulse
      ensures Valid() && line == Line(false, old(line).sda) && pulse == old(pulse) + 1
      ensures Seen() == if old(Changed()) then old(Seen()) else old(Seen()) + [Bit(old(line).sda)]
    {
      sclOut := false;
      Record(Line(false, line.sda));
      pulse := pulse + 1;
    }

    method StartCond() returns (ret: int)
      requires Valid()
      requires line.scl ==> line.sda
      modifies this
      ensures Valid() && NoStop(old(Seen()), Seen()) && ret in {0, ERR_TIMEOUT, ERR_ARB}
      ensures ret == 0 ==> !line.scl && Seen() == old(Seen()) + [Start] && pulse == old(pulse) + 1
      ensures ret == 0 <==> StartTaken(env(old(pulse)), old(line).scl)
    {
      SetSda(true);
      SlaveMoves(env(pulse).during);
      var rises := RaiseScl();
      if !rises {
        return ERR_TIMEOUT;
      }
      if !line.sda {
        return ERR_ARB;
      }
      SetSda(false);
      LowerScl();
      return 0;
    }

    /** Success does not depend on SDA going high: the STOP is only there if no slave holds SDA low. */
    method StopCond() returns (ret: int)
      requires Valid() && !line.scl
      modifies this
      ensures Valid() && ret in {0, ERR_TIMEOUT}
      ensures ret == 0 ==> line.scl && Seen() == if line.sda then old(Seen()) + [Stop] else old(Seen())
      ensures ret == 0 ==> line.sda == env(old(pulse)).during
      ensures ret == 0 <==> env(old(pulse)).rises
      ensures ret != 0 ==> Seen() == old(Seen())
    {
      SetSda(false);
      SlaveMoves(env(pulse).during);
      var rises := RaiseScl();
      if !rises {
        return ERR_TIMEOUT;
      }
      SetSda(true);
      return 0;
    }

    method OutBit(bit: bool) returns (ret: int)
      requires Valid() && !line.scl
      modifies this
      ensures Valid() && NoStop(old(Seen()), Seen()) && ret in {0, ERR_TIMEOUT, ERR_WEDGE}
      ensures ret == 0 ==> !line.scl && Seen() == old(Seen()) + [Bit(bit)] && pulse == old(pulse) + 1
      ensures ret == 0 <==> BitTaken(env(old(pulse)), bit)
    {
      SetSda(bit);
      SlaveMoves(env(pulse).before);
      if bit && !line.sda {
        return ERR_WEDGE;
      }
      SlaveMoves(env(pulse).during);
      var rises := RaiseScl();
      if !rises {
        return ERR_TIMEOUT;
      }
      if bit && !line.sda {
        return ERR_WEDGE;
      }
      LowerScl();
      return 0;
    }

    method InBit() returns (ret: int)
      requires Valid() && !line.scl
      modifies this
      ensures Valid() && NoStop(old(Seen()), Seen()) && ret in {0, 1, ERR_TIMEOUT}
      ensures ret >= 0 ==> !line.scl && Seen() == old(Seen()) + [Bit(ret == 1)] && pulse == old(pulse) + 1
      ensures ret >= 0 <==> env(old(pulse)).rises
      ensures ret >= 0 ==> (ret == 1 <==> env(old(pulse)).during)
    {
      SetSda(true);
      SlaveMoves(env(pulse).during);
      var rises := RaiseScl();
      if !rises {
        return ERR_TIMEOUT;
      }
      ret := if line.sda then 1 else 0;
      LowerScl();
    }

    /** Eight bits, most significant first, and the slave's acknowledgement. */
    method OutByte(b: byte) returns (ret: int)
      requires Valid() && !line.scl
      modifies this
      ensures Valid() && NoStop(old(Seen()), Seen()) && ret in {0, ERR_NACK, ERR_TIMEOUT, ERR_WEDGE}
      ensures ret == 0 ==> !line.scl && Seen() == old(Seen()) + Slot(b, true) && pulse == old(pulse) + 9
      ensures ret == 0 <==> ByteTaken(env, old(pulse), b)
      ensures ret == ERR_NACK ==> !line.scl && Seen() == old(Seen()) + Slot(b, false)
    {
      Errors();
      hide *;
      ghost var was, p := Seen(), pulse;
      BitsStart(b, was);
      TakenAt(env, p, b);
      for bit := 0 to 8
        invariant Valid() && !line.scl && NoStop(was, Seen()) && pulse == p + bit
        invariant forall k: nat :: k < bit ==> BitTaken(env(p + k), BitOf(b, k))
        invariant Seen() == was + Bits(ShiftedRight(b, 8 - bit), bit)
      {
        ghost var mid := Seen();
        OutBitStep(was, b, bit);
        BitIs(b, bit);
        ret := OutBit(ShiftedRight(b, 7 - bit) % 2 == 1);
        NoStopTwice(was, mid, Seen());
        if ret < 0 {
          return;
        }
      }
      BitsEnd(b);
      ghost var mid := Seen();
      var nack := InBit();
      NoStopTwice(was, mid, Seen());
      SlotIs(was, b, nack <= 0);
      if nack > 0 {
        return ERR_NACK;
      }
      return nack;
    }

    /** Eight bits from the slave, then the acknowledgement asked for. */
    method InByte(ack: bool) returns (ret: int)
      requires Valid() && !line.scl
      modifies this
      ensures Valid() && NoStop(old(Seen()), Seen()) && (ret < 0 || ret < 0x100) && ret >= ERR_WEDGE
      ensures ret >= 0 ==> !line.scl && Seen() == old(Seen()) + Slot(ret, ack) && pulse == old(pulse) + 9
      ensures ret >= 0 <==> ByteGiven(env, old(pulse), ack)
      ensures ret >= 0 ==> ret == ShownByte(env, old(pulse))
    {
      Errors();
      hide *;
      ghost var was, p := Seen(), pulse;
      var b: nat := 0;
      BitsStart(b, was);
      ShownNone(env, p);
      GivenAt(env, p, ack);
      for i := 0 to 8
        invariant Valid() && !line.scl && NoStop(was, Seen()) && pulse == p + i
        invariant b < Pow2(i) && b == Shown(env, p, i)
        invariant forall k: nat :: k < i ==> RisesAt(env, p, k)
        invariant Seen() == was + Bits(b, i)
      {
        ghost var mid := Seen();
        RisesIs(env, p, i);
        var bit := InBit();
        NoStopTwice(was, mid, Seen());
        if bit < 0 {
          return bit;
        }
        InBitStep(was, b, i, bit);
        ShownStep(env, p, i);
        b := b * 2 + bit;
      }
      ShownByteIs(env, p);
      ByteRange();
      ghost var mid := Seen();
      ret := OutBit(!ack);
      NoStopTwice(was, mid, Seen());
      if ret < 0 {
        return;
      }
      SlotIs(was, b, ack);
      return b;
    }
  }

  lemma TakenAt(env: nat -> Reply, p: nat, b: byte)
    ensures ByteTaken(env, p, b) <==>
            && (forall k: nat :: k < 8 ==> BitTaken(env(p + k), BitOf(b, k)))
            && env(p + 8).rises && !env(p + 8).during
  {
    hide BitTaken, BitOf;
  }

  lemma GivenAt(env: nat -> Reply, p: nat, ack: bool)
    ensures ByteGiven(env, p, ack) <==> (forall k: nat :: k < 8 ==> RisesAt(env, p, k)) && BitTaken(env(p + 8), !ack)
  {
    hide BitTaken, RisesAt;
  }

  lemma RisesIs(env: nat -> Reply, p: nat, k: nat)
    ensures RisesAt(env, p, k) <==> env(p + k).rises
  {
  }

  lemma BitIs(b: nat, k: nat)
    requires k < 8
    ensures BitOf(b, k) == (ShiftedRight(b, 7 - k) % 2 == 1)
  {
    hide ShiftedRight;
  }

  lemma ShownNone(env: nat -> Reply, p: nat)
    ensures Shown(env, p, 0) == 0
  {
  }

  lemma ShownStep(env: nat -> Reply, p: nat, n: nat)
    ensures Shown(env, p, n + 1) == Shown(env, p, n) * 2 + if env(p + n).during then 1 else 0
  {
  }

  lemma ShownByteIs(env: nat -> Reply, p: nat)
    ensures ShownByte(env, p) == Shown(env, p, 8)
  {
    hide Shown;
  }

  lemma Errors()
    ensures ERR_NACK == -2 && ERR_TIMEOUT == -3 && ERR_ARB == -4 && ERR_WEDGE == -5
  {
  }

  lemma NoStopTwice(x: seq<Symbol>, y: seq<Symbol>, z: seq<Symbol>)
    requires NoStop(x, y) && NoStop(y, z)
    ensures NoStop(x, z)
  {
  }

  lemma BitsStart(b: nat, was: seq<Symbol>)
    ensures was + Bits(ShiftedRight(b, 8), 0) == was + Bits(b, 0) == was && NoStop(was, was) && Pow2(0) == 1
  {
  }

  lemma BitsEnd(b: nat)
    ensures ShiftedRight(b, 0) == b
  {
  }

  lemma OutBitStep(was: seq<Symbol>, b: nat, k: nat)
    requires k < 8
    ensures var bit := ShiftedRight(b, 7 - k) % 2 == 1;
              was + Bits(ShiftedRight(b, 8 - k), k) + [Bit(bit)] == was + Bits(ShiftedRight(b, 7 - k), k + 1)
  {
  }

  lemma InBitStep(was: seq<Symbol>, b: nat, k: nat, bit: nat)
    requires bit < 2 && b < Pow2(k)
    ensures was + Bits(b, k) + [Bit(bit == 1)] == was + Bits(b * 2 + bit, k + 1)
    ensures b * 2 + bit < Pow2(k + 1)
  {
  }

  lemma SlotIs(was: seq<Symbol>, b: nat, ack: bool)
    ensures b < 0x100 ==> was + Bits(b, 8) + [Bit(!ack)] == was + Slot(b, ack)
  {
    hide Bits;
  }

  function Pow2(n: nat): (p: nat)
    ensures p > 0
  {
    if n == 0 then 1 else 2 * Pow2(n - 1)
  }

  lemma ByteRange()
    ensures Pow2(8) == 0x100
  {
    assert Pow2(4) == 16;
  }

  // ----- Whole transfers

  // The bytes of a segment that a read has filled in so far.
  ghost predicate Filled(was: Segment, now: Segment, n: nat) {
    && now.slave == was.slave && now.read == was.read && |now.data| == |was.data|
    && (!was.read ==> now == was)
    && n <= |was.data|
  }

  ghost predicate SameRequests(was: seq<Segment>, now: seq<Segment>, n: nat) {
    n <= |was| == |now| && (forall i :: 0 <= i < n ==> Filled(was[i], now[i], |was[i].data|)) && now[n..] == was[n..]
  }

  /** One segment: START, the address, and its bytes. */
  method TransferSegment(bus: I2cBus, seg: Segment) returns (ret: int, filled: Segment)
    requires bus.Valid() && (bus.line.scl ==> bus.line.sda)
    modifies bus
    ensures bus.Valid() && NoStop(old(bus.Seen()), bus.Seen()) && Filled(seg, filled, |seg.data|)
    ensures ret == 0 ==> !bus.line.scl && bus.Seen() == old(bus.Seen()) + SegmentSymbols(filled)
    ensures ret == 0 <==> SegmentTaken(bus.env, old(bus.pulse), seg, old(bus.line).scl)
    ensures ret == 0 ==> bus.pulse == old(bus.pulse) + SegmentPulses(seg) && filled == Answered(bus.env, old(bus.pulse), seg)
  {
    filled := seg;
    Errors();
    hide *;
    ghost var was, p, q := bus.Seen(), bus.pulse, bus.pulse + 10;
    ghost var env, idle := bus.env, bus.line.scl;
    FilledFrom(seg);
    SegmentTakenIs(env, p, q, seg, idle);
    AnswerNone(env, p, seg);
    ret := bus.StartCond();
    if ret < 0 {
      return;
    }
    ghost var mid := bus.Seen();
    ret := bus.OutByte(AddressByte(seg));
    NoStopTwice(was, mid, bus.Seen());
    if ret < 0 {
      return;
    }
    SegmentStart(was, seg);
    for i := 0 to |seg.data|
      invariant bus.Valid() && !bus.line.scl && NoStop(was, bus.Seen()) && ret == 0
      invariant Filled(seg, filled, |seg.data|) && |filled.data| == |seg.data|
      invariant bus.Seen() == was + Progress(filled, i)
      invariant bus.pulse == p + 10 + 9 * i && filled == AnsweredTo(env, p, seg, i)
      invariant forall j: nat :: j < i ==> DataTaken(env, q, seg, j)
    {
      mid := bus.Seen();
      DataTakenIs(env, q, seg, i);
      FilledParts(seg, filled);
      if seg.read {
        ret := bus.InByte(i < |seg.data| - 1);
        NoStopTwice(was, mid, bus.Seen());
        FilledOne(seg, filled, i, ret % 0x100);
        filled := filled.(data := filled.data[i := ret % 0x100]);
      } else {
        ret := bus.OutByte(seg.data[i]);
        NoStopTwice(was, mid, bus.Seen());
      }
      if ret < 0 {
        return;
      }
      ProgressStep(was, filled, i);
      AnswerStep(env, p, seg, i);
      ret := 0;
    }
    SegmentEnd(filled);
    AnswerAll(env, p, seg);
  }

  // The data start at pulse q.
  lemma SegmentTakenIs(env: nat -> Reply, p: nat, q: nat, s: Segment, idle: bool)
    requires q == p + 10
    ensures SegmentTaken(env, p, s, idle) <==>
            && StartTaken(env(p), idle) && ByteTaken(env, p + 1, AddressByte(s))
            && forall i: nat :: i < |s.data| ==> DataTaken(env, q, s, i)
  {
    hide StartTaken, ByteTaken, DataTaken, AddressByte;
    assert AllDataTaken(env, q, s) <==> forall i: nat :: i < |s.data| ==> DataTaken(env, q, s, i);
  }

  lemma DataTakenIs(env: nat -> Reply, p: nat, s: Segment, i: nat)
    requires i < |s.data|
    ensures DataTaken(env, p, s, i) <==>
            if s.read then ByteGiven(env, p + 9 * i, i < |s.data| - 1) else ByteTaken(env, p + 9 * i, s.data[i])
  {
    hide ByteGiven, ByteTaken;
  }

  // The first n bytes read, the others as they were.
  function AnsweredTo(env: nat -> Reply, p: nat, s: Segment, n: nat): Segment
    requires n <= |s.data|
  {
    if s.read then
      s.(data := seq(|s.data|, i requires 0 <= i < |s.data| => if i < n then ShownByte(env, p + 10 + 9 * i) else s.data[i]))
    else s
  }

  lemma AnswerNone(env: nat -> Reply, p: nat, s: Segment)
    ensures AnsweredTo(env, p, s, 0) == s
  {
    hide ShownByte;
    assert AnsweredTo(env, p, s, 0).data == s.data;
  }

  lemma AnswerStep(env: nat -> Reply, p: nat, s: Segment, n: nat)
    requires n < |s.data|
    ensures s.read ==>
              var t := AnsweredTo(env, p, s, n);
              |t.data| == |s.data| && AnsweredTo(env, p, s, n + 1) == t.(data := t.data[n := ShownByte(env, p + 10 + 9 * n)])
    ensures !s.read ==> AnsweredTo(env, p, s, n + 1) == AnsweredTo(env, p, s, n)
  {
    hide ShownByte;
    if s.read {
      var t := AnsweredTo(env, p, s, n);
      assert AnsweredTo(env, p, s, n + 1).data == t.data[n := ShownByte(env, p + 10 + 9 * n)];
    }
  }

  lemma AnswerAll(env: nat -> Reply, p: nat, s: Segment)
    ensures AnsweredTo(env, p, s, |s.data|) == Answered(env, p, s) && SegmentPulses(s) == 10 + 9 * |s.data|
  {
    hide ShownByte;
    assert AnsweredTo(env, p, s, |s.data|).data == Answered(env, p, s).data;
  }

  function Progress(s: Segment, n: nat): seq<Symbol>
    requires n <= |s.data|
  {
    [Start] + Slot(AddressByte(s), true) + DataSymbols(s, n)
  }

  lemma FilledFrom(s: Segment)
    ensures Filled(s, s, |s.data|)
  {
  }

  lemma FilledParts(was: Segment, now: Segment)
    requires Filled(was, now, |was.data|)
    ensures |now.data| == |was.data| && now.read == was.read && (!was.read ==> now == was)
  {
  }

  // Filling in byte i leaves what was transferred before.
  lemma FilledOne(was: Segment, s: Segment, i: nat, b: byte)
    requires Filled(was, s, |was.data|) && i < |s.data| && was.read
    ensures Filled(was, s.(data := s.data[i := b]), |was.data|)
    ensures Progress(s.(data := s.data[i := b]), i) == Progress(s, i)
  {
    SameData(s, s.(data := s.data[i := b]), i);
  }

  lemma {:induction false} SameData(s: Segment, t: Segment, n: nat)
    requires n <= |s.data| == |t.data| && s.read == t.read && s.data[..n] == t.data[..n]
    ensures DataSymbols(s, n) == DataSymbols(t, n)
  {
    if n > 0 {
      assert s.data[..n][n - 1] == t.data[..n][n - 1];
      assert s.data[..n - 1] == s.data[..n][..n - 1] && t.data[..n - 1] == t.data[..n][..n - 1];
      SameData(s, t, n - 1);
    }
  }

  lemma SegmentStart(was: seq<Symbol>, s: Segment)
    ensures was + [Start] + Slot(AddressByte(s), true) == was + Progress(s, 0)
  {
    hide Slot, AddressByte;
  }

  lemma ProgressStep(was: seq<Symbol>, s: Segment, i: nat)
    requires i < |s.data|
    ensures was + Progress(s, i) + Slot(s.data[i], Acked(s, i)) == was + Progress(s, i + 1)
    ensures Acked(s, i) <==> !s.read || i < |s.data| - 1
  {
    hide Slot, AddressByte;
  }

  lemma SegmentEnd(s: Segment)
    ensures Progress(s, |s.data|) == SegmentSymbols(s)
  {
  }

  /**
   software_i2c_transfer. On success the lines carried exactly the segments, with one STOP at the end if SDA could
   rise; on an error there is no STOP, so the bus is left busy.
   */
  method SoftwareI2cTransfer(bus: I2cBus, segments: seq<Segment>) returns (ret: int, done: seq<Segment>)
    requires bus.Valid() && (bus.line.scl ==> bus.line.sda) && segments != []
    modifies bus
    ensures bus.Valid() && SameRequests(segments, done, |segments|)
    ensures ret == 0 <==> TransferTaken(bus.env, old(bus.pulse), segments, old(bus.line).scl)
    ensures ret == 0 ==> bus.line.scl && done == Answers(bus.env, old(bus.pulse), segments)
    ensures ret == 0 ==> bus.line.sda == bus.env(old(bus.pulse) + Pulses(segments)).during
    ensures ret == 0 ==> bus.Seen() == old(bus.Seen()) + TransferSymbols(done) + if bus.line.sda then [Stop] else []
    ensures ret != 0 ==> NoStop(old(bus.Seen()), bus.Seen())
  {
    done := segments;
    hide *;
    ghost var was, p := bus.Seen(), bus.pulse;
    ghost var env, idle := bus.env, bus.line.scl;
    TransferStart(was, segments);
    PulsesStart(env, p, segments);
    TransferTakenIs(env, p, segments, idle);
    for i := 0 to |segments|
      invariant bus.Valid() && (bus.line.scl ==> bus.line.sda) && (i > 0 ==> !bus.line.scl) && NoStop(was, bus.Seen())
      invariant SameRequests(segments, done, i) && |done| == |segments|
      invariant bus.Seen() == was + TransferSymbols(done[..i])
      invariant bus.pulse == p + Pulses(segments[..i]) && done[..i] == Answers(env, p, segments[..i])
      invariant (i == 0 ==> bus.line.scl == idle)
      invariant forall j: nat :: j < i ==> TakenIn(env, p, segments, j, idle)
    {
      TakenInIs(env, p, segments, i, idle);
      ghost var mid := bus.Seen();
      SameRest(segments, done, i);
      var filled;
      ret, filled := TransferSegment(bus, done[i]);
      NoStopTwice(was, mid, bus.Seen());
      OneMoreDone(segments, done, i, filled);
      ghost var before := done;
      done := done[i := filled];
      if ret != 0 {
        AllRequests(segments, done, i + 1);
        return;
      }
      OneMoreSegment(was, before, done, i);
      PulsesStep(env, p, segments, i);
      assert done[..i + 1] == before[..i] + [filled];
    }
    AllRequests(segments, done, |segments|);
    assert done[..|segments|] == done && segments[..|segments|] == segments;
    ret := bus.StopCond();
  }

  lemma PulsesStart(env: nat -> Reply, p: nat, ss: seq<Segment>)
    ensures Pulses(ss[..0]) == 0 && Answers(env, p, ss[..0]) == ss[..0] == []
  {
  }

  lemma PulsesStep(env: nat -> Reply, p: nat, ss: seq<Segment>, i: nat)
    requires i < |ss|
    ensures Pulses(ss[..i + 1]) == Pulses(ss[..i]) + SegmentPulses(ss[i])
    ensures Answers(env, p, ss[..i + 1]) == Answers(env, p, ss[..i]) + [Answered(env, p + Pulses(ss[..i]), ss[i])]
  {
    hide SegmentPulses, Answered;
    assert ss[..i + 1][..i] == ss[..i];
  }

  lemma TransferTakenIs(env: nat -> Reply, p: nat, ss: seq<Segment>, idle: bool)
    ensures TransferTaken(env, p, ss, idle) <==>
            (forall i: nat :: i < |ss| ==> TakenIn(env, p, ss, i, idle)) && env(p + Pulses(ss)).rises
  {
    hide TakenIn, Pulses;
  }

  lemma TakenInIs(env: nat -> Reply, p: nat, ss: seq<Segment>, i: nat, idle: bool)
    requires i < |ss|
    ensures TakenIn(env, p, ss, i, idle) <==> SegmentTaken(env, p + Pulses(ss[..i]), ss[i], idle && i == 0)
  {
    hide SegmentTaken, Pulses;
  }

  lemma TransferStart(was: seq<Symbol>, ss: seq<Segment>)
    ensures SameRequests(ss, ss, 0) && was == was + TransferSymbols(ss[..0]) && NoStop(was, was)
  {
  }

  lemma SameRest(was: seq<Segment>, now: seq<Segment>, i: nat)
    requires SameRequests(was, now, i) && i < |was|
    ensures |now| == |was| && now[i] == was[i]
  {
    assert now[i..][0] == was[i..][0];
  }

  lemma OneMoreDone(was: seq<Segment>, now: seq<Segment>, i: nat, filled: Segment)
    requires SameRequests(was, now, i) && i < |was| == |now| && Filled(was[i], filled, |was[i].data|)
    ensures SameRequests(was, now[i := filled], i + 1)
  {
    hide Filled;
    assert now[i := filled][i + 1..] == now[i..][1..] == was[i..][1..] == was[i + 1..];
  }

  // Segments not reached yet are as they were asked for.
  lemma AllRequests(was: seq<Segment>, now: seq<Segment>, n: nat)
    requires SameRequests(was, now, n)
    ensures SameRequests(was, now, |was|)
  {
    forall i | n <= i < |was|
      ensures Filled(was[i], now[i], |was[i].data|)
    {
      assert now[n..][i - n] == was[n..][i - n];
      FilledFrom(was[i]);
    }
  }

  lemma OneMoreSegment(was: seq<Symbol>, before: seq<Segment>, now: seq<Segment>, i: nat)
    requires i < |before| == |now| && now == before[i := now[i]]
    ensures was + TransferSymbols(before[..i]) + SegmentSymbols(now[i]) == was + TransferSymbols(now[..i + 1])
  {
    hide SegmentSymbols;
    assert now[..i + 1][..i] == before[..i];
  }

  // ----- Decoding symbols

  datatype Slotted = Slotted(b: nat, ack: bool)

  // A receiver: complete bytes since every START, bits of the byte that is coming in, and STOPs.
  datatype Receiver = Receiver(frames: seq<seq<Slotted>>, pending: seq<bool>, stops: nat)

  function Value(bits: seq<bool>): nat {
    if bits == [] then 0 else Value(bits[..|bits| - 1]) * 2 + if bits[|bits| - 1] then 1 else 0
  }

  function Receive(r: Receiver, s: Symbol): Receiver {
    match s
    case Start => Receiver(r.frames + [[]], [], r.stops)
    case Stop => r.(pending := [], stops := r.stops + 1)
    case Bit(value) =>
      if |r.pending| < 8 then r.(pending := r.pending + [value])
      else if r.frames == [] then r.(pending := [])
      else r.(frames := Grown(r.frames, Slotted(Value(r.pending), !value)), pending := [])
  }

  function Grown(frames: seq<seq<Slotted>>, s: Slotted): seq<seq<Slotted>>
    requires frames != []
  {
    frames[..|frames| - 1] + [frames[|frames| - 1] + [s]]
  }

  function ReceiveAll(r: Receiver, ss: seq<Symbol>): Receiver {
    if ss == [] then r else Receive(ReceiveAll(r, ss[..|ss| - 1]), ss[|ss| - 1])
  }

  lemma {:induction false} ReceiveBoth(r: Receiver, x: seq<Symbol>, y: seq<Symbol>)
    ensures ReceiveAll(r, x + y) == ReceiveAll(ReceiveAll(r, x), y)
    decreases |y|
  {
    hide Receive;
    if y == [] {
      assert x + y == x;
    } else {
      assert (x + y)[..|x + y| - 1] == x + y[..|y| - 1];
      ReceiveBoth(r, x, y[..|y| - 1]);
    }
  }

  lemma ReceiveOne(r: Receiver, x: seq<Symbol>, s: Symbol)
    ensures ReceiveAll(r, x + [s]) == Receive(ReceiveAll(r, x), s)
  {
    assert (x + [s])[..|x|] == x;
  }

  lemma ValueStep(bits: seq<bool>, bit: bool)
    ensures Value(bits + [bit]) == Value(bits) * 2 + if bit then 1 else 0
  {
    assert (bits + [bit])[..|bits|] == bits;
  }

  lemma {:induction false} ReceiveBits(r: Receiver, v: nat, n: nat)
    requires n <= 8 && r.pending == [] && v < Pow2(n)
    ensures var bits := ReceiveAll(r, Bits(v, n)).pending; |bits| == n && Value(bits) == v
    ensures ReceiveAll(r, Bits(v, n)) == r.(pending := ReceiveAll(r, Bits(v, n)).pending)
    decreases n
  {
    if n > 0 {
      ReceiveBits(r, v / 2, n - 1);
      ReceiveOne(r, Bits(v / 2, n - 1), Bit(v % 2 == 1));
      ValueStep(ReceiveAll(r, Bits(v / 2, n - 1)).pending, v % 2 == 1);
    }
  }

  /** Nine bits are a byte and its acknowledgement. */
  lemma ReceiveSlot(r: Receiver, b: byte, ack: bool)
    requires r.pending == [] && r.frames != []
    ensures ReceiveAll(r, Slot(b, ack)) == r.(frames := Grown(r.frames, Slotted(b, ack)))
  {
    ByteRange();
    ReceiveBits(r, b, 8);
    ReceiveOne(r, Bits(b, 8), Bit(!ack));
    hide Bits, ReceiveAll, Value;
  }

  // What a segment is to its receiver.
  function FrameOf(s: Segment, n: nat): seq<Slotted>
    requires n <= |s.data|
  {
    if n == 0 then [Slotted(AddressByte(s), true)]
    else FrameOf(s, n - 1) + [Slotted(s.data[n - 1], Acked(s, n - 1))]
  }

  lemma {:induction false} ReceiveData(r: Receiver, s: Segment, n: nat)
    requires n <= |s.data| && r.pending == []
    ensures ReceiveAll(r, [Start] + Slot(AddressByte(s), true) + DataSymbols(s, n)) ==
            r.(frames := r.frames + [FrameOf(s, n)])
    decreases n
  {
    hide Slot, AddressByte, Grown, Receive;
    var head := [Start] + Slot(AddressByte(s), true);
    if n == 0 {
      assert head + DataSymbols(s, 0) == head;
      ReceiveBoth(r, [Start], Slot(AddressByte(s), true));
      ReceiveOne(r, [], Start);
      assert [] + [Start] == [Start];
      ReceiveStart(r);
      var started := r.(frames := r.frames + [[]]);
      ReceiveSlot(started, AddressByte(s), true);
      GrownLast(r.frames, [], Slotted(AddressByte(s), true));
      assert [] + [Slotted(AddressByte(s), true)] == FrameOf(s, 0);
    } else {
      ReceiveData(r, s, n - 1);
      assert head + DataSymbols(s, n) == (head + DataSymbols(s, n - 1)) + Slot(s.data[n - 1], Acked(s, n - 1));
      ReceiveBoth(r, head + DataSymbols(s, n - 1), Slot(s.data[n - 1], Acked(s, n - 1)));
      var so := r.(frames := r.frames + [FrameOf(s, n - 1)]);
      ReceiveSlot(so, s.data[n - 1], Acked(s, n - 1));
      GrownLast(r.frames, FrameOf(s, n - 1), Slotted(s.data[n - 1], Acked(s, n - 1)));
    }
  }

  lemma ReceiveStart(r: Receiver)
    ensures Receive(r, Start) == Receiver(r.frames + [[]], [], r.stops)
  {
  }

  lemma GrownLast(frames: seq<seq<Slotted>>, last: seq<Slotted>, s: Slotted)
    ensures Grown(frames + [last], s) == frames + [last + [s]]
  {
  }

  function FramesOf(ss: seq<Segment>): seq<seq<Slotted>> {
    if ss == [] then [] else FramesOf(ss[..|ss| - 1]) + [FrameOf(ss[|ss| - 1], |ss[|ss| - 1].data|)]
  }

  /**
   What goes over the lines decodes to the segments: address and direction, then every byte with its
   acknowledgement, the last byte read being refused one.
   */
  lemma {:induction false} TransferIsReceived(ss: seq<Segment>)
    ensures ReceiveAll(Receiver([], [], 0), TransferSymbols(ss)) == Receiver(FramesOf(ss), [], 0)
    decreases |ss|
  {
    if ss != [] {
      var before, last := ss[..|ss| - 1], ss[|ss| - 1];
      TransferIsReceived(before);
      ReceiveBoth(Receiver([], [], 0), TransferSymbols(before), SegmentSymbols(last));
      ReceiveData(Receiver(FramesOf(before), [], 0), last, |last.data|);
      hide DataSymbols, FrameOf, Slot, ReceiveAll;
    }
  }

  lemma ReceiveStop(ss: seq<Segment>, released: bool)
    ensures ReceiveAll(Receiver([], [], 0), TransferSymbols(ss) + if released then [Stop] else []) ==
            Receiver(FramesOf(ss), [], if released then 1 else 0)
  {
    TransferIsReceived(ss);
    hide FramesOf, TransferSymbols;
    if released {
      ReceiveOne(Receiver([], [], 0), TransferSymbols(ss), Stop);
    } else {
      assert TransferSymbols(ss) + [] == TransferSymbols(ss);
    }
  }

  lemma {:induction false} NoStopInBits(v: nat, n: nat)
    ensures Stop !in Bits(v, n)
    decreases n
  {
    if n > 0 {
      NoStopInBits(v / 2, n - 1);
    }
  }

  lemma {:induction false} NoStopInData(s: Segment, n: nat)
    requires n <= |s.data|
    ensures Stop !in DataSymbols(s, n)
    decreases n
  {
    if n > 0 {
      NoStopInData(s, n - 1);
      NoStopInBits(s.data[n - 1], 8);
    }
  }

  lemma {:induction false} NoStopInside(ss: seq<Segment>)
    ensures Stop !in TransferSymbols(ss)
    decreases |ss|
  {
    if ss != [] {
      NoStopInside(ss[..|ss| - 1]);
      var last := ss[|ss| - 1];
      NoStopInBits(AddressByte(last), 8);
      NoStopInData(last, |last.data|);
      hide Bits, DataSymbols;
    }
  }

  lemma NoStopAtAll(seen: seq<Symbol>)
    ensures NoStop([], seen) ==> Stop !in seen
  {
  }

  lemma {:induction false} FrameSlots(s: Segment, n: nat)
    requires n <= |s.data|
    ensures |FrameOf(s, n)| == n + 1
    ensures FrameOf(s, n)[0] == Slotted((s.slave * 2 + if s.read then 1 else 0) % 0x100, true)
    ensures forall j :: 0 <= j < n ==> FrameOf(s, n)[j + 1] == Slotted(s.data[j], !s.read || j != |s.data| - 1)
    decreases n
  {
    if n > 0 {
      FrameSlots(s, n - 1);
    }
  }

  lemma AddressBits(slave: nat, read: bool)
    ensures var b := (slave * 2 + if read then 1 else 0) % 0x100;
              (b % 2 == 1 <==> read) && (slave < 0x80 ==> b / 2 == slave)
  {
  }

  lemma {:induction false} FramesAt(ss: seq<Segment>, i: nat)
    requires i < |ss|
    ensures |FramesOf(ss)| == |ss| && FramesOf(ss)[i] == FrameOf(ss[i], |ss[i].data|)
    decreases |ss|
  {
    hide FrameOf;
    if i < |ss| - 1 {
      FramesAt(ss[..|ss| - 1], i);
    } else if i > 0 {
      FramesAt(ss[..|ss| - 1], i - 1);
    } else {
      assert FramesOf(ss[..0]) == [];
    }
  }

  // What a slave makes of a frame: whether it is a read, of which slave, and the bytes with their answers.
  ghost predicate Carries(frame: seq<Slotted>, asked: Segment, done: Segment) {
    && |frame| == |asked.data| + 1 == |done.data| + 1
    && (frame[0].b % 2 == 1 <==> asked.read) && frame[0].ack
    && (asked.slave < 0x80 ==> frame[0].b / 2 == asked.slave)
    && forall j: nat :: j < |asked.data| ==> CarriesByte(frame, asked, done, j)
  }

  ghost predicate CarriesByte(frame: seq<Slotted>, asked: Segment, done: Segment, j: nat)
    requires j < |asked.data| == |done.data| && |frame| == |asked.data| + 1
  {
    && frame[j + 1].b == (if asked.read then done.data[j] else asked.data[j])
    && (frame[j + 1].ack <==> !(asked.read && j == |asked.data| - 1))
  }

  lemma FrameCarries(asked: Segment, done: Segment)
    requires Filled(asked, done, |asked.data|)
    ensures |asked.data| == |done.data| && Carries(FrameOf(done, |done.data|), asked, done)
  {
    hide FrameOf;
    FrameSlots(done, |done.data|);
    AddressBits(done.slave, done.read);
    forall j: nat | j < |asked.data|
      ensures CarriesByte(FrameOf(done, |done.data|), asked, done, j)
    {
      assert FrameOf(done, |done.data|)[j + 1] == Slotted(done.data[j], !done.read || j != |done.data| - 1);
    }
  }

  /** The frames tell the requests. */
  lemma FramesSay(segments: seq<Segment>, done: seq<Segment>)
    requires SameRequests(segments, done, |segments|) && segments != []
    ensures |FramesOf(done)| == |segments| == |done|
    ensures forall i :: 0 <= i < |segments| ==> Carries(FramesOf(done)[i], segments[i], done[i])
  {
    hide FrameOf, FramesOf, Carries, Filled;
    FramesAt(done, 0);
    forall i | 0 <= i < |segments|
      ensures Carries(FramesOf(done)[i], segments[i], done[i])
    {
      FramesAt(done, i);
      FrameCarries(segments[i], done[i]);
    }
  }

  lemma AddressesSay(segments: seq<Segment>, done: seq<Segment>)
    requires |FramesOf(done)| == |segments| == |done|
    requires forall i :: 0 <= i < |segments| ==> Carries(FramesOf(done)[i], segments[i], done[i])
    ensures forall i :: 0 <= i < |segments| ==>
              FramesOf(done)[i] != [] && (FramesOf(done)[i][0].b % 2 == 1 <==> segments[i].read)
    ensures forall i :: 0 <= i < |segments| && segments[i].slave < 0x80 ==>
              FramesOf(done)[i] != [] && FramesOf(done)[i][0].b / 2 == segments[i].slave
  {
    hide FramesOf;
  }

  /**
   From an idle bus: the transfer succeeds exactly if the slave takes every bit it has to, acknowledges every byte and lets
   the clock rise. Then the trace decodes to the segments, with the bytes the slave showed, and there is a STOP exactly if
   the slave lets SDA rise in the last pulse.
   */
  method TransferFromIdle(env: nat -> Reply, segments: seq<Segment>)
    returns (ret: int, done: seq<Segment>, ghost seen: seq<Symbol>)
    requires segments != []
    ensures SameRequests(segments, done, |segments|)
    ensures ret == 0 <==> TransferTaken(env, 0, segments, true)
    ensures ret == 0 ==> done == Answers(env, 0, segments)
    ensures ret == 0 ==> ReceiveAll(Receiver([], [], 0), seen) ==
                         Receiver(FramesOf(done), [], if env(Pulses(segments)).during then 1 else 0)
    ensures ret == 0 ==>
              var frames := ReceiveAll(Receiver([], [], 0), seen).frames;
                && |frames| == |segments| == |done|
                && (forall i :: 0 <= i < |segments| ==> Carries(frames[i], segments[i], done[i]))
                && (forall i :: 0 <= i < |segments| ==> frames[i] != [] && (frames[i][0].b % 2 == 1 <==> segments[i].read))
                && (forall i :: 0 <= i < |segments| && segments[i].slave < 0x80 ==> frames[i][0].b / 2 == segments[i].slave)
    ensures ret == 0 ==> (Stop in seen <==> env(Pulses(segments)).during)
    ensures ret != 0 ==> Stop !in seen
  {
    hide *;
    var bus := new I2cBus(env);
    ret, done := SoftwareI2cTransfer(bus, segments);
    ghost var released := bus.line.sda;
    seen := bus.Seen();
    ReceiveStop(done, released);
    NoStopInside(done);
    NoStopAtAll(seen);
    FramesSay(segments, done);
    AddressesSay(segments, done);
    assert 0 + Pulses(segments) == Pulses(segments);
    assert [] + TransferSymbols(done) == TransferSymbols(done);
  }

  // ----- Slaves

  function Showing(level: bool): Reply {
    Reply(true, level, true)
  }

  // Replies one after the other, and a free line after them.
  function Playing(rs: seq<Reply>): nat -> Reply {
    (p: nat) => if p < |rs| then rs[p] else Showing(true)
  }

  // Eight bits let through and an acknowledgement, or eight bits shown and the answer let through.
  function ByteReplies(read: bool, b: byte): (rs: seq<Reply>)
    ensures |rs| == 9
  {
    seq(9, k requires 0 <= k < 9 => if k < 8 then Showing(!read || BitOf(b, k)) else Showing(read))
  }

  function DataReplies(s: Segment, n: nat): (rs: seq<Reply>)
    requires n <= |s.data|
    ensures |rs| == 9 * n
  {
    if n == 0 then [] else DataReplies(s, n - 1) + ByteReplies(s.read, s.data[n - 1])
  }

  function SegmentReplies(s: Segment): (rs: seq<Reply>)
    ensures |rs| == SegmentPulses(s)
  {
    [Showing(true)] + ByteReplies(false, AddressByte(s)) + DataReplies(s, |s.data|)
  }

  function TransferReplies(ss: seq<Segment>): (rs: seq<Reply>)
    ensures |rs| == Pulses(ss)
  {
    if ss == [] then [] else TransferReplies(ss[..|ss| - 1]) + SegmentReplies(ss[|ss| - 1])
  }

  // A slave for these segments, with the data to read, that then holds SDA or lets it go.
  function Slave(ss: seq<Segment>, released: bool): nat -> Reply {
    Playing(TransferReplies(ss) + [Showing(released)])
  }

  ghost predicate Plays(env: nat -> Reply, p: nat, rs: seq<Reply>) {
    forall k: nat :: k < |rs| ==> env(p + k) == rs[k]
  }

  lemma PlaysParts(env: nat -> Reply, p: nat, q: nat, x: seq<Reply>, y: seq<Reply>)
    requires Plays(env, p, x + y) && q == p + |x|
    ensures Plays(env, p, x) && Plays(env, q, y)
  {
    var z := x + y;
    forall k: nat | k < |x|
      ensures env(p + k) == x[k]
    {
      assert z[k] == x[k];
    }
    forall k: nat | k < |y|
      ensures env(q + k) == y[k]
    {
      assert z[|x| + k] == y[k] && p + (|x| + k) == q + k;
    }
  }

  lemma PlaysByte(env: nat -> Reply, p: nat, read: bool, b: byte)
    requires Plays(env, p, ByteReplies(read, b))
    ensures forall k: nat :: k < 8 ==> RisesAt(env, p, k) && env(p + k) == Showing(!read || BitOf(b, k))
    ensures env(p + 8) == Showing(read)
  {
    hide BitOf;
    var rs := ByteReplies(read, b);
    assert env(p + 8) == rs[8];
    forall k: nat | k < 8
      ensures RisesAt(env, p, k) && env(p + k) == Showing(!read || BitOf(b, k))
    {
      assert env(p + k) == rs[k] == Showing(!read || BitOf(b, k));
      RisesIs(env, p, k);
    }
  }

  lemma PlaysTaken(env: nat -> Reply, p: nat, b: byte)
    requires Plays(env, p, ByteReplies(false, b))
    ensures ByteTaken(env, p, b)
  {
    hide BitOf, Plays;
    PlaysByte(env, p, false, b);
  }

  lemma {:induction false} ShownIs(env: nat -> Reply, p: nat, b: byte, n: nat)
    requires n <= 8 && forall k: nat :: k < 8 ==> RisesAt(env, p, k) && env(p + k) == Showing(BitOf(b, k))
    ensures Shown(env, p, n) == ShiftedRight(b, 8 - n)
    decreases n
  {
    if n > 0 {
      ShownIs(env, p, b, n - 1);
      assert RisesAt(env, p, n - 1);
      assert env(p + (n - 1)).during == BitOf(b, n - 1);
      ShiftStep(b, 8 - n);
    } else {
      ShiftedOut(b);
    }
  }

  lemma ShiftStep(b: nat, m: nat)
    ensures ShiftedRight(b, m) == ShiftedRight(b, m + 1) * 2 + ShiftedRight(b, m) % 2
  {
  }

  lemma ShiftedOut(b: byte)
    ensures ShiftedRight(b, 8) == 0
  {
    assert ShiftedRight(b, 1) < 128;
    assert ShiftedRight(b, 2) < 64;
    assert ShiftedRight(b, 4) < 16;
    assert ShiftedRight(b, 6) < 4;
  }

  lemma PlaysGiven(env: nat -> Reply, p: nat, b: byte, ack: bool)
    requires Plays(env, p, ByteReplies(true, b))
    ensures ByteGiven(env, p, ack) && ShownByte(env, p) == b
  {
    hide BitOf, Plays, ShiftedRight;
    PlaysByte(env, p, true, b);
    ShownIs(env, p, b, 8);
    BitsEnd(b);
    ShownByteIs(env, p);
  }

  lemma {:induction false} PlaysData(env: nat -> Reply, p: nat, s: Segment, n: nat)
    requires n <= |s.data| && Plays(env, p, DataReplies(s, n))
    ensures forall i: nat :: i < n ==> DataTaken(env, p, s, i) && (s.read ==> ShownByte(env, p + 9 * i) == s.data[i])
    decreases n
  {
    hide ByteTaken, ByteGiven, ByteReplies, Plays, ShownByte;
    if n > 0 {
      PlaysParts(env, p, p + 9 * (n - 1), DataReplies(s, n - 1), ByteReplies(s.read, s.data[n - 1]));
      PlaysData(env, p, s, n - 1);
      if s.read {
        PlaysGiven(env, p + 9 * (n - 1), s.data[n - 1], Acked(s, n - 1));
      } else {
        PlaysTaken(env, p + 9 * (n - 1), s.data[n - 1]);
      }
    }
  }

  lemma PlaysSegment(env: nat -> Reply, p: nat, s: Segment, idle: bool)
    requires Plays(env, p, SegmentReplies(s))
    ensures SegmentTaken(env, p, s, idle) && Answered(env, p, s) == s
  {
    hide ByteTaken, DataTaken, AddressByte, ByteReplies, DataReplies, Plays, ShownByte;
    var head := [Showing(true)] + ByteReplies(false, AddressByte(s));
    PlaysParts(env, p, p + 10, head, DataReplies(s, |s.data|));
    PlaysParts(env, p, p + 1, [Showing(true)], ByteReplies(false, AddressByte(s)));
    PlaysFirst(env, p, Showing(true));
    PlaysTaken(env, p + 1, AddressByte(s));
    PlaysData(env, p + 10, s, |s.data|);
    if s.read {
      assert Answered(env, p, s).data == s.data;
    }
  }

  lemma PlaysFirst(env: nat -> Reply, p: nat, r: Reply)
    requires Plays(env, p, [r])
    ensures env(p) == r
  {
    assert env(p + 0) == [r][0];
  }

  lemma {:induction false} PlaysTransfer(env: nat -> Reply, ss: seq<Segment>, n: nat, idle: bool)
    requires n <= |ss| && Plays(env, 0, TransferReplies(ss[..n]))
    ensures forall i: nat :: i < n ==> TakenIn(env, 0, ss, i, idle)
    ensures Answers(env, 0, ss[..n]) == ss[..n]
    decreases n
  {
    hide SegmentTaken, SegmentReplies, Plays, Answered;
    if n > 0 {
      assert ss[..n][..n - 1] == ss[..n - 1];
      PlaysParts(env, 0, Pulses(ss[..n - 1]), TransferReplies(ss[..n - 1]), SegmentReplies(ss[n - 1]));
      PlaysTransfer(env, ss, n - 1, idle);
      PlaysSegment(env, Pulses(ss[..n - 1]), ss[n - 1], idle && n - 1 == 0);
    }
  }

  /** For every transfer and either fate of its STOP there is a slave that goes along with it and shows the data. */
  lemma SlaveCooperates(ss: seq<Segment>, released: bool)
    ensures TransferTaken(Slave(ss, released), 0, ss, true) && Answers(Slave(ss, released), 0, ss) == ss
    ensures Slave(ss, released)(Pulses(ss)).during == released
  {
    var env, rs := Slave(ss, released), TransferReplies(ss);
    assert Plays(env, 0, rs + [Showing(released)]);
    hide Plays, TransferReplies, TakenIn, Answers;
    assert ss[..|ss|] == ss;
    PlaysParts(env, 0, |rs|, rs, [Showing(released)]);
    PlaysTransfer(env, ss, |ss|, true);
  }

  /**
   Every transfer can be reported as a success without having ended in a STOP: here the slave does everything asked of it,
   and then holds SDA or lets it go.
   */
  method TransferToSlave(segments: seq<Segment>, released: bool)
    returns (ret: int, done: seq<Segment>, ghost seen: seq<Symbol>)
    requires segments != []
    ensures ret == 0 && done == segments && (Stop in seen <==> released)
  {
    hide *;
    SlaveCooperates(segments, released);
    ret, done, seen := TransferFromIdle(Slave(segments, released), segments);
  }
}
