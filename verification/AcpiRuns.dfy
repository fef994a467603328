/**
 Whole runs of the AML generator: every well-bracketed run of open, emit and close leaves the recursive encoding
 of the tree it spells, and a reader that follows the package lengths gets that tree back.
 */
module AcpiRuns {
  import opened Buffers
  import opened PkgLength
  import opened AcpiGen

  datatype Op = Open | Emit(b: byte) | Close

  datatype Aml = Byte(b: byte) | Package(items: seq<Aml>)

  // ----- The recursive encoder

  function Encode(a: Aml): seq<byte>
    decreases a, 1
  {
    match a
    case Byte(b) => [b]
    case Package(items) => ClosedPackage(EncodeAll(items))
  }

  function EncodeAll(items: seq<Aml>): seq<byte>
    decreases items, 0
  {
    if items == [] then [] else EncodeAll(items[..|items| - 1]) + Encode(items[|items| - 1])
  }

  // Every package is short enough for three length bytes.
  ghost predicate Fits(a: Aml)
    decreases a, 1
  {
    match a
    case Byte(_) => true
    case Package(items) => Encodable(|EncodeAll(items)|) && FitsAll(items)
  }

  ghost predicate FitsAll(items: seq<Aml>)
    decreases items, 0
  {
    forall i :: 0 <= i < |items| ==> Fits(items[i])
  }

  // ----- Runs

  function Step(f: seq<seq<byte>>, op: Op): (r: seq<seq<byte>>)
    requires f != [] && (op == Close ==> |f| >= 2)
    ensures |r| == |f| + Rise(op)
  {
    match op
    case Open => f + [[]]
    case Emit(b) => Appended(f, [b])
    case Close => Closed(f, ClosedPackage(Last(f)))
  }

  function Rise(op: Op): int {
    match op
    case Open => 1
    case Emit(_) => 0
    case Close => -1
  }

  function Depth(ops: seq<Op>): int {
    if ops == [] then 0 else Depth(ops[..|ops| - 1]) + Rise(ops[|ops| - 1])
  }

  // No prefix closes more than it opens.
  ghost predicate Bracketed(ops: seq<Op>) {
    forall i :: 0 <= i <= |ops| ==> Depth(ops[..i]) >= 0
  }

  ghost predicate WellBracketed(ops: seq<Op>) {
    Bracketed(ops) && Depth(ops) == 0
  }

  lemma BracketedPrefix(ops: seq<Op>)
    requires Bracketed(ops) && ops != []
    ensures Bracketed(ops[..|ops| - 1])
    ensures Depth(ops) == Depth(ops[..|ops| - 1]) + Rise(ops[|ops| - 1]) >= 0
  {
    var before := ops[..|ops| - 1];
    assert ops[..|ops|] == ops;
    forall i | 0 <= i <= |before|
      ensures Depth(before[..i]) >= 0
    {
      assert before[..i] == ops[..i];
    }
  }

  // What frames become by a run.
  function Run(f: seq<seq<byte>>, ops: seq<Op>): (r: seq<seq<byte>>)
    requires f != [] && Bracketed(ops)
    ensures |r| == |f| + Depth(ops) >= |f|
  {
    if ops == [] then f
    else
      BracketedPrefix(ops);
      assert ops[|ops| - 1] == Close ==> Depth(ops[..|ops| - 1]) >= 1;
      Step(Run(f, ops[..|ops| - 1]), ops[|ops| - 1])
  }

  /** A bracketed run leaves the outer frames alone and only adds to the one it starts in. */
  lemma {:induction false} OuterFramesStay(f: seq<seq<byte>>, ops: seq<Op>)
    requires f != [] && Bracketed(ops)
    ensures forall k :: 0 <= k < |f| - 1 ==> Run(f, ops)[k] == f[k]
    ensures Last(f) <= Run(f, ops)[|f| - 1]
    decreases |ops|
  {
    hide ClosedPackage;
    if ops != [] {
      BracketedPrefix(ops);
      OuterFramesStay(f, ops[..|ops| - 1]);
    }
  }

  // ----- The tree a run spells

  // Items of every open package, outermost first.
  function Spelled(ops: seq<Op>): (s: seq<seq<Aml>>)
    requires Bracketed(ops)
    ensures |s| == Depth(ops) + 1
  {
    if ops == [] then [[]]
    else
      BracketedPrefix(ops);
      var before := Spelled(ops[..|ops| - 1]);
      var k := |before| - 1;
      match ops[|ops| - 1]
      case Open => before + [[]]
      case Emit(b) => before[..k] + [before[k] + [Byte(b)]]
      case Close => before[..k - 1] + [before[k - 1] + [Package(before[k])]]
  }

  function Tree(ops: seq<Op>): seq<Aml>
    requires WellBracketed(ops)
  {
    Spelled(ops)[0]
  }

  function Ops(a: Aml): seq<Op>
    decreases a, 1
  {
    match a
    case Byte(b) => [Emit(b)]
    case Package(items) => [Open] + OpsOf(items) + [Close]
  }

  function OpsOf(items: seq<Aml>): seq<Op>
    decreases items, 0
  {
    if items == [] then [] else OpsOf(items[..|items| - 1]) + Ops(items[|items| - 1])
  }

  // The open packages and their items, spelled out again.
  function OpsOfOpen(s: seq<seq<Aml>>): seq<Op> {
    if s == [] then []
    else if |s| == 1 then OpsOf(s[0])
    else OpsOfOpen(s[..|s| - 1]) + [Open] + OpsOf(s[|s| - 1])
  }

  lemma OneMoreItem(items: seq<Aml>, a: Aml)
    ensures OpsOf(items + [a]) == OpsOf(items) + Ops(a)
    ensures EncodeAll(items + [a]) == EncodeAll(items) + Encode(a)
  {
    hide Ops, Encode;
    Cut(items, [a]);
  }

  lemma OpenOps(s: seq<seq<Aml>>, last: seq<Aml>)
    ensures OpsOfOpen(s + [last]) == (if s == [] then OpsOf(last) else OpsOfOpen(s) + [Open] + OpsOf(last))
  {
    hide OpsOf;
    Cut(s, [last]);
  }

  /** The tree of a run is spelled by exactly that run. */
  lemma {:induction false} SpelledByRun(ops: seq<Op>)
    requires Bracketed(ops)
    ensures OpsOfOpen(Spelled(ops)) == ops
    decreases |ops|
  {
    if ops == [] {
      assert OpsOfOpen([[]]) == OpsOf([]) == [];
    } else {
      BracketedPrefix(ops);
      var before, op := ops[..|ops| - 1], ops[|ops| - 1];
      SpelledByRun(before);
      var s := Spelled(before);
      SpelledStep(s, op);
      assert ops == before + [op];
    }
  }

  function Spell(s: seq<seq<Aml>>, op: Op): seq<seq<Aml>>
    requires s != [] && (op == Close ==> |s| >= 2)
  {
    var k := |s| - 1;
    match op
    case Open => s + [[]]
    case Emit(b) => s[..k] + [s[k] + [Byte(b)]]
    case Close => s[..k - 1] + [s[k - 1] + [Package(s[k])]]
  }

  lemma Assoc<T>(x: seq<T>, y: seq<T>, z: seq<T>)
    ensures x + y + z == x + (y + z)
  {
  }

  lemma Assoc4<T>(w: seq<T>, x: seq<T>, y: seq<T>, z: seq<T>)
    ensures w + x + y + z == w + (x + y + z)
  {
  }

  lemma LastOpenGrows(s: seq<seq<Aml>>, last: seq<Aml>, a: Aml)
    ensures OpsOfOpen(s + [last + [a]]) == OpsOfOpen(s + [last]) + Ops(a)
  {
    hide *;
    OneMoreItem(last, a);
    OpenOps(s, last + [a]);
    OpenOps(s, last);
    if s != [] {
      Assoc(OpsOfOpen(s) + [Open], OpsOf(last), Ops(a));
    }
  }

  lemma SpelledOpen(s: seq<seq<Aml>>)
    requires s != []
    ensures OpsOfOpen(s + [[]]) == OpsOfOpen(s) + [Open]
  {
    hide *;
    OpenOps(s, []);
    NoOps();
    assert OpsOfOpen(s) + [Open] + [] == OpsOfOpen(s) + [Open];
  }

  lemma SpelledClose(s: seq<seq<Aml>>, outer: seq<Aml>, inner: seq<Aml>)
    ensures OpsOfOpen(s + [outer + [Package(inner)]]) == OpsOfOpen(s + [outer] + [inner]) + [Close]
  {
    hide *;
    var t := s + [outer];
    OpenOps(t, inner);
    LastOpenGrows(s, outer, Package(inner));
    PackageOps(inner);
    Assoc4(OpsOfOpen(t), [Open], OpsOf(inner), [Close]);
  }

  lemma SpelledEmit(s: seq<seq<Aml>>, last: seq<Aml>, b: byte)
    ensures OpsOfOpen(s + [last + [Byte(b)]]) == OpsOfOpen(s + [last]) + [Emit(b)]
  {
    hide *;
    LastOpenGrows(s, last, Byte(b));
    ByteOps(b);
  }

  lemma SplitLast<T>(s: seq<T>)
    requires s != []
    ensures s == s[..|s| - 1] + [s[|s| - 1]]
    ensures |s| >= 2 ==> s[..|s| - 1] == s[..|s| - 2] + [s[|s| - 2]]
  {
  }

  lemma SpelledStep(s: seq<seq<Aml>>, op: Op)
    requires s != [] && (op == Close ==> |s| >= 2)
    ensures OpsOfOpen(Spell(s, op)) == OpsOfOpen(s) + [op]
  {
    hide OpsOf, OpsOfOpen;
    var k := |s| - 1;
    SplitLast(s);
    match op
    case Open => SpelledOpen(s);
    case Emit(b) => SpelledEmit(s[..k], s[k], b);
    case Close => SpelledClose(s[..k - 1], s[k - 1], s[k]);
  }

  lemma ByteOps(b: byte)
    ensures Ops(Byte(b)) == [Emit(b)]
  {
  }

  lemma NoOps()
    ensures OpsOf([]) == [] && EncodeAll([]) == []
  {
  }

  lemma PackageOps(items: seq<Aml>)
    ensures Ops(Package(items)) == [Open] + OpsOf(items) + [Close]
  {
  }

  /** Every well-bracketed run is the run of a tree. */
  lemma RunHasTree(ops: seq<Op>)
    requires WellBracketed(ops)
    ensures ops == OpsOf(Tree(ops))
  {
    SpelledByRun(ops);
    hide OpsOf;
    assert Spelled(ops) == [Tree(ops)];
  }

  // ----- The frames are the encoding

  function Encoded(s: seq<seq<Aml>>): (f: seq<seq<byte>>)
    ensures |f| == |s| && forall i :: 0 <= i < |s| ==> f[i] == EncodeAll(s[i])
  {
    seq(|s|, i requires 0 <= i < |s| => EncodeAll(s[i]))
  }

  lemma EncodedStep(s: seq<seq<Aml>>, op: Op)
    requires s != [] && (op == Close ==> |s| >= 2)
    ensures Encoded(Spell(s, op)) == Step(Encoded(s), op)
  {
    NoOps();
    var k := |s| - 1;
    if op.Emit? {
      OneMoreItem(s[k], Byte(op.b));
    } else if op == Close {
      OneMoreItem(s[k - 1], Package(s[k]));
    }
    hide EncodeAll, ClosedPackage;
    assert Encoded(Spell(s, op)) == Step(Encoded(s), op);
  }

  /** After any run, each open frame holds the encoding of what was spelled in it. */
  lemma {:induction false} RunEncodes(ops: seq<Op>)
    requires Bracketed(ops)
    ensures Run([[]], ops) == Encoded(Spelled(ops))
    decreases |ops|
  {
    hide EncodeAll;
    if ops == [] {
      NoOps();
      assert Encoded([[]]) == [[]];
    } else {
      BracketedPrefix(ops);
      var before, op := ops[..|ops| - 1], ops[|ops| - 1];
      RunEncodes(before);
      EncodedStep(Spelled(before), op);
    }
  }

  // ----- Running the generator

  // Bytes in use at most: open packages may still have all their reserved bytes.
  function Needed(ops: seq<Op>): nat {
    if ops == [] then 0
    else Needed(ops[..|ops| - 1]) + Cost(ops[|ops| - 1])
  }

  function Cost(op: Op): nat {
    match op
    case Open => RESERVED_BYTES
    case Emit(_) => 1
    case Close => 0
  }

  // Never deeper than the generator's stack allows, from a depth of start.
  ghost predicate Nested(ops: seq<Op>, start: nat) {
    forall i :: 0 <= i <= |ops| ==> start + Depth(ops[..i]) < LEN_STACK_SIZE
  }

  // What a step of the run needs.
  lemma RunStep(f: seq<seq<byte>>, ops: seq<Op>, i: nat)
    requires i < |ops| && Bracketed(ops) && f != []
    ensures Bracketed(ops[..i]) && Bracketed(ops[..i + 1]) && ops[..i + 1][..i] == ops[..i]
    ensures Depth(ops[..i + 1]) == Depth(ops[..i]) + Rise(ops[i]) >= 0
    ensures ops[i] == Close ==> Depth(ops[..i]) >= 1
    ensures Run(f, ops[..i + 1]) == Step(Run(f, ops[..i]), ops[i])
    ensures Needed(ops[..i + 1]) == Needed(ops[..i]) + Cost(ops[i])
  {
    hide Step;
    var now := ops[..i + 1];
    assert now[..i] == ops[..i] && now[i] == ops[i];
    forall j | 0 <= j <= i + 1
      ensures Depth(now[..j]) >= 0
    {
      assert now[..j] == ops[..j];
    }
    forall j | 0 <= j <= i
      ensures Depth(ops[..i][..j]) >= 0
    {
      assert ops[..i][..j] == ops[..j];
    }
  }

  lemma {:induction false} NeededGrows(ops: seq<Op>, i: nat)
    requires i <= |ops|
    ensures Needed(ops[..i]) <= Needed(ops)
    decreases |ops| - i
  {
    if i < |ops| {
      NeededGrows(ops, i + 1);
      assert ops[..i + 1][..i] == ops[..i];
    } else {
      assert ops[..i] == ops;
    }
  }

  // The outer part of the stack, which saved pointers depend on.
  ghost predicate Kept(was: Gen, now: Gen) {
    was.stack <= now.stack && was.widths <= now.widths
  }

  // The packages a run has opened and not closed.
  ghost predicate OpenedHere(was: Gen, now: Gen, depth: int) {
    && Kept(was, now) && |now.stack| == |now.widths| == |was.stack| + depth
    && forall k :: |was.stack| <= k < |now.widths| ==> now.widths[k] == RESERVED_BYTES
  }

  // One call of the generator.
  method RunOp(gen: Generator, op: Op)
    requires gen.Valid() && gen.current + Cost(op) <= gen.buf.Length
    requires op == Open ==> |gen.lenStack| < LEN_STACK_SIZE - 1
    requires op == Close ==> gen.lenStack != [] && gen.widths[|gen.lenStack| - 1] == RESERVED_BYTES
    modifies gen, gen.buf
    ensures gen.Valid() && gen.Frames() == Step(old(gen.Frames()), op)
    ensures gen.current <= old(gen.current) + Cost(op)
    ensures (gen.lenStack, gen.widths) == match op
                                          case Open => (old(gen.lenStack) + [old(gen.current)],
                                                        old(gen.widths) + [RESERVED_BYTES])
                                          case Emit(_) => (old(gen.lenStack), old(gen.widths))
                                          case Close => (old(gen.lenStack)[..|old(gen.lenStack)| - 1],
                                                         old(gen.widths)[..|old(gen.lenStack)| - 1])
  {
    StepIs(gen.Frames(), op);
    hide *;
    match op {
      case Open => gen.WriteLenF();
      case Emit(b) => gen.EmitByte(b);
      case Close => gen.PopLen();
    }
  }

  /**
   Any bracketed run refines its meaning on frames, from any state; a pointer into a frame that was open at the
   start is as good at the end.
   */
  method RunOps(gen: Generator, ops: seq<Op>)
    requires gen.Valid() && Bracketed(ops) && Nested(ops, |gen.lenStack|)
    requires gen.current + Needed(ops) <= gen.buf.Length
    modifies gen, gen.buf
    ensures gen.Valid() && gen.Frames() == Run(old(gen.Frames()), ops)
    ensures |gen.lenStack| == |old(gen.lenStack)| + Depth(ops)
    ensures Kept(old(gen.State()), gen.State())
  {
    hide *;
    ghost var was, f := gen.State(), gen.Frames();
    AtStart(f);
    assert ops[..0] == [];
    gen.StateIs();
    LastFrame(gen.State());
    NothingOpened(was);
    for i := 0 to |ops|
      invariant Bracketed(ops[..i]) && gen.Valid()
      invariant gen.Frames() == Run(f, ops[..i])
      invariant OpenedHere(was, gen.State(), Depth(ops[..i]))
      invariant gen.current <= old(gen.current) + Needed(ops[..i])
    {
      RunStep(f, ops, i);
      NeededGrows(ops, i + 1);
      NestedAt(ops, |was.stack|, i + 1);
      StepIs(Run(f, ops[..i]), ops[i]);
      gen.StateIs();
      OpenedParts(was, gen.State(), Depth(ops[..i]));
      RunOp(gen, ops[i]);
      gen.StateIs();
      OpenedNow(was, gen.State(), Depth(ops[..i + 1]));
    }
    assert ops[..|ops|] == ops;
    gen.StateIs();
    OpenedParts(was, gen.State(), Depth(ops));
  }

  lemma NothingOpened(g: Gen)
    requires |g.stack| == |g.widths|
    ensures OpenedHere(g, g, 0)
  {
  }

  lemma OpenedParts(was: Gen, now: Gen, depth: int)
    requires OpenedHere(was, now, depth)
    ensures Kept(was, now) && was.stack <= now.stack && was.widths <= now.widths
    ensures |now.stack| == |now.widths| == |was.stack| + depth
    ensures forall k :: |was.stack| <= k < |now.widths| ==> now.widths[k] == RESERVED_BYTES
  {
  }

  lemma OpenedNow(was: Gen, now: Gen, depth: int)
    requires was.stack <= now.stack && was.widths <= now.widths
    requires |now.stack| == |now.widths| == |was.stack| + depth
    requires forall k :: |was.stack| <= k < |now.widths| ==> now.widths[k] == RESERVED_BYTES
    ensures OpenedHere(was, now, depth)
  {
  }

  /** Where the frames that were open begin does not change, so neither does any place inside them. */
  lemma PointersStay(was: Gen, now: Gen, k: nat)
    requires Ok(was) && Ok(now) && Kept(was, now) && k <= |was.stack|
    ensures Base(now, k) == Base(was, k)
  {
    hide Reserved;
  }

  lemma NestedAt(ops: seq<Op>, start: nat, i: nat)
    requires Nested(ops, start) && i <= |ops|
    ensures start + Depth(ops[..i]) < LEN_STACK_SIZE == 10
  {
  }

  lemma AtStart(f: seq<seq<byte>>)
    requires f != []
    ensures Bracketed([]) && Depth([]) == 0 && Needed([]) == 0 && Run(f, []) == f
  {
  }

  lemma StepIs(f: seq<seq<byte>>, op: Op)
    requires f != [] && (op == Close ==> |f| >= 2)
    ensures Step(f, op) == (match op
                            case Open => f + [[]]
                            case Emit(b) => Appended(f, [b])
                            case Close => Closed(f, ClosedPackage(Last(f))))
    ensures Rise(op) == match op case Open => 1 case Emit(_) => 0 case Close => -1
    ensures Cost(op) == match op case Open => 3 case Emit(_) => 1 case Close => 0
    ensures RESERVED_BYTES == 3 && LEN_STACK_SIZE == 10
  {
  }

  /** A well-bracketed run leaves the recursive encoding of its tree in the buffer, and nothing else. */
  method Generate(ops: seq<Op>, size: nat) returns (out: seq<byte>)
    requires WellBracketed(ops) && Nested(ops, 0) && Needed(ops) <= size
    ensures ops == OpsOf(Tree(ops)) && out == EncodeAll(Tree(ops))
  {
    var gen := new Generator(size);
    RunOps(gen, ops);
    RunHasTree(ops);
    RunEncodes(ops);
    gen.StateIs();
    LastFrame(gen.State());
    hide EncodeAll, OpsOf, Bracketed, FramesOf, Ok, Spelled, Run;
    out := gen.buf[..gen.current];
    assert gen.Frames() == Encoded(Spelled(ops));
    assert Last(gen.Frames()) == EncodeAll(Spelled(ops)[0]);
    assert gen.lenStack == [];
  }

  // ----- Reading it back

  // How a reader sees the structure: single bytes and packages, which only their lengths delimit.
  datatype Shape = ByteShape | PackageShape(items: seq<Shape>)

  function ShapeOf(a: Aml): Shape
    decreases a, 1
  {
    match a
    case Byte(_) => ByteShape
    case Package(items) => PackageShape(ShapesOf(items))
  }

  function ShapesOf(items: seq<Aml>): (s: seq<Shape>)
    ensures |s| == |items| && forall i :: 0 <= i < |items| ==> s[i] == ShapeOf(items[i])
    decreases items, 0
  {
    seq(|items|, i requires 0 <= i < |items| => ShapeOf(items[i]))
  }

  datatype Read<T> = Read(value: T, rest: seq<byte>)

  function ReadItem(s: Shape, bytes: seq<byte>): Read<Aml>
    decreases s, 1
  {
    match s
    case ByteShape => if bytes == [] then Read(Byte(0), []) else Read(Byte(bytes[0]), bytes[1..])
    case PackageShape(items) => Read(Package(ReadItems(items, Payload(bytes)).value), Behind(bytes))
  }

  function ReadItems(shapes: seq<Shape>, bytes: seq<byte>): Read<seq<Aml>>
    decreases shapes, 0
  {
    if shapes == [] then Read([], bytes)
    else
      var before := ReadItems(shapes[..|shapes| - 1], bytes);
      var last := ReadItem(shapes[|shapes| - 1], before.rest);
      Read(before.value + [last.value], last.rest)
  }

  lemma {:induction false} ItemReadsBack(a: Aml, rest: seq<byte>)
    requires Fits(a)
    ensures ReadItem(ShapeOf(a), Encode(a) + rest) == Read(a, rest)
    decreases a, 1
  {
    match a
    case Byte(b) =>
      assert ([b] + rest)[1..] == rest;
    case Package(items) =>
      hide EncodeAll, ReadItems, Payload, Behind, Packaged, Encodable, FitsAll;
      PayloadIsFound(EncodeAll(items), rest);
      PackagedIs(EncodeAll(items));
      PackagedParts(EncodeAll(items));
      ItemsReadBack(items, []);
      assert EncodeAll(items) + [] == EncodeAll(items);
  }

  lemma PackagedParts(payload: seq<byte>)
    requires Encodable(|payload|)
    ensures ClosedPackage(payload) == Packaged(payload)
  {
  }

  lemma ReadOneMore(shapes: seq<Shape>, last: Shape, bytes: seq<byte>)
    ensures var before := ReadItems(shapes, bytes);
            var r := ReadItem(last, before.rest);
              ReadItems(shapes + [last], bytes) == Read(before.value + [r.value], r.rest)
  {
    hide ReadItem;
    Cut(shapes, [last]);
  }

  lemma ReadNothing(bytes: seq<byte>)
    ensures ReadItems([], bytes) == Read([], bytes) && ShapesOf([]) == []
  {
  }

  lemma OneMoreShape(items: seq<Aml>, a: Aml)
    ensures ShapesOf(items + [a]) == ShapesOf(items) + [ShapeOf(a)]
  {
    hide ShapeOf;
  }

  lemma FitsParts(items: seq<Aml>, i: nat)
    requires FitsAll(items) && i < |items|
    ensures Fits(items[i]) && FitsAll(items[..i])
  {
    hide Fits;
  }

  /** Following the package lengths recovers every nested payload. */
  lemma {:induction false} ItemsReadBack(items: seq<Aml>, rest: seq<byte>)
    requires FitsAll(items)
    ensures ReadItems(ShapesOf(items), EncodeAll(items) + rest) == Read(items, rest)
    decreases items, 0
  {
    hide *;
    if items == [] {
      NoOps();
      ReadNothing(rest);
      assert [] + rest == rest;
    } else {
      var k := |items| - 1;
      var before, last := items[..k], items[k];
      assert before + [last] == items;
      FitsParts(items, k);
      ItemsReadBack(before, Encode(last) + rest);
      ItemReadsBack(last, rest);
      OneMoreItem(before, last);
      Assoc(EncodeAll(before), Encode(last), rest);
      OneMoreShape(before, last);
      ReadOneMore(ShapesOf(before), ShapeOf(last), EncodeAll(items) + rest);
    }
  }
}
