/**
 Runs of the AML generator that fill in counts later: a store through the pointer to a byte of a package that is still
 open does what emitting that value in the first place would have done.
 */
module AcpiPointers {
  import opened Buffers
  import opened PkgLength
  import opened AcpiGen
  import opened AcpiRuns

  // Store and Bump go through the pointer to the byte that step e of the run emitted.
  datatype Call = Do(op: Op) | Store(e: nat, b: byte) | Bump(e: nat)

  // No package that was open when step e emitted its byte has been closed since.
  predicate StillOpen(ops: seq<Op>, e: nat) {
    e < |ops| && ops[e].Emit? && forall i :: e <= i <= |ops| ==> Depth(ops[..i]) >= Depth(ops[..e])
  }

  function Next(b: byte): byte {
    (b + 1) % 0x100
  }

  // The run without stores that calls amount to.
  function Act(ops: seq<Op>, call: Call): seq<Op> {
    match call
    case Do(op) => ops + [op]
    case Store(e, b) => if e < |ops| then ops[e := Emit(b)] else ops
    case Bump(e) => if e < |ops| && ops[e].Emit? then ops[e := Emit(Next(ops[e].b))] else ops
  }

  function Meaning(calls: seq<Call>): seq<Op> {
    if calls == [] then [] else Act(Meaning(calls[..|calls| - 1]), calls[|calls| - 1])
  }

  predicate Allowed(ops: seq<Op>, call: Call) {
    match call
    case Do(op) => op == Close ==> Depth(ops) >= 1
    case Store(e, _) => StillOpen(ops, e)
    case Bump(e) => StillOpen(ops, e)
  }

  // Packages are closed after they are opened, and stores go to packages that are open.
  predicate Proper(calls: seq<Call>) {
    calls != [] ==>
      Proper(calls[..|calls| - 1]) && Allowed(Meaning(calls[..|calls| - 1]), calls[|calls| - 1])
  }

  // ----- A store changes no shape

  ghost predicate ShapeBelow(x: seq<Op>, y: seq<Op>) {
    |x| <= |y| && forall i :: 0 <= i < |x| ==> Rise(x[i]) == Rise(y[i])
  }

  lemma {:induction false} ShapeDepth(x: seq<Op>, y: seq<Op>, i: nat)
    requires ShapeBelow(x, y) && i <= |x|
    ensures Depth(x[..i]) == Depth(y[..i]) && Needed(x[..i]) == Needed(y[..i])
    decreases i
  {
    if i > 0 {
      assert x[..i][..i - 1] == x[..i - 1] && y[..i][..i - 1] == y[..i - 1];
      ShapeDepth(x, y, i - 1);
      assert Cost(x[i - 1]) == Cost(y[i - 1]);
    }
  }

  lemma ShapeTotal(x: seq<Op>, y: seq<Op>)
    requires ShapeBelow(x, y)
    ensures Depth(x) == Depth(y[..|x|]) && Needed(x) == Needed(y[..|x|])
  {
    ShapeDepth(x, y, |x|);
    assert x[..|x|] == x;
  }

  lemma SameShapeOpen(x: seq<Op>, y: seq<Op>, e: nat)
    requires ShapeBelow(x, y) && StillOpen(y, e) && e < |x|
    ensures StillOpen(x, e)
  {
    assert x[e].Emit?;
    forall i | e <= i <= |x|
      ensures Depth(x[..i]) >= Depth(x[..e])
    {
      ShapeDepth(x, y, i);
      ShapeDepth(x, y, e);
    }
  }

  lemma SameShapeBracketed(x: seq<Op>, y: seq<Op>)
    requires ShapeBelow(x, y) && |x| == |y| && Bracketed(x)
    ensures Bracketed(y)
  {
    forall i | 0 <= i <= |y|
      ensures Depth(y[..i]) >= 0
    {
      ShapeDepth(x, y, i);
    }
  }

  lemma OneMoreOp(ops: seq<Op>, op: Op)
    requires Bracketed(ops) && (op == Close ==> Depth(ops) >= 1)
    ensures Bracketed(ops + [op]) && Depth(ops + [op]) == Depth(ops) + Rise(op)
    ensures Needed(ops + [op]) == Needed(ops) + Cost(op)
  {
    var now := ops + [op];
    Cut(ops, [op]);
    assert ops[..|ops|] == ops;
    forall i | 0 <= i <= |now|
      ensures Depth(now[..i]) >= 0
    {
      if i <= |ops| {
        assert now[..i] == ops[..i];
      } else {
        assert now[..i] == now;
      }
    }
  }

  lemma ActKeepsShape(ops: seq<Op>, call: Call)
    requires Allowed(ops, call)
    ensures ShapeBelow(ops, Act(ops, call))
    ensures !call.Do? ==> |Act(ops, call)| == |ops|
  {
  }

  lemma {:induction false} ProperIsBracketed(calls: seq<Call>)
    requires Proper(calls)
    ensures Bracketed(Meaning(calls))
    decreases |calls|
  {
    if calls != [] {
      hide StillOpen, Bracketed, ShapeBelow;
      var before, call := calls[..|calls| - 1], calls[|calls| - 1];
      ProperIsBracketed(before);
      ActKeepsShape(Meaning(before), call);
      if call.Do? {
        OneMoreOp(Meaning(before), call.op);
      } else {
        SameShapeBracketed(Meaning(before), Meaning(calls));
      }
    }
  }

  lemma {:induction false} MeaningGrows(calls: seq<Call>, i: nat)
    requires Proper(calls) && i <= |calls|
    ensures Proper(calls[..i]) && ShapeBelow(Meaning(calls[..i]), Meaning(calls))
    decreases |calls|
  {
    if i == |calls| {
      assert calls[..i] == calls;
    } else {
      hide Allowed;
      var before := calls[..|calls| - 1];
      assert before[..i] == calls[..i];
      MeaningGrows(before, i);
      ActKeepsShape(Meaning(before), calls[|calls| - 1]);
    }
  }

  function Calls(ops: seq<Op>): (calls: seq<Call>)
    ensures |calls| == |ops|
  {
    seq(|ops|, i requires 0 <= i < |ops| => Do(ops[i]))
  }

  /** Every bracketed run without stores is allowed, and means itself. */
  lemma {:induction false} BracketedIsProper(ops: seq<Op>)
    requires Bracketed(ops)
    ensures Proper(Calls(ops)) && Meaning(Calls(ops)) == ops
    decreases |ops|
  {
    if ops != [] {
      var n := |ops| - 1;
      BracketedPrefix(ops);
      BracketedIsProper(ops[..n]);
      assert Calls(ops)[..n] == Calls(ops[..n]) && Calls(ops)[n] == Do(ops[n]);
      hide Bracketed;
      assert ops[..n] + [ops[n]] == ops;
    }
  }

  // ----- A store is an emission

  // Where in the innermost frame step e emits.
  ghost function Offset(f: seq<seq<byte>>, ops: seq<Op>, e: nat): nat
    requires f != [] && e <= |ops|
  {
    if Bracketed(ops[..e]) then |Last(Run(f, ops[..e]))| else 0
  }

  lemma OpenBefore(ops: seq<Op>, e: nat)
    requires StillOpen(ops, e) && e < |ops| - 1
    ensures StillOpen(ops[..|ops| - 1], e)
    ensures ops[|ops| - 1] == Close ==> Depth(ops[..e]) < Depth(ops[..|ops| - 1])
  {
    var before := ops[..|ops| - 1];
    forall i | e <= i <= |before|
      ensures before[..i] == ops[..i]
    {
    }
    assert ops[..|ops|] == ops && Depth(ops) >= Depth(ops[..e]);
  }

  lemma PatchBelow(s: seq<byte>, x: seq<byte>, j: nat, b: byte)
    requires j < |s|
    ensures s[..j] + [b] + s[j + 1..] + x == (s + x)[..j] + [b] + (s + x)[j + 1..]
  {
    Cut(s[..j + 1], s[j + 1..]);
    assert (s + x)[..j] == s[..j] && (s + x)[j + 1..] == s[j + 1..] + x;
  }

  lemma PatchedAppend(f: seq<seq<byte>>, x: seq<byte>, k: nat, j: nat, b: byte)
    requires k < |f| && j < |f[k]|
    ensures k < |Appended(f, x)| && j < |Appended(f, x)[k]|
    ensures Appended(Patched(f, k, j, b), x) == Patched(Appended(f, x), k, j, b)
  {
    PatchBelow(f[k], x, j, b);
    var p, q := Appended(Patched(f, k, j, b), x), Patched(Appended(f, x), k, j, b);
    forall i | 0 <= i < |f|
      ensures p[i] == q[i]
    {
      if i == k {
        assert Patched(f, k, j, b)[k] == f[k][..j] + [b] + f[k][j + 1..];
      }
    }
  }

  lemma PatchedStep(f: seq<seq<byte>>, op: Op, k: nat, j: nat, b: byte)
    requires k < |f| && j < |f[k]| && (op == Close ==> k < |f| - 1)
    ensures k < |Step(f, op)| && j < |Step(f, op)[k]|
    ensures Step(Patched(f, k, j, b), op) == Patched(Step(f, op), k, j, b)
  {
    match op
    case Open =>
    case Emit(c) =>
      hide Patched, Appended;
      PatchedAppend(f, [c], k, j, b);
    case Close =>
      hide ClosedPackage, Appended, Patched;
      PatchedOuter(f, k, j, b);
      PatchedAppend(f[..|f| - 1], ClosedPackage(Last(f)), k, j, b);
  }

  lemma PatchedOuter(f: seq<seq<byte>>, k: nat, j: nat, b: byte)
    requires k < |f| - 1 && j < |f[k]|
    ensures Last(Patched(f, k, j, b)) == Last(f)
    ensures Patched(f, k, j, b)[..|f| - 1] == Patched(f[..|f| - 1], k, j, b)
  {
  }

  lemma PatchedLast(f: seq<seq<byte>>, x: byte, b: byte)
    requires f != []
    ensures var k := |f| - 1;
              && |Step(f, Emit(x))| == |f| && |f[k]| < |Step(f, Emit(x))[k]|
              && Step(f, Emit(b)) == Patched(Step(f, Emit(x)), k, |f[k]|, b)
  {
    var k, g := |f| - 1, Step(f, Emit(x));
    assert g[k] == f[k] + [x] && g[k][..|f[k]|] == f[k] && g[k][|f[k]| + 1..] == [];
    assert f[k] + [b] + [] == f[k] + [b];
    assert Step(f, Emit(b)) == g[k := f[k] + [b]];
    assert Patched(g, k, |f[k]|, b) == g[k := f[k] + [b]];
  }

  /**
   Storing a value through the pointer to the byte of step e, at any time before a package around it is closed, leaves
   the frames as emitting that value in step e would have.
   */
  lemma {:induction false} StoreIsEmit(f: seq<seq<byte>>, ops: seq<Op>, e: nat, b: byte)
    requires f != [] && Bracketed(ops) && StillOpen(ops, e)
    ensures Bracketed(ops[..e]) && Bracketed(ops[e := Emit(b)])
    ensures var k, j := |f| - 1 + Depth(ops[..e]), Offset(f, ops, e);
              && k < |Run(f, ops)| && j < |Run(f, ops)[k]|
              && Run(f, ops[e := Emit(b)]) == Patched(Run(f, ops), k, j, b)
    decreases |ops|
  {
    hide *;
    var n := |ops| - 1;
    OpenIs(ops, e);
    var before, op, now := ops[..n], ops[n], ops[e := Emit(b)];
    RunStep(f, ops, e);
    StoreShape(ops, e, b);
    SameShapeBracketed(ops, now);
    RunStep(f, ops, n);
    RunStep(f, now, n);
    OffsetIs(f, ops, e);
    assert ops[..n + 1] == ops && now[..n + 1] == now;
    if e == n {
      assert now[..n] == before;
      PatchedLast(Run(f, before), op.b, b);
    } else {
      OpenBefore(ops, e);
      StoreIsEmit(f, before, e, b);
      assert now[..n] == before[e := Emit(b)] && before[..e] == ops[..e];
      OffsetIs(f, before, e);
      PatchedStep(Run(f, before), op, |f| - 1 + Depth(ops[..e]), Offset(f, ops, e), b);
    }
  }

  lemma OpenIs(ops: seq<Op>, e: nat)
    requires StillOpen(ops, e)
    ensures e < |ops| && ops[e].Emit?
  {
  }

  lemma StoreShape(ops: seq<Op>, e: nat, b: byte)
    requires e < |ops| && ops[e].Emit?
    ensures ShapeBelow(ops, ops[e := Emit(b)]) && ShapeBelow(ops[e := Emit(b)], ops)
  {
  }

  lemma OffsetIs(f: seq<seq<byte>>, ops: seq<Op>, e: nat)
    requires f != [] && e <= |ops| && Bracketed(ops[..e])
    ensures Run(f, ops[..e]) != [] && Offset(f, ops, e) == |Last(Run(f, ops[..e]))|
    ensures |Run(f, ops[..e])| == |f| + Depth(ops[..e])
    ensures Last(Run(f, ops[..e])) == Run(f, ops[..e])[|Run(f, ops[..e])| - 1]
  {
    hide Run, Bracketed;
  }

  // What the pointer reads is what was emitted.
  lemma ReadIsEmitted(f: seq<seq<byte>>, ops: seq<Op>, e: nat)
    requires f != [] && Bracketed(ops) && StillOpen(ops, e)
    ensures var k, j := |f| - 1 + Depth(ops[..e]), Offset(f, ops, e);
              0 <= k < |Run(f, ops)| && j < |Run(f, ops)[k]| && Run(f, ops)[k][j] == ops[e].b
  {
    hide *;
    hide Run, Depth, Bracketed, Offset, StillOpen;
    OpenIs(ops, e);
    RunStep(f, ops, e);
    StoreIsEmit(f, ops, e, ops[e].b);
    assert ops[e := Emit(ops[e].b)] == ops;
    PatchedReads(Run(f, ops), |f| - 1 + Depth(ops[..e]), Offset(f, ops, e), ops[e].b);
  }

  lemma PatchedReads(f: seq<seq<byte>>, k: nat, j: nat, b: byte)
    requires k < |f| && j < |f[k]|
    ensures Patched(f, k, j, b)[k][j] == b
    ensures |Patched(f, k, j, b)| == |f| && forall i :: 0 <= i < |f| ==> |Patched(f, k, j, b)[i]| == |f[i]|
  {
  }

  // Stores move no byte.
  lemma OffsetStays(f: seq<seq<byte>>, ops: seq<Op>, d: nat, b: byte, e: nat)
    requires f != [] && Bracketed(ops) && StillOpen(ops, d) && e < |ops|
    ensures Offset(f, ops[d := Emit(b)], e) == Offset(f, ops, e)
  {
    hide *;
    OpenIs(ops, d);
    var now := ops[d := Emit(b)];
    RunStep(f, ops, e);
    if e <= d {
      assert now[..e] == ops[..e];
    } else {
      assert now[..e] == ops[..e][d := Emit(b)];
      OpenPrefix(ops, d, e);
      StoreIsEmit(f, ops[..e], d, b);
      RunStep(f, ops[..e], d);
      assert ops[..e][..d] == ops[..d];
      PatchedReads(Run(f, ops[..e]), |f| - 1 + Depth(ops[..d]), Offset(f, ops[..e], d), b);
      StoreShape(ops[..e], d, b);
      ShapeTotal(ops[..e], now[..e]);
      assert now[..e][..e] == now[..e];
    }
    OffsetIs(f, ops, e);
    OffsetIs(f, now, e);
  }

  lemma OpenPrefix(ops: seq<Op>, d: nat, e: nat)
    requires StillOpen(ops, d) && d < e <= |ops|
    ensures StillOpen(ops[..e], d)
  {
    forall i | d <= i <= e
      ensures ops[..e][..i] == ops[..i]
    {
    }
  }

  // ----- Running the calls

  ghost predicate PointsTo(p: nat, f: seq<seq<byte>>, ops: seq<Op>, now: Gen, e: nat)
    requires f != [] && e <= |ops|
  {
    var k := |f| - 1 + Depth(ops[..e]);
    && |now.widths| == |now.stack| && 0 <= k <= |now.stack|
    && p == Base(now, k) + Offset(f, ops, e)
  }

  // Every pointer into a package that is still open is good.
  ghost predicate Pointing(places: seq<nat>, f: seq<seq<byte>>, ops: seq<Op>, now: Gen)
    requires f != []
  {
    |places| == |ops| && forall e: nat :: e < |ops| && StillOpen(ops, e) ==> PointsTo(places[e], f, ops, now, e)
  }

  // The stacks agree as far as both go.
  ghost predicate SameStacks(x: Gen, y: Gen) {
    && |x.stack| == |x.widths| && |y.stack| == |y.widths|
    && forall i :: 0 <= i < |x.stack| && i < |y.stack| ==> x.stack[i] == y.stack[i] && x.widths[i] == y.widths[i]
  }

  lemma SameBase(x: Gen, y: Gen, k: nat)
    requires SameStacks(x, y) && k <= |x.stack| && k <= |y.stack|
    ensures |y.widths| == |y.stack| && Base(x, k) == Base(y, k)
  {
  }

  lemma OpenLevel(ops: seq<Op>, e: nat)
    requires StillOpen(ops, e)
    ensures e < |ops| && Depth(ops[..e]) <= Depth(ops)
  {
    assert ops[..|ops|] == ops;
  }

  lemma PointsAfterOp(p: nat, f: seq<seq<byte>>, ops: seq<Op>, op: Op, was: Gen, now: Gen, e: nat)
    requires f != [] && StillOpen(ops + [op], e) && e < |ops|
    requires PointsTo(p, f, ops, was, e) && SameStacks(was, now)
    requires |now.stack| == |f| - 1 + Depth(ops + [op])
    ensures StillOpen(ops, e) && PointsTo(p, f, ops + [op], now, e)
  {
    hide StillOpen, Depth, Offset, Base, SameStacks;
    OpenOfAll(ops, op, e);
    OpenLevel(ops, e);
    OpenLevel(ops + [op], e);
    OffsetSame(f, ops + [op], ops, e);
    SameBase(was, now, |f| - 1 + Depth(ops[..e]));
  }

  lemma OffsetSame(f: seq<seq<byte>>, x: seq<Op>, y: seq<Op>, e: nat)
    requires f != [] && e <= |x| && e <= |y| && x[..e] == y[..e]
    ensures Offset(f, x, e) == Offset(f, y, e)
  {
    hide Run, Bracketed;
  }

  lemma PointsHere(p: nat, f: seq<seq<byte>>, ops: seq<Op>, op: Op, was: Gen, now: Gen)
    requires f != [] && Bracketed(ops) && op.Emit? && SameStacks(was, now)
    requires |now.stack| == |was.stack| == |f| - 1 + Depth(ops)
    requires p == Base(was, |was.stack|) + |Last(Run(f, ops))|
    ensures PointsTo(p, f, ops + [op], now, |ops|)
  {
    assert (ops + [op])[..|ops|] == ops;
    hide Depth, Bracketed, Run;
    SameBase(was, now, |was.stack|);
    OffsetIs(f, ops + [op], |ops|);
  }

  lemma PointingAfterOp(places: seq<nat>, p: nat, f: seq<seq<byte>>, ops: seq<Op>, op: Op, was: Gen, now: Gen)
    requires f != [] && Bracketed(ops)
    requires Pointing(places, f, ops, was) && SameStacks(was, now)
    requires |was.stack| == |f| - 1 + Depth(ops) && |now.stack| == |f| - 1 + Depth(ops + [op])
    requires op.Emit? ==> |now.stack| == |was.stack|
    requires p == Base(was, |was.stack|) + |Last(Run(f, ops))|
    ensures Pointing(places + [p], f, ops + [op], now)
  {
    hide StillOpen, Depth, Bracketed, Run, Base, SameStacks, PointsTo;
    var all := ops + [op];
    forall e: nat | e < |all| && StillOpen(all, e)
      ensures PointsTo((places + [p])[e], f, all, now, e)
    {
      OpenIs(all, e);
      if e < |ops| {
        OpenOfAll(ops, op, e);
        PointsAfterOp(places[e], f, ops, op, was, now, e);
      } else {
        PointsHere(p, f, ops, op, was, now);
      }
    }
  }

  lemma OpenOfAll(ops: seq<Op>, op: Op, e: nat)
    requires StillOpen(ops + [op], e) && e < |ops|
    ensures StillOpen(ops, e) && (ops + [op])[..e] == ops[..e]
  {
    Cut(ops, [op]);
    OpenBefore(ops + [op], e);
  }

  lemma PointingAfterStore(places: seq<nat>, f: seq<seq<byte>>, ops: seq<Op>, d: nat, b: byte, was: Gen, now: Gen)
    requires f != [] && Bracketed(ops) && StillOpen(ops, d)
    requires Pointing(places, f, ops, was) && was.stack == now.stack && was.widths == now.widths
    ensures Pointing(places, f, ops[d := Emit(b)], now)
  {
    OpenIs(ops, d);
    var all := ops[d := Emit(b)];
    StoreShape(ops, d, b);
    hide StillOpen, Depth, Bracketed, Offset;
    forall e: nat | e < |all| && StillOpen(all, e)
      ensures PointsTo(places[e], f, all, now, e)
    {
      OpenIs(all, e);
      SameShapeOpen(ops, all, e);
      OffsetStays(f, ops, d, b, e);
      ShapeDepth(ops, all, e);
    }
  }

  // A store through a pointer that was kept.
  method RunStore(gen: Generator, places: seq<nat>, b: byte, ghost f: seq<seq<byte>>, ghost ops: seq<Op>, e: nat)
    requires gen.Valid() && f != [] && Bracketed(ops) && StillOpen(ops, e) && gen.Frames() == Run(f, ops)
    requires Pointing(places, f, ops, gen.State())
    modifies gen.buf
    ensures Bracketed(ops[e := Emit(b)])
    ensures gen.Valid() && gen.Frames() == Run(f, ops[e := Emit(b)])
    ensures Pointing(places, f, ops[e := Emit(b)], gen.State())
  {
    hide *;
    ghost var was := gen.State();
    OpenIs(ops, e);
    PointerIs(places, f, ops, was, e);
    RunStep(f, ops, e);
    StoreIsEmit(f, ops, e, b);
    gen.StateIs();
    gen.StoreAt(places[e], b, |f| - 1 + Depth(ops[..e]), Offset(f, ops, e));
    gen.StateIs();
    PointingAfterStore(places, f, ops, e, b, was, gen.State());
  }

  lemma PointerIs(places: seq<nat>, f: seq<seq<byte>>, ops: seq<Op>, now: Gen, e: nat)
    requires f != [] && Pointing(places, f, ops, now) && StillOpen(ops, e)
    ensures |places| == |ops| && e < |ops| && |now.widths| == |now.stack|
    ensures var k := |f| - 1 + Depth(ops[..e]);
              0 <= k <= |now.stack| && places[e] == Base(now, k) + Offset(f, ops, e)
  {
    hide StillOpen, Base, Offset, Depth;
    OpenIs(ops, e);
  }

  // What one call of a run needs.
  lemma CallStep(calls: seq<Call>, i: nat, start: nat)
    requires Proper(calls) && i < |calls| && Nested(Meaning(calls), start)
    ensures var x, y, call := Meaning(calls[..i]), Meaning(calls[..i + 1]), calls[i];
              && Bracketed(x) && Bracketed(y) && y == Act(x, call) && Allowed(x, call)
              && start + Depth(y) < LEN_STACK_SIZE && Needed(y) <= Needed(Meaning(calls))
              && (!call.Do? ==> Depth(y) == Depth(x) && Needed(y) == Needed(x))
              && (call.Do? ==> Depth(y) == Depth(x) + Rise(call.op) && Needed(y) == Needed(x) + Cost(call.op))
  {
    hide *;
    var now := calls[..i + 1];
    var x, y, all := Meaning(calls[..i]), Meaning(now), Meaning(calls);
    assert now[..i] == calls[..i] && now[i] == calls[i] && now[..|now| - 1] == calls[..i];
    MeaningGrows(calls, i + 1);
    ProperStep(now);
    ProperIsBracketed(now);
    ProperIsBracketed(calls[..i]);
    ShapeIs(y, all);
    ShapeTotal(y, all);
    NestedAt(all, start, |y|);
    NeededGrows(all, |y|);
    if calls[i].Do? {
      ActIs(x, calls[i]);
      OneMoreOp(x, calls[i].op);
    } else {
      ActKeepsShape(x, calls[i]);
      ShapeTotal(x, y);
      assert y[..|x|] == y;
    }
  }

  lemma ProperStep(calls: seq<Call>)
    requires Proper(calls) && calls != []
    ensures var before := calls[..|calls| - 1];
              && Proper(before) && Allowed(Meaning(before), calls[|calls| - 1])
              && Meaning(calls) == Act(Meaning(before), calls[|calls| - 1])
  {
    hide Allowed, Act;
  }

  lemma ShapeIs(x: seq<Op>, y: seq<Op>)
    requires ShapeBelow(x, y)
    ensures |x| <= |y|
  {
  }

  lemma ActIs(ops: seq<Op>, call: Call)
    requires Allowed(ops, call)
    ensures call.Do? ==> Act(ops, call) == ops + [call.op] && (call.op == Close ==> Depth(ops) >= 1)
    ensures call.Store? ==> StillOpen(ops, call.e) && call.e < |ops| && Act(ops, call) == ops[call.e := Emit(call.b)]
    ensures call.Bump? ==> && StillOpen(ops, call.e) && call.e < |ops| && ops[call.e].Emit?
                           && Act(ops, call) == ops[call.e := Emit(Next(ops[call.e].b))]
  {
  }

  lemma PointedByte(g: Gen, k: nat, j: nat)
    requires Ok(g) && k <= |g.stack| && j < |FramesOf(g)[k]|
    ensures Base(g, k) + j < |g.mem| && g.mem[Base(g, k) + j] == FramesOf(g)[k][j]
  {
    hide Reserved;
    assert Base(g, k) <= End(g, k) <= g.current;
  }

  // Reads and stores through a pointer that was kept.
  method RunBump(gen: Generator, places: seq<nat>, ghost f: seq<seq<byte>>, ghost ops: seq<Op>, e: nat)
    requires gen.Valid() && f != [] && Bracketed(ops) && StillOpen(ops, e) && gen.Frames() == Run(f, ops)
    requires e < |ops| && ops[e].Emit? && Pointing(places, f, ops, gen.State())
    modifies gen.buf
    ensures var now := ops[e := Emit(Next(ops[e].b))];
              && Bracketed(now) && gen.Valid() && gen.Frames() == Run(f, now)
              && Pointing(places, f, now, gen.State())
  {
    hide *;
    gen.StateIs();
    PointerIs(places, f, ops, gen.State(), e);
    ReadIsEmitted(f, ops, e);
    PointedByte(gen.State(), |f| - 1 + Depth(ops[..e]), Offset(f, ops, e));
    BytesAt(gen.buf, places[e]);
    RunStore(gen, places, Next(gen.buf[places[e]]), f, ops, e);
  }

  lemma BytesAt(a: array<byte>, i: nat)
    requires i < |Bytes(a)|
    ensures i < a.Length && a[i] == Bytes(a)[i]
  {
  }

  lemma OpenedSame(was: Gen, x: Gen, y: Gen, depth: int)
    requires OpenedHere(was, x, depth) && x.stack == y.stack && x.widths == y.widths
    ensures OpenedHere(was, y, depth)
  {
  }

  lemma NoCalls(f: seq<seq<byte>>, g: Gen)
    requires f != [] && |g.stack| == |g.widths|
    ensures Meaning([]) == [] && Bracketed([]) && Depth([]) == 0 && Needed([]) == 0 && Run(f, []) == f
    ensures Pointing([], f, [], g) && OpenedHere(g, g, 0)
  {
  }

  lemma RunOneMore(f: seq<seq<byte>>, ops: seq<Op>, op: Op)
    requires f != [] && Bracketed(ops) && (op == Close ==> Depth(ops) >= 1)
    ensures Bracketed(ops + [op]) && Depth(ops + [op]) == Depth(ops) + Rise(op)
    ensures Run(f, ops) != [] && (op == Close ==> |Run(f, ops)| >= 2)
    ensures Run(f, ops + [op]) == Step(Run(f, ops), op)
    ensures |Run(f, ops)| == |f| + Depth(ops)
  {
    OneMoreOp(ops, op);
    hide Step, Depth, Bracketed, Rise;
    Cut(ops, [op]);
  }

  lemma StacksAfter(was: Gen, now: Gen, op: Op)
    requires |was.stack| == |was.widths| && (op == Close ==> was.stack != [])
    requires (now.stack, now.widths) == match op
                                        case Open => (was.stack + [was.current], was.widths + [RESERVED_BYTES])
                                        case Emit(_) => (was.stack, was.widths)
                                        case Close => (was.stack[..|was.stack| - 1], was.widths[..|was.stack| - 1])
    ensures SameStacks(was, now) && |now.stack| == |was.stack| + Rise(op)
  {
  }

  lemma OpenedAfter(g: Gen, was: Gen, now: Gen, op: Op, depth: int)
    requires |g.stack| == |g.widths| && OpenedHere(g, was, depth) && depth >= 0 && (op == Close ==> depth >= 1)
    requires SameStacks(was, now) && |now.stack| == |was.stack| + Rise(op)
    requires op == Open ==> now.widths[|was.stack|] == RESERVED_BYTES
    ensures OpenedHere(g, now, depth + Rise(op))
  {
    assert |now.widths| == |now.stack| >= |g.stack|;
    assert forall i :: 0 <= i < |g.stack| ==> now.stack[i] == was.stack[i] && now.widths[i] == was.widths[i];
    assert g.stack <= now.stack && g.widths <= now.widths;
  }

  // A call of the generator; where it emits is kept.
  method RunDo(gen: Generator, places: seq<nat>, op: Op, ghost f: seq<seq<byte>>, ghost ops: seq<Op>, ghost g: Gen)
    returns (now: seq<nat>)
    requires gen.Valid() && f != [] && Bracketed(ops) && gen.Frames() == Run(f, ops)
    requires op == Close ==> Depth(ops) >= 1
    requires |f| == |g.stack| + 1 == |g.widths| + 1 && OpenedHere(g, gen.State(), Depth(ops)) && Pointing(places, f, ops, gen.State())
    requires |g.stack| + Depth(ops) + Rise(op) < LEN_STACK_SIZE && gen.current + Cost(op) <= gen.buf.Length
    modifies gen, gen.buf
    ensures Bracketed(ops + [op]) && gen.Valid() && gen.Frames() == Run(f, ops + [op])
    ensures OpenedHere(g, gen.State(), Depth(ops + [op])) && gen.current <= old(gen.current) + Cost(op)
    ensures Pointing(now, f, ops + [op], gen.State())
  {
    hide *;
    ghost var was := gen.State();
    gen.StateIs();
    LastFrame(was);
    OpenedParts(g, was, Depth(ops));
    RunOneMore(f, ops, op);
    StepIs(Run(f, ops), op);
    now := places + [gen.current];
    RunOp(gen, op);
    gen.StateIs();
    StacksAfter(was, gen.State(), op);
    OpenedAfter(g, was, gen.State(), op, Depth(ops));
    PointingAfterOp(places, was.current, f, ops, op, was, gen.State());
  }

  /**
   Any proper run with stores through kept pointers leaves, from any state, what the run without stores leaves that
   emits the final values at once.
   */
  method RunCalls(gen: Generator, calls: seq<Call>)
    requires gen.Valid() && Proper(calls) && Nested(Meaning(calls), |gen.lenStack|)
    requires gen.current + Needed(Meaning(calls)) <= gen.buf.Length
    modifies gen, gen.buf
    ensures Bracketed(Meaning(calls))
    ensures gen.Valid() && gen.Frames() == Run(old(gen.Frames()), Meaning(calls))
    ensures |gen.lenStack| == |old(gen.lenStack)| + Depth(Meaning(calls))
  {
    hide *;
    ghost var was, f := gen.State(), gen.Frames();
    gen.StateIs();
    LastFrame(was);
    var places := [];
    NoCalls(f, was);
    assert calls[..0] == [];
    for i := 0 to |calls|
      invariant Bracketed(Meaning(calls[..i])) && gen.Valid()
      invariant gen.Frames() == Run(f, Meaning(calls[..i]))
      invariant OpenedHere(was, gen.State(), Depth(Meaning(calls[..i])))
      invariant gen.current <= old(gen.current) + Needed(Meaning(calls[..i]))
      invariant Pointing(places, f, Meaning(calls[..i]), gen.State())
    {
      ghost var x := Meaning(calls[..i]);
      CallStep(calls, i, |was.stack|);
      ActIs(x, calls[i]);
      match calls[i] {
        case Do(op) => places := RunDo(gen, places, op, f, x, was);
        case Store(e, b) =>
          gen.StateIs();
          ghost var before := gen.State();
          RunStore(gen, places, b, f, x, e);
          gen.StateIs();
          OpenedSame(was, before, gen.State(), Depth(x));
        case Bump(e) =>
          gen.StateIs();
          ghost var before := gen.State();
          RunBump(gen, places, f, x, e);
          gen.StateIs();
          OpenedSame(was, before, gen.State(), Depth(x));
      }
    }
    assert calls[..|calls|] == calls;
    gen.StateIs();
    OpenedParts(was, gen.State(), Depth(Meaning(calls)));
  }

  /** A whole run leaves the recursive encoding of a tree in which every byte has the value last stored in it. */
  method GenerateCalls(calls: seq<Call>, size: nat) returns (out: seq<byte>)
    requires Proper(calls) && Depth(Meaning(calls)) == 0
    requires Nested(Meaning(calls), 0) && Needed(Meaning(calls)) <= size
    ensures WellBracketed(Meaning(calls))
    ensures Meaning(calls) == OpsOf(Tree(Meaning(calls))) && out == EncodeAll(Tree(Meaning(calls)))
  {
    var gen := new Generator(size);
    ProperIsBracketed(calls);
    RunCalls(gen, calls);
    ghost var ops := Meaning(calls);
    RunHasTree(ops);
    RunEncodes(ops);
    gen.StateIs();
    LastFrame(gen.State());
    hide EncodeAll, OpsOf, Bracketed, FramesOf, Ok, Spelled, Run, Meaning;
    out := gen.buf[..gen.current];
    assert gen.Frames() == Encoded(Spelled(ops));
    assert Last(gen.Frames()) == EncodeAll(Spelled(ops)[0]);
    assert gen.lenStack == [];
  }

  function Bumps(calls: seq<Call>, e: nat): nat {
    if calls == [] then 0
    else Bumps(calls[..|calls| - 1], e) + if calls[|calls| - 1] == Bump(e) then 1 else 0
  }

  /** A count that is only ever incremented ends as its first value plus the number of increments, in eight bits. */
  lemma {:induction false} CountIsBumps(before: seq<Call>, n: byte, rest: seq<Call>)
    requires Proper(before + [Do(Emit(n))] + rest)
    requires forall c :: c in rest && c.Store? ==> c.e != |Meaning(before)|
    ensures var e, ops := |Meaning(before)|, Meaning(before + [Do(Emit(n))] + rest);
              e < |ops| && ops[e] == Emit((n + Bumps(rest, e)) % 0x100)
    decreases |rest|
  {
    hide *;
    var e, head := |Meaning(before)|, before + [Do(Emit(n))];
    var all := head + rest;
    ProperStep(all);
    if rest == [] {
      assert all == head && head[..|head| - 1] == before;
      ActIs(Meaning(before), Do(Emit(n)));
      NoBumps(e, n);
    } else {
      var k := |rest| - 1;
      assert all[..|all| - 1] == head + rest[..k] && all[|all| - 1] == rest[k] && rest[k] in rest;
      CountIsBumps(before, n, rest[..k]);
      BumpsStep(rest, e);
      CountStep(Meaning(head + rest[..k]), rest[k], e, n, Bumps(rest[..k], e));
    }
  }

  lemma NoBumps(e: nat, n: byte)
    ensures Bumps([], e) == 0 && (n + 0) % 0x100 == n
  {
  }

  lemma CountStep(ops: seq<Op>, call: Call, e: nat, n: byte, bumps: nat)
    requires e < |ops| && ops[e] == Emit((n + bumps) % 0x100) && (call.Store? ==> call.e != e)
    ensures e < |Act(ops, call)|
    ensures Act(ops, call)[e] == Emit((n + bumps + if call == Bump(e) then 1 else 0) % 0x100)
  {
    assert ((n + bumps) % 0x100 + 1) % 0x100 == (n + bumps + 1) % 0x100;
  }

  lemma BumpsStep(calls: seq<Call>, e: nat)
    requires calls != []
    ensures Bumps(calls, e) == Bumps(calls[..|calls| - 1], e) + if calls[|calls| - 1] == Bump(e) then 1 else 0
  {
  }
}
