/**
 The AML generator (src/acpi/acpigen.c): a write pointer, a stack of places whose length is still missing, and
 package lengths written back when a package is closed. What the buffer means is a stack of open frames.
 */
module AcpiGen {
  import opened Buffers
  import opened PkgLength

  const LEN_STACK_SIZE: nat := 10
  const WORD_BYTES: nat := 2

  const PACKAGE_OP: byte := 0x12
  const BUFFER_OP: byte := 0x11
  const WORD_PREFIX: byte := 0x0b
  const END_TAG: byte := 0x79

  // ----- The state as a value

  // widths says how many bytes each saved place has reserved: a package length or a word.
  datatype Gen = Gen(mem: seq<byte>, current: nat, stack: seq<nat>, widths: seq<nat>)

  // Where frame k begins: behind the bytes its place reserved.
  function Base(g: Gen, k: nat): nat
    requires |g.widths| == |g.stack| && k <= |g.stack|
  {
    if k == 0 then 0 else g.stack[k - 1] + g.widths[k - 1]
  }

  function End(g: Gen, k: nat): nat
    requires k <= |g.stack|
  {
    if k < |g.stack| then g.stack[k] else g.current
  }

  ghost predicate Ok(g: Gen) {
    && |g.widths| == |g.stack| <= LEN_STACK_SIZE
    && g.current <= |g.mem|
    && (forall k :: 0 <= k <= |g.stack| ==> Base(g, k) <= End(g, k) <= g.current)
    && (forall k :: 0 <= k < |g.stack| ==> Reserved(g, k))
  }

  // Reserved bytes are zero until the length is known.
  ghost predicate Reserved(g: Gen, k: nat)
    requires k < |g.stack| == |g.widths|
  {
    && g.widths[k] in {RESERVED_BYTES, WORD_BYTES}
    && g.stack[k] + g.widths[k] <= |g.mem|
    && g.mem[g.stack[k]..g.stack[k] + g.widths[k]] == Zeros(g.widths[k])
  }

  function Zeros(n: nat): (z: seq<byte>)
    ensures |z| == n
  {
    seq(n, i => 0)
  }

  ghost function Frame(g: Gen, k: nat): seq<byte>
    requires Ok(g) && k <= |g.stack|
  {
    g.mem[Base(g, k)..End(g, k)]
  }

  ghost function FramesOf(g: Gen): (f: seq<seq<byte>>)
    requires Ok(g)
    ensures |f| == |g.stack| + 1 && forall k :: 0 <= k < |f| ==> f[k] == Frame(g, k)
  {
    seq(|g.stack| + 1, k requires 0 <= k <= |g.stack| => Frame(g, k))
  }

  // ----- Steps on frames

  function Last(f: seq<seq<byte>>): seq<byte>
    requires f != []
  {
    f[|f| - 1]
  }

  function Appended(f: seq<seq<byte>>, bytes: seq<byte>): seq<seq<byte>>
    requires f != []
  {
    f[..|f| - 1] + [Last(f) + bytes]
  }

  // The innermost frame goes into the one around it as these bytes.
  function Closed(f: seq<seq<byte>>, bytes: seq<byte>): seq<seq<byte>>
    requires |f| >= 2
  {
    Appended(f[..|f| - 1], bytes)
  }

  function Patched(f: seq<seq<byte>>, k: nat, j: nat, b: byte): (r: seq<seq<byte>>)
    requires k < |f| && j < |f[k]|
    ensures |r| == |f|
  {
    f[k := f[k][..j] + [b] + f[k][j + 1..]]
  }

  // Memory that agrees below a place.
  ghost predicate SameBelow(x: seq<byte>, y: seq<byte>, place: nat) {
    |x| == |y| && place <= |x| && x[..place] == y[..place]
  }

  lemma SlicesBelow(x: seq<byte>, y: seq<byte>, place: nat, lo: nat, hi: nat)
    requires SameBelow(x, y, place) && lo <= hi <= place
    ensures x[lo..hi] == y[lo..hi]
  {
    assert x[lo..hi] == x[..place][lo..hi] && y[lo..hi] == y[..place][lo..hi];
  }

  lemma ReservedBelow(g: Gen, h: Gen, place: nat, k: nat)
    requires k < |g.stack| == |g.widths| && k < |h.stack| == |h.widths|
    requires SameBelow(g.mem, h.mem, place) && Reserved(g, k)
    requires h.stack[k] == g.stack[k] && h.widths[k] == g.widths[k] && g.stack[k] + g.widths[k] <= place
    ensures Reserved(h, k)
  {
    SlicesBelow(g.mem, h.mem, place, g.stack[k], g.stack[k] + g.widths[k]);
  }

  lemma Emitted(g: Gen, bytes: seq<byte>, mem: seq<byte>)
    requires Ok(g) && SameBelow(g.mem, mem, g.current)
    requires g.current + |bytes| <= |mem| && mem[g.current..g.current + |bytes|] == bytes
    ensures var h := g.(mem := mem, current := g.current + |bytes|);
              Ok(h) && FramesOf(h) == Appended(FramesOf(g), bytes)
  {
    var h := g.(mem := mem, current := g.current + |bytes|);
    var n := |g.stack|;
    hide SameBelow, Reserved;
    forall k | 0 <= k <= n
      ensures Base(h, k) <= End(h, k) <= h.current
    {
      assert Base(g, k) <= End(g, k) <= g.current;
    }
    forall k | 0 <= k < n
      ensures Reserved(h, k)
    {
      assert Base(g, k + 1) <= End(g, k + 1) <= g.current;
      ReservedBelow(g, h, g.current, k);
    }
    forall k | 0 <= k < n
      ensures Frame(h, k) == Frame(g, k)
    {
      SlicesBelow(g.mem, mem, g.current, Base(g, k), End(g, k));
    }
    SlicesBelow(g.mem, mem, g.current, Base(g, n), g.current);
    Join(mem, Base(g, n), g.current, g.current + |bytes|);
    assert FramesOf(h) == Appended(FramesOf(g), bytes);
  }

  lemma Opened(g: Gen, width: nat, mem: seq<byte>)
    requires Ok(g) && SameBelow(g.mem, mem, g.current) && |g.stack| < LEN_STACK_SIZE
    requires width in {RESERVED_BYTES, WORD_BYTES} && g.current + width <= |mem|
    requires mem[g.current..g.current + width] == Zeros(width)
    ensures var h := Gen(mem, g.current + width, g.stack + [g.current], g.widths + [width]);
              Ok(h) && FramesOf(h) == FramesOf(g) + [[]]
  {
    var h := Gen(mem, g.current + width, g.stack + [g.current], g.widths + [width]);
    var n := |g.stack|;
    hide SameBelow;
    forall k | 0 <= k <= n
      ensures Base(h, k) == Base(g, k) && End(h, k) == End(g, k) && Base(g, k) <= End(g, k) <= g.current
    {
    }
    assert Base(h, n + 1) == h.current;
    assert Reserved(h, n);
    hide Reserved;
    forall k | 0 <= k < n
      ensures Reserved(h, k)
    {
      assert Base(g, k + 1) <= End(g, k + 1) <= g.current;
      ReservedBelow(g, h, g.current, k);
    }
    assert Ok(h);
    forall k | 0 <= k <= n
      ensures Frame(h, k) == Frame(g, k)
    {
      SlicesBelow(g.mem, mem, g.current, Base(g, k), End(g, k));
    }
    assert FramesOf(h) == FramesOf(g) + [[]];
  }

  // Closing the innermost frame leaves these bytes where its reserved bytes began.
  lemma ClosedWith(g: Gen, bytes: seq<byte>, mem: seq<byte>)
    requires Ok(g) && g.stack != []
    requires var p := g.stack[|g.stack| - 1];
               SameBelow(g.mem, mem, p) && p + |bytes| <= |mem| && mem[p..p + |bytes|] == bytes
    ensures var n, p := |g.stack| - 1, g.stack[|g.stack| - 1];
            var h := Gen(mem, p + |bytes|, g.stack[..n], g.widths[..n]);
              Ok(h) && FramesOf(h) == Closed(FramesOf(g), bytes)
  {
    var n, p := |g.stack| - 1, g.stack[|g.stack| - 1];
    var h := Gen(mem, p + |bytes|, g.stack[..n], g.widths[..n]);
    hide SameBelow, Reserved;
    forall k | 0 <= k <= n
      ensures Base(h, k) == Base(g, k) && Base(g, k) <= End(g, k) <= p
      ensures k < n ==> End(h, k) == End(g, k)
    {
      StackRises(g, k, n);
    }
    forall k | 0 <= k < n
      ensures Reserved(h, k)
    {
      StackRises(g, k, n);
      ReservedBelow(g, h, p, k);
    }
    assert Ok(h);
    forall k | 0 <= k < n
      ensures Frame(h, k) == Frame(g, k)
    {
      SlicesBelow(g.mem, mem, p, Base(g, k), End(g, k));
    }
    SlicesBelow(g.mem, mem, p, Base(g, n), p);
    Join(mem, Base(g, n), p, p + |bytes|);
    assert FramesOf(h) == Closed(FramesOf(g), bytes);
  }

  lemma {:induction false} StackRises(g: Gen, j: nat, k: nat)
    requires Ok(g) && j <= k < |g.stack|
    ensures End(g, j) <= g.stack[k] && (j < k ==> g.stack[j] + g.widths[j] <= g.stack[k])
    decreases k - j
  {
    hide Reserved;
    if j < k {
      StackRises(g, j + 1, k);
      assert Base(g, j + 1) <= End(g, j + 1);
    }
  }

  // ----- What closing writes

  // A payload too long for three bytes is left behind its zeros, with an error message.
  function ClosedPackage(payload: seq<byte>): seq<byte> {
    if Encodable(|payload|) then Packaged(payload) else Zeros(RESERVED_BYTES) + payload
  }

  function Word(n: nat): (w: seq<byte>)
    ensures |w| == WORD_BYTES
  {
    [n % 0x100, n / 0x100 % 0x100]
  }

  lemma LastFrame(g: Gen)
    requires Ok(g)
    ensures Last(FramesOf(g)) == g.mem[Base(g, |g.stack|)..g.current]
    ensures Base(g, |g.stack|) <= g.current <= |g.mem|
    ensures g.stack != [] ==> Base(g, |g.stack|) == g.stack[|g.stack| - 1] + g.widths[|g.stack| - 1]
    ensures g.stack != [] ==> Reserved(g, |g.stack| - 1)
    ensures |FramesOf(g)| == |g.stack| + 1 && |g.widths| == |g.stack|
  {
    hide Reserved;
    assert Base(g, |g.stack|) <= End(g, |g.stack|);
  }

  // The shortest form moves the payload down and puts its length in front.
  lemma Compacted(mem: seq<byte>, p: nat, payload: seq<byte>, width: nat, head: seq<byte>)
    requires p + RESERVED_BYTES + |payload| <= |mem| && width <= RESERVED_BYTES && |head| == width
    ensures var now := Put(Put(mem, p + width, payload), p, head);
            now[p..p + width + |payload|] == head + payload && SameBelow(mem, now, p)
  {
    var moved := Put(mem, p + width, payload);
    var now := Put(moved, p, head);
    hide Put;
    PutThere(mem, p + width, payload);
    PutThere(moved, p, head);
    PutElsewhere(moved, p, head, p + width, p + width + |payload|);
    Join(now, p, p + width, p + width + |payload|);
    PutElsewhere(mem, p + width, payload, 0, p);
    PutElsewhere(moved, p, head, 0, p);
    assert mem[0..p] == mem[..p] && now[0..p] == now[..p];
  }

  lemma EmptyMove(mem: seq<byte>, p: nat, payload: seq<byte>)
    requires p + |payload| <= |mem| && mem[p..p + |payload|] == payload
    ensures Put(mem, p, payload) == mem
  {
  }

  lemma PutOne(mem: seq<byte>, i: nat, b: byte)
    requires i < |mem|
    ensures mem[i := b] == Put(mem, i, [b])
  {
  }

  lemma PutTwice(mem: seq<byte>, i: nat, x: seq<byte>, y: seq<byte>)
    requires i + |x| + |y| <= |mem|
    ensures Put(Put(mem, i, x), i + |x|, y) == Put(mem, i, x + y)
  {
  }

  lemma PutSameBelow(mem: seq<byte>, i: nat, x: seq<byte>)
    requires i + |x| <= |mem|
    ensures SameBelow(mem, Put(mem, i, x), i) && Put(mem, i, x)[i..i + |x|] == x
  {
  }

  // memmove towards lower addresses.
  method MoveDown(a: array<byte>, to: nat, from: nat, n: nat)
    requires to <= from && from + n <= a.Length
    modifies a
    ensures Bytes(a) == Put(old(Bytes(a)), to, old(Bytes(a))[from..from + n])
  {
    ghost var was := Bytes(a);
    for i := 0 to n
      invariant forall k :: to + i <= k < a.Length ==> a[k] == was[k]
      invariant forall k :: 0 <= k < to ==> a[k] == was[k]
      invariant a[to..to + i] == was[from..from + i]
    {
      a[to + i] := a[from + i];
    }
    assert Bytes(a) == Put(was, to, was[from..from + n]);
  }

  method StoreByte(a: array<byte>, i: nat, b: byte)
    requires i < a.Length
    modifies a
    ensures Bytes(a) == Put(old(Bytes(a)), i, [b])
  {
    a[i] := b;
    assert Bytes(a) == Put(old(Bytes(a)), i, [b]);
  }

  // ----- The generator

  class Generator {
    const buf: array<byte>
    var current: nat
    var lenStack: seq<nat>
    ghost var widths: seq<nat>

    ghost function State(): Gen
      reads this, buf
    {
      Gen(Bytes(buf), current, lenStack, widths)
    }

    ghost predicate Valid()
      reads this, buf
    {
      Ok(State())
    }

    // The bytes of every open frame, outermost first.
    ghost function Frames(): (f: seq<seq<byte>>)
      requires Valid()
      reads this, buf
      ensures |f| == |lenStack| + 1
    {
      FramesOf(State())
    }

    lemma StateIs()
      ensures State() == Gen(Bytes(buf), current, lenStack, widths)
      ensures Valid() <==> Ok(State())
      ensures Valid() ==> Frames() == FramesOf(State())
    {
      hide Ok, FramesOf, Bytes;
    }

    constructor (size: nat)
      ensures Valid() && fresh(buf) && buf.Length == size && current == 0 && lenStack == [] && widths == []
      ensures Frames() == [[]]
    {
      buf := new byte[size];
      current := 0;
      lenStack := [];
      widths := [];
      new;
      assert Bytes(buf)[0..0] == [];
    }

    method EmitByte(b: byte)
      requires Valid() && current < buf.Length
      modifies this`current, buf
      ensures Valid() && current == old(current) + 1
      ensures Frames() == Appended(old(Frames()), [b])
    {
      hide *;
      StateIs();
      ghost var g := State();
      StoreByte(buf, current, b);
      PutSameBelow(g.mem, current, [b]);
      current := current + 1;
      Emitted(g, [b], Bytes(buf));
      StateIs();
    }

    method EmitStream(data: seq<byte>)
      requires Valid() && current + |data| <= buf.Length
      modifies this`current, buf
      ensures Valid() && current == old(current) + |data|
      ensures Frames() == Appended(old(Frames()), data)
    {
      ghost var f := Frames();
      AppendNothing(f);
      hide Ok, FramesOf, Appended, Bytes;
      assert data[..0] == [];
      for i := 0 to |data|
        invariant Valid() && current == old(current) + i
        invariant Frames() == Appended(f, data[..i])
      {
        AppendTwice(f, data[..i], [data[i]]);
        assert data[..i + 1] == data[..i] + [data[i]];
        EmitByte(data[i]);
      }
      assert data[..|data|] == data;
    }

    /** acpigen_write_len_f opens a package. */
    method WriteLenF()
      requires Valid() && |lenStack| < LEN_STACK_SIZE - 1
      requires current + RESERVED_BYTES <= buf.Length
      modifies this`current, this`lenStack, this`widths, buf
      ensures Valid() && current == old(current) + RESERVED_BYTES
      ensures lenStack == old(lenStack) + [old(current)] && widths == old(widths) + [RESERVED_BYTES]
      ensures Frames() == old(Frames()) + [[]]
    {
      Constants();
      hide *;
      StateIs();
      ghost var g := State();
      StoreByte(buf, current, 0);
      StoreByte(buf, current + 1, 0);
      StoreByte(buf, current + 2, 0);
      PutThree(g.mem, current);
      PutSameBelow(g.mem, current, Zeros(RESERVED_BYTES));
      Opened(g, RESERVED_BYTES, Bytes(buf));
      lenStack := lenStack + [current];
      widths := widths + [RESERVED_BYTES];
      current := current + RESERVED_BYTES;
      StateIs();
    }

    /**
     acpigen_pop_len closes the innermost package: the payload ends up behind the shortest length that fits. One
     that is too long for three bytes stays behind zeros.
     */
    method PopLen()
      requires Valid() && lenStack != [] && widths[|lenStack| - 1] == RESERVED_BYTES
      modifies this`current, this`lenStack, this`widths, buf
      ensures Valid()
      ensures lenStack == old(lenStack)[..|old(lenStack)| - 1] && widths == old(widths)[..|old(lenStack)| - 1]
      ensures Frames() == Closed(old(Frames()), ClosedPackage(Last(old(Frames()))))
      ensures current <= old(current)
    {
      Constants();
      hide *;
      StateIs();
      ghost var g := State();
      LastFrame(g);
      ReservedParts(g, |g.stack| - 1);
      ghost var payload := Last(FramesOf(g));
      var p := lenStack[|lenStack| - 1];
      lenStack := lenStack[..|lenStack| - 1];
      widths := widths[..|lenStack|];
      var len := current - p;
      var payloadLen := len - RESERVED_BYTES;

      if len <= 0x3f + 2 {
        MoveDown(buf, p + RESERVED_BYTES - 2, p + RESERVED_BYTES, payloadLen);
        len := len - 2;
        StoreByte(buf, p, len);
        ShortForm(g.mem, p, payload);
        current := p + len;
      } else if len <= 0xfff + 1 {
        MoveDown(buf, p + RESERVED_BYTES - 1, p + RESERVED_BYTES, payloadLen);
        len := len - 1;
        StoreByte(buf, p, 0x40 + len % 0x10);
        StoreByte(buf, p + 1, len / 0x10 % 0x100);
        MiddleForm(g.mem, p, payload);
        current := p + len;
      } else if len <= 0xfffff {
        StoreByte(buf, p, 0x80 + len % 0x10);
        StoreByte(buf, p + 1, len / 0x10 % 0x100);
        StoreByte(buf, p + 2, len / 0x1000 % 0x100);
        LongForm(g.mem, p, payload);
      } else {
        TooLong(g.mem, p, payload);
      }
      ClosedAtEnds(g, Bytes(buf), payload, current);
      StateIs();
    }

    /** acpigen_write_package: the pointer to the count stays good until this package is closed. */
    method WritePackage(count: byte) returns (p: nat)
      requires Valid() && |lenStack| < LEN_STACK_SIZE - 1
      requires current + RESERVED_BYTES + 2 <= buf.Length
      modifies this`current, this`lenStack, this`widths, buf
      ensures Valid() && current == old(current) + RESERVED_BYTES + 2
      ensures lenStack == old(lenStack) + [old(current) + 1] && widths == old(widths) + [RESERVED_BYTES]
      ensures p == Base(State(), |lenStack|)
      ensures Frames() == Appended(old(Frames()), [0x12]) + [[count]]
    {
      Constants();
      hide *;
      StateIs();
      LastFrame(State());
      ghost var f := Frames();
      EmitByte(PACKAGE_OP);
      WriteLenF();
      p := current;
      EmitByte(count);
      StateIs();
      NewBase(State());
      AppendToNew(Appended(f, [PACKAGE_OP]), [count]);
    }

    /** A store through a pointer that was kept: byte j of frame k. */
    method StoreAt(p: nat, b: byte, ghost k: nat, ghost j: nat)
      requires Valid() && k <= |lenStack| && p == Base(State(), k) + j && j < |Frames()[k]|
      modifies buf
      ensures Valid() && Frames() == Patched(old(Frames()), k, j, b)
    {
      hide *;
      StateIs();
      ghost var g := State();
      FrameInside(g, k);
      StoreByte(buf, p, b);
      Stored(g, p, b, k, j);
      StateIs();
    }

    // A place for a word that is still missing.
    method PushWord()
      requires Valid() && |lenStack| < LEN_STACK_SIZE && current + WORD_BYTES <= buf.Length
      modifies this`current, this`lenStack, this`widths, buf
      ensures Valid() && current == old(current) + WORD_BYTES
      ensures lenStack == old(lenStack) + [old(current)] && widths == old(widths) + [WORD_BYTES]
      ensures Frames() == old(Frames()) + [[]]
    {
      Constants();
      hide *;
      StateIs();
      ghost var g := State();
      lenStack := lenStack + [current];
      widths := widths + [WORD_BYTES];
      StoreByte(buf, current, 0);
      StoreByte(buf, current + 1, 0);
      current := current + WORD_BYTES;
      PutZeroWord(g.mem, g.current);
      PutSameBelow(g.mem, g.current, Zeros(WORD_BYTES));
      Opened(g, WORD_BYTES, Bytes(buf));
      StateIs();
    }

    /** A buffer of resources: its package length, a word constant, and a place for that word. */
    method WriteResourcetemplateHeader()
      requires Valid() && |lenStack| < LEN_STACK_SIZE - 1
      requires current + 1 + RESERVED_BYTES + 1 + WORD_BYTES <= buf.Length
      modifies this`current, this`lenStack, this`widths, buf
      ensures Valid() && current == old(current) + 1 + RESERVED_BYTES + 1 + WORD_BYTES
      ensures lenStack == old(lenStack) + [old(current) + 1, old(current) + 1 + RESERVED_BYTES + 1]
      ensures widths == old(widths) + [RESERVED_BYTES, WORD_BYTES]
      ensures Frames() == Appended(old(Frames()), [0x11]) + [[0x0b]] + [[]]
    {
      Constants();
      hide *;
      ghost var f := Frames();
      EmitByte(BUFFER_OP);
      WriteLenF();
      EmitByte(WORD_PREFIX);
      AppendToNew(Appended(f, [BUFFER_OP]), [WORD_PREFIX]);
      PushWord();
    }

    // Storing the word for the innermost place, which counts the bytes behind it.
    method PopWord(p: nat)
      requires Valid() && lenStack != [] && widths[|lenStack| - 1] == WORD_BYTES && p == lenStack[|lenStack| - 1]
      modifies this`lenStack, this`widths, buf
      ensures Valid()
      ensures lenStack == old(lenStack)[..|old(lenStack)| - 1] && widths == old(widths)[..|old(lenStack)| - 1]
      ensures var items := Last(old(Frames())); Frames() == Closed(old(Frames()), Word(|items|) + items)
    {
      Constants();
      hide *;
      StateIs();
      ghost var g := State();
      LastFrame(g);
      ghost var items := Last(FramesOf(g));
      lenStack := lenStack[..|lenStack| - 1];
      widths := widths[..|lenStack|];
      var len := current - (p + 2);
      StoreByte(buf, p, len % 0x100);
      StoreByte(buf, p + 1, len / 0x100 % 0x100);
      WordForm(g.mem, p, items);
      ClosedWith(g, Word(len) + items, Bytes(buf));
      StateIs();
    }

    /** The end tag, the word that counts the resources with it, and the package around them. */
    method WriteResourcetemplateFooter()
      requires Valid() && |lenStack| >= 2 && current + 2 <= buf.Length
      requires |widths| == |lenStack| && widths[|lenStack| - 2] == RESERVED_BYTES && widths[|lenStack| - 1] == WORD_BYTES
      modifies this`current, this`lenStack, this`widths, buf
      ensures Valid()
      ensures lenStack == old(lenStack)[..|old(lenStack)| - 2] && widths == old(widths)[..|old(lenStack)| - 2]
      ensures Frames() == TemplateClosed(old(Frames()))
    {
      Constants();
      hide *;
      ghost var f := Frames();
      var p := lenStack[|lenStack| - 1];
      EmitByte(END_TAG);
      EmitByte(0);
      TwoAppends(f, END_TAG, 0);
      ghost var f1 := Frames();
      assert f1 == Appended(f, [END_TAG, 0]);
      PopWord(p);
      ghost var f2 := Frames();
      assert f2 == Closed(f1, Word(|Last(f1)|) + Last(f1));
      PopLen();
      assert Frames() == Closed(f2, ClosedPackage(Last(f2)));
      TemplateIs(f);
    }
  }

  // The resources of a template go behind their length.
  function TemplateClosed(f: seq<seq<byte>>): seq<seq<byte>>
    requires |f| >= 3
  {
    var items := Last(f) + [END_TAG, 0];
    var inner := Closed(Appended(f, [END_TAG, 0]), Word(|items|) + items);
    Closed(inner, ClosedPackage(Last(inner)))
  }

  /** The last two frames become a package of what they held, with an end tag and the number of bytes in two. */
  lemma TemplateBytes(f: seq<seq<byte>>)
    requires |f| >= 3
    ensures var k, items := |f| - 3, Last(f) + [0x79, 0];
            var payload := f[k + 1] + [|items| % 0x100, |items| / 0x100 % 0x100] + items;
              TemplateClosed(f) == f[..k] + [f[k] + ClosedPackage(payload)]
  {
    var items := Last(f) + [0x79, 0];
    var inner := Closed(Appended(f, [0x79, 0]), Word(|items|) + items);
    assert Appended(f, [0x79, 0])[..|f| - 1] == f[..|f| - 1];
    assert Last(inner) == f[|f| - 2] + (Word(|items|) + items);
    assert f[|f| - 2] + (Word(|items|) + items) == f[|f| - 2] + Word(|items|) + items;
    hide ClosedPackage;
    assert inner[..|f| - 2] == f[..|f| - 2];
  }

  lemma TemplateIs(f: seq<seq<byte>>)
    requires |f| >= 3
    ensures var items := Last(f) + [END_TAG, 0];
            var inner := Closed(Appended(f, [END_TAG, 0]), Word(|items|) + items);
            TemplateClosed(f) == Closed(inner, ClosedPackage(Last(inner)))
  {
  }

  lemma TwoAppends(f: seq<seq<byte>>, x: byte, y: byte)
    requires f != []
    ensures Appended(Appended(f, [x]), [y]) == Appended(f, [x, y]) && |Appended(f, [x, y])| == |f|
    ensures Last(Appended(f, [x, y])) == Last(f) + [x, y]
  {
    assert Last(f) + [x] + [y] == Last(f) + [x, y];
  }

  lemma WordForm(mem: seq<byte>, p: nat, items: seq<byte>)
    requires p + WORD_BYTES + |items| <= |mem| && mem[p + WORD_BYTES..p + WORD_BYTES + |items|] == items
    ensures var n := |items|;
            var now := Put(Put(mem, p, [n % 0x100]), p + 1, [n / 0x100 % 0x100]);
              SameBelow(mem, now, p) && now[p..p + WORD_BYTES + n] == Word(n) + items
  {
    var n := |items|;
    hide Put, SameBelow;
    PutPair(mem, p, n % 0x100, n / 0x100 % 0x100);
    PutSameBelow(mem, p, Word(n));
    PutElsewhere(mem, p, Word(n), p + 2, p + 2 + n);
    Join(Put(mem, p, Word(n)), p, p + 2, p + 2 + n);
  }

  lemma Constants()
    ensures RESERVED_BYTES == 3 && WORD_BYTES == 2 && LEN_STACK_SIZE == 10
    ensures PACKAGE_OP == 0x12 && BUFFER_OP == 0x11 && WORD_PREFIX == 0x0b && END_TAG == 0x79
  {
  }

  lemma NewBase(g: Gen)
    requires Ok(g) && g.stack != []
    ensures Base(g, |g.stack|) == g.stack[|g.stack| - 1] + g.widths[|g.stack| - 1]
  {
  }

  lemma ReservedParts(g: Gen, k: nat)
    requires k < |g.stack| == |g.widths| && Reserved(g, k)
    ensures g.stack[k] + g.widths[k] <= |g.mem|
    ensures g.mem[g.stack[k]..g.stack[k] + g.widths[k]] == Zeros(g.widths[k])
  {
  }

  // The three forms of the length, as the source computes them from what it has reserved.
  lemma EncodeCases(n: nat)
    ensures n + RESERVED_BYTES <= 0x3f + 2 ==> Encodable(n) && EncodePkgLength(n) == [n + 1]
    ensures 0x3f + 2 < n + RESERVED_BYTES <= 0xfff + 1 ==>
              Encodable(n) && EncodePkgLength(n) == [0x40 + (n + 2) % 0x10, (n + 2) / 0x10 % 0x100]
    ensures 0xfff + 1 < n + RESERVED_BYTES <= 0xfffff ==>
              Encodable(n) &&
              EncodePkgLength(n) == [0x80 + (n + 3) % 0x10, (n + 3) / 0x10 % 0x100, (n + 3) / 0x1000 % 0x100]
    ensures n + RESERVED_BYTES > 0xfffff ==> !Encodable(n)
  {
  }

  lemma PackagedIs(payload: seq<byte>)
    ensures Encodable(|payload|) ==> ClosedPackage(payload) == EncodePkgLength(|payload|) + payload
    ensures !Encodable(|payload|) ==> ClosedPackage(payload) == Zeros(RESERVED_BYTES) + payload
  {
  }

  lemma PutPair(mem: seq<byte>, i: nat, x: byte, y: byte)
    requires i + 2 <= |mem|
    ensures Put(Put(mem, i, [x]), i + 1, [y]) == Put(mem, i, [x, y])
  {
    hide Put;
    PutTwice(mem, i, [x], [y]);
    assert [x] + [y] == [x, y];
  }

  lemma PutTriple(mem: seq<byte>, i: nat, x: byte, y: byte, z: byte)
    requires i + 3 <= |mem|
    ensures Put(Put(Put(mem, i, [x]), i + 1, [y]), i + 2, [z]) == Put(mem, i, [x, y, z])
  {
    hide Put;
    PutPair(mem, i, x, y);
    PutTwice(mem, i, [x, y], [z]);
    assert [x, y] + [z] == [x, y, z];
  }

  lemma PutZeroWord(mem: seq<byte>, i: nat)
    requires i + 2 <= |mem|
    ensures Put(Put(mem, i, [0]), i + 1, [0]) == Put(mem, i, Zeros(WORD_BYTES))
  {
    hide Put;
    PutPair(mem, i, 0, 0);
    assert [0, 0] == Zeros(WORD_BYTES);
  }

  // The four ways of closing: what the source stores is the closed package, from p on.
  ghost predicate ClosedAt(mem: seq<byte>, now: seq<byte>, p: nat, payload: seq<byte>, end: nat) {
    && SameBelow(mem, now, p) && end == p + |ClosedPackage(payload)| <= |now|
    && now[p..p + |ClosedPackage(payload)|] == ClosedPackage(payload)
  }

  lemma ShortForm(mem: seq<byte>, p: nat, payload: seq<byte>)
    requires p + RESERVED_BYTES + |payload| <= |mem| && |payload| + RESERVED_BYTES <= 0x3f + 2
    ensures ClosedAt(mem, Put(Put(mem, p + 1, payload), p, [|payload| + 1]), p, payload, p + |payload| + 1)
  {
    EncodeCases(|payload|);
    PackagedIs(payload);
    hide Put, SameBelow, EncodePkgLength, Encodable, ClosedPackage;
    Compacted(mem, p, payload, 1, [|payload| + 1]);
  }

  lemma MiddleForm(mem: seq<byte>, p: nat, payload: seq<byte>)
    requires p + RESERVED_BYTES + |payload| <= |mem| && 0x3f + 2 < |payload| + RESERVED_BYTES <= 0xfff + 1
    ensures var len := |payload| + 2;
              ClosedAt(mem, Put(Put(Put(mem, p + 2, payload), p, [0x40 + len % 0x10]), p + 1, [len / 0x10 % 0x100]),
                       p, payload, p + len)
  {
    var len := |payload| + 2;
    EncodeCases(|payload|);
    PackagedIs(payload);
    hide Put, SameBelow, EncodePkgLength, Encodable, ClosedPackage;
    PutPair(Put(mem, p + 2, payload), p, 0x40 + len % 0x10, len / 0x10 % 0x100);
    Compacted(mem, p, payload, 2, [0x40 + len % 0x10, len / 0x10 % 0x100]);
  }

  lemma LongForm(mem: seq<byte>, p: nat, payload: seq<byte>)
    requires p + RESERVED_BYTES + |payload| <= |mem| && 0xfff + 1 < |payload| + RESERVED_BYTES <= 0xfffff
    requires mem[p + RESERVED_BYTES..p + RESERVED_BYTES + |payload|] == payload
    ensures var len := |payload| + 3;
            var now := Put(Put(Put(mem, p, [0x80 + len % 0x10]), p + 1, [len / 0x10 % 0x100]), p + 2, [len / 0x1000 % 0x100]);
              ClosedAt(mem, now, p, payload, p + len)
  {
    var len := |payload| + 3;
    EncodeCases(|payload|);
    PackagedIs(payload);
    EmptyMove(mem, p + RESERVED_BYTES, payload);
    hide Put, SameBelow, EncodePkgLength, Encodable, ClosedPackage;
    PutTriple(mem, p, 0x80 + len % 0x10, len / 0x10 % 0x100, len / 0x1000 % 0x100);
    Compacted(mem, p, payload, 3, [0x80 + len % 0x10, len / 0x10 % 0x100, len / 0x1000 % 0x100]);
  }

  lemma TooLong(mem: seq<byte>, p: nat, payload: seq<byte>)
    requires p + RESERVED_BYTES + |payload| <= |mem| && |payload| + RESERVED_BYTES > 0xfffff
    requires mem[p..p + RESERVED_BYTES] == Zeros(RESERVED_BYTES)
    requires mem[p + RESERVED_BYTES..p + RESERVED_BYTES + |payload|] == payload
    ensures ClosedAt(mem, mem, p, payload, p + RESERVED_BYTES + |payload|)
  {
    EncodeCases(|payload|);
    PackagedIs(payload);
    hide Encodable, ClosedPackage;
    Join(mem, p, p + RESERVED_BYTES, p + RESERVED_BYTES + |payload|);
  }

  lemma ClosedAtEnds(g: Gen, now: seq<byte>, payload: seq<byte>, end: nat)
    requires Ok(g) && g.stack != [] && ClosedAt(g.mem, now, g.stack[|g.stack| - 1], payload, end)
    ensures var n := |g.stack| - 1;
            var h := Gen(now, end, g.stack[..n], g.widths[..n]);
              Ok(h) && FramesOf(h) == Closed(FramesOf(g), ClosedPackage(payload))
  {
    hide Ok, FramesOf, SameBelow, Closed, ClosedPackage;
    ClosedWith(g, ClosedPackage(payload), now);
  }

  lemma AppendToNew(f: seq<seq<byte>>, bytes: seq<byte>)
    ensures Appended(f + [[]], bytes) == f + [bytes]
  {
    assert [] + bytes == bytes;
  }

  lemma FrameInside(g: Gen, k: nat)
    requires Ok(g) && k <= |g.stack|
    ensures Base(g, k) + |FramesOf(g)[k]| <= |g.mem|
  {
    hide Reserved;
    assert Base(g, k) <= End(g, k) <= g.current;
  }

  lemma StoredOk(g: Gen, p: nat, b: byte, k: nat)
    requires Ok(g) && k <= |g.stack| && Base(g, k) <= p < End(g, k)
    ensures Ok(g.(mem := Put(g.mem, p, [b])))
  {
    var h := g.(mem := Put(g.mem, p, [b]));
    hide Put;
    forall i | 0 <= i < |g.stack|
      ensures Reserved(h, i)
    {
      assert Reserved(g, i);
      PlaceBeside(g, i, k);
      PutElsewhere(g.mem, p, [b], g.stack[i], g.stack[i] + g.widths[i]);
    }
    hide Reserved;
    forall i | 0 <= i <= |g.stack|
      ensures Base(h, i) <= End(h, i) <= h.current
    {
      assert Base(g, i) <= End(g, i) <= g.current;
    }
  }

  lemma PutInSlice(mem: seq<byte>, lo: nat, hi: nat, j: nat, b: byte)
    requires lo + j < hi <= |mem|
    ensures Put(mem, lo + j, [b])[lo..hi] == mem[lo..hi][..j] + [b] + mem[lo..hi][j + 1..]
  {
  }

  lemma Stored(g: Gen, p: nat, b: byte, k: nat, j: nat)
    requires Ok(g) && k <= |g.stack| && j < |FramesOf(g)[k]| && p == Base(g, k) + j < |g.mem|
    ensures var h := g.(mem := Put(g.mem, p, [b]));
              Ok(h) && FramesOf(h) == Patched(FramesOf(g), k, j, b)
  {
    var h := g.(mem := Put(g.mem, p, [b]));
    FrameInside(g, k);
    hide Reserved;
    assert Base(g, k) <= p < End(g, k);
    StoredOk(g, p, b, k);
    hide Put;
    forall i | 0 <= i <= |g.stack|
      ensures i != k ==> Frame(h, i) == Frame(g, i)
    {
      assert Base(g, i) <= End(g, i) <= g.current;
      if i != k {
        FrameBeside(g, i, k);
        PutElsewhere(g.mem, p, [b], Base(g, i), End(g, i));
      }
    }
    PutInSlice(g.mem, Base(g, k), End(g, k), j, b);
    assert FramesOf(h) == Patched(FramesOf(g), k, j, b);
  }

  // Saved places and frames do not overlap.
  lemma PlaceBeside(g: Gen, i: nat, k: nat)
    requires Ok(g) && i < |g.stack| && k <= |g.stack|
    ensures g.stack[i] + g.widths[i] <= Base(g, k) || End(g, k) <= g.stack[i]
  {
    hide Reserved;
    if k <= i {
      StackRises(g, k, i);
    } else if i < k - 1 {
      StackRises(g, i, k - 1);
    }
  }

  lemma FrameBeside(g: Gen, i: nat, k: nat)
    requires Ok(g) && i <= |g.stack| && k <= |g.stack| && i != k
    ensures End(g, i) <= Base(g, k) || End(g, k) <= Base(g, i)
  {
    hide Reserved;
    if k < i {
      StackRises(g, k, i - 1);
    } else {
      StackRises(g, i, k - 1);
    }
  }

  lemma PutThree(mem: seq<byte>, i: nat)
    requires i + 3 <= |mem|
    ensures Put(Put(Put(mem, i, [0]), i + 1, [0]), i + 2, [0]) == Put(mem, i, Zeros(RESERVED_BYTES))
  {
    hide Put;
    PutTwice(mem, i, [0], [0]);
    PutTwice(mem, i, [0, 0], [0]);
    assert [0] + [0] == [0, 0] && [0, 0] + [0] == Zeros(RESERVED_BYTES);
  }

  lemma AppendNothing(f: seq<seq<byte>>)
    requires f != []
    ensures Appended(f, []) == f
  {
    assert Last(f) + [] == Last(f);
  }

  lemma AppendTwice(f: seq<seq<byte>>, x: seq<byte>, y: seq<byte>)
    requires f != []
    ensures Appended(f, x) != [] && Appended(Appended(f, x), y) == Appended(f, x + y)
  {
    assert Last(f) + x + y == Last(f) + (x + y);
  }
}
