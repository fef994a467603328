/**
 The number printer behind printf (src/console/vtxprintf.c, number): what it prints has the width asked for and reads
 back as the number.
 */
module Number {
  import opened Buffers

  const U64_SIZE: nat := 0x1_0000_0000_0000_0000
  const SPACE: byte := 0x20
  const ZERO: byte := 0x30
  const PLUS: byte := 0x2b
  const MINUS: byte := 0x2d
  const LOWER_X: byte := 0x78
  const UPPER_X: byte := 0x58

  // ZEROPAD, SIGN, PLUS, SPACE, LEFT, SPECIAL and LARGE.
  datatype Flags = Flags(zeropad: bool, sign: bool, plus: bool, space: bool, left: bool, special: bool, large: bool)

  type Base = b: nat | b == 8 || b == 10 || b == 16 witness 10

  // ----- Where bytes go: the callback and its data

  class Sink {
    const buf: array<byte>
    const capacity: nat
    var pos: nat
    var limit: nat
    ghost var sent: seq<byte>

    // What was sent, cut at the capacity, is in the buffer.
    ghost predicate Valid()
      reads this, buf
    {
      && capacity <= buf.Length && pos + limit == capacity
      && pos == (if |sent| < capacity then |sent| else capacity)
      && buf[..pos] == sent[..pos]
    }

    constructor (buf: array<byte>, capacity: nat)
      requires capacity <= buf.Length
      ensures Valid() && sent == [] && this.buf == buf && this.capacity == capacity
    {
      this.buf := buf;
      this.capacity := capacity;
      pos, limit, sent := 0, capacity, [];
    }

    /** str_tx_byte */
    method Tx(b: byte)
      requires Valid()
      modifies this, buf
      ensures Valid() && sent == old(sent) + [b]
      ensures buf[capacity..] == old(buf[capacity..])
    {
      sent := sent + [b];
      if limit > 0 {
        buf[pos] := b;
        pos := pos + 1;
        limit := limit - 1;
      }
    }
  }

  // Something repeated, not at all for a negative count.
  function Repeat(b: byte, n: int): (s: seq<byte>)
    ensures |s| == (if n > 0 then n else 0)
    ensures forall i :: 0 <= i < |s| ==> s[i] == b
  {
    seq(if n > 0 then n else 0, i => b)
  }

  method TxMany(sink: Sink, b: byte, n: int) returns (count: nat, left: int)
    requires sink.Valid()
    modifies sink, sink.buf
    ensures sink.Valid() && sink.sent == old(sink.sent) + Repeat(b, n) && count == |Repeat(b, n)|
    ensures left == (if n > 0 then -1 else n - 1)
    ensures sink.buf[sink.capacity..] == old(sink.buf[sink.capacity..])
  {
    left, count := n, 0;
    while left > 0
      invariant left <= n && count == (if n > 0 then n - left else 0) && (n > 0 ==> left >= 0)
      invariant n <= 0 ==> left == n
      invariant sink.Valid() && sink.sent == old(sink.sent) + Repeat(b, count)
      invariant sink.buf[sink.capacity..] == old(sink.buf[sink.capacity..])
    {
      sink.Tx(b);
      assert Repeat(b, count) + [b] == Repeat(b, count + 1);
      left := left - 1;
      count := count + 1;
    }
    left := left - 1;
  }

  // ----- The text

  function DigitChar(d: nat, large: bool): byte
    requires d < 16
  {
    if d < 10 then ZERO + d else if large then 0x41 + (d - 10) else 0x61 + (d - 10)
  }

  function DigitsOf(num: nat, base: Base, large: bool): (s: seq<byte>)
    ensures s != []
  {
    if num < base then [DigitChar(num, large)] else DigitsOf(num / base, base, large) + [DigitChar(num % base, large)]
  }

  // Two's complement.
  function Signed(num: nat): int {
    if num < U64_SIZE / 2 then num else num - U64_SIZE
  }

  function Magnitude(num: nat, f: Flags): nat
    requires num < U64_SIZE
  {
    if f.sign && Signed(num) < 0 then U64_SIZE - num else num
  }

  function SignText(num: nat, f: Flags): seq<byte> {
    if !f.sign then []
    else if Signed(num) < 0 then [MINUS]
    else if f.plus then [PLUS]
    else if f.space then [SPACE]
    else []
  }

  function PrefixText(base: Base, f: Flags): seq<byte> {
    if !f.special then []
    else if base == 8 then [ZERO]
    else if base == 16 then [ZERO, if f.large then UPPER_X else LOWER_X]
    else []
  }

  // Sign, prefix and at least precision digits, padded to the width on the side the flags say.
  function Arranged(head: seq<byte>, digits: seq<byte>, width: int, precision: int, f: Flags): seq<byte> {
    var body := Repeat(ZERO, precision - |digits|) + digits;
    var pad := width - |head| - |body|;
    if f.left then head + body + Repeat(SPACE, pad)
    else if f.zeropad then head + Repeat(ZERO, pad) + body
    else Repeat(SPACE, pad) + head + body
  }

  function NumberText(num: nat, base: Base, width: int, precision: int, f: Flags): seq<byte>
    requires num < U64_SIZE
  {
    Arranged(SignText(num, f) + PrefixText(base, f), DigitsOf(Magnitude(num, f), base, f.large), width, precision, f)
  }

  function Max(x: int, y: int): int {
    if x < y then y else x
  }

  /** The width is kept: never less, and more only for a number that needs it. */
  lemma TextLength(num: nat, base: Base, width: int, precision: int, f: Flags)
    requires num < U64_SIZE
    ensures |NumberText(num, base, width, precision, f)| ==
            Max(width, |SignText(num, f)| + |PrefixText(base, f)| +
                       Max(|DigitsOf(Magnitude(num, f), base, f.large)|, precision))
  {
  }

  // ----- Reading it back

  function DigitValue(c: byte): int {
    if ZERO <= c < ZERO + 10 then c - ZERO
    else if 0x61 <= c < 0x67 then c - 0x61 + 10
    else if 0x41 <= c < 0x47 then c - 0x41 + 10
    else -1
  }

  predicate IsDigit(c: byte, base: Base) {
    0 <= DigitValue(c) < base
  }

  // Digits up to the first other character.
  function LeadingDigits(s: seq<byte>, base: Base): seq<byte> {
    if s == [] || !IsDigit(s[0], base) then [] else [s[0]] + LeadingDigits(s[1..], base)
  }

  function ValueOf(s: seq<byte>, base: Base): int {
    if s == [] then 0 else ValueOf(s[..|s| - 1], base) * base + DigitValue(s[|s| - 1])
  }

  function SkipSpaces(s: seq<byte>): seq<byte> {
    if s != [] && s[0] == SPACE then SkipSpaces(s[1..]) else s
  }

  // A reader like strtol: spaces, a sign, the prefix of base 16 when one is expected, and digits.
  function ReadNumber(s: seq<byte>, base: Base, prefixed: bool): int {
    var t := SkipSpaces(s);
    var negative := t != [] && t[0] == MINUS;
    var u := if t != [] && (t[0] == MINUS || t[0] == PLUS) then t[1..] else t;
    var v := if prefixed && base == 16 && |u| >= 2 then u[2..] else u;
    if negative then -ValueOf(LeadingDigits(v, base), base) else ValueOf(LeadingDigits(v, base), base)
  }

  lemma DigitReads(d: nat, base: Base, large: bool)
    requires d < base
    ensures DigitValue(DigitChar(d, large)) == d && IsDigit(DigitChar(d, large), base)
  {
  }

  ghost predicate AllDigits(s: seq<byte>, base: Base) {
    forall i :: 0 <= i < |s| ==> IsDigit(s[i], base)
  }

  lemma ValueAppend(s: seq<byte>, c: byte, base: Base)
    ensures ValueOf(s + [c], base) == ValueOf(s, base) * base + DigitValue(c)
  {
    assert (s + [c])[..|s|] == s;
  }

  lemma {:induction false} DigitsRead(num: nat, base: Base, large: bool)
    ensures ValueOf(DigitsOf(num, base, large), base) == num && AllDigits(DigitsOf(num, base, large), base)
    decreases num
  {
    hide DigitValue, DigitChar, ValueOf;
    DigitReads(num % base, base, large);
    if num < base {
      ValueAppend([], DigitChar(num, large), base);
      NoDigits(base);
      assert [] + [DigitChar(num, large)] == [DigitChar(num, large)];
    } else {
      DigitsRead(num / base, base, large);
      ValueAppend(DigitsOf(num / base, base, large), DigitChar(num % base, large), base);
      Decompose(num, base);
    }
  }

  lemma NoDigits(base: Base)
    ensures ValueOf([], base) == 0
  {
  }

  lemma Decompose(num: nat, base: Base)
    ensures num / base * base + num % base == num
  {
  }

  lemma {:induction false} ZerosInFront(n: nat, s: seq<byte>, base: Base)
    requires AllDigits(s, base)
    ensures ValueOf(Repeat(ZERO, n) + s, base) == ValueOf(s, base) && AllDigits(Repeat(ZERO, n) + s, base)
    decreases |s|
  {
    hide DigitValue;
    ZeroIsDigit(base);
    var z := Repeat(ZERO, n);
    if s == [] {
      assert z + s == z;
      ZerosAreZero(n, base);
    } else {
      assert (z + s)[..|z + s| - 1] == z + s[..|s| - 1];
      ZerosInFront(n, s[..|s| - 1], base);
    }
  }

  lemma ZeroIsDigit(base: Base)
    ensures DigitValue(ZERO) == 0 && IsDigit(ZERO, base)
  {
  }

  lemma {:induction false} ZerosAreZero(n: nat, base: Base)
    ensures ValueOf(Repeat(ZERO, n), base) == 0
    decreases n
  {
    if n > 0 {
      ZerosAreZero(n - 1, base);
      assert Repeat(ZERO, n)[..n - 1] == Repeat(ZERO, n - 1);
    }
  }

  lemma {:induction false} DigitsLead(s: seq<byte>, n: int, base: Base)
    requires AllDigits(s, base)
    ensures LeadingDigits(s + Repeat(SPACE, n), base) == s
    decreases |s|
  {
    if s == [] {
      assert s + Repeat(SPACE, n) == Repeat(SPACE, n);
    } else {
      assert (s + Repeat(SPACE, n))[1..] == s[1..] + Repeat(SPACE, n);
      DigitsLead(s[1..], n, base);
    }
  }

  lemma {:induction false} SpacesSkipped(n: int, s: seq<byte>)
    requires s != [] && s[0] != SPACE
    ensures SkipSpaces(Repeat(SPACE, n) + s) == s
    decreases |Repeat(SPACE, n)|
  {
    if n > 0 {
      assert (Repeat(SPACE, n) + s)[1..] == Repeat(SPACE, n - 1) + s;
      SpacesSkipped(n - 1, s);
    } else {
      assert Repeat(SPACE, n) + s == s;
    }
  }

  // All variants are spaces, a sign, a prefix, zeros, digits and spaces.
  function Laid(a: int, sign: seq<byte>, prefix: seq<byte>, b: int, digits: seq<byte>, c: int): seq<byte> {
    Repeat(SPACE, a) + (sign + (prefix + (Repeat(ZERO, b) + digits + Repeat(SPACE, c))))
  }

  lemma MoreZeros(x: int, y: int, s: seq<byte>)
    ensures Repeat(ZERO, x) + (Repeat(ZERO, y) + s) == Repeat(ZERO, Max(x, 0) + Max(y, 0)) + s
  {
  }

  lemma LaidLeft(sign: seq<byte>, prefix: seq<byte>, zeros: int, digits: seq<byte>, pad: int)
    ensures sign + prefix + (Repeat(ZERO, zeros) + digits) + Repeat(SPACE, pad) ==
            Laid(0, sign, prefix, zeros, digits, pad)
  {
    assert Repeat(SPACE, 0) == [];
    hide Repeat;
  }

  lemma LaidZeros(sign: seq<byte>, prefix: seq<byte>, zeros: int, digits: seq<byte>, pad: int)
    ensures sign + prefix + Repeat(ZERO, pad) + (Repeat(ZERO, zeros) + digits) ==
            Laid(0, sign, prefix, Max(pad, 0) + Max(zeros, 0), digits, 0)
  {
    MoreZeros(pad, zeros, digits);
    var n := Max(pad, 0) + Max(zeros, 0);
    assert Repeat(SPACE, 0) == [];
    hide Repeat, Max;
    assert sign + prefix + Repeat(ZERO, pad) + (Repeat(ZERO, zeros) + digits) ==
           sign + prefix + (Repeat(ZERO, n) + digits);
  }

  lemma LaidRight(sign: seq<byte>, prefix: seq<byte>, zeros: int, digits: seq<byte>, pad: int)
    ensures Repeat(SPACE, pad) + (sign + prefix) + (Repeat(ZERO, zeros) + digits) ==
            Laid(pad, sign, prefix, zeros, digits, 0)
  {
    assert Repeat(SPACE, 0) == [];
    hide Repeat;
  }

  // How many spaces, zeros and spaces there are.
  function Parts(head: seq<byte>, digits: seq<byte>, width: int, precision: int, f: Flags): (int, int, int) {
    var zeros := precision - |digits|;
    var pad := width - |head| - |Repeat(ZERO, zeros) + digits|;
    if f.left then (0, zeros, pad)
    else if f.zeropad then (0, Max(pad, 0) + Max(zeros, 0), 0)
    else (pad, zeros, 0)
  }

  lemma ArrangedIsLaid(sign: seq<byte>, prefix: seq<byte>, digits: seq<byte>, width: int, precision: int, f: Flags)
    ensures var (a, b, c) := Parts(sign + prefix, digits, width, precision, f);
              Arranged(sign + prefix, digits, width, precision, f) == Laid(a, sign, prefix, b, digits, c)
  {
    var zeros := precision - |digits|;
    var pad := width - |sign + prefix| - |Repeat(ZERO, zeros) + digits|;
    hide Laid, Repeat;
    LaidLeft(sign, prefix, zeros, digits, pad);
    LaidZeros(sign, prefix, zeros, digits, pad);
    LaidRight(sign, prefix, zeros, digits, pad);
  }

  // The digits of a laid out number, behind everything else.
  lemma BodyReads(b: int, digits: seq<byte>, c: int, base: Base)
    requires AllDigits(digits, base)
    ensures ValueOf(LeadingDigits(Repeat(ZERO, b) + digits + Repeat(SPACE, c), base), base) == ValueOf(digits, base)
  {
    var n := Max(b, 0);
    assert Repeat(ZERO, b) == Repeat(ZERO, n);
    ZerosInFront(n, digits, base);
    DigitsLead(Repeat(ZERO, n) + digits, c, base);
  }

  // What the reader does with a sign and a prefix.
  lemma HeadReads(a: int, sign: seq<byte>, prefix: seq<byte>, body: seq<byte>, base: Base, prefixed: bool)
    requires sign in {[], [PLUS], [MINUS], [SPACE]}
    requires body != [] && body[0] !in {SPACE, PLUS, MINUS}
    requires prefix == [] || (|prefix| >= 1 && prefix[0] == ZERO)
    requires (prefixed && base == 16) <==> |prefix| == 2
    ensures ReadNumber(Repeat(SPACE, a) + (sign + (prefix + body)), base, prefixed) ==
            var v := if |prefix| == 2 then body else prefix + body;
            if sign == [MINUS] then -ValueOf(LeadingDigits(v, base), base) else ValueOf(LeadingDigits(v, base), base)
  {
    var rest := prefix + body;
    assert rest[0] !in {SPACE, PLUS, MINUS};
    hide LeadingDigits, ValueOf;
    if sign == [SPACE] {
      var n := Max(a, 0) + 1;
      assert Repeat(SPACE, a) + (sign + rest) == Repeat(SPACE, n) + rest;
      SpacesSkipped(n, rest);
    } else if sign == [] {
      assert sign + rest == rest;
      SpacesSkipped(a, rest);
    } else {
      SpacesSkipped(a, sign + rest);
      assert (sign + rest)[1..] == rest;
    }
    assert |prefix| == 2 ==> rest[2..] == body;
  }

  lemma DigitIsNoHead(c: byte, base: Base)
    requires IsDigit(c, base)
    ensures c !in {SPACE, PLUS, MINUS}
  {
  }

  // A laid out number reads as its digits, with its sign.
  lemma LaidReads(a: int, sign: seq<byte>, prefix: seq<byte>, b: int, digits: seq<byte>, c: int, base: Base, prefixed: bool)
    requires sign in {[], [PLUS], [MINUS], [SPACE]} && digits != [] && AllDigits(digits, base)
    requires prefix == [] || prefix == [ZERO] || (|prefix| == 2 && prefix[0] == ZERO)
    requires (prefixed && base == 16) <==> |prefix| == 2
    ensures ReadNumber(Laid(a, sign, prefix, b, digits, c), base, prefixed) ==
            if sign == [MINUS] then -ValueOf(digits, base) else ValueOf(digits, base)
  {
    hide ReadNumber, ValueOf, LeadingDigits, DigitValue;
    var body := Repeat(ZERO, b) + digits + Repeat(SPACE, c);
    ZeroIsDigit(base);
    DigitIsNoHead(body[0], base);
    HeadReads(a, sign, prefix, body, base, prefixed);
    if prefix == [ZERO] {
      assert prefix + body == Repeat(ZERO, Max(b, 0) + 1) + digits + Repeat(SPACE, c);
      BodyReads(Max(b, 0) + 1, digits, c, base);
    } else {
      assert prefix == [] ==> prefix + body == body;
      BodyReads(b, digits, c, base);
    }
  }

  /** Reading the text gives the number back, whatever width, precision and flags. */
  lemma TextReadsBack(num: nat, base: Base, width: int, precision: int, f: Flags)
    requires num < U64_SIZE
    ensures ReadNumber(NumberText(num, base, width, precision, f), base, f.special) ==
            if f.sign then Signed(num) else num
  {
    var sign, prefix := SignText(num, f), PrefixText(base, f);
    var digits := DigitsOf(Magnitude(num, f), base, f.large);
    DigitsRead(Magnitude(num, f), base, f.large);
    hide Arranged, DigitsOf, ReadNumber, ValueOf, Laid, Parts, Repeat;
    ArrangedIsLaid(sign, prefix, digits, width, precision, f);
    var (a, b, c) := Parts(sign + prefix, digits, width, precision, f);
    LaidReads(a, sign, prefix, b, digits, c, base, f.special);
  }
}
