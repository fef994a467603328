/**
 Formats, and strings of limited size (src/console/vtxprintf.c, vtxprintf; src/console/vsprintf.c).
 */
module Vsnprintf {
  import opened Buffers
  import opened Number
  import opened Printf

  datatype Option<T> = None | Some(value: T)

  // Variable arguments.
  datatype Arg = Integer(value: int) | Text(text: Option<seq<byte>>)

  const PERCENT: byte := 0x25
  const STAR: byte := 0x2a
  const DOT: byte := 0x2e
  const NULL_TEXT: seq<byte> := [0x3c, 0x4e, 0x55, 0x4c, 0x4c, 0x3e] // <NULL>

  // The letters h, l, L, z, j and H of a qualifier.
  datatype Qualifier = Plain | Short | Char | Long | LongLong | Size | Max

  // Sign extension to the 64 bits that number() takes.
  function Extended(value: nat, bits: nat): nat
    requires 0 < bits && value < bits && bits < U64_SIZE
  {
    if value < bits / 2 then value else value + U64_SIZE - bits
  }

  function Converted(value: int, q: Qualifier, signed: bool): (num: nat)
    ensures num < U64_SIZE
  {
    match q
    case Short => if signed then Extended(value % 0x1_0000, 0x1_0000) else value % 0x1_0000
    case Char => if signed then Extended(value % 0x100, 0x100) else value % 0x100
    case Plain => if signed then Extended(value % 0x1_0000_0000, 0x1_0000_0000) else value % 0x1_0000_0000
    case _ => value % U64_SIZE
  }

  // How many values the type of a conversion has.
  function Range(q: Qualifier): nat {
    match q
    case Short => 0x1_0000
    case Char => 0x100
    case Plain => 0x1_0000_0000
    case _ => U64_SIZE
  }

  /** A conversion shows every value that its type can hold. */
  lemma ConversionReadsBack(value: int, q: Qualifier, base: Base, width: int, precision: int, f: Flags)
    requires if f.sign then -(Range(q) / 2) <= value < Range(q) / 2 else 0 <= value < Range(q)
    ensures ReadNumber(NumberText(Converted(value, q, f.sign), base, width, precision, f), base, f.special) == value
  {
    hide ReadNumber, NumberText;
    TextReadsBack(Converted(value, q, f.sign), base, width, precision, f);
  }

  // ----- Steps of the interpreter

  // The character at i, or NUL at the end.
  function At(fmt: seq<byte>, i: nat): byte {
    if i < |fmt| then fmt[i] else 0
  }

  function Argument(args: seq<Arg>, k: nat): Arg {
    if k < |args| then args[k] else Integer(0)
  }

  function IntegerOf(a: Arg): int {
    if a.Integer? then a.value else 0
  }

  predicate IsFlag(c: byte) {
    c in {MINUS, PLUS, SPACE, HASH, ZERO}
  }

  const HASH: byte := 0x23

  // The flags that a run of characters sets.
  function FlagsIn(s: seq<byte>): Flags {
    Flags(ZERO in s, false, PLUS in s, SPACE in s, MINUS in s, HASH in s, false)
  }

  // Where a run of flags ends.
  function FlagsEnd(fmt: seq<byte>, i: nat): (e: nat)
    requires i <= |fmt|
    ensures i <= e <= |fmt|
    decreases |fmt| - i
  {
    if IsFlag(At(fmt, i)) then FlagsEnd(fmt, i + 1) else i
  }

  /** All flag characters behind the percent sign, in any order and number. */
  method ReadFlags(fmt: seq<byte>, start: nat) returns (i: nat, f: Flags)
    requires start < |fmt|
    ensures i == FlagsEnd(fmt, start + 1) && f == FlagsIn(fmt[start + 1..i])
  {
    f := Flags(false, false, false, false, false, false, false);
    i := start + 1;
    while IsFlag(At(fmt, i))
      invariant start < i <= |fmt| && f == FlagsIn(fmt[start + 1..i])
      invariant FlagsEnd(fmt, i) == FlagsEnd(fmt, start + 1)
      decreases |fmt| - i
    {
      assert fmt[start + 1..i + 1] == fmt[start + 1..i] + [fmt[i]];
      match fmt[i] {
        case 0x2d => f := f.(left := true);
        case 0x2b => f := f.(plus := true);
        case 0x20 => f := f.(space := true);
        case 0x23 => f := f.(special := true);
        case _ => f := f.(zeropad := true);
      }
      i := i + 1;
    }
  }

  predicate IsDecimal(c: byte) {
    IsDigit(c, 10)
  }

  // Where a run of decimal digits ends.
  function DecimalEnd(fmt: seq<byte>, i: nat): (e: nat)
    requires i <= |fmt|
    ensures i <= e <= |fmt| && forall j :: i <= j < e ==> IsDecimal(fmt[j])
    decreases |fmt| - i
  {
    if IsDecimal(At(fmt, i)) then DecimalEnd(fmt, i + 1) else i
  }

  lemma {:induction false} DigitsAreNat(s: seq<byte>)
    requires AllDigits(s, 10)
    ensures ValueOf(s, 10) >= 0
    decreases |s|
  {
    if s != [] {
      DigitsAreNat(s[..|s| - 1]);
    }
  }

  function Decimal(fmt: seq<byte>, i: nat): (v: int)
    requires i <= |fmt|
    ensures v >= 0
  {
    DigitsAreNat(fmt[i..DecimalEnd(fmt, i)]);
    ValueOf(fmt[i..DecimalEnd(fmt, i)], 10)
  }

  /** The decimal number at start. */
  method SkipAtoi(fmt: seq<byte>, start: nat) returns (i: nat, value: nat)
    requires start <= |fmt|
    ensures i == DecimalEnd(fmt, start) && value == Decimal(fmt, start)
  {
    i, value := start, 0;
    while IsDecimal(At(fmt, i))
      invariant start <= i <= |fmt| && value == ValueOf(fmt[start..i], 10)
      invariant DecimalEnd(fmt, i) == DecimalEnd(fmt, start)
      decreases |fmt| - i
    {
      assert fmt[start..i + 1] == fmt[start..i] + [fmt[i]];
      ValueAppend(fmt[start..i], fmt[i], 10);
      value := value * 10 + (At(fmt, i) - 0x30);
      i := i + 1;
    }
  }

  // A part of a directive: where it ends, the next argument, a number, and the flags.
  datatype Part = Part(end: nat, arg: nat, value: int, f: Flags)

  // The width: a number, or an argument whose sign asks for the left side.
  function WidthAt(fmt: seq<byte>, i: nat, args: seq<Arg>, arg: nat, f: Flags): (p: Part)
    requires i <= |fmt|
    ensures i <= p.end <= |fmt| && p.value >= -1
  {
    var a := IntegerOf(Argument(args, arg));
    if At(fmt, i) == STAR then Part(i + 1, arg + 1, if a < 0 then -a else a, f.(left := f.left || a < 0))
    else if IsDecimal(At(fmt, i)) then Part(DecimalEnd(fmt, i), arg, Decimal(fmt, i), f)
    else Part(i, arg, -1, f)
  }

  method ReadWidth(fmt: seq<byte>, start: nat, args: seq<Arg>, arg: nat, f: Flags)
    returns (i: nat, k: nat, width: int, flags: Flags)
    requires start <= |fmt|
    ensures Part(i, k, width, flags) == WidthAt(fmt, start, args, arg, f)
  {
    i, k, width, flags := start, arg, -1, f;
    if IsDecimal(At(fmt, i)) {
      i, width := SkipAtoi(fmt, i);
    } else if At(fmt, i) == STAR {
      i := i + 1;
      width := IntegerOf(Argument(args, k));
      k := k + 1;
      if width < 0 {
        width := -width;
        flags := flags.(left := true);
      }
    }
  }

  // The precision behind a dot; a missing or negative one is 0.
  function PrecisionAt(fmt: seq<byte>, i: nat, args: seq<Arg>, arg: nat, f: Flags): (p: Part)
    requires i <= |fmt|
    ensures i <= p.end <= |fmt| && p.value >= -1
  {
    var a := IntegerOf(Argument(args, arg));
    if At(fmt, i) != DOT then Part(i, arg, -1, f)
    else if At(fmt, i + 1) == STAR then Part(i + 2, arg + 1, if a < 0 then 0 else a, f)
    else Part(DecimalEnd(fmt, i + 1), arg, Decimal(fmt, i + 1), f)
  }

  method ReadPrecision(fmt: seq<byte>, start: nat, args: seq<Arg>, arg: nat, ghost f: Flags)
    returns (i: nat, k: nat, precision: int)
    requires start <= |fmt|
    ensures Part(i, k, precision, f) == PrecisionAt(fmt, start, args, arg, f)
  {
    i, k, precision := start, arg, -1;
    if At(fmt, i) == DOT {
      i := i + 1;
      if IsDecimal(At(fmt, i)) {
        i, precision := SkipAtoi(fmt, i);
      } else if At(fmt, i) == STAR {
        i := i + 1;
        precision := IntegerOf(Argument(args, k));
        k := k + 1;
      }
      if precision < 0 {
        precision := 0;
      }
    }
  }

  datatype Letters = Letters(end: nat, q: Qualifier)

  // The first letter of a qualifier, if there is one.
  function FirstLetter(c: byte): Option<Qualifier> {
    if c == 0x68 then Some(Short) else if c == 0x6c then Some(Long) else if c == 0x4c then Some(LongLong)
    else if c == 0x7a then Some(Size) else if c == 0x6a then Some(Max) else None
  }

  // One letter, and an l or h or both behind it, whatever the first was.
  function QualifierAt(fmt: seq<byte>, i: nat): (r: Letters)
    requires i <= |fmt|
    ensures i <= r.end <= |fmt|
  {
    match FirstLetter(At(fmt, i))
    case None => Letters(i, Plain)
    case Some(q) =>
      var second := if At(fmt, i + 1) == 0x6c then Letters(i + 2, LongLong) else Letters(i + 1, q);
      if At(fmt, second.end) == 0x68 then Letters(second.end + 1, Char) else second
  }

  /** The source takes the second letter whatever the first was, and then a third. */
  method ReadQualifier(fmt: seq<byte>, start: nat) returns (i: nat, q: Qualifier)
    requires start <= |fmt|
    ensures Letters(i, q) == QualifierAt(fmt, start)
  {
    i, q := start, Plain;
    match At(fmt, i) {
      case 0x68 => q := Short;
      case 0x6c => q := Long;
      case 0x4c => q := LongLong;
      case 0x7a => q := Size;
      case 0x6a => q := Max;
      case _ => return;
    }
    i := i + 1;
    if At(fmt, i) == 0x6c {
      q := LongLong;
      i := i + 1;
    }
    if At(fmt, i) == 0x68 {
      q := Char;
      i := i + 1;
    }
  }

  // ----- Sending a directive

  // Everything sent is counted, and the buffer behind the capacity is untouched.
  twostate predicate Counted(sink: Sink, count: int)
    reads sink, sink.buf
  {
    && sink.Valid()
    && old(sink.sent) <= sink.sent && |sink.sent| == |old(sink.sent)| + count
    && sink.buf[sink.capacity..] == old(sink.buf[sink.capacity..])
  }

  method SendCharacter(sink: Sink, c: byte, width: int, f: Flags) returns (count: nat)
    requires sink.Valid()
    modifies sink, sink.buf
    ensures Counted(sink, count)
    ensures sink.sent == old(sink.sent) + CharText(c, width, f)
  {
    ghost var was := sink.sent;
    var left := width;
    count := 0;
    if !f.left {
      count, left := TxMany(sink, SPACE, left - 1);
    }
    sink.Tx(c);
    count := count + 1;
    var more, rest := TxMany(sink, SPACE, left - 1);
    count := count + more;
    assert f.left ==> was + [c] + Repeat(SPACE, width - 1) == was + ([c] + Repeat(SPACE, width - 1));
    assert !f.left ==> was + Repeat(SPACE, width - 1) + [c] == was + (Repeat(SPACE, width - 1) + [c]);
  }

  method SendBytes(sink: Sink, s: seq<byte>)
    requires sink.Valid()
    modifies sink, sink.buf
    ensures Counted(sink, |s|) && sink.sent == old(sink.sent) + s
  {
    ghost var mid := sink.sent;
    for i := 0 to |s|
      invariant sink.Valid() && sink.sent == mid + s[..i]
      invariant sink.buf[sink.capacity..] == old(sink.buf[sink.capacity..])
    {
      sink.Tx(s[i]);
      assert s[..i + 1] == s[..i] + [s[i]];
    }
    assert s[..|s|] == s;
  }

  // Padding behind, or in front, when the other loop has nothing to do.
  lemma PadBehind(was: seq<byte>, x: seq<byte>, n: int)
    ensures was + x + Repeat(SPACE, n) == was + (x + Repeat(SPACE, n))
  {
  }

  lemma PadInFront(was: seq<byte>, x: seq<byte>, n: int, left: int)
    requires left <= 0
    ensures was + Repeat(SPACE, n) + x + Repeat(SPACE, left) == was + (Repeat(SPACE, n) + x)
  {
  }

  // What a string directive shows, with spaces on one side.
  function StringText(s: seq<byte>, width: int, precision: int, f: Flags): seq<byte> {
    var shown := if 0 <= precision < |s| then s[..precision] else s;
    var pad := Repeat(SPACE, width - |shown|);
    if f.left then shown + pad else pad + shown
  }

  /** At most precision bytes of a string, padded to the width. */
  method SendString(sink: Sink, s: seq<byte>, width: int, precision: int, f: Flags) returns (count: nat)
    requires sink.Valid() && precision >= -1
    modifies sink, sink.buf
    ensures Counted(sink, count) && sink.sent == old(sink.sent) + StringText(s, width, precision, f)
  {
    var len := if 0 <= precision < |s| then precision else |s|;
    assert s[..|s|] == s;
    assert StringText(s, width, precision, f) ==
           if f.left then s[..len] + Repeat(SPACE, width - len) else Repeat(SPACE, width - len) + s[..len];
    hide Sink.Valid, StringText, Repeat;
    ghost var was, shown := sink.sent, s[..len];
    var left, more := width - len, 0;
    count := 0;
    if !f.left {
      count, left := TxMany(sink, SPACE, left);
      PadInFront(was, shown, width - len, left);
    }
    PadBehind(was, shown, left);
    SendBytes(sink, s[..len]);
    count := count + len;
    more, left := TxMany(sink, SPACE, left);
    count := count + more;
  }

  function CharText(c: byte, width: int, f: Flags): seq<byte> {
    if f.left then [c] + Repeat(SPACE, width - 1) else Repeat(SPACE, width - 1) + [c]
  }

  // The base of an integer conversion.
  function BaseOf(c: byte): Base {
    if c == 0x6f then 8 else if c in {0x78, 0x58} then 16 else 10
  }

  // o, x, X, d, i and u.
  predicate IsInteger(c: byte) {
    c in {0x6f, 0x78, 0x58, 0x64, 0x69, 0x75}
  }

  // d and i are signed, X is in capitals.
  function ConversionFlags(c: byte, f: Flags): Flags {
    f.(sign := f.sign || c in {0x64, 0x69}, large := f.large || c == 0x58)
  }

  // What a directive shows; 0 stands for the end of the format.
  function ConversionText(c: byte, a: Arg, width: int, precision: int, q: Qualifier, f: Flags): seq<byte> {
    if IsInteger(c) then
      var g := ConversionFlags(c, f);
      NumberText(Converted(IntegerOf(a), q, g.sign), BaseOf(c), width, precision, g)
    else if c == 0x63 then CharText(IntegerOf(a) % 0x100, width, f)
    else if c == 0x73 then StringText(if a.Text? && a.text.Some? then a.text.value else NULL_TEXT, width, precision, f)
    else if c == 0x70 then
      var digits := if width == -1 && precision == -1 then 8 else precision;
      NumberText(IntegerOf(a) % U64_SIZE, 16, width, digits, f.(special := true))
    else if c == 0x6e then []
    else if c == PERCENT || c == 0 then [PERCENT]
    else [PERCENT, c]
  }

  // Whether a directive takes an argument.
  predicate TakesArgument(c: byte) {
    IsInteger(c) || c in {0x63, 0x73, 0x70, 0x6e}
  }

  /** The conversion character at i; next is the last character that belongs to the directive. */
  method SendConversion(sink: Sink, fmt: seq<byte>, i: nat, args: seq<Arg>, arg: nat, width: int, precision: int,
                        q: Qualifier, f: Flags) returns (count: nat, next: nat, k: nat)
    requires sink.Valid() && 0 < i <= |fmt| && 0 !in fmt && width >= -1 && precision >= -1
    modifies sink, sink.buf
    ensures Counted(sink, count) && next == (if i < |fmt| then i else i - 1)
    ensures k == if TakesArgument(At(fmt, i)) then arg + 1 else arg
    ensures sink.sent == old(sink.sent) + ConversionText(At(fmt, i), Argument(args, arg), width, precision, q, f)
  {
    k, next, count := arg, i, 0;
    var c, a := At(fmt, i), Argument(args, k);
    hide NumberText, StringText, CharText, Converted, Sink.Valid;
    if c == 0x63 {
      count := SendCharacter(sink, IntegerOf(a) % 0x100, width, f);
      k := k + 1;
    } else if c == 0x73 {
      var s := if a.Text? && a.text.Some? then a.text.value else NULL_TEXT;
      count := SendString(sink, s, width, precision, f);
      k := k + 1;
    } else if c == 0x70 {
      var minDigits := if width == -1 && precision == -1 then 8 else precision;
      count := PrintNumber(sink, IntegerOf(a) % U64_SIZE, 16, width, minDigits, f.(special := true));
      k := k + 1;
    } else if c == 0x6e {
      assert sink.sent + [] == sink.sent;
      k := k + 1;
    } else if c == PERCENT {
      sink.Tx(PERCENT);
      count := 1;
    } else if IsInteger(c) {
      count := SendInteger(sink, c, a, width, precision, q, f);
      k := k + 1;
    } else {
      count := SendUnknown(sink, c);
      if c == 0 {
        next := i - 1;
      }
    }
  }

  // A conversion that is not known is sent as it was written.
  method SendUnknown(sink: Sink, c: byte) returns (count: nat)
    requires sink.Valid()
    modifies sink, sink.buf
    ensures Counted(sink, count) && sink.sent == old(sink.sent) + if c == 0 then [PERCENT] else [PERCENT, c]
  {
    sink.Tx(PERCENT);
    count := 1;
    if c != 0 {
      sink.Tx(c);
      count := count + 1;
      assert old(sink.sent) + [PERCENT] + [c] == old(sink.sent) + [PERCENT, c];
    }
  }

  // The letter of an integer conversion sets the base and some flags.
  method SelectBase(c: byte, f: Flags) returns (base: Base, flags: Flags)
    requires IsInteger(c)
    ensures base == BaseOf(c) && flags == ConversionFlags(c, f)
  {
    base, flags := 10, f;
    match c {
      case 0x6f => base := 8;
      case 0x58 => base, flags := 16, flags.(large := true);
      case 0x78 => base := 16;
      case 0x64 => flags := flags.(sign := true);
      case 0x69 => flags := flags.(sign := true);
      case _ =>
    }
  }

  method SendInteger(sink: Sink, c: byte, a: Arg, width: int, precision: int, q: Qualifier, f: Flags) returns (count: nat)
    requires sink.Valid() && IsInteger(c)
    modifies sink, sink.buf
    ensures Counted(sink, count)
    ensures var g := ConversionFlags(c, f);
              sink.sent == old(sink.sent) + NumberText(Converted(IntegerOf(a), q, g.sign), BaseOf(c), width, precision, g)
  {
    hide NumberText, Converted, Sink.Valid, BaseOf, ConversionFlags, IsInteger, IntegerOf;
    var base, flags := SelectBase(c, f);
    var num := Converted(IntegerOf(a), q, flags.sign);
    count := PrintNumber(sink, num, base, width, precision, flags);
  }

  // ----- The whole format

  // A directive in pieces: where its letter is, the argument for it, and how it is to be shown.
  datatype Directive = Directive(letter: nat, arg: nat, width: int, precision: int, q: Qualifier, f: Flags)

  // The directive whose percent sign is at i.
  function DirectiveAt(fmt: seq<byte>, i: nat, args: seq<Arg>, arg: nat): (d: Directive)
    requires i < |fmt|
    ensures i < d.letter <= |fmt| && d.width >= -1 && d.precision >= -1
  {
    var j := FlagsEnd(fmt, i + 1);
    var w := WidthAt(fmt, j, args, arg, FlagsIn(fmt[i + 1..j]));
    var p := PrecisionAt(fmt, w.end, args, w.arg, w.f);
    var r := QualifierAt(fmt, p.end);
    Directive(r.end, p.arg, w.value, p.value, r.q, w.f)
  }

  function Shown(fmt: seq<byte>, d: Directive, args: seq<Arg>): seq<byte>
    requires d.letter <= |fmt|
  {
    ConversionText(At(fmt, d.letter), Argument(args, d.arg), d.width, d.precision, d.q, d.f)
  }

  // What the format from i on shows, with the arguments from arg on.
  function Formatted(fmt: seq<byte>, i: nat, args: seq<Arg>, arg: nat): seq<byte>
    requires i <= |fmt|
    decreases |fmt| - i
  {
    if i == |fmt| then []
    else if fmt[i] != PERCENT then [fmt[i]] + Formatted(fmt, i + 1, args, arg)
    else
      var d := DirectiveAt(fmt, i, args, arg);
      Shown(fmt, d, args) +
      Formatted(fmt, if d.letter < |fmt| then d.letter + 1 else |fmt|, args,
                if TakesArgument(At(fmt, d.letter)) then d.arg + 1 else d.arg)
  }

  /** Text without directives is shown as it is. */
  lemma {:induction false} PlainText(fmt: seq<byte>, i: nat, args: seq<Arg>, arg: nat)
    requires i <= |fmt| && PERCENT !in fmt
    ensures Formatted(fmt, i, args, arg) == fmt[i..]
    decreases |fmt| - i
  {
    if i < |fmt| {
      assert fmt[i] in fmt;
      PlainText(fmt, i + 1, args, arg);
    }
  }

  /** A bare integer directive between plain texts shows its argument, which can be read back. */
  lemma NumberInText(before: seq<byte>, c: byte, v: int)
    requires IsInteger(c) && PERCENT !in before
    requires if c in {0x64, 0x69} then -0x8000_0000 <= v < 0x8000_0000 else 0 <= v < 0x1_0000_0000
    ensures
      var text := Formatted(before + [PERCENT, c], 0, [Integer(v)], 0);
      && |before| <= |text| && text[..|before|] == before
      && (c in {0x78, 0x58} ==> ReadNumber(text[|before|..], 16, false) == v)
      && (c == 0x6f ==> ReadNumber(text[|before|..], 8, false) == v)
      && (c in {0x64, 0x69, 0x75} ==> ReadNumber(text[|before|..], 10, false) == v)
  {
    var fmt, args := before + [PERCENT, c], [Integer(v)];
    TextBefore(before, [PERCENT, c], 0, args);
    var none := Flags(false, false, false, false, false, false, false);
    var g := ConversionFlags(c, none);
    LetterDirective(before, c, args);
    ConversionReadsBack(v, Plain, BaseOf(c), -1, -1, g);
  }

  lemma {:induction false} TextBefore(before: seq<byte>, rest: seq<byte>, i: nat, args: seq<Arg>)
    requires PERCENT !in before && i <= |before|
    ensures Formatted(before + rest, i, args, 0) == before[i..] + Formatted(before + rest, |before|, args, 0)
    decreases |before| - i
  {
    if i < |before| {
      assert before[i] in before && (before + rest)[i] == before[i];
      TextBefore(before, rest, i + 1, args);
    }
  }

  lemma LetterOnly(fmt: seq<byte>, i: nat, args: seq<Arg>)
    requires i + 2 == |fmt| && IsInteger(fmt[i + 1])
    ensures DirectiveAt(fmt, i, args, 0) ==
            Directive(i + 1, 0, -1, -1, Plain, Flags(false, false, false, false, false, false, false))
  {
    assert FlagsEnd(fmt, i + 1) == i + 1 && fmt[i + 1..i + 1] == [];
  }

  lemma FormattedDirective(fmt: seq<byte>, i: nat, args: seq<Arg>, arg: nat)
    requires i < |fmt| && fmt[i] == PERCENT
    ensures
      var d := DirectiveAt(fmt, i, args, arg);
      Formatted(fmt, i, args, arg) ==
      Shown(fmt, d, args) +
      Formatted(fmt, if d.letter < |fmt| then d.letter + 1 else |fmt|, args,
                if TakesArgument(At(fmt, d.letter)) then d.arg + 1 else d.arg)
  {
    hide DirectiveAt, Shown, At, TakesArgument;
  }

  lemma FormattedByte(fmt: seq<byte>, i: nat, args: seq<Arg>, arg: nat)
    requires i < |fmt| && fmt[i] != PERCENT
    ensures Formatted(fmt, i, args, arg) == [fmt[i]] + Formatted(fmt, i + 1, args, arg)
  {
    hide DirectiveAt, Shown, At, TakesArgument;
  }

  lemma FormattedEnd(fmt: seq<byte>, args: seq<Arg>, arg: nat)
    ensures Formatted(fmt, |fmt|, args, arg) == []
  {
  }

  lemma LetterDirective(before: seq<byte>, c: byte, args: seq<Arg>)
    requires IsInteger(c) && |args| == 1 && args[0].Integer?
    ensures
      var g := ConversionFlags(c, Flags(false, false, false, false, false, false, false));
      Formatted(before + [PERCENT, c], |before|, args, 0) ==
      NumberText(Converted(args[0].value, Plain, g.sign), BaseOf(c), -1, -1, g)
  {
    hide NumberText, Converted, DirectiveAt, Formatted, ConversionFlags, BaseOf;
    var fmt, i := before + [PERCENT, c], |before|;
    assert fmt[i] == PERCENT && At(fmt, i + 1) == c;
    LetterOnly(fmt, i, args);
    FormattedDirective(fmt, i, args, 0);
    FormattedEnd(fmt, args, 1);
    assert Argument(args, 0) == args[0];
  }

  /** vtxprintf sends what the format shows, and its result is the number of bytes. */
  method Vtxprintf(sink: Sink, fmt: seq<byte>, args: seq<Arg>) returns (count: nat)
    requires sink.Valid() && 0 !in fmt
    modifies sink, sink.buf
    ensures Counted(sink, count) && sink.sent == old(sink.sent) + Formatted(fmt, 0, args, 0)
  {
    hide Argument, At, ConversionText, DirectiveAt, FlagsEnd, FlagsIn, Formatted, PrecisionAt, QualifierAt;
    hide Shown, TakesArgument, Sink.Valid, WidthAt;
    count := 0;
    var i, arg := 0, 0;
    while i < |fmt|
      invariant i <= |fmt| && Counted(sink, count)
      invariant sink.sent + Formatted(fmt, i, args, arg) == old(sink.sent) + Formatted(fmt, 0, args, 0)
    {
      if fmt[i] != PERCENT {
        FormattedByte(fmt, i, args, arg);
        Joined(sink.sent, [fmt[i]], Formatted(fmt, i + 1, args, arg));
        sink.Tx(fmt[i]);
        count := count + 1;
        i := i + 1;
      } else {
        ghost var d := DirectiveAt(fmt, i, args, arg);
        FormattedDirective(fmt, i, args, arg);
        ghost var rest := Formatted(fmt, if d.letter < |fmt| then d.letter + 1 else |fmt|, args,
                                    if TakesArgument(At(fmt, d.letter)) then d.arg + 1 else d.arg);
        Joined(sink.sent, Shown(fmt, d, args), rest);
        var j, f := ReadFlags(fmt, i);
        var k, width;
        j, k, width, f := ReadWidth(fmt, j, args, arg, f);
        var precision;
        j, k, precision := ReadPrecision(fmt, j, args, k, f);
        var q;
        j, q := ReadQualifier(fmt, j);
        DirectiveParts(fmt, i, args, arg);
        ShownIs(fmt, d, args);
        var sent, next;
        sent, next, arg := SendConversion(sink, fmt, j, args, k, width, precision, q, f);
        count := count + sent;
        i := next + 1;
      }
    }
    FormattedEnd(fmt, args, arg);
    assert sink.sent + [] == sink.sent;
  }

  lemma Joined(x: seq<byte>, y: seq<byte>, z: seq<byte>)
    ensures x + y + z == x + (y + z)
  {
  }

  lemma DirectiveParts(fmt: seq<byte>, i: nat, args: seq<Arg>, arg: nat)
    requires i < |fmt|
    ensures
      var d := DirectiveAt(fmt, i, args, arg);
      var j := FlagsEnd(fmt, i + 1);
      var w := WidthAt(fmt, j, args, arg, FlagsIn(fmt[i + 1..j]));
      var p := PrecisionAt(fmt, w.end, args, w.arg, w.f);
      var r := QualifierAt(fmt, p.end);
      d.letter == r.end && d.arg == p.arg && d.width == w.value && d.precision == p.value && d.q == r.q && d.f == w.f
  {
    hide FlagsEnd, WidthAt, PrecisionAt, QualifierAt, FlagsIn;
  }

  lemma ShownIs(fmt: seq<byte>, d: Directive, args: seq<Arg>)
    requires d.letter <= |fmt|
    ensures Shown(fmt, d, args) ==
            ConversionText(At(fmt, d.letter), Argument(args, d.arg), d.width, d.precision, d.q, d.f)
  {
    hide ConversionText, At, Argument;
  }

  /**
   vsnprintf: the first size - 1 bytes of what the format shows and a NUL, whatever was cut off; the result is the
   length without cutting. Without room for a NUL nothing is stored.
   */
  method VsnPrintf(buf: array<byte>, size: nat, fmt: seq<byte>, args: seq<Arg>) returns (count: nat)
    requires size <= buf.Length && 0 !in fmt
    modifies buf
    ensures count == |Formatted(fmt, 0, args, 0)|
    ensures size == 0 ==> buf[..] == old(buf[..])
    ensures size > 0 ==>
              var full := Formatted(fmt, 0, args, 0);
              var stored := if |full| < size then full else full[..size - 1];
                buf[..|stored|] == stored && buf[|stored|] == 0 && buf[size..] == old(buf[size..])
  {
    hide Formatted;
    var sink := new Sink(buf, if size > 0 then size - 1 else 0);
    count := Vtxprintf(sink, fmt, args);
    assert sink.sent == Formatted(fmt, 0, args, 0);
    if size > 0 {
      buf[sink.pos] := 0;
    }
  }
}
