/**
 What integer directives of a format show, letter by letter: the base each letter stands for, the values each qualifier
 admits, and what flags, width and precision do to the text.
 */
module FormatText {
  import opened Buffers
  import opened Number
  import opened Printf
  import opened Vsnprintf

  // The parts of an integer directive behind its percent sign.
  datatype Spelling = Spelling(flags: seq<byte>, width: seq<byte>, precision: seq<byte>, q: seq<byte>, c: byte)

  function Spelled(d: Spelling): seq<byte> {
    [0x25] + d.flags + d.width + d.precision + d.q + [d.c]
  }

  // Flags in any order, a width that does not begin with 0, a dot and digits, a qualifier, and o, x, X, d, i or u.
  ghost predicate WellSpelled(d: Spelling) {
    && (forall b :: b in d.flags ==> b in {0x2d, 0x2b, 0x20, 0x23, 0x30})
    && (d.width == [] || (AllDigits(d.width, 10) && d.width[0] != 0x30))
    && (d.precision == [] || (d.precision[0] == 0x2e && AllDigits(d.precision[1..], 10)))
    && d.q in {[], [0x68], [0x68, 0x68], [0x6c], [0x6c, 0x6c], [0x7a], [0x6a]}
    && d.c in {0x6f, 0x78, 0x58, 0x64, 0x69, 0x75}
  }

  // The values of the type that the letters name: h is for 16 bits, hh for 8, none for 32, and all others for 64.
  ghost predicate Admits(q: seq<byte>, signed: bool, v: int) {
    var bits := if q == [0x68] then 0x1_0000 else if q == [0x68, 0x68] then 0x100
                else if q == [] then 0x1_0000_0000 else 0x1_0000_0000_0000_0000;
    if signed then -(bits / 2) <= v < bits / 2 else 0 <= v < bits
  }

  function WidthOf(d: Spelling): int {
    if d.width == [] then -1 else ValueOf(d.width, 10)
  }

  function PrecisionOf(d: Spelling): int {
    if d.precision == [] then -1 else ValueOf(d.precision[1..], 10)
  }

  function QualifierOf(q: seq<byte>): Qualifier {
    if q == [0x68] then Short else if q == [0x68, 0x68] then Char else if q == [] then Plain
    else if q == [0x6c] then Long else if q == [0x7a] then Size else if q == [0x6a] then Vsnprintf.Qualifier.Max else LongLong
  }

  // ----- Runs of flags and digits

  lemma {:induction false} FlagsRun(fmt: seq<byte>, i: nat, e: nat)
    requires i <= e <= |fmt| && (forall k :: i <= k < e ==> IsFlag(fmt[k])) && !IsFlag(At(fmt, e))
    ensures FlagsEnd(fmt, i) == e
    decreases e - i
  {
    if i < e {
      FlagsRun(fmt, i + 1, e);
    }
  }

  lemma {:induction false} DigitsRun(fmt: seq<byte>, i: nat, e: nat)
    requires i <= e <= |fmt| && (forall k :: i <= k < e ==> IsDecimal(fmt[k])) && !IsDecimal(At(fmt, e))
    ensures DecimalEnd(fmt, i) == e
    decreases e - i
  {
    if i < e {
      DigitsRun(fmt, i + 1, e);
    }
  }

  // Where the parts are.
  lemma Places(x: seq<byte>, d: Spelling)
    ensures var fmt := x + Spelled(d);
            var a := |x| + 1;
            var b := a + |d.flags|;
            var w := b + |d.width|;
            var p := w + |d.precision|;
            var e := p + |d.q|;
              && |fmt| == e + 1 && fmt[|x|] == 0x25 && fmt[e] == d.c
              && fmt[a..b] == d.flags && fmt[b..w] == d.width && fmt[w..p] == d.precision && fmt[p..e] == d.q
  {
  }

  lemma SliceAt(s: seq<byte>, lo: nat, hi: nat, t: seq<byte>)
    requires lo <= hi <= |s| && s[lo..hi] == t
    ensures |t| == hi - lo && forall k :: lo <= k < hi ==> s[k] == t[k - lo] && s[k] in t
  {
    forall k | lo <= k < hi
      ensures s[k] == t[k - lo] && s[k] in t
    {
      assert s[lo..hi][k - lo] == s[k];
    }
  }

  lemma FlagsPart(fmt: seq<byte>, a: nat, b: nat, flags: seq<byte>)
    requires a <= b <= |fmt| && fmt[a..b] == flags
    requires (forall x :: x in flags ==> x in {0x2d, 0x2b, 0x20, 0x23, 0x30})
    requires At(fmt, b) !in {0x2d, 0x2b, 0x20, 0x23, 0x30}
    ensures FlagsEnd(fmt, a) == b
    ensures FlagsIn(flags) == Flags(0x30 in flags, false, 0x2b in flags, 0x20 in flags, 0x2d in flags, 0x23 in flags, false)
  {
    SliceAt(fmt, a, b, flags);
    FlagsRun(fmt, a, b);
  }

  lemma WidthPart(fmt: seq<byte>, b: nat, w: nat, width: seq<byte>, args: seq<Arg>, arg: nat, f: Flags)
    requires b <= w <= |fmt| && fmt[b..w] == width && AllDigits(width, 10)
    requires !IsDecimal(At(fmt, w)) && (width == [] ==> At(fmt, b) != STAR)
    ensures WidthAt(fmt, b, args, arg, f) == Part(w, arg, if width == [] then -1 else ValueOf(width, 10), f)
  {
    SliceAt(fmt, b, w, width);
    DigitsRun(fmt, b, w);
    hide ValueOf;
    if width != [] {
      assert IsDecimal(fmt[b]);
    }
  }

  lemma PrecisionPart(fmt: seq<byte>, w: nat, p: nat, precision: seq<byte>, args: seq<Arg>, arg: nat, f: Flags)
    requires w <= p <= |fmt| && fmt[w..p] == precision
    requires precision == [] ==> At(fmt, w) != DOT
    requires precision != [] ==> precision[0] == DOT && AllDigits(precision[1..], 10)
    requires !IsDecimal(At(fmt, p)) && At(fmt, p) != STAR
    ensures PrecisionAt(fmt, w, args, arg, f) == Part(p, arg, if precision == [] then -1 else ValueOf(precision[1..], 10), f)
  {
    hide ValueOf;
    SliceAt(fmt, w, p, precision);
    if precision != [] {
      assert fmt[w + 1..p] == precision[1..];
      SliceAt(fmt, w + 1, p, precision[1..]);
      DigitsRun(fmt, w + 1, p);
      if p > w + 1 {
        assert IsDecimal(fmt[w + 1]);
      }
    }
  }

  lemma QualifierPart(fmt: seq<byte>, p: nat, e: nat, q: seq<byte>)
    requires p <= e < |fmt| && fmt[p..e] == q && q in {[], [0x68], [0x68, 0x68], [0x6c], [0x6c, 0x6c], [0x7a], [0x6a]}
    requires fmt[e] in {0x6f, 0x78, 0x58, 0x64, 0x69, 0x75}
    ensures QualifierAt(fmt, p) == Letters(e, QualifierOf(q))
  {
    SliceAt(fmt, p, e, q);
  }

  // What comes behind each part.
  lemma Heads(fmt: seq<byte>, b: nat, w: nat, p: nat, e: nat, d: Spelling)
    requires WellSpelled(d) && b <= w <= p <= e < |fmt| && fmt[e] == d.c
    requires fmt[b..w] == d.width && fmt[w..p] == d.precision && fmt[p..e] == d.q
    ensures At(fmt, b) !in {0x2d, 0x2b, 0x20, 0x23, 0x30} && AllDigits(d.width, 10)
    ensures !IsDecimal(At(fmt, w)) && (d.width == [] ==> At(fmt, b) != STAR) && (d.precision == [] ==> At(fmt, w) != DOT)
    ensures !IsDecimal(At(fmt, p)) && At(fmt, p) != STAR
  {
    SliceAt(fmt, b, w, d.width);
    SliceAt(fmt, w, p, d.precision);
    SliceAt(fmt, p, e, d.q);
    assert fmt[p] in {0x68, 0x6c, 0x7a, 0x6a, 0x6f, 0x78, 0x58, 0x64, 0x69, 0x75};
    assert fmt[w] in {0x2e, 0x68, 0x6c, 0x7a, 0x6a, 0x6f, 0x78, 0x58, 0x64, 0x69, 0x75};
    if d.width != [] {
      assert IsDigit(d.width[0], 10);
    }
  }

  // The directive that a spelling stands for.
  lemma DirectiveIs(x: seq<byte>, d: Spelling, args: seq<Arg>)
    requires WellSpelled(d)
    ensures var fmt := x + Spelled(d);
            var f := Flags(0x30 in d.flags, false, 0x2b in d.flags, 0x20 in d.flags, 0x2d in d.flags, 0x23 in d.flags, false);
              && |x| < |fmt| && fmt[|x|] == 0x25 && fmt[|fmt| - 1] == d.c
              && DirectiveAt(fmt, |x|, args, 0) == Directive(|fmt| - 1, 0, WidthOf(d), PrecisionOf(d), QualifierOf(d.q), f)
  {
    var fmt := x + Spelled(d);
    var a := |x| + 1;
    var b := a + |d.flags|;
    var w := b + |d.width|;
    var p := w + |d.precision|;
    var e := p + |d.q|;
    Places(x, d);
    Heads(fmt, b, w, p, e, d);
    hide Spelled, AllDigits, IsDecimal, At, FlagsEnd, FlagsIn, WidthAt, PrecisionAt, QualifierAt, QualifierOf, ValueOf;
    FlagsPart(fmt, a, b, d.flags);
    WidthPart(fmt, b, w, d.width, args, 0, FlagsIn(d.flags));
    PrecisionPart(fmt, w, p, d.precision, args, 0, FlagsIn(d.flags));
    QualifierPart(fmt, p, e, d.q);
  }

  // ----- What the flags do to the text

  // A digit, and in capitals only if asked for.
  lemma {:induction false} DigitBytes(num: nat, base: Base, large: bool)
    ensures forall b :: b in DigitsOf(num, base, large) ==>
              0x30 <= b <= 0x39 || (if large then 0x41 <= b <= 0x46 else 0x61 <= b <= 0x66)
    decreases num
  {
    if num >= base {
      DigitBytes(num / base, base, large);
    }
  }

  lemma ArrangedBytes(head: seq<byte>, digits: seq<byte>, width: int, precision: int, f: Flags)
    requires digits != []
    ensures forall b :: b in Arranged(head, digits, width, precision, f) ==> b in {SPACE, ZERO} || b in head || b in digits
    ensures forall b :: b in head || b in digits ==> b in Arranged(head, digits, width, precision, f)
    ensures SPACE in Arranged(head, digits, width, precision, f) ==>
              SPACE in head || SPACE in digits || f.left || !f.zeropad
    ensures var t := Arranged(head, digits, width, precision, f);
              && t != [] && (!f.left ==> t[|t| - 1] == digits[|digits| - 1])
              && (f.left || f.zeropad ==> if head != [] then t[0] == head[0] else t[0] in {ZERO, digits[0]})
  {
    var body := Repeat(ZERO, precision - |digits|) + digits;
    var pad := width - |head| - |body|;
    var t := Arranged(head, digits, width, precision, f);
    hide Repeat;
    assert forall b :: b in body ==> b == ZERO || b in digits;
    assert forall b :: b in digits ==> b in body;
    assert body[|body| - 1] == digits[|digits| - 1] && body[0] in {ZERO, digits[0]};
    if f.left {
      assert t == head + body + Repeat(SPACE, pad);
    } else if f.zeropad {
      assert t == head + Repeat(ZERO, pad) + body;
    } else {
      assert t == Repeat(SPACE, pad) + head + body;
    }
  }

  lemma HeadBytes(num: nat, base: Base, f: Flags)
    requires num < U64_SIZE
    ensures var head, v := SignText(num, f) + PrefixText(base, f), if f.sign then Signed(num) else num;
              && (forall b :: b in head ==> b in {0x20, 0x2b, 0x2d, 0x30, 0x58, 0x78})
              && (0x2d in head <==> v < 0) && (0x2b in head <==> f.sign && v >= 0 && f.plus)
              && (0x20 in head <==> f.sign && v >= 0 && f.space && !f.plus)
              && (0x78 in head <==> f.special && base == 16 && !f.large)
              && (0x58 in head <==> f.special && base == 16 && f.large)
              && (f.sign && v >= 0 && f.space && !f.plus ==> head != [] && head[0] == 0x20)
              && (!f.space && head != [] ==> head[0] != 0x20)
  {
    var sign, prefix := SignText(num, f), PrefixText(base, f);
    assert forall b :: b in sign + prefix <==> b in sign || b in prefix;
    assert sign != [] ==> (sign + prefix)[0] == sign[0];
    assert sign == [] ==> sign + prefix == prefix;
    hide Signed;
  }

  // What the text holds and where it begins and ends.
  lemma TextIsArranged(num: nat, base: Base, width: int, precision: int, f: Flags, head: seq<byte>, digits: seq<byte>)
    requires num < U64_SIZE && head == SignText(num, f) + PrefixText(base, f)
    requires digits == DigitsOf(Magnitude(num, f), base, f.large)
    ensures var t := NumberText(num, base, width, precision, f);
              t == Arranged(head, digits, width, precision, f) && t != [] && |t| >= width && |t| >= precision
  {
    TextLength(num, base, width, precision, f);
    hide Arranged, DigitsOf, SignText, PrefixText, Magnitude;
    ArrangedBytes(head, digits, width, precision, f);
  }

  /** Letters are small or capital as asked; signs and prefix are there exactly if they should be; padding is where it should. */
  lemma TextShape(num: nat, base: Base, width: int, precision: int, f: Flags)
    requires num < U64_SIZE
    ensures var t := NumberText(num, base, width, precision, f);
            var v := if f.sign then Signed(num) else num;
              && t != [] && |t| >= width && |t| >= precision
              && (forall b :: b in t ==> if f.large then !(0x61 <= b <= 0x7a) else !(0x41 <= b <= 0x5a))
              && (0x2d in t <==> v < 0) && (0x2b in t <==> f.sign && v >= 0 && f.plus)
              && (0x78 in t <==> f.special && base == 16 && !f.large)
              && (0x58 in t <==> f.special && base == 16 && f.large)
              && (!f.left ==> t[|t| - 1] != 0x20)
              && (f.left && !f.space ==> t[0] != 0x20)
              && (!f.left && f.zeropad && !f.space ==> 0x20 !in t)
              && (f.sign && v >= 0 && f.space && !f.plus && (f.left || f.zeropad) ==> t[0] == 0x20)
  {
    var digits := DigitsOf(Magnitude(num, f), base, f.large);
    var head := SignText(num, f) + PrefixText(base, f);
    TextIsArranged(num, base, width, precision, f, head, digits);
    HeadBytes(num, base, f);
    DigitBytes(Magnitude(num, f), base, f.large);
    hide Arranged, DigitsOf, NumberText, SignText, PrefixText, Signed, Magnitude;
    ArrangedBytes(head, digits, width, precision, f);
    assert digits[0] in digits && digits[|digits| - 1] in digits;
  }

  // ----- Directives in a text

  lemma LetterMeans(c: byte, f: Flags)
    requires c in {0x6f, 0x78, 0x58, 0x64, 0x69, 0x75} && !f.sign && !f.large
    ensures IsInteger(c) && TakesArgument(c) && ConversionFlags(c, f) == f.(sign := c in {0x64, 0x69}, large := c == 0x58)
    ensures BaseOf(c) == if c in {0x78, 0x58} then 16 else if c == 0x6f then 8 else 10
  {
  }

  lemma QualifierMeans(q: seq<byte>, signed: bool, v: int)
    requires q in {[], [0x68], [0x68, 0x68], [0x6c], [0x6c, 0x6c], [0x7a], [0x6a]} && Admits(q, signed, v)
    ensures var r := Range(QualifierOf(q)); if signed then -(r / 2) <= v < r / 2 else 0 <= v < r
    ensures var num := Converted(v, QualifierOf(q), signed); v == if signed then Signed(num) else num
  {
    hide Converted;
    assert [0x68] != [0x68, 0x68] && [0x6c] != [0x6c, 0x6c] by {
      assert |[0x68]| == 1 && |[0x68, 0x68]| == 2 && |[0x6c]| == 1 && |[0x6c, 0x6c]| == 2;
    }
    ConvertedIs(v, QualifierOf(q), signed);
  }

  lemma ConvertedIs(v: int, q: Qualifier, signed: bool)
    requires if signed then -(Range(q) / 2) <= v < Range(q) / 2 else 0 <= v < Range(q)
    ensures var num := Converted(v, q, signed); v == if signed then Signed(num) else num
  {
    var r := Range(q);
    if v < 0 {
      assert v % r == v + r;
    }
  }

  /** Any value is taken modulo the range of the type that the qualifier names, into that range. */
  lemma Truncated(v: int, q: seq<byte>, signed: bool)
    requires q in {[], [0x68], [0x68, 0x68], [0x6c], [0x6c, 0x6c], [0x7a], [0x6a]}
    ensures var num := Converted(v, QualifierOf(q), signed);
            var shown := if signed then (if num < 0x8000_0000_0000_0000 then num else num - 0x1_0000_0000_0000_0000) else num;
              && Admits(q, signed, shown)
              && (q == [0x68] ==> shown % 0x1_0000 == v % 0x1_0000) && (q == [0x68, 0x68] ==> shown % 0x100 == v % 0x100)
              && (q == [] ==> shown % 0x1_0000_0000 == v % 0x1_0000_0000)
              && (|q| > 0 && q[0] != 0x68 ==> shown % 0x1_0000_0000_0000_0000 == v % 0x1_0000_0000_0000_0000)
  {
    var kind := QualifierOf(q);
    assert |[0x68]| == 1 && |[0x68, 0x68]| == 2 && |[0x6c]| == 1 && |[0x6c, 0x6c]| == 2;
    assert q != [] && q[0] == 0x68 ==> kind in {Short, Char};
    match kind {
      case Short => assert v % 0x1_0000 < 0x1_0000;
      case Char => assert v % 0x100 < 0x100;
      case Plain => assert v % 0x1_0000_0000 < 0x1_0000_0000;
      case _ => assert v % 0x1_0000_0000_0000_0000 < 0x1_0000_0000_0000_0000;
    }
  }

  lemma ShownInteger(fmt: seq<byte>, args: seq<Arg>, d: Spelling, f: Flags, v: int)
    requires fmt != [] && args == [Integer(v)] && At(fmt, |fmt| - 1) == d.c && IsInteger(d.c)
    ensures var g := ConversionFlags(d.c, f);
            Shown(fmt, Directive(|fmt| - 1, 0, WidthOf(d), PrecisionOf(d), QualifierOf(d.q), f), args) ==
            NumberText(Converted(v, QualifierOf(d.q), g.sign), BaseOf(d.c), WidthOf(d), PrecisionOf(d), g)
  {
    hide NumberText, Converted, QualifierOf, BaseOf, ConversionFlags, IsInteger, At, WidthOf, PrecisionOf;
    assert Argument(args, 0) == Integer(v);
  }

  /**
   An integer directive with any flags, width, precision and qualifier behind plain text shows the text and then a number
   that reads back as the argument: in base 16 for x and X, in base 8 for o, and in base 10 for d, i and u.
   */
  lemma DirectiveInText(before: seq<byte>, d: Spelling, v: int)
    requires 0x25 !in before && WellSpelled(d)
    requires Admits(d.q, d.c in {0x64, 0x69}, v)
    ensures var text := Formatted(before + Spelled(d), 0, [Integer(v)], 0);
              |before| < |text| && text[..|before|] == before &&
              var t, prefixed := text[|before|..], 0x23 in d.flags;
              && (d.c in {0x78, 0x58} ==> ReadNumber(t, 16, prefixed) == v)
              && (d.c == 0x6f ==> ReadNumber(t, 8, prefixed) == v)
              && (d.c in {0x64, 0x69, 0x75} ==> ReadNumber(t, 10, prefixed) == v)
              && |t| >= WidthOf(d) && |t| >= PrecisionOf(d)
              && (d.c != 0x58 ==> forall b :: b in t ==> !(0x41 <= b <= 0x5a))
              && (d.c == 0x58 ==> forall b :: b in t ==> !(0x61 <= b <= 0x7a))
              && (0x2d in t <==> v < 0) && (0x2b in t <==> 0x2b in d.flags && d.c in {0x64, 0x69} && v >= 0)
              && (0x78 in t <==> 0x23 in d.flags && d.c == 0x78) && (0x58 in t <==> 0x23 in d.flags && d.c == 0x58)
              && (0x2d !in d.flags ==> t[|t| - 1] != 0x20)
              && (0x2d in d.flags && 0x20 !in d.flags ==> t[0] != 0x20)
              && (0x2d !in d.flags && 0x30 in d.flags && 0x20 !in d.flags ==> 0x20 !in t)
  {
    var args := [Integer(v)];
    var fmt := before + Spelled(d);
    var f := Flags(0x30 in d.flags, false, 0x2b in d.flags, 0x20 in d.flags, 0x2d in d.flags, 0x23 in d.flags, false);
    DirectiveIs(before, d, args);
    LetterMeans(d.c, f);
    QualifierMeans(d.q, d.c in {0x64, 0x69}, v);
    var g := ConversionFlags(d.c, f);
    var num := Converted(v, QualifierOf(d.q), g.sign);
    ShownInteger(fmt, args, d, f, v);
    hide Formatted, NumberText, Converted, ReadNumber, QualifierOf, Spelled, BaseOf, ConversionFlags, DirectiveAt, WellSpelled;
    TextBefore(before, Spelled(d), 0, args);
    FormattedDirective(fmt, |before|, args, 0);
    FormattedEnd(fmt, args, 1);
    FormattedEnd(fmt, args, 0);
    var t := NumberText(num, BaseOf(d.c), WidthOf(d), PrecisionOf(d), g);
    ConversionReadsBack(v, QualifierOf(d.q), BaseOf(d.c), WidthOf(d), PrecisionOf(d), g);
    TextShape(num, BaseOf(d.c), WidthOf(d), PrecisionOf(d), g);
    assert Formatted(fmt, |before|, args, 0) == t;
    assert Formatted(fmt, 0, args, 0) == before + t;
  }

  // ----- Other directives

  // shown at the left or right end of spaces.
  ghost predicate Padded(t: seq<byte>, shown: seq<byte>, width: int, left: bool) {
    && |t| == (if width > |shown| then width else |shown|)
    && (if left then t[..|shown|] == shown && forall i :: |shown| <= i < |t| ==> t[i] == 0x20
        else t[|t| - |shown|..] == shown && forall i :: 0 <= i < |t| - |shown| ==> t[i] == 0x20)
  }

  /** c shows a byte, with spaces on the side the flags say. */
  lemma CharacterDirective(v: int, width: int, precision: int, q: Qualifier, f: Flags)
    ensures Padded(ConversionText(0x63, Integer(v), width, precision, q, f), [v % 0x100], width, f.left)
  {
    PaddedText([v % 0x100], width, f.left);
    assert width - |[v % 0x100]| == width - 1;
    hide Repeat, Padded, NumberText, StringText;
  }

  /** s shows at most precision bytes of a string, and <NULL> for none, with spaces on the side the flags say. */
  lemma StringDirective(s: Vsnprintf.Option<seq<byte>>, width: int, precision: int, q: Qualifier, f: Flags)
    ensures var all := if s.Some? then s.value else Ascii("<NULL>");
            var shown := if 0 <= precision < |all| then all[..precision] else all;
              Padded(ConversionText(0x73, Text(s), width, precision, q, f), shown, width, f.left)
  {
    assert Ascii("<NULL>") == NULL_TEXT;
    var all := if s.Some? then s.value else NULL_TEXT;
    PaddedText(if 0 <= precision < |all| then all[..precision] else all, width, f.left);
    hide Repeat, Padded, Ascii, NumberText, CharText;
  }

  lemma PaddedText(shown: seq<byte>, width: int, left: bool)
    ensures var pad := Repeat(SPACE, width - |shown|);
              Padded(if left then shown + pad else pad + shown, shown, width, left)
  {
  }

  /** p shows the address in base 16 behind 0x, with at least eight digits if nothing else is asked for. */
  lemma PointerDirective(v: int, width: int, precision: int, q: Qualifier, f: Flags)
    requires 0 <= v < 0x1_0000_0000_0000_0000 && !f.sign
    ensures var t := ConversionText(0x70, Integer(v), width, precision, q, f);
              && ReadNumber(t, 16, true) == v && |t| >= width && |t| >= precision
              && (width == -1 && precision == -1 && v < 0x1_0000_0000 ==> |t| >= 10)
  {
    hide NumberText, ReadNumber;
    var digits := if width == -1 && precision == -1 then 8 else precision;
    TextReadsBack(v, 16, width, digits, f.(special := true));
    TextLength(v, 16, width, digits, f.(special := true));
    hide DigitsOf;
  }

  /** Two percent signs show one, and a letter that is not known is shown as it is written. */
  lemma PlainDirectives(c: byte, a: Arg, width: int, precision: int, q: Qualifier, f: Flags)
    ensures ConversionText(0x25, a, width, precision, q, f) == [0x25] && ConversionText(0x6e, a, width, precision, q, f) == []
    ensures c !in {0, 0x25, 0x6f, 0x78, 0x58, 0x64, 0x69, 0x75, 0x63, 0x73, 0x70, 0x6e} ==>
              ConversionText(c, a, width, precision, q, f) == [0x25, c]
    ensures TakesArgument(c) <==> c in {0x6f, 0x78, 0x58, 0x64, 0x69, 0x75, 0x63, 0x73, 0x70, 0x6e}
  {
    hide NumberText, StringText, CharText;
  }

  /** A star takes an argument: as the width, whose sign asks for the left side, or as the precision, where a sign means 0. */
  lemma StarArguments(fmt: seq<byte>, i: nat, args: seq<Arg>, arg: nat, a: int, f: Flags)
    requires arg < |args| && args[arg] == Integer(a) && i < |fmt|
    ensures fmt[i] == 0x2a ==>
              WidthAt(fmt, i, args, arg, f) == Part(i + 1, arg + 1, if a < 0 then -a else a, f.(left := f.left || a < 0))
    ensures fmt[i] == 0x2e && i + 1 < |fmt| && fmt[i + 1] == 0x2a ==>
              PrecisionAt(fmt, i, args, arg, f) == Part(i + 2, arg + 1, if a < 0 then 0 else a, f)
    ensures fmt[i] == 0x2e && i + 1 < |fmt| && fmt[i + 1] != 0x2a && !(0x30 <= fmt[i + 1] <= 0x39) ==>
              PrecisionAt(fmt, i, args, arg, f) == Part(i + 1, arg, 0, f)
  {
  }
}
