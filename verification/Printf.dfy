/**
 Printing numbers and formats byte by byte (src/console/vtxprintf.c, src/console/vsprintf.c).
 */
module Printf {
  import opened Buffers
  import opened Number

  // ----- number()

  function Reversed(s: seq<byte>): (r: seq<byte>)
    ensures |r| == |s|
  {
    if s == [] then [] else [s[|s| - 1]] + Reversed(s[..|s| - 1])
  }

  lemma ReversedAppend(s: seq<byte>, c: byte)
    ensures Reversed(s + [c]) == [c] + Reversed(s)
  {
    assert (s + [c])[..|s|] == s;
  }

  /** The digits of the magnitude, last one first. */
  method CollectDigits(num: nat, base: Base, large: bool) returns (tmp: seq<byte>)
    ensures Reversed(tmp) == DigitsOf(num, base, large) && |tmp| >= 1
  {
    var left: nat := num;
    tmp := [];
    if left == 0 {
      return [ZERO];
    }
    assert DigitsOf(num, base, large) + Reversed([]) == DigitsOf(num, base, large);
    while left != 0
      invariant left > 0 ==> DigitsOf(left, base, large) + Reversed(tmp) == DigitsOf(num, base, large)
      invariant left == 0 ==> Reversed(tmp) == DigitsOf(num, base, large)
    {
      DigitStep(left, base, large, tmp);
      tmp := tmp + [DigitChar(left % base, large)];
      left := left / base;
    }
  }

  lemma Shift(x: seq<byte>, c: byte, y: seq<byte>)
    ensures x + [c] + y == x + ([c] + y)
  {
  }

  // Moving the last digit over leaves the whole unchanged.
  lemma DigitStep(left: nat, base: Base, large: bool, tmp: seq<byte>)
    requires left > 0
    ensures left / base > 0 ==>
              DigitsOf(left / base, base, large) + Reversed(tmp + [DigitChar(left % base, large)]) ==
              DigitsOf(left, base, large) + Reversed(tmp)
    ensures left / base == 0 ==>
              Reversed(tmp + [DigitChar(left % base, large)]) == DigitsOf(left, base, large) + Reversed(tmp)
  {
    Quotient(left, base);
    DigitsAre(left, base, large);
    ReversedAppend(tmp, DigitChar(left % base, large));
    hide *;
    if left >= base {
      Shift(DigitsOf(left / base, base, large), DigitChar(left % base, large), Reversed(tmp));
    }
  }

  lemma DigitsAre(left: nat, base: Base, large: bool)
    ensures left >= base ==>
              DigitsOf(left, base, large) == DigitsOf(left / base, base, large) + [DigitChar(left % base, large)]
    ensures left < base ==> DigitsOf(left, base, large) == [DigitChar(left % base, large)]
  {
    Quotient(left, base);
    hide DigitChar;
  }

  lemma Quotient(left: nat, base: Base)
    ensures left < base <==> left / base == 0
    ensures left < base ==> left % base == left
  {
  }

  method TxReversed(sink: Sink, tmp: seq<byte>) returns (count: nat)
    requires sink.Valid()
    modifies sink, sink.buf
    ensures sink.Valid() && sink.sent == old(sink.sent) + Reversed(tmp) && count == |tmp|
    ensures sink.buf[sink.capacity..] == old(sink.buf[sink.capacity..])
  {
    var i: nat := |tmp|;
    count := 0;
    assert tmp[..|tmp|] == tmp;
    while i > 0
      invariant i <= |tmp| && count == |tmp| - i
      invariant sink.Valid() && sink.sent + Reversed(tmp[..i]) == old(sink.sent) + Reversed(tmp)
      invariant sink.buf[sink.capacity..] == old(sink.buf[sink.capacity..])
    {
      i := i - 1;
      assert tmp[..i + 1] == tmp[..i] + [tmp[i]];
      ReversedAppend(tmp[..i], tmp[i]);
      ghost var before := sink.sent;
      sink.Tx(tmp[i]);
      assert before + ([tmp[i]] + Reversed(tmp[..i])) == sink.sent + Reversed(tmp[..i]);
      count := count + 1;
    }
    assert Reversed(tmp[..0]) == [];
  }

  // What has been sent since, and how much that is.
  ghost predicate Sent(was: seq<byte>, now: seq<byte>, text: seq<byte>, count: int) {
    now == was + text && count == |text|
  }

  lemma SentMore(was: seq<byte>, mid: seq<byte>, now: seq<byte>, text: seq<byte>, more: seq<byte>, count: int, n: int)
    requires Sent(was, mid, text, count) && now == mid + more && n == |more|
    ensures Sent(was, now, text + more, count + n)
  {
    assert was + text + more == was + (text + more);
  }

  lemma NothingSent(was: seq<byte>)
    ensures Sent(was, was, [], 0)
  {
  }

  // A loop of the source that sends the same byte, continuing a text.
  method SendMany(sink: Sink, b: byte, n: int, before: nat, ghost was: seq<byte>, ghost text: seq<byte>)
    returns (count: nat, left: int)
    requires sink.Valid() && Sent(was, sink.sent, text, before)
    modifies sink, sink.buf
    ensures sink.Valid() && Sent(was, sink.sent, text + Repeat(b, n), count) && left == (if n > 0 then -1 else n - 1)
    ensures sink.buf[sink.capacity..] == old(sink.buf[sink.capacity..])
  {
    ghost var mid := sink.sent;
    var more;
    more, left := TxMany(sink, b, n);
    SentMore(was, mid, sink.sent, text, Repeat(b, n), before, more);
    count := before + more;
  }

  method SendByte(sink: Sink, b: byte, before: nat, ghost was: seq<byte>, ghost text: seq<byte>) returns (count: nat)
    requires sink.Valid() && Sent(was, sink.sent, text, before)
    modifies sink, sink.buf
    ensures sink.Valid() && Sent(was, sink.sent, text + [b], count)
    ensures sink.buf[sink.capacity..] == old(sink.buf[sink.capacity..])
  {
    ghost var mid := sink.sent;
    sink.Tx(b);
    SentMore(was, mid, sink.sent, text, [b], before, 1);
    count := before + 1;
  }

  /** Sign and prefix, one byte after the other. */
  method SendHead(sink: Sink, sign: seq<byte>, base: Base, f: Flags, before: nat, ghost was: seq<byte>, ghost text: seq<byte>)
    returns (count: nat)
    requires sink.Valid() && |sign| <= 1 && Sent(was, sink.sent, text, before)
    modifies sink, sink.buf
    ensures sink.Valid() && Sent(was, sink.sent, text + (sign + PrefixText(base, f)), count)
    ensures sink.buf[sink.capacity..] == old(sink.buf[sink.capacity..])
  {
    HeadPieces(sign, base, f, text);
    hide Sent, Sink.Valid, PrefixText;
    count := before;
    if sign != [] {
      count := SendByte(sink, sign[0], count, was, text);
    }
    if f.special {
      if base == 8 {
        count := SendByte(sink, ZERO, count, was, text + sign);
      } else if base == 16 {
        count := SendByte(sink, ZERO, count, was, text + sign);
        if f.large {
          count := SendByte(sink, UPPER_X, count, was, text + sign + [ZERO]);
        } else {
          count := SendByte(sink, LOWER_X, count, was, text + sign + [ZERO]);
        }
      }
    }
  }

  lemma HeadPieces(sign: seq<byte>, base: Base, f: Flags, text: seq<byte>)
    requires |sign| <= 1
    ensures sign == [] ==> text + sign == text
    ensures sign != [] ==> text + [sign[0]] == text + sign
    ensures f.special && base == 8 ==> text + sign + [ZERO] == text + (sign + PrefixText(base, f))
    ensures f.special && base == 16 && f.large ==> text + sign + [ZERO] + [UPPER_X] == text + (sign + PrefixText(base, f))
    ensures f.special && base == 16 && !f.large ==> text + sign + [ZERO] + [LOWER_X] == text + (sign + PrefixText(base, f))
    ensures !f.special || base == 10 ==> text + sign == text + (sign + PrefixText(base, f))
  {
  }

  // The pieces that the source sends, in its order: the padding goes to one of three places.
  lemma PiecesAreText(head: seq<byte>, digits: seq<byte>, width: int, precision: int, f: Flags)
    ensures var zeros := precision - |digits|;
            var pad := width - |head| - Max(|digits|, precision);
            var end := Repeat(ZERO, zeros) + digits;
              && (f.left ==> head + end + Repeat(SPACE, pad) == Arranged(head, digits, width, precision, f))
              && (!f.left && f.zeropad ==> head + Repeat(ZERO, pad) + end == Arranged(head, digits, width, precision, f))
              && (!f.left && !f.zeropad ==> Repeat(SPACE, pad) + head + end == Arranged(head, digits, width, precision, f))
  {
    assert |Repeat(ZERO, precision - |digits|) + digits| == Max(|digits|, precision);
  }

  // Texts as they grow, with padding that is not there.
  lemma Grown(x: seq<byte>, y: seq<byte>, z: seq<byte>, n: int)
    requires n <= 0
    ensures [] + x == x && x + Repeat(SPACE, n) == x && x + Repeat(ZERO, n) == x
    ensures x + y + z == x + (y + z)
  {
  }

  /** The second half of number(): everything is sent in order, with the padding where the flags want it. */
  method SendPieces(sink: Sink, sign: seq<byte>, base: Base, f: Flags, size: int, precision: int, tmp: seq<byte>,
                    ghost width: int, ghost minDigits: int) returns (count: nat)
    requires sink.Valid() && |sign| <= 1 && precision == Max(|tmp|, minDigits)
    requires size == width - |sign + PrefixText(base, f)| - precision
    modifies sink, sink.buf
    ensures sink.Valid()
    ensures Sent(old(sink.sent), sink.sent, Arranged(sign + PrefixText(base, f), Reversed(tmp), width, minDigits, f), count)
    ensures sink.buf[sink.capacity..] == old(sink.buf[sink.capacity..])
  {
    ghost var was, head, digits := sink.sent, sign + PrefixText(base, f), Reversed(tmp);
    ghost var end := Repeat(ZERO, precision - |tmp|) + digits;
    assert Repeat(ZERO, precision - |tmp|) == Repeat(ZERO, minDigits - |tmp|);
    PiecesAreText(head, digits, width, minDigits, f);
    NothingSent(was);
    hide *;
    count := 0;
    var left := size;
    ghost var text: seq<byte> := [];
    if !f.zeropad && !f.left {
      Grown(Repeat(SPACE, left), [], [], 0);
      count, left := SendMany(sink, SPACE, left, count, was, text);
      text := Repeat(SPACE, size);
    }
    Grown(head, [], [], 0);
    count := SendHead(sink, sign, base, f, count, was, text);
    text := text + head;
    if !f.left {
      if !f.zeropad {
        Grown(text, [], [], left);
      }
      ghost var zeros := left;
      count, left := SendMany(sink, if f.zeropad then ZERO else SPACE, left, count, was, text);
      text := text + Repeat(if f.zeropad then ZERO else SPACE, zeros);
    }
    var rest;
    count, rest := SendMany(sink, ZERO, precision - |tmp|, count, was, text);
    ghost var mid := sink.sent;
    var n := TxReversed(sink, tmp);
    ReversedLength(tmp);
    SentMore(was, mid, sink.sent, text + Repeat(ZERO, precision - |tmp|), digits, count, n);
    count := count + n;
    Grown(text, Repeat(ZERO, precision - |tmp|), digits, 0);
    text := text + end;
    ghost var spaces := left;
    count, left := SendMany(sink, SPACE, left, count, was, text);
    if !f.left {
      Grown(text, [], [], spaces);
    }
  }

  lemma ReversedLength(s: seq<byte>)
    ensures |Reversed(s)| == |s|
  {
  }

  /** number(): sends the text and returns its length. */
  method PrintNumber(sink: Sink, inum: nat, base: Base, width: int, minDigits: int, f: Flags) returns (count: nat)
    requires sink.Valid() && inum < U64_SIZE
    modifies sink, sink.buf
    ensures sink.Valid() && Sent(old(sink.sent), sink.sent, NumberText(inum, base, width, minDigits, f), count)
    ensures sink.buf[sink.capacity..] == old(sink.buf[sink.capacity..])
  {
    var size, precision, num := width, minDigits, inum;
    var sign: seq<byte> := [];
    if f.sign {
      if Signed(inum) < 0 {
        sign := [MINUS];
        num := U64_SIZE - inum;
        size := size - 1;
      } else if f.plus {
        sign := [PLUS];
        size := size - 1;
      } else if f.space {
        sign := [SPACE];
        size := size - 1;
      }
    }
    if f.special {
      if base == 16 {
        size := size - 2;
      } else if base == 8 {
        size := size - 1;
      }
    }
    assert sign == SignText(inum, f) && num == Magnitude(inum, f);
    assert size == width - |sign + PrefixText(base, f)|;
    hide SignText, PrefixText, Magnitude, Arranged, Sent, Sink.Valid, Signed, DigitsOf;

    var tmp := CollectDigits(num, base, f.large);
    if |tmp| > precision {
      precision := |tmp|;
    }
    size := size - precision;
    count := SendPieces(sink, sign, base, f, size, precision, tmp, width, minDigits);
  }
}
