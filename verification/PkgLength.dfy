/**
 The length encoding of AML packages and field lists (ACPI specification 6.4, section 20.2.4): the two top
 bits of the first byte say how many bytes follow.
 */
module PkgLength {
  import opened Buffers

  const RESERVED_BYTES: nat := 3
  const MAX_LENGTH: nat := 0xfffff
  const LENGTH_LIMIT: nat := 0x1000_0000

  datatype Decoded = Decoded(value: nat, width: nat) | Truncated

  // How many values a width can tell apart.
  function Capacity(width: nat): nat {
    if width == 1 then 0x40 else if width == 2 then 0x1000 else if width == 3 then 0x10_0000
    else if width == 4 then LENGTH_LIMIT else 0
  }

  function Width(value: nat): (w: nat)
    requires value < LENGTH_LIMIT
    ensures 1 <= w <= 4 && value < Capacity(w)
    ensures forall v: nat :: v < w ==> Capacity(v) <= value
  {
    if value < 0x40 then 1 else if value < 0x1000 then 2 else if value < 0x10_0000 then 3 else 4
  }

  function EncodeLength(value: nat): (e: seq<byte>)
    requires value < LENGTH_LIMIT
    ensures |e| == Width(value)
  {
    if value < 0x40 then [value]
    else if value < 0x1000 then [0x40 + value % 0x10, value / 0x10]
    else if value < 0x10_0000 then [0x80 + value % 0x10, value / 0x10 % 0x100, value / 0x1000]
    else [0xc0 + value % 0x10, value / 0x10 % 0x100, value / 0x1000 % 0x100, value / 0x10_0000]
  }

  // As the specification reads it.
  function DecodeLength(s: seq<byte>): Decoded {
    if s == [] then Truncated
    else
      var following := s[0] as nat / 0x40;
      if following >= |s| then Truncated
      else if following == 0 then Decoded(s[0] % 0x40, 1)
      else if following == 1 then Decoded(s[0] % 0x10 + 0x10 * (s[1] as nat), 2)
      else if following == 2 then Decoded(s[0] % 0x10 + 0x10 * (s[1] as nat) + 0x1000 * (s[2] as nat), 3)
      else Decoded(s[0] % 0x10 + 0x10 * (s[1] as nat) + 0x1000 * (s[2] as nat) + 0x10_0000 * (s[3] as nat), 4)
  }

  lemma LengthRoundTrip(value: nat, rest: seq<byte>)
    requires value < LENGTH_LIMIT
    ensures DecodeLength(EncodeLength(value) + rest) == Decoded(value, Width(value))
  {
    var e := EncodeLength(value);
    var s := e + rest;
    assert forall i :: 0 <= i < |e| ==> s[i] == e[i];
    Digits(value);
    hide Width;
    if value < 0x40 {
    } else if value < 0x1000 {
    } else if value < 0x10_0000 {
    } else {
    }
  }

  lemma Digits(value: nat)
    ensures value == value % 0x10 + 0x10 * (value / 0x10)
    ensures value == value % 0x10 + 0x10 * (value / 0x10 % 0x100) + 0x1000 * (value / 0x1000)
    ensures value == value % 0x10 + 0x10 * (value / 0x10 % 0x100) + 0x1000 * (value / 0x1000 % 0x100)
                     + 0x10_0000 * (value / 0x10_0000)
  {
    FourDigits(value);
  }

  lemma FourDigits(value: nat)
    ensures value == value % 0x10 + 0x10 * (value / 0x10 % 0x100) + 0x1000 * (value / 0x1000 % 0x100)
                     + 0x10_0000 * (value / 0x10_0000)
  {
    assert value / 0x1000 == value / 0x10 / 0x100;
    assert value / 0x10_0000 == value / 0x10 / 0x100 / 0x100;
  }

  // ----- The length of a package counts its own bytes

  predicate Encodable(payload: nat) {
    payload + RESERVED_BYTES <= MAX_LENGTH
  }

  function PkgWidth(payload: nat): (w: nat)
    requires Encodable(payload)
    ensures 1 <= w <= 3 && payload + w < Capacity(w) && Width(payload + w) == w
    ensures forall v: nat :: v < w ==> Capacity(v) <= payload + v
  {
    if payload + 1 <= 0x3f then 1 else if payload + 2 <= 0xfff then 2 else 3
  }

  function EncodePkgLength(payload: nat): (e: seq<byte>)
    requires Encodable(payload)
    ensures |e| == PkgWidth(payload)
  {
    EncodeLength(payload + PkgWidth(payload))
  }

  function Packaged(payload: seq<byte>): (p: seq<byte>)
    requires Encodable(|payload|)
    ensures |p| == PkgWidth(|payload|) + |payload|
  {
    EncodePkgLength(|payload|) + payload
  }

  // A reader that trusts the length finds the payload, whatever follows.
  function Payload(s: seq<byte>): seq<byte> {
    match DecodeLength(s)
    case Truncated => []
    case Decoded(value, width) => if width <= value <= |s| && width <= |s| then s[width..value] else []
  }

  function Behind(s: seq<byte>): seq<byte> {
    match DecodeLength(s)
    case Truncated => []
    case Decoded(value, width) => if value <= |s| then s[value..] else []
  }

  lemma PayloadIsFound(payload: seq<byte>, rest: seq<byte>)
    requires Encodable(|payload|)
    ensures Payload(Packaged(payload) + rest) == payload
    ensures Behind(Packaged(payload) + rest) == rest
  {
    var n := |payload|;
    var w := PkgWidth(n);
    hide DecodeLength, EncodeLength, Capacity, PkgWidth;
    LengthRoundTrip(n + w, payload + rest);
    var s := Packaged(payload) + rest;
    assert s == EncodePkgLength(n) + (payload + rest);
    assert s[w..n + w] == payload && s[n + w..] == rest;
  }

  /** No shorter length field can describe the same package. */
  lemma PkgLengthIsMinimal(payload: seq<byte>, shorter: seq<byte>)
    requires Encodable(|payload|) && |shorter| < PkgWidth(|payload|)
    requires DecodeLength(shorter + payload).Decoded? && DecodeLength(shorter + payload).width == |shorter|
    ensures DecodeLength(shorter + payload).value != |shorter| + |payload|
  {
    DecodedFits(shorter + payload);
  }

  lemma DecodedFits(s: seq<byte>)
    requires DecodeLength(s).Decoded?
    ensures DecodeLength(s).value < Capacity(DecodeLength(s).width)
  {
  }
}
