/**
 * internal/iec/ber.go: definite-length BER (section 8.1.3 of ITU-T X.690) as the
 * GOOSE and SV codecs use it. Lengths are Go's 64-bit `int`.
 */
module Ber {
  import opened Bytes

  const INT_LIMIT: int := 0x8000_0000_0000_0000

  // ---------------------------------------------------------------- big-endian lengths

  /** The bytes of `n`, most significant first, none for zero. */
  function Digits(n: nat): Frame {
    if n == 0 then [] else Digits(n / 0x100) + [n % 0x100]
  }

  /** `n >> (8 * i)` */
  function Shr(n: nat, i: nat): nat {
    if i == 0 then n else Shr(n / 0x100, i - 1)
  }

  /** `(acc << 8) | b` on a 64-bit two's complement int. */
  function ShiftIn(acc: int, b: byte): int {
    var x := acc * 0x100 + b;
    if -INT_LIMIT <= x < INT_LIMIT then x else (x + INT_LIMIT) % (2 * INT_LIMIT) - INT_LIMIT
  }

  /** The value of length bytes read most significant first; it wraps beyond 64 bits. */
  function Value(ds: Frame): int {
    if ds == [] then 0 else ShiftIn(Value(ds[..|ds| - 1]), ds[|ds| - 1])
  }

  lemma {:induction false} ValueOfDigits(n: nat)
    requires n < INT_LIMIT
    ensures Value(Digits(n)) == n
  {
    if n > 0 {
      ValueOfDigits(n / 0x100);
      var ds := Digits(n);
      assert ds[..|ds| - 1] == Digits(n / 0x100);
    }
  }

  lemma {:induction false} ShrStep(n: nat, i: nat)
    ensures Shr(n, i + 1) == Shr(n, i) / 0x100
  {
    if i > 0 { ShrStep(n / 0x100, i - 1); }
  }

  lemma {:induction false} ShrToZero(n: nat)
    ensures Shr(n, |Digits(n)|) == 0
    ensures forall i :: 0 <= i < |Digits(n)| ==> Shr(n, i) > 0
  {
    if n > 0 {
      ShrToZero(n / 0x100);
      forall i | 0 <= i < |Digits(n)| ensures Shr(n, i) > 0 {
        if i > 0 { assert Shr(n, i) == Shr(n / 0x100, i - 1); }
      }
    }
  }

  function Pow(d: nat): nat { if d == 0 then 1 else 0x100 * Pow(d - 1) }

  lemma {:induction false} DigitsBound(n: nat, d: nat)
    requires n < Pow(d)
    ensures |Digits(n)| <= d
  {
    if n > 0 { DigitsBound(n / 0x100, d - 1); }
  }

  lemma LengthFits(n: nat)
    requires n < INT_LIMIT
    ensures |Digits(n)| <= 8
  {
    assert Pow(4) == 0x1_0000_0000;
    assert Pow(8) == 0x1_0000_0000_0000_0000;
    DigitsBound(n, 8);
  }

  function LengthBytes(n: nat): (b: Frame)
    requires n < INT_LIMIT
    ensures 1 <= |b| <= 9
  {
    LengthFits(n);
    if n < 128 then [n] else [0x80 + |Digits(n)|] + Digits(n)
  }

  lemma {:induction false} ValueBound(ds: Frame)
    requires |ds| <= 7
    ensures 0 <= Value(ds) < Pow(|ds|) <= 0x100_0000_0000_0000
  {
    assert Pow(7) == 0x100_0000_0000_0000;
    if ds != [] {
      ValueBound(ds[..|ds| - 1]);
    }
  }

  /** No length field that is read as `n` is shorter: one byte below 128, and no leading zero after that. */
  lemma LengthIsShortest(data: Frame, n: nat)
    requires |data| >= 2 && HeaderOf(data).Header? && HeaderOf(data).length == n < INT_LIMIT
    ensures |LengthBytes(n)| <= HeaderOf(data).off - 1
    ensures n >= 128 ==> LengthBytes(n)[1] != 0
  {
    LengthFits(n);
    if n >= 128 {
      var m := data[1] - 0x80;
      if m <= 7 {
        ValueBound(data[2..2 + m]);
        DigitsBound(n, m);
      }
      LeadingDigit(n);
    }
  }

  lemma {:induction false} LeadingDigit(n: nat)
    requires n > 0
    ensures |Digits(n)| > 0 && Digits(n)[0] != 0
  {
    if n >= 0x100 { LeadingDigit(n / 0x100); }
  }

  method EncodeLength(length: nat) returns (b: Frame)
    requires length < INT_LIMIT
    ensures b == LengthBytes(length)
  {
    if length < 128 { return [length]; }
    LengthFits(length);
    ShrToZero(length);
    var lenBytes, tmp := 0, length;
    while tmp > 0
      invariant tmp == Shr(length, lenBytes) && lenBytes <= |Digits(length)|
    {
      ShrStep(length, lenBytes);
      lenBytes := lenBytes + 1;
      tmp := tmp / 0x100;
    }
    assert lenBytes == |Digits(length)|;
    b := [0x80 + lenBytes];
    var i := lenBytes;
    while i > 0
      invariant 0 <= i <= lenBytes
      invariant b == [0x80 + lenBytes] + Digits(Shr(length, i))
    {
      i := i - 1;
      ShrStep(length, i);
      b := b + [Shr(length, i) % 0x100];
    }
  }

  // ---------------------------------------------------------------- TLVs

  function Tlv(tag: byte, payload: Frame): (w: Frame)
    requires |payload| < INT_LIMIT
    ensures |w| >= 2 + |payload|
  {
    [tag] + LengthBytes(|payload|) + payload
  }

  method EncodeTlv(tag: byte, payload: Frame) returns (w: Frame)
    requires |payload| < INT_LIMIT
    ensures w == Tlv(tag, payload)
  {
    var length := EncodeLength(|payload|);
    w := [tag] + length + payload;
  }

  /** A length field and the offset behind it. */
  datatype Header = Header(length: int, off: nat) | Short

  function HeaderOf(data: Frame): (h: Header)
    requires |data| >= 2
    ensures h.Header? ==> 2 <= h.off <= |data|
  {
    if data[1] < 0x80 then Header(data[1], 2)
    else
      var n := data[1] - 0x80;
      if |data| < 2 + n then Short else Header(Value(data[2..2 + n]), 2 + n)
  }

  /** `Crash` is a slice expression out of range: the length field wrapped past the largest int. */
  datatype Parsed = Element(tag: byte, payload: Frame, rest: Frame) | Malformed | Crash

  function Parse(data: Frame): (r: Parsed)
    ensures r.Element? ==> |r.rest| < |data|
  {
    if |data| < 2 then Malformed
    else match HeaderOf(data)
      case Short => Malformed
      case Header(length, off) =>
        if length < 0 || off + length >= INT_LIMIT then Crash
        else if |data| < off + length then Malformed
        else Element(data[0], data[off..off + length], data[off + length..])
  }

  method ReadLength(data: Frame, n: nat) returns (length: int)
    requires |data| >= 2 + n
    ensures length == Value(data[2..2 + n])
  {
    length := 0;
    for i := 0 to n
      invariant length == Value(data[2..2 + i])
    {
      assert data[2..2 + (i + 1)][..i] == data[2..2 + i];
      length := ShiftIn(length, data[2 + i]);
    }
  }

  method ParseTlv(data: Frame) returns (r: Parsed)
    ensures r == Parse(data)
  {
    if |data| < 2 { return Malformed; }
    var off := 2;
    var length: int := data[1];
    if data[1] >= 0x80 {
      var numBytes := data[1] - 0x80;
      if |data| < off + numBytes { return Malformed; }
      length := ReadLength(data, numBytes);
      off := off + numBytes;
    }
    if length < 0 || off + length >= INT_LIMIT { return Crash; }
    if |data| < off + length { return Malformed; }
    return Element(data[0], data[off..off + length], data[off + length..]);
  }

  lemma HeaderOfTlv(tag: byte, payload: Frame, rest: Frame)
    requires |payload| < INT_LIMIT
    ensures HeaderOf(Tlv(tag, payload) + rest) == Header(|payload|, 1 + |LengthBytes(|payload|)|)
  {
    var n := |payload|;
    var b, w := LengthBytes(n), Tlv(tag, payload) + rest;
    assert w[1..1 + |b|] == b;
    if n >= 128 {
      LengthFits(n);
      ValueOfDigits(n);
      assert b[1..] == Digits(n);
      assert w[1] == b[0] && w[2..1 + |b|] == b[1..];
    } else {
      assert w[1] == b[0];
    }
  }

  /** Parsing inverts encoding for every payload length a Go slice can have, whatever follows. */
  lemma TlvRoundTrip(tag: byte, payload: Frame, rest: Frame)
    requires |payload| < INT_LIMIT && |Tlv(tag, payload) + rest| < INT_LIMIT
    ensures Parse(Tlv(tag, payload) + rest) == Element(tag, payload, rest)
  {
    HeaderOfTlv(tag, payload, rest);
    var w, off := Tlv(tag, payload) + rest, 1 + |LengthBytes(|payload|)|;
    assert w[0] == tag && w[off..off + |payload|] == payload && w[off + |payload|..] == rest;
  }

  /** Cutting an encoding short is noticed: no proper prefix of a TLV parses. */
  lemma TruncationIsRefused(tag: byte, payload: Frame, n: nat)
    requires |payload| < INT_LIMIT && n < |Tlv(tag, payload)| < INT_LIMIT
    ensures Parse(Tlv(tag, payload)[..n]) == Malformed
  {
    var w := Tlv(tag, payload);
    var cut := w[..n];
    HeaderOfTlv(tag, payload, []);
    assert w + [] == w;
    if n >= 2 {
      assert cut[1] == w[1];
      if w[1] >= 0x80 && |cut| >= 2 + (w[1] - 0x80) {
        assert cut[2..2 + (w[1] - 0x80)] == w[2..2 + (w[1] - 0x80)];
      }
    }
  }
}
