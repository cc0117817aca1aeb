/**
 * internal/iec/utc.go: IEC 61850 UtcTime. A time is a whole number of seconds since
 * 1970 and nanoseconds within the second.
 */
module Utc {
  import opened Bytes

  const GIGA: int := 1_000_000_000
  const FRACTIONS: int := 0x100_0000

  datatype Time = Time(epoch: int, ns: int)
  {
    predicate Valid() { 0 <= ns < GIGA }

    /** Times whose seconds fit the 32-bit field. */
    predicate Representable() { Valid() && 0 <= epoch < 0x1_0000_0000 }

    function Nanos(): int { epoch * GIGA + ns }
  }

  /** 24-bit binary fraction of a second. */
  function Fraction(ns: int): (f: nat)
    requires 0 <= ns < GIGA
    ensures f < FRACTIONS
  {
    ns * FRACTIONS / GIGA
  }

  function NanosOf(fraction: nat): nat { fraction * GIGA / FRACTIONS }

  /** The four low bytes of a 64-bit value, most significant first. */
  function Be32(x: int): (b: Frame)
    ensures |b| == 4
  {
    [x / 0x100 / 0x100 / 0x100 % 0x100, x / 0x100 / 0x100 % 0x100, x / 0x100 % 0x100, x % 0x100]
  }

  function Join(high: nat, b: byte): nat { high * 0x100 + b }

  function FromBe(b: Frame): (x: nat) {
    if b == [] then 0 else Join(FromBe(b[..|b| - 1]), b[|b| - 1])
  }

  /** Bytes 4 to 6 are the three low bytes of the fraction, byte 7 says the time is valid. */
  function Encode(t: Time): (b: Frame)
    requires t.Valid()
    ensures |b| == 8
  {
    Be32(t.epoch) + Be32(Fraction(t.ns))[1..] + [0x80]
  }

  /** The zero time stands for a field of the wrong size. */
  const ZERO_TIME := Time(-62135596800, 0)

  function Decode(b: Frame): Time {
    if |b| != 8 then ZERO_TIME else Time(FromBe(b[0..4]), NanosOf(FromBe(b[4..7])))
  }

  method EncodeUtcTime(t: Time) returns (b: array<byte>)
    requires t.Valid()
    ensures fresh(b) && b[..] == Encode(t)
  {
    var frac := Fraction(t.ns);
    b := new byte[8](_ => 0);
    b[0] := t.epoch / 0x100 / 0x100 / 0x100 % 0x100;
    b[1] := t.epoch / 0x100 / 0x100 % 0x100;
    b[2] := t.epoch / 0x100 % 0x100;
    b[3] := t.epoch % 0x100;
    b[4] := frac / 0x100 / 0x100 % 0x100;
    b[5] := frac / 0x100 % 0x100;
    b[6] := frac % 0x100;
    b[7] := 0x80;
    assert b[..] == b[..4] + b[4..7] + [b[7]];
    assert b[..4] == Be32(t.epoch) && b[4..7] == Be32(frac)[1..];
  }

  lemma FromBe3(b: Frame)
    requires |b| == 3
    ensures FromBe(b) == Join(Join(b[0], b[1]), b[2])
  {
    assert b[..2][..1] == [b[0]] && FromBe([b[0]]) == b[0];
  }

  lemma FromBe4(b: Frame)
    requires |b| == 4
    ensures FromBe(b) == Join(Join(Join(b[0], b[1]), b[2]), b[3])
  {
    FromBe3(b[..3]);
  }

  lemma Be32RoundTrip(x: int)
    requires 0 <= x < 0x1_0000_0000
    ensures FromBe(Be32(x)) == x
    ensures x < FRACTIONS ==> FromBe(Be32(x)[1..]) == x
  {
    FromBe4(Be32(x));
    FromBe3(Be32(x)[1..]);
  }

  /** What remains of the nanoseconds: rounding down twice loses at most 60. */
  lemma FractionBound(ns: int)
    requires 0 <= ns < GIGA
    ensures NanosOf(Fraction(ns)) <= ns <= NanosOf(Fraction(ns)) + 60
  {
    var q := Fraction(ns);
    var r := ns * FRACTIONS - q * GIGA;
    var n := NanosOf(q);
    var r' := q * GIGA - n * FRACTIONS;
    assert 0 <= r < GIGA && 0 <= r' < FRACTIONS;
    assert (ns - n) * FRACTIONS == r + r';
  }

  lemma DecodeEncode(t: Time)
    requires t.Representable()
    ensures Decode(Encode(t)) == Time(t.epoch, NanosOf(Fraction(t.ns)))
  {
    var b := Encode(t);
    Be32RoundTrip(t.epoch);
    Be32RoundTrip(Fraction(t.ns));
    assert b[0..4] == Be32(t.epoch) && b[4..7] == Be32(Fraction(t.ns))[1..];
  }

  /** Three octets as a number, most significant first. */
  function Big(a: int, b: int, c: int): int { (a * 0x100 + b) * 0x100 + c }

  lemma BigOfBe32(x: int)
    ensures var b := Be32(x);
            && Big(b[0], b[1], b[2]) * 0x100 + b[3] == x - x / 0x100 / 0x100 / 0x100 / 0x100 * 0x1_0000_0000
            && (0 <= x < FRACTIONS ==> Big(b[1], b[2], b[3]) == x)
  {
    var x1 := x / 0x100;
    var x2 := x1 / 0x100;
    var x3 := x2 / 0x100;
    assert x == x1 * 0x100 + x % 0x100 && x1 == x2 * 0x100 + x1 % 0x100;
    assert x2 == x3 * 0x100 + x2 % 0x100 && x3 == x3 / 0x100 * 0x100 + x3 % 0x100;
  }

  lemma Remainder(x: int, k: int, s: int)
    requires x == k * 0x1_0000_0000 + s && 0 <= s < 0x1_0000_0000
    ensures x % 0x1_0000_0000 == s
  {
  }

  /** The octets: seconds modulo 2^32, then the largest 24-bit fraction not later than the time, then 0x80. */
  lemma UtcOctets(t: Time)
    requires t.Valid()
    ensures var b := Encode(t);
            && Big(b[0], b[1], b[2]) * 0x100 + b[3] == t.epoch % 0x1_0000_0000
            && Big(b[4], b[5], b[6]) * 1_000_000_000 <= t.ns * 0x100_0000 < (Big(b[4], b[5], b[6]) + 1) * 1_000_000_000
            && b[7] == 0x80
  {
    var b, e, f := Encode(t), Be32(t.epoch), Be32(Fraction(t.ns));
    assert b[0..4] == e && b[4..7] == f[1..];
    BigOfBe32(t.epoch);
    BigOfBe32(Fraction(t.ns));
    Remainder(t.epoch, t.epoch / 0x100 / 0x100 / 0x100 / 0x100, Big(e[0], e[1], e[2]) * 0x100 + e[3]);
  }

  /** The seconds survive exactly if they fit the 32-bit field. */
  lemma EpochFits(t: Time)
    requires t.Valid()
    ensures Decode(Encode(t)).epoch == t.epoch <==> 0 <= t.epoch < 0x1_0000_0000
  {
    var b := Encode(t);
    assert b[0..4] == Be32(t.epoch);
    FromBe4(Be32(t.epoch));
    if t.Representable() { Be32RoundTrip(t.epoch); }
  }

  /** Decoding an encoded time never exceeds it and loses at most 60 ns. */
  lemma UtcBound(t: Time)
    requires t.Representable()
    ensures Decode(Encode(t)).Representable()
    ensures Decode(Encode(t)).Nanos() <= t.Nanos() <= Decode(Encode(t)).Nanos() + 60
  {
    DecodeEncode(t);
    FractionBound(t.ns);
  }

  lemma FractionMonotone(m: int, n: int)
    requires 0 <= m <= n < GIGA
    ensures NanosOf(Fraction(m)) <= NanosOf(Fraction(n))
  {
    assert Fraction(m) <= Fraction(n);
  }

  /** The order of times survives, also across seconds. */
  lemma UtcOrder(s: Time, t: Time)
    requires s.Representable() && t.Representable() && s.Nanos() <= t.Nanos()
    ensures Decode(Encode(s)).Nanos() <= Decode(Encode(t)).Nanos()
  {
    DecodeEncode(s);
    DecodeEncode(t);
    FractionBound(s.ns);
    FractionBound(t.ns);
    if s.epoch == t.epoch { FractionMonotone(s.ns, t.ns); }
  }
}
