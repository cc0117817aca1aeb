/** Octets, 16-bit words, the option type and a size lemma shared by every module. */
module Bytes {

  type byte = x: int | 0 <= x < 0x100

  type Frame = seq<byte>

  /** A MAC address as the six octets found on the wire. */
  type Mac = seq<byte>

  datatype Option<+T> = None | Some(value: T)

  /** A 16-bit big-endian word as its two octets. */
  datatype Word = Word(hi: byte, lo: byte)

  const ZERO := Word(0, 0)

  /** The number a word stands for. */
  function Num(w: Word): (n: nat)
    ensures n < 0x1_0000
  {
    w.hi * 0x100 + w.lo
  }

  /** The next sequence number, wrapping at 65536. */
  function Succ(w: Word): Word {
    if w.lo < 0xff then Word(w.hi, w.lo + 1)
    else if w.hi < 0xff then Word(w.hi + 1, 0)
    else ZERO
  }

  lemma NumInjective(v: Word, w: Word)
    requires Num(v) == Num(w)
    ensures v == w
  {
  }

  lemma NumSucc(w: Word)
    ensures Num(Succ(w)) == if Num(w) == 0xffff then 0 else Num(w) + 1
  {
  }

  function Get16(f: Frame, off: nat): Word
    requires off + 2 <= |f|
  {
    Word(f[off], f[off + 1])
  }

  function Put16(w: Word): Frame {
    [w.hi, w.lo]
  }

  /** The frame with the word at `off` overwritten in place. */
  function Patch16(f: Frame, off: nat, w: Word): (g: Frame)
    requires off + 2 <= |f|
    ensures |g| == |f| && Get16(g, off) == w
    ensures forall i :: 0 <= i < |f| && i != off && i != off + 1 ==> g[i] == f[i]
  {
    f[off := w.hi][off + 1 := w.lo]
  }

  /** A word whose four high bits and twelve low bits are separate fields. */
  function Pack(high: nat, low: nat): Word
    requires high < 16 && low < 0x1000
  {
    Word(high * 16 + low / 0x100, low % 0x100)
  }

  function High4(w: Word): (n: nat)
    ensures n < 16
  {
    w.hi / 16
  }

  function Low12(w: Word): (n: nat)
    ensures n < 0x1000
  {
    w.hi % 16 * 0x100 + w.lo
  }

  lemma PackFields(high: nat, low: nat)
    requires high < 16 && low < 0x1000
    ensures High4(Pack(high, low)) == high && Low12(Pack(high, low)) == low
  {
  }

  lemma PackUnpack(w: Word)
    ensures Pack(High4(w), Low12(w)) == w
  {
  }

  /** A length truncated to twelve bits, and a path truncated to four. */
  function Trunc12(n: nat): (r: nat)
    ensures r < 0x1000
  {
    if n < 0x1000 then n else n % 0x1000
  }

  function Trunc4(n: nat): (r: nat)
    ensures r < 16
  {
    if n < 16 then n else n % 16
  }

  lemma SubsetSize<T>(a: set<T>, b: set<T>)
    requires a <= b
    ensures |a| <= |b|
  {
    assert b == a + (b - a);
  }

  function Zeros(n: nat): (z: Frame)
    ensures |z| == n && forall i :: 0 <= i < n ==> z[i] == 0
  {
    seq(n, i => 0)
  }
}
