/**
 * The encoders of internal/engine as the source runs them: buffers that are
 * allocated, filled and patched in place. Each is proved to leave the bytes its
 * specification in Engine.dfy describes.
 */
module Buffers {
  import opened Bytes
  import opened Engine

  /** `binary.BigEndian.PutUint16(b[off : off+2], w)` */
  method PutUint16(b: array<byte>, off: nat, w: Word)
    requires off + 2 <= b.Length
    modifies b
    ensures b[..] == Patch16(old(b[..]), off, w)
  {
    b[off] := w.hi;
    b[off + 1] := w.lo;
  }

  /** `copy(b[off:], src)` where `src` fits. */
  method CopyInto(b: array<byte>, off: nat, src: Frame)
    requires off + |src| <= b.Length
    modifies b
    ensures b[..] == old(b[..off]) + src + old(b[off + |src|..])
  {
    for i := 0 to |src|
      invariant b[..off] == old(b[..off]) && b[off..off + i] == src[..i]
      invariant b[off + i..] == old(b[off + i..])
    {
      b[off + i] := src[i];
      assert b[off..off + (i + 1)] == b[off..off + i] + [src[i]];
    }
    assert b[..] == b[..off] + b[off..off + |src|] + b[off + |src|..];
  }

  method NewBuffer(n: nat) returns (b: array<byte>)
    ensures fresh(b) && b.Length == n && b[..] == Zeros(n)
  {
    b := new byte[n](_ => 0);
  }

  /** The 6-byte trailer. */
  method FillTrailer(seqNo: Word, lan: nat, lsdu: nat) returns (rct: array<byte>)
    requires lan <= 1
    ensures fresh(rct) && rct[..] == Trailer(seqNo, lan, lsdu)
  {
    rct := NewBuffer(RCT_LEN);
    PutUint16(rct, 0, seqNo);
    PutUint16(rct, 2, Pack(0xA + lan, Trunc12(lsdu)));
    PutUint16(rct, 4, PRP_SUFFIX);
  }

  method EncodeRctBuffer(f: Frame, seqNo: Word, lan: nat) returns (out: Frame)
    requires lan <= 1
    ensures out == EncodeRct(f, seqNo, lan)
  {
    var vlan := IsVlan(f);
    var minSize := if vlan then 64 else 60;
    var padded := NewBuffer(if |f| > minSize then |f| else minSize);
    CopyInto(padded, 0, f);
    assert padded[..] == Padded(f);
    var lsdu := padded.Length + RCT_LEN - 14;
    if vlan { lsdu := lsdu - 4; }
    var rct := FillTrailer(seqNo, lan, lsdu);
    out := padded[..] + rct[..];
  }

  /** The 6-byte tag. */
  method FillTag(path: nat, lsdu: nat, seqNo: Word, encap: Word) returns (tag: array<byte>)
    ensures fresh(tag) && tag[..] == Put16(Pack(Trunc4(path), Trunc12(lsdu))) + Put16(seqNo) + Put16(encap)
  {
    tag := NewBuffer(HSR_TAG_LEN);
    PutUint16(tag, 0, Pack(Trunc4(path), Trunc12(lsdu)));
    PutUint16(tag, 2, seqNo);
    PutUint16(tag, 4, encap);
  }

  method EncodeHsrBuffer(payload: Frame, path: nat, seqNo: Word, encap: Word) returns (out: array<byte>)
    ensures fresh(out) && out[..] == EncodeHsr(payload, path, seqNo, encap)
  {
    var tag := FillTag(path, HSR_TAG_LEN + |payload|, seqNo, encap);
    out := NewBuffer(2 + HSR_TAG_LEN + |payload|);
    PutUint16(out, 0, HSR_ETHER_TYPE);
    CopyInto(out, 2, tag[..]);
    CopyInto(out, 8, payload);
  }

  method TagOffsetOf(f: Frame) returns (r: Option<nat>)
    ensures r == TagOffset(f)
  {
    if |f| < 14 { return None; }
    var off := 12;
    var et := Get16(f, off);
    if VlanType(et) {
      if |f| < 18 { return None; }
      off := 16;
      et := Get16(f, off);
    }
    if et != HSR_ETHER_TYPE { return None; }
    return Some(off + 2);
  }

  /** `(word & 0xEFFF) | (lane << 12)`: bit 4 of the high byte replaced. */
  function WithLane(w: Word, lane: nat): Word
    requires lane <= 1
  {
    Word(w.hi - w.hi / 16 % 2 * 16 + lane * 16, w.lo)
  }

  lemma WithLaneIsPack(w: Word, lane: nat)
    requires lane <= 1
    ensures WithLane(w, lane) == Pack(NetOf(High4(w)) * 2 + lane, Low12(w))
  {
  }

  method CopyOfFrame(f: Frame) returns (b: array<byte>)
    ensures fresh(b) && b[..] == f
  {
    b := NewBuffer(|f|);
    CopyInto(b, 0, f);
  }

  /** A patched copy; the frame itself is left alone. */
  method RewriteHsrPathLane(f: Frame, laneA: bool) returns (out: Option<Frame>)
    ensures out == RewritePathLane(f, laneA)
  {
    var off := TagOffsetOf(f);
    if off.None? { return None; }
    if |f| < off.value + HSR_TAG_LEN { return None; }
    var b := CopyOfFrame(f);
    var word := Get16(f, off.value);
    var lane := 0;
    if !laneA { lane := 1; }
    WithLaneIsPack(word, lane);
    PutUint16(b, off.value, WithLane(word, lane));
    return Some(b[..]);
  }

  method RewriteHsrPath(f: Frame, path: nat) returns (out: Option<Frame>)
    ensures out == RewritePath(f, path)
  {
    var off := TagOffsetOf(f);
    if off.None? { return None; }
    if |f| < off.value + HSR_TAG_LEN { return None; }
    var b := CopyOfFrame(f);
    PutUint16(b, off.value, Pack(Trunc4(path), Low12(Get16(f, off.value))));
    return Some(b[..]);
  }
}
