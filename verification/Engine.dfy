/**
 * The wire codecs of internal/engine: the PRP redundancy control trailer and
 * the HSR tag, with path rewriting and stripping.
 *
 * Bit fields are written arithmetically: a 16-bit word holding a 4-bit field above
 * a 12-bit field is `hi * 0x1000 + lo`.
 */
module Engine {
  import opened Bytes

  const HSR_ETHER_TYPE := Word(0x89, 0x2f)
  const PRP_SUFFIX := Word(0x88, 0xfb)
  const HSR_TAG_LEN := 6
  const RCT_LEN := 6

  // ---------------------------------------------------------------- classification

  predicate VlanType(et: Word) {
    et == Word(0x81, 0x00) || et == Word(0x88, 0xa8)
  }

  predicate IsVlan(f: Frame) {
    |f| >= 14 && VlanType(Get16(f, 12))
  }

  /** Offset of the first EtherType that is not a VLAN tag, if the frame reaches it. */
  function EtherTypeOffset(f: Frame, off: nat): (r: Option<nat>)
    ensures r.Some? ==> off <= r.value && r.value + 2 <= |f| && !VlanType(Get16(f, r.value))
    decreases |f| - off
  {
    if |f| < off + 2 then None
    else if VlanType(Get16(f, off)) then EtherTypeOffset(f, off + 4)
    else Some(off)
  }

  /** EtherType behind every VLAN tag; zero when the frame ends first. */
  function EtherType(f: Frame): Word {
    match EtherTypeOffset(f, 12)
    case None => ZERO
    case Some(off) => Get16(f, off)
  }

  method GetEtherType(f: Frame) returns (et: Word)
    ensures et == EtherType(f)
  {
    var off := 12;
    while true
      invariant EtherTypeOffset(f, off) == EtherTypeOffset(f, 12)
      decreases |f| - off
    {
      if |f| < off + 2 { return ZERO; }
      et := Get16(f, off);
      if !VlanType(et) { return; }
      off := off + 4;
      if |f| < off + 2 { return ZERO; }
    }
  }

  function SrcMac(f: Frame): Mac {
    if |f| < 12 then [] else f[6..12]
  }

  function DstMac(f: Frame): Mac {
    if |f| < 6 then [] else f[..6]
  }

  predicate Multicast(f: Frame) {
    |f| > 0 && f[0] % 2 == 1
  }

  /** Outer VLAN id; only the first tag is inspected. */
  function VlanId(f: Frame): Option<nat>
    requires IsVlan(f) ==> |f| >= 16
  {
    if IsVlan(f) then Some(Low12(Get16(f, 14))) else None
  }

  /** A PathId is (NetId << 1) | lane. */
  function NetOf(path: nat): nat { path / 2 }
  function LaneOf(path: nat): (l: nat)
    ensures l <= 1
  {
    path % 2
  }

  // ---------------------------------------------------------------- RCT trailer

  datatype Rct = Rct(lan: nat, seqNo: Word, body: Frame)

  /** The frame zero-padded to the minimum Ethernet size (60, or 64 with a VLAN tag). */
  function Padded(f: Frame): (p: Frame)
    ensures |f| <= |p| && p[..|f|] == f
    ensures forall i :: |f| <= i < |p| ==> p[i] == 0
    ensures |p| >= 60
  {
    var minSize := if IsVlan(f) then 64 else 60;
    if |f| >= minSize then f else f + Zeros(minSize - |f|)
  }

  function Trailer(seqNo: Word, lan: nat, lsdu: nat): (t: Frame)
    requires lan <= 1
    ensures |t| == RCT_LEN
  {
    Put16(seqNo) + Put16(Pack(0xA + lan, Trunc12(lsdu))) + Put16(PRP_SUFFIX)
  }

  /** Bytes counted by the LSDU field besides the header: 14, or 18 with a VLAN tag. */
  function HeaderLen(f: Frame): nat {
    if IsVlan(f) then 18 else 14
  }

  function EncodeRct(f: Frame, seqNo: Word, lan: nat): (w: Frame)
    requires lan <= 1
    ensures |w| == |Padded(f)| + RCT_LEN
  {
    var p := Padded(f);
    p + Trailer(seqNo, lan, |p| + RCT_LEN - HeaderLen(f))
  }

  function DecodeRct(w: Frame): (r: Option<Rct>)
    ensures r.Some? ==> |w| >= 20 && r.value.body == w[..|w| - RCT_LEN] && r.value.lan <= 1
  {
    if |w| < 14 + RCT_LEN then None
    else
      var off := |w| - RCT_LEN;
      var packed := Get16(w, off + 2);
      if Get16(w, off + 4) != PRP_SUFFIX then None
      else if Low12(packed) != |w| - HeaderLen(w) then None
      else Some(Rct(LaneOf(High4(packed)), Get16(w, off), w[..off]))
  }

  // ---------------------------------------------------------------- HSR tag

  datatype HsrTag = HsrTag(path: nat, seqNo: Word, encap: Word, payload: Frame)

  /** EtherType, tag and payload as written after the MAC header. */
  function EncodeHsr(payload: Frame, path: nat, seqNo: Word, encap: Word): (w: Frame)
    ensures |w| == 8 + |payload|
  {
    Put16(HSR_ETHER_TYPE)
    + Put16(Pack(Trunc4(path), Trunc12(HSR_TAG_LEN + |payload|)))
    + Put16(seqNo) + Put16(encap) + payload
  }

  function TagOffset(f: Frame): (r: Option<nat>)
    ensures r.Some? ==> (r.value == 14 || r.value == 18) && r.value <= |f|
    ensures r.Some? ==> (r.value == 18 <==> IsVlan(f))
  {
    if |f| < 14 then None
    else if VlanType(Get16(f, 12)) then
      if |f| < 18 || Get16(f, 16) != HSR_ETHER_TYPE then None else Some(18)
    else if Get16(f, 12) != HSR_ETHER_TYPE then None
    else Some(14)
  }

  function DecodeHsr(f: Frame): (r: Option<HsrTag>)
    ensures r.Some? ==> |f| >= 20 && TagOffset(f).Some? && r.value.path < 16
  {
    match TagOffset(f)
    case None => None
    case Some(off) =>
      if |f| < off + HSR_TAG_LEN then None
      else
        var word := Get16(f, off);
        var lsdu := Low12(word);
        if lsdu < HSR_TAG_LEN || off + lsdu > |f| then None
        else Some(HsrTag(High4(word), Get16(f, off + 2), Get16(f, off + 4),
                         f[off + HSR_TAG_LEN..off + lsdu]))
  }

  function RewritePath(f: Frame, path: nat): Option<Frame> {
    match TagOffset(f)
    case None => None
    case Some(off) =>
      if |f| < off + HSR_TAG_LEN then None
      else Some(Patch16(f, off, Pack(Trunc4(path), Low12(Get16(f, off)))))
  }

  /** Only bit 0 of the path nibble changes: 0 when leaving on LAN A, 1 on LAN B. */
  function RewritePathLane(f: Frame, laneA: bool): Option<Frame> {
    match TagOffset(f)
    case None => None
    case Some(off) =>
      if |f| < off + HSR_TAG_LEN then None
      else
        var word := Get16(f, off);
        Some(Patch16(f, off, Pack(NetOf(High4(word)) * 2 + (if laneA then 0 else 1), Low12(word))))
  }

  function StripHsr(f: Frame): Option<Frame> {
    match DecodeHsr(f)
    case None => None
    case Some(t) =>
      var off := TagOffset(f).value;
      Some(f[..12] + (if off > 14 then f[12..off - 2] else []) + Put16(t.encap) + t.payload)
  }

  // ---------------------------------------------------------------- RCT theorems

  /** Appending to a frame whose EtherType is reachable does not change its classification. */
  lemma {:induction false} EtherTypeOffsetAppend(f: Frame, tail: Frame, off: nat)
    requires EtherTypeOffset(f, off).Some?
    ensures EtherTypeOffset(f + tail, off) == EtherTypeOffset(f, off)
    decreases |f| - off
  {
    assert Get16(f + tail, off) == Get16(f, off);
    if VlanType(Get16(f, off)) {
      EtherTypeOffsetAppend(f, tail, off + 4);
    }
  }

  lemma EtherTypeOfEncodeRct(f: Frame, seqNo: Word, lan: nat)
    requires lan <= 1 && EtherTypeOffset(f, 12).Some?
    ensures EtherType(EncodeRct(f, seqNo, lan)) == EtherType(f)
  {
    var w := EncodeRct(f, seqNo, lan);
    assert w == f + w[|f|..];
    EtherTypeOffsetAppend(f, w[|f|..], 12);
  }

  /** Where the pieces of an encoded frame lie. */
  lemma RctLayout(f: Frame, seqNo: Word, lan: nat)
    requires lan <= 1 && |f| >= 14
    ensures var w := EncodeRct(f, seqNo, lan); var off := |Padded(f)|;
            && w[..off] == Padded(f) && w[..|f|] == f && Get16(w, 12) == Get16(f, 12)
            && Get16(w, off) == seqNo && Get16(w, off + 4) == PRP_SUFFIX
            && Get16(w, off + 2) == Pack(0xA + lan, Trunc12(off + RCT_LEN - HeaderLen(f)))
  {
    var p := Padded(f);
    var w := EncodeRct(f, seqNo, lan);
    var off := |p|;
    assert w[..off] == p && w[..|f|] == f;
    var t := Trailer(seqNo, lan, |p| + RCT_LEN - HeaderLen(f));
    assert w[off..] == t;
    TrailerFields(seqNo, lan, |p| + RCT_LEN - HeaderLen(f));
    assert Get16(w, off) == Get16(t, 0) && Get16(w, off + 2) == Get16(t, 2) && Get16(w, off + 4) == Get16(t, 4);
  }

  /**
   * The trailer is an inverse exactly while the LSDU size fits its 12 bits: 4103
   * bytes, or 4107 with a VLAN tag. Longer frames are rejected by the receiver.
   */
  lemma RctRoundTrip(f: Frame, seqNo: Word, lan: nat)
    requires lan <= 1 && |f| >= 14
    ensures |f| <= 4089 + HeaderLen(f) ==>
              DecodeRct(EncodeRct(f, seqNo, lan)) == Some(Rct(lan, seqNo, Padded(f)))
    ensures |f| > 4089 + HeaderLen(f) ==> DecodeRct(EncodeRct(f, seqNo, lan)).None?
    ensures SrcMac(EncodeRct(f, seqNo, lan)) == SrcMac(f)
    ensures EncodeRct(f, seqNo, lan)[..|f|] == f
  {
    RctLayout(f, seqNo, lan);
    var w := EncodeRct(f, seqNo, lan);
    PackFields(0xA + lan, Trunc12(|w| - HeaderLen(f)));
    assert w[..|f|][6..12] == w[6..12];
  }

  lemma TrailerFields(seqNo: Word, lan: nat, lsdu: nat)
    requires lan <= 1
    ensures var t := Trailer(seqNo, lan, lsdu);
            && Get16(t, 0) == seqNo && Get16(t, 4) == PRP_SUFFIX
            && Get16(t, 2) == Pack(0xA + lan, Trunc12(lsdu))
  {
    var t := Trailer(seqNo, lan, lsdu);
    assert t[0..2] == Put16(seqNo);
    assert t[2..4] == Put16(Pack(0xA + lan, Trunc12(lsdu)));
    assert t[4..6] == Put16(PRP_SUFFIX);
  }

  /** Any accepted trailer with wire nibble 0xA or 0xB on a full-size body is the one the encoder writes. */
  lemma RctReEncode(w: Frame)
    requires DecodeRct(w).Some?
    requires High4(Get16(w, |w| - 4)) in {0xA, 0xB}
    requires Padded(DecodeRct(w).value.body) == DecodeRct(w).value.body
    ensures var r := DecodeRct(w).value; EncodeRct(r.body, r.seqNo, r.lan) == w
  {
    var r := DecodeRct(w).value;
    var off := |w| - RCT_LEN;
    assert Get16(r.body, 12) == Get16(w, 12);
    var t := Trailer(r.seqNo, r.lan, |w| - HeaderLen(w));
    TrailerFields(r.seqNo, r.lan, |w| - HeaderLen(w));
    PackUnpack(Get16(w, off + 2));
    var u := w[off..];
    assert Get16(u, 0) == Get16(w, off) && Get16(u, 2) == Get16(w, off + 2) && Get16(u, 4) == Get16(w, off + 4);
    assert t == u;
    assert w[..off] + w[off..] == w;
  }

  // ---------------------------------------------------------------- HSR theorems

  /** A frame whose tag decodes is never taken for supervision. */
  lemma TaggedEtherType(f: Frame)
    requires TagOffset(f).Some?
    ensures EtherType(f) == HSR_ETHER_TYPE
  {
    assert EtherTypeOffset(f, 12) == Some(TagOffset(f).value - 2);
  }

  lemma PatchedOffset(f: Frame, off: nat, v: Word)
    requires TagOffset(f) == Some(off) && off + HSR_TAG_LEN <= |f|
    ensures TagOffset(Patch16(f, off, v)) == Some(off)
  {
    var g := Patch16(f, off, v);
    assert Get16(g, 12) == Get16(f, 12);
    assert off == 18 ==> Get16(g, 16) == Get16(f, 16);
  }

  /** Overwriting the word of path and length with another of the same length changes the path only. */
  lemma PatchedDecode(f: Frame, off: nat, w: Word)
    requires DecodeHsr(f).Some? && TagOffset(f) == Some(off) && Low12(w) == Low12(Get16(f, off))
    ensures DecodeHsr(Patch16(f, off, w)) == Some(DecodeHsr(f).value.(path := High4(w)))
  {
    var lsdu := Low12(w);
    var g := Patch16(f, off, w);
    PatchedOffset(f, off, w);
    assert Get16(g, off + 2) == Get16(f, off + 2) && Get16(g, off + 4) == Get16(f, off + 4);
    assert g[off + 6..off + lsdu] == f[off + 6..off + lsdu];
  }

  lemma PatchedStrip(f: Frame, off: nat, w: Word)
    requires DecodeHsr(f).Some? && TagOffset(f) == Some(off) && Low12(w) == Low12(Get16(f, off))
    ensures var g := Patch16(f, off, w); g[..12] == f[..12] && StripHsr(g) == StripHsr(f)
  {
    var g := Patch16(f, off, w);
    PatchedDecode(f, off, w);
    PatchedOffset(f, off, w);
    assert g[..12] == f[..12] && g[12..off - 2] == f[12..off - 2];
  }

  lemma PatchedPath(f: Frame, g: Frame, path: nat)
    requires DecodeHsr(f).Some? && path < 16
    requires var off := TagOffset(f).value;
             g == Patch16(f, off, Pack(path, Low12(Get16(f, off))))
    ensures |g| == |f| && g[..12] == f[..12]
    ensures DecodeHsr(g) == Some(DecodeHsr(f).value.(path := path))
    ensures StripHsr(g) == StripHsr(f)
  {
    var off := TagOffset(f).value;
    var lsdu := Low12(Get16(f, off));
    PackFields(path, lsdu);
    PatchedDecode(f, off, Pack(path, lsdu));
    PatchedStrip(f, off, Pack(path, lsdu));
  }

  /** Forwarding keeps everything but the lane bit, so the NetId survives. */
  lemma RewriteLaneDecodes(f: Frame, laneA: bool)
    requires DecodeHsr(f).Some?
    ensures RewritePathLane(f, laneA).Some?
    ensures var g := RewritePathLane(f, laneA).value; var t := DecodeHsr(f).value;
            && |g| == |f| && g[..12] == f[..12]
            && DecodeHsr(g) == Some(t.(path := NetOf(t.path) * 2 + if laneA then 0 else 1))
            && StripHsr(g) == StripHsr(f)
  {
    var path := NetOf(DecodeHsr(f).value.path) * 2 + if laneA then 0 else 1;
    PatchedPath(f, RewritePathLane(f, laneA).value, path);
  }

  lemma RewritePathDecodes(f: Frame, path: nat)
    requires DecodeHsr(f).Some?
    ensures RewritePath(f, path).Some?
    ensures var g := RewritePath(f, path).value;
            && |g| == |f| && g[..12] == f[..12]
            && DecodeHsr(g) == Some(DecodeHsr(f).value.(path := Trunc4(path)))
            && StripHsr(g) == StripHsr(f)
  {
    PatchedPath(f, RewritePath(f, path).value, Trunc4(path));
  }

  /** Wire padding after the payload is invisible to the decoder. */
  lemma WirePadding(f: Frame, pad: Frame)
    requires DecodeHsr(f).Some?
    ensures DecodeHsr(f + pad) == DecodeHsr(f) && StripHsr(f + pad) == StripHsr(f)
  {
    var g := f + pad;
    var off := TagOffset(f).value;
    assert Get16(g, 12) == Get16(f, 12);
    assert off == 18 ==> Get16(g, 16) == Get16(f, 16);
    assert Get16(g, off) == Get16(f, off) && Get16(g, off + 2) == Get16(f, off + 2) && Get16(g, off + 4) == Get16(f, off + 4);
    var lsdu := Low12(Get16(f, off));
    assert g[off + 6..off + lsdu] == f[off + 6..off + lsdu];
    assert g[..12] == f[..12] && g[12..off - 2] == f[12..off - 2];
  }

  // ---------------------------------------------------------------- injection and hops

  /** Tagging of a SAN frame for the ring: the tag goes after the first VLAN tag, if any. */
  function Tagged(f: Frame, path: nat, seqNo: Word): (w: Frame)
    requires |f| >= HeaderLen(f)
    ensures |w| == |f| + HSR_TAG_LEN
  {
    if IsVlan(f)
    then f[..12] + f[12..16] + EncodeHsr(f[18..], path, seqNo, EtherType(f))
    else f[..12] + EncodeHsr(f[14..], path, seqNo, EtherType(f))
  }

  /** The frame as it leaves after being forwarded once per element of `lanes`. */
  function Hops(w: Frame, lanes: seq<bool>): Option<Frame>
    decreases lanes
  {
    if lanes == [] then Some(w)
    else match RewritePathLane(w, lanes[0])
      case None => None
      case Some(g) => Hops(g, lanes[1..])
  }

  predicate DoubleTagged(f: Frame)
    requires |f| >= HeaderLen(f)
  {
    IsVlan(f) && VlanType(Get16(f, 16))
  }

  /** What stripping makes of an injected frame: the type behind all VLAN tags takes the place of the second one. */
  function Restored(f: Frame): Frame
    requires |f| >= HeaderLen(f)
  {
    f[..HeaderLen(f) - 2] + Put16(EtherType(f)) + f[HeaderLen(f)..]
  }

  lemma EtherTypeIsNotVlan(f: Frame)
    ensures !VlanType(EtherType(f))
  {
  }

  lemma EncodeHsrFields(payload: Frame, path: nat, seqNo: Word, encap: Word)
    ensures var b := EncodeHsr(payload, path, seqNo, encap);
            && Get16(b, 0) == HSR_ETHER_TYPE
            && Get16(b, 2) == Pack(Trunc4(path), Trunc12(HSR_TAG_LEN + |payload|))
            && Get16(b, 4) == seqNo && Get16(b, 6) == encap && b[8..] == payload
  {
    var b := EncodeHsr(payload, path, seqNo, encap);
    assert b[0..2] == Put16(HSR_ETHER_TYPE);
    assert b[2..4] == Put16(Pack(Trunc4(path), Trunc12(HSR_TAG_LEN + |payload|)));
    assert b[4..6] == Put16(seqNo) && b[6..8] == Put16(encap);
  }

  /** Where the pieces of a tagged frame lie. */
  lemma TaggedLayout(f: Frame, path: nat, seqNo: Word)
    requires |f| >= HeaderLen(f)
    ensures var w := Tagged(f, path, seqNo); var h := HeaderLen(f);
            && |w| == |f| + HSR_TAG_LEN && w[..h - 2] == f[..h - 2] && TagOffset(w) == Some(h)
            && Get16(w, h) == Pack(Trunc4(path), Trunc12(HSR_TAG_LEN + |f| - h))
            && Get16(w, h + 2) == seqNo && Get16(w, h + 4) == EtherType(f) && w[h + 6..] == f[h..]
  {
    var w := Tagged(f, path, seqNo);
    var h := HeaderLen(f);
    var b := EncodeHsr(f[h..], path, seqNo, EtherType(f));
    EncodeHsrFields(f[h..], path, seqNo, EtherType(f));
    assert h == 18 ==> f[..12] + f[12..16] == f[..16];
    assert w == f[..h - 2] + b;
    assert Get16(w, h - 2) == Get16(b, 0) && Get16(w, h) == Get16(b, 2);
    assert Get16(w, h + 2) == Get16(b, 4) && Get16(w, h + 4) == Get16(b, 6);
    assert h == 18 ==> Get16(w, 12) == Get16(f, 12);
  }

  lemma DecodeFields(w: Frame, h: nat, path: nat, seqNo: Word, encap: Word, payload: Frame)
    requires TagOffset(w) == Some(h) && |w| == h + HSR_TAG_LEN + |payload|
    requires High4(Get16(w, h)) == path && Low12(Get16(w, h)) == HSR_TAG_LEN + |payload|
    requires Get16(w, h + 2) == seqNo && Get16(w, h + 4) == encap && w[h + HSR_TAG_LEN..] == payload
    ensures DecodeHsr(w) == Some(HsrTag(path, seqNo, encap, payload))
  {
    assert w[h + HSR_TAG_LEN..|w|] == w[h + HSR_TAG_LEN..];
  }

  lemma SameStart(w: Frame, f: Frame, h: nat)
    requires 12 <= h <= |w| && h <= |f| && w[..h] == f[..h]
    ensures w[..12] == f[..12]
  {
    assert w[..12] == w[..h][..12] && f[..12] == f[..h][..12];
  }

  /** A tagged frame decodes to the fields it was built from while the payload fits 4089 bytes. */
  lemma TaggedDecodes(f: Frame, path: nat, seqNo: Word)
    requires |f| >= HeaderLen(f) && |f| - HeaderLen(f) <= 4089 && path < 16
    ensures DecodeHsr(Tagged(f, path, seqNo))
            == Some(HsrTag(path, seqNo, EtherType(f), f[HeaderLen(f)..]))
    ensures Tagged(f, path, seqNo)[..12] == f[..12]
  {
    TaggedLayout(f, path, seqNo);
    var w := Tagged(f, path, seqNo);
    var h := HeaderLen(f);
    PackFields(path, HSR_TAG_LEN + |f| - h);
    DecodeFields(w, h, path, seqNo, EtherType(f), f[h..]);
    SameStart(w, f, h - 2);
  }

  /** Stripping puts the EtherType found behind all tags where the first tag's type stood. */
  lemma TaggedStrips(f: Frame, path: nat, seqNo: Word)
    requires |f| >= HeaderLen(f) && |f| - HeaderLen(f) <= 4089 && path < 16
    ensures StripHsr(Tagged(f, path, seqNo)) == Some(Restored(f))
  {
    TaggedDecodes(f, path, seqNo);
    TaggedLayout(f, path, seqNo);
    var w := Tagged(f, path, seqNo);
    var h := HeaderLen(f);
    assert w[..12] + (if h > 14 then w[12..h - 2] else []) == w[..h - 2];
  }

  /** Beyond 4089 payload bytes the length field wraps and the payload is lost or cut. */
  lemma OversizeIsCut(f: Frame, path: nat, seqNo: Word, w: Frame)
    requires |f| >= HeaderLen(f) && |f| - HeaderLen(f) > 4089
    requires TagOffset(w) == Some(HeaderLen(f)) && |w| >= HeaderLen(f) + 6
    requires Low12(Get16(w, HeaderLen(f))) == Trunc12(HSR_TAG_LEN + |f| - HeaderLen(f))
    ensures StripHsr(w).Some? ==> |StripHsr(w).value| < |f|
  {
  }

  /** Any number of hops preserves sequence number, NetId and the frame inside. */
  lemma {:induction false} HopsPreserve(w: Frame, lanes: seq<bool>)
    requires DecodeHsr(w).Some?
    ensures Hops(w, lanes).Some?
    ensures var g := Hops(w, lanes).value;
            && |g| == |w| && DecodeHsr(g).Some? && StripHsr(g) == StripHsr(w)
            && DecodeHsr(g).value.seqNo == DecodeHsr(w).value.seqNo
            && NetOf(DecodeHsr(g).value.path) == NetOf(DecodeHsr(w).value.path)
    decreases lanes
  {
    if lanes != [] {
      RewriteLaneDecodes(w, lanes[0]);
      HopsPreserve(RewritePathLane(w, lanes[0]).value, lanes[1..]);
    }
  }

  /** Hops never fail on a tagged frame and keep its length field, decodable or not. */
  lemma {:induction false} HopsLength(w: Frame, lanes: seq<bool>, off: nat)
    requires TagOffset(w) == Some(off) && off + HSR_TAG_LEN <= |w|
    ensures Hops(w, lanes).Some?
    ensures var g := Hops(w, lanes).value;
            && |g| == |w| && TagOffset(g) == Some(off) && Low12(Get16(g, off)) == Low12(Get16(w, off))
    decreases lanes
  {
    if lanes != [] {
      var word := Get16(w, off);
      var path := NetOf(High4(word)) * 2 + if lanes[0] then 0 else 1;
      PackFields(path, Low12(word));
      PatchedOffset(w, off, Pack(path, Low12(word)));
      HopsLength(RewritePathLane(w, lanes[0]).value, lanes[1..], off);
    }
  }

  lemma PaddedTag(w: Frame, pad: Frame, off: nat)
    requires TagOffset(w) == Some(off) && off + HSR_TAG_LEN <= |w|
    ensures TagOffset(w + pad) == Some(off) && Get16(w + pad, off) == Get16(w, off)
  {
    assert Get16(w + pad, 12) == Get16(w, 12);
    assert off == 18 ==> Get16(w + pad, 16) == Get16(w, 16);
  }

  /** The EtherType stripping restores is the one that was there unless a second VLAN tag follows the first. */
  lemma RestoredType(f: Frame)
    requires |f| >= HeaderLen(f)
    ensures Restored(f) == f <==> !DoubleTagged(f)
  {
    var h := HeaderLen(f);
    var g := Restored(f);
    assert g[h - 2..h] == Put16(EtherType(f));
    assert Get16(g, h - 2) == EtherType(f);
    EtherTypeIsNotVlan(f);
    if !DoubleTagged(f) {
      assert EtherTypeOffset(f, 12) == Some(h - 2);
      assert f[h - 2] == g[h - 2] && f[h - 1] == g[h - 1];
      assert f == f[..h - 2] + f[h - 2..h] + f[h..];
    }
  }

  /**
   * Multi-hop transparency: the far node restores the injected frame byte for
   * byte, whatever lanes it crossed and whatever padding the wire added, exactly
   * when the payload fits the 12-bit length and at most one VLAN tag is present.
   */
  lemma Transparency(f: Frame, path: nat, seqNo: Word, lanes: seq<bool>, pad: Frame)
    requires |f| >= HeaderLen(f) && path < 16
    ensures Hops(Tagged(f, path, seqNo), lanes).Some?
    ensures var g := Hops(Tagged(f, path, seqNo), lanes).value;
            StripHsr(g + pad) == Some(f) <==> !DoubleTagged(f) && |f| - HeaderLen(f) <= 4089
    ensures var d := DecodeHsr(Hops(Tagged(f, path, seqNo), lanes).value + pad);
            |f| - HeaderLen(f) <= 4089 ==> d.Some? && d.value.seqNo == seqNo && NetOf(d.value.path) == NetOf(path)
  {
    var w := Tagged(f, path, seqNo);
    var h := HeaderLen(f);
    TaggedLayout(f, path, seqNo);
    HopsLength(w, lanes, h);
    var g := Hops(w, lanes).value;
    if |f| - h <= 4089 {
      TaggedDecodes(f, path, seqNo);
      TaggedStrips(f, path, seqNo);
      HopsPreserve(w, lanes);
      WirePadding(g, pad);
      RestoredType(f);
    } else {
      PackFields(Trunc4(path), Trunc12(HSR_TAG_LEN + |f| - h));
      PaddedTag(g, pad, h);
      OversizeIsCut(f, path, seqNo, g + pad);
    }
  }
}
