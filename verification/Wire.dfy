/**
 * The wire formats octet by octet, without the field functions the codecs are built
 * from: what another implementation of IEC 62439-3 finds at each offset.
 */
module Wire {
  import opened Bytes
  import opened Engine
  import Supervision

  // ---------------------------------------------------------------- Ethernet header

  /** An IEEE 802.1Q or 802.1ad tag follows the addresses. */
  predicate VlanAt12(f: Frame) {
    |f| >= 14 && ((f[12] == 0x81 && f[13] == 0x00) || (f[12] == 0x88 && f[13] == 0xa8))
  }

  /** Destination first, then source; group addresses have an odd first octet. */
  lemma HeaderOctets(dst: Mac, src: Mac, rest: Frame)
    requires |dst| == |src| == 6
    ensures var f := dst + src + rest;
            && DstMac(f) == dst && SrcMac(f) == src && (Multicast(f) <==> dst[0] % 2 == 1)
            && (IsVlan(f) <==> VlanAt12(f)) && HeaderLen(f) == if VlanAt12(f) then 18 else 14
  {
    var f := dst + src + rest;
    assert f[..6] == dst && f[6..12] == src && f[0] == dst[0];
  }

  /** The low 12 bits of two octets. */
  function Size12(hi: int, lo: int): int { hi % 16 * 0x100 + lo }

  // ---------------------------------------------------------------- RCT

  /** Frames are padded to 60 octets, or 64 with a VLAN tag. */
  function MinSize(f: Frame): nat { if VlanAt12(f) then 64 else 60 }

  lemma PaddedSize(f: Frame)
    ensures |Padded(f)| == if |f| < MinSize(f) then MinSize(f) else |f|
  {
  }

  /** The six octets of the trailer: number, LAN nibble 0xA or 0xB above 12 bits of size, suffix 0x88FB. */
  lemma RctOctets(f: Frame, seqNo: Word, lan: nat)
    requires lan <= 1 && 14 <= |f| <= 4089 + HeaderLen(f)
    ensures var w, n := EncodeRct(f, seqNo, lan), |Padded(f)|;
            var size := n + 6 - if VlanAt12(f) then 18 else 14;
            && |w| == n + 6 && w[..n] == Padded(f)
            && w[n] == seqNo.hi && w[n + 1] == seqNo.lo
            && w[n + 2] / 16 == 10 + lan && Size12(w[n + 2], w[n + 3]) == size
            && w[n + 4] == 0x88 && w[n + 5] == 0xfb
  {
    RctLayout(f, seqNo, lan);
    var w, n := EncodeRct(f, seqNo, lan), |Padded(f)|;
    PackFields(0xA + lan, n + RCT_LEN - HeaderLen(f));
    assert Get16(w, n) == seqNo && Get16(w, n + 4) == PRP_SUFFIX;
  }

  /** A trailer is recognised exactly by its suffix and its size; the LAN is the low bit of its nibble. */
  lemma RctRecognised(w: Frame)
    requires |w| >= 20
    ensures var n := |w| - 6;
            && (DecodeRct(w).Some? <==>
                  && w[n + 4] == 0x88 && w[n + 5] == 0xfb
                  && Size12(w[n + 2], w[n + 3]) == |w| - if VlanAt12(w) then 18 else 14)
            && (DecodeRct(w).Some? ==>
                  && DecodeRct(w).value.lan == w[n + 2] / 16 % 2
                  && DecodeRct(w).value.seqNo.hi == w[n] && DecodeRct(w).value.seqNo.lo == w[n + 1]
                  && DecodeRct(w).value.body == w[..n])
  {
  }

  lemma ShortHasNoRct(w: Frame)
    requires |w| < 20
    ensures DecodeRct(w).None?
  {
  }

  // ---------------------------------------------------------------- HSR tag

  /** Where a tag would be: behind the addresses and at most one VLAN tag, after type 0x892F. */
  function TagAt(f: Frame): nat { if VlanAt12(f) then 18 else 14 }

  predicate TypedAt(f: Frame, off: nat) {
    2 <= off <= |f| && f[off - 2] == 0x89 && f[off - 1] == 0x2f
  }

  /** A tag is read exactly if its type and six octets are there and its size lies within the frame. */
  lemma TagRecognised(f: Frame)
    requires |f| >= 14
    ensures var off := TagAt(f);
            && (DecodeHsr(f).Some? <==>
                  && TypedAt(f, off) && off + 6 <= |f|
                  && 6 <= Size12(f[off], f[off + 1]) <= |f| - off)
            && (DecodeHsr(f).Some? ==>
                  && TagOffset(f) == Some(off) && DecodeHsr(f).value.path == f[off] / 16
                  && DecodeHsr(f).value.seqNo.hi == f[off + 2] && DecodeHsr(f).value.seqNo.lo == f[off + 3]
                  && DecodeHsr(f).value.encap.hi == f[off + 4] && DecodeHsr(f).value.encap.lo == f[off + 5]
                  && DecodeHsr(f).value.payload == f[off + 6..off + Size12(f[off], f[off + 1])])
  {
  }

  /** A frame with a tag inserted behind its header, octet by octet. */
  lemma TagOctets(f: Frame, path: nat, seqNo: Word)
    requires |f| >= HeaderLen(f) && |f| - HeaderLen(f) <= 4089
    ensures var w, h := Tagged(f, path, seqNo), if VlanAt12(f) then 18 else 14;
            && |w| == |f| + 6 && w[..h - 2] == f[..h - 2] && w[h - 2] == 0x89 && w[h - 1] == 0x2f
            && w[h] / 16 == path % 16 && Size12(w[h], w[h + 1]) == 6 + |f| - h
            && w[h + 2] == seqNo.hi && w[h + 3] == seqNo.lo
            && w[h + 4] == EtherType(f).hi && w[h + 5] == EtherType(f).lo && w[h + 6..] == f[h..]
  {
    TaggedLayout(f, path, seqNo);
    var w, h := Tagged(f, path, seqNo), HeaderLen(f);
    PackFields(Trunc4(path), HSR_TAG_LEN + |f| - h);
    assert Get16(w, h + 2) == seqNo && Get16(w, h + 4) == EtherType(f);
    assert Get16(w, h - 2) == HSR_ETHER_TYPE;
  }

  // ---------------------------------------------------------------- supervision

  /** Octets every announcement shares: group address 01:15:4E:00:01:00, type 0x88FB, version 1, TLV and address. */
  lemma AnnouncementOctets(mac: Mac, n: Word, path: nat, tlv: byte)
    requires |mac| == 6
    ensures var f := Supervision.Body(mac, n, path, tlv);
            && |f| == 60 && f[..6] == [0x01, 0x15, 0x4e, 0x00, 0x01, 0x00] && f[6..12] == mac
            && f[12] == 0x88 && f[13] == 0xfb && f[14] == path % 16 * 16 && f[15] == 1
            && f[16] == n.hi && f[17] == n.lo && f[18] == tlv && f[19] == 6 && f[20..26] == mac
            && forall i :: 26 <= i < 60 ==> f[i] == 0
  {
    var f := Supervision.Body(mac, n, path, tlv);
    var w := Pack(Trunc4(path), Supervision.SUP_VERSION);
    assert f[..6] == Supervision.SUPER_MULTICAST && f[6..12] == mac && f[20..26] == mac;
    assert f[12..14] == Put16(PRP_SUFFIX) && f[14..16] == Put16(w) && f[16..18] == Put16(n);
    assert f[12] == f[12..14][0] && f[13] == f[12..14][1] && f[14] == f[14..16][0] && f[15] == f[14..16][1];
    assert f[16] == f[16..18][0] && f[17] == f[16..18][1];
  }

  /** PRP nodes announce with TLV 20 and a trailer of their LAN, HSR nodes with TLV 23 and their path. */
  lemma DialectOctets(mac: Mac, n: Word, lan: nat, path: nat)
    requires |mac| == 6 && lan <= 1
    ensures Supervision.BuildHsr(mac, n, path) == Supervision.Body(mac, n, path, 23)
    ensures var f := Supervision.BuildRcted(mac, n, lan);
            && |f| == 66 && f[..60] == Supervision.Body(mac, n, 0, 20) && f[60] == n.hi && f[61] == n.lo
            && f[62] == (10 + lan) * 16 && f[63] == 52 && f[64] == 0x88 && f[65] == 0xfb
  {
    var f := Supervision.BuildRcted(mac, n, lan);
    var w := Pack(0xA + lan, Supervision.SUP_LSDU_SIZE);
    assert f[60..62] == Put16(n) && f[62..64] == Put16(w) && f[64..66] == Put16(PRP_SUFFIX);
    assert f[60] == f[60..62][0] && f[61] == f[60..62][1] && f[62] == f[62..64][0] && f[63] == f[62..64][1];
    assert f[64] == f[64..66][0] && f[65] == f[64..66][1];
  }

  /** What is read from an announcement, and from which octets. */
  lemma ReadsAnnouncement(f: Frame)
    requires |f| >= 26
    ensures Supervision.Parse(f).Some? <==>
              f[..6] == [0x01, 0x15, 0x4e, 0x00, 0x01, 0x00] && f[12] == 0x88 && f[13] == 0xfb
    ensures Supervision.Parse(f).Some? ==>
              var a := Supervision.Parse(f).value;
              && a.src == f[6..12] && a.path == f[14] / 16 && a.seqNo == Word(f[16], f[17]) && a.tlv == f[18]
              && a.macA == f[20..26] && a.redBox == if f[18] == 30 && |f| >= 32 then Some(f[26..32]) else None
  {
  }
}
