/** internal/supervision: building and parsing 0x88FB supervision frames. */
module Supervision {
  import opened Bytes
  import opened Engine

  const SUPER_MULTICAST: Mac := [0x01, 0x15, 0x4e, 0x00, 0x01, 0x00]
  const LIFE_CHECK_DD: byte := 20
  const HSR_LIFE_CHECK: byte := 23
  const RED_BOX_MAC_TLV: byte := 30
  const SUP_VERSION := 1
  const SUP_LSDU_SIZE := 52

  datatype Announcement = Announcement(
    src: Mac, seqNo: Word, path: nat, tlv: byte, macA: Mac, redBox: Option<Mac>)

  /** Header, version word, sequence number, TLV and MAC, padded to 60 bytes. */
  function Body(mac: Mac, seqNo: Word, path: nat, tlv: byte): (f: Frame)
    requires |mac| == 6
    ensures |f| == 60
  {
    SUPER_MULTICAST + mac + Put16(PRP_SUFFIX) + Put16(Pack(Trunc4(path), SUP_VERSION)) + Put16(seqNo)
    + [tlv, 6] + mac + Zeros(34)
  }

  function Build(mac: Mac, seqNo: Word): Frame
    requires |mac| == 6
  {
    Body(mac, seqNo, 0, LIFE_CHECK_DD)
  }

  function BuildRcted(mac: Mac, seqNo: Word, lan: nat): Frame
    requires |mac| == 6 && lan <= 1
  {
    Build(mac, seqNo) + Put16(seqNo) + Put16(Pack(0xA + lan, SUP_LSDU_SIZE)) + Put16(PRP_SUFFIX)
  }

  function BuildHsr(mac: Mac, seqNo: Word, path: nat): Frame
    requires |mac| == 6
  {
    Body(mac, seqNo, path, HSR_LIFE_CHECK)
  }

  predicate IsAnnouncement(f: Frame) {
    |f| >= 20 && f[..6] == SUPER_MULTICAST && Get16(f, 12) == PRP_SUFFIX
  }

  /** A recognised announcement must reach its MAC field: the slice [20:26] is taken unchecked. */
  function Parse(f: Frame): Option<Announcement>
    requires IsAnnouncement(f) ==> |f| >= 26
  {
    if !IsAnnouncement(f) then None
    else Some(Announcement(
                SrcMac(f), Get16(f, 16), High4(Get16(f, 14)), f[18], f[20..26],
                if f[18] == RED_BOX_MAC_TLV && |f| >= 32 then Some(f[26..32]) else None))
  }

  /** The announcement fields as octet slices. */
  ghost predicate Layout(f: Frame, mac: Mac, number: Frame, version: Frame, tlv: byte) {
    && |f| >= 60 && |mac| == 6
    && f[..6] == SUPER_MULTICAST && f[6..12] == mac && f[20..26] == mac && f[18] == tlv
    && f[12..14] == Put16(PRP_SUFFIX) && f[14..16] == version && f[16..18] == number
  }

  lemma AssembledLayout(suffix: Frame, version: Frame, number: Frame, rest: Frame, mac: Mac, tlv: byte)
    requires |mac| == 6 && |rest| >= 34 && |version| == |number| == 2 && suffix == Put16(PRP_SUFFIX)
    ensures Layout(SUPER_MULTICAST + mac + suffix + version + number + [tlv, 6] + mac + rest, mac, number, version, tlv)
  {
  }

  lemma BodyAppend(suffix: Frame, version: Frame, number: Frame, trailer: Frame, mac: Mac, tlv: byte)
    requires |mac| == 6 && |version| == |number| == 2 && suffix == Put16(PRP_SUFFIX)
    ensures Layout(SUPER_MULTICAST + mac + suffix + version + number + [tlv, 6] + mac + Zeros(34) + trailer,
                   mac, number, version, tlv)
  {
    AssembledLayout(suffix, version, number, Zeros(34) + trailer, mac, tlv);
    var head := SUPER_MULTICAST + mac + suffix + version + number + [tlv, 6] + mac;
    assert head + Zeros(34) + trailer == head + (Zeros(34) + trailer);
  }

  lemma LayoutParses(w: Frame, mac: Mac, seqNo: Word, path: nat, tlv: byte)
    requires path < 16 && tlv != RED_BOX_MAC_TLV
    requires Layout(w, mac, Put16(seqNo), Put16(Pack(path, SUP_VERSION)), tlv)
    ensures Parse(w) == Some(Announcement(mac, seqNo, path, tlv, mac, None))
    ensures EtherType(w) == PRP_SUFFIX
  {
    assert forall i :: 12 <= i <= 16 ==> Put16(Get16(w, i)) == w[i..i + 2];
    assert EtherTypeOffset(w, 12) == Some(12);
  }

  /** Both supervision dialects parse back to the announcing node, number and path, trailer or not. */
  lemma ParseBody(mac: Mac, seqNo: Word, path: nat, tlv: byte, trailer: Frame)
    requires |mac| == 6 && path < 16 && tlv != RED_BOX_MAC_TLV
    ensures Parse(Body(mac, seqNo, path, tlv) + trailer)
            == Some(Announcement(mac, seqNo, path, tlv, mac, None))
    ensures EtherType(Body(mac, seqNo, path, tlv) + trailer) == PRP_SUFFIX
  {
    var version, number := Put16(Pack(path, SUP_VERSION)), Put16(seqNo);
    BodyAppend(Put16(PRP_SUFFIX), version, number, trailer, mac, tlv);
    LayoutParses(Body(mac, seqNo, path, tlv) + trailer, mac, seqNo, path, tlv);
  }

  /** The hand-written supervision trailer is the one the general encoder produces. */
  lemma BuildRctedIsEncodeRct(mac: Mac, seqNo: Word, lan: nat)
    requires |mac| == 6 && lan <= 1
    ensures BuildRcted(mac, seqNo, lan) == EncodeRct(Build(mac, seqNo), seqNo, lan)
    ensures DecodeRct(BuildRcted(mac, seqNo, lan)) == Some(Rct(lan, seqNo, Build(mac, seqNo)))
  {
    var f := Build(mac, seqNo);
    BuildIsFullSize(mac, seqNo);
    RctRoundTrip(f, seqNo, lan);
    assert BuildRcted(mac, seqNo, lan) == f + Trailer(seqNo, lan, SUP_LSDU_SIZE);
  }

  lemma BuildIsFullSize(mac: Mac, seqNo: Word)
    requires |mac| == 6
    ensures HeaderLen(Build(mac, seqNo)) == 14 && Padded(Build(mac, seqNo)) == Build(mac, seqNo)
  {
    var f := Build(mac, seqNo);
    assert f[12..14] == Put16(PRP_SUFFIX);
    assert Get16(f, 12) == PRP_SUFFIX;
  }
}
