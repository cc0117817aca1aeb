/**
 * A node's own supervision: what its announcements tell a peer, and that a peer which
 * keeps hearing them never takes the node for restarted.
 */
module Announcing {
  import opened Bytes
  import opened Engine
  import opened Role
  import opened NodeSpec
  import opened NodeRun
  import opened Numbering
  import Supervision
  import Lanes
  import Wire

  // ---------------------------------------------------------------- what a peer reads

  /** The frame is an announcement of `mac` with number `n`. */
  predicate Tells(f: Frame, mac: Mac, n: Word) {
    && |f| >= 60 && EtherType(f) == PRP_SUFFIX
    && Supervision.Parse(f).Some? && Supervision.Parse(f).value.src == mac && Supervision.Parse(f).value.seqNo == n
  }

  lemma RingDialectTells(mac: Mac, n: Word, path: nat)
    requires |mac| == 6
    ensures Tells(Supervision.BuildHsr(mac, n, path), mac, n)
  {
    var f := Supervision.BuildHsr(mac, n, path);
    assert f == Supervision.BuildHsr(mac, n, Trunc4(path)) && f + [] == f;
    Supervision.ParseBody(mac, n, Trunc4(path), Supervision.HSR_LIFE_CHECK, []);
  }

  lemma LanDialectTells(mac: Mac, n: Word, lan: nat)
    requires |mac| == 6 && lan <= 1
    ensures Tells(Supervision.BuildRcted(mac, n, lan), mac, n)
  {
    var f, body := Supervision.BuildRcted(mac, n, lan), Supervision.Build(mac, n);
    Supervision.ParseBody(mac, n, 0, Supervision.LIFE_CHECK_DD, f[60..]);
    assert f == body + f[60..];
  }

  lemma PortsAnnounce(io: set<Port>, a: Frame, b: Frame, c: Option<Frame>, mac: Mac, n: Word, p: Port)
    requires Tells(a, mac, n) && Tells(b, mac, n) && (c.Some? ==> Tells(c.value, mac, n))
    ensures p in OnPorts(io, a, b, c) <==> p in io && (p == Interlink ==> c.Some?)
    ensures p in OnPorts(io, a, b, c) ==> Tells(OnPorts(io, a, b, c)[p], mac, n)
  {
  }

  /**
   * A round announces the node under the number after the last one, on every redundant
   * port and on the interlink of a QuadBox or coupling node that has one; a peer parses
   * address and number out of each of these frames.
   */
  lemma RoundTellsPeers(cfg: Config, st: State, io: set<Port>, p: Port)
    requires |cfg.mac| == 6
    ensures var o := Announce(cfg, st, io);
            && o.st == st.(supSeq := Succ(st.supSeq))
            && (p in o.out <==>
                  p in io && (p == Interlink ==> cfg.hasInterlink && (cfg.IsQuadBox() || cfg.IsCoupling())))
            && (p in o.out ==> Tells(o.out[p], cfg.mac, Succ(st.supSeq)))
  {
    var n := Succ(st.supSeq);
    var a, b, c := Announcement(cfg, n, LanA), Announcement(cfg, n, LanB), InterlinkAnnouncement(cfg, n);
    RingDialectTells(cfg.mac, n, InjectionPath(cfg));
    LanDialectTells(cfg.mac, n, 0);
    LanDialectTells(cfg.mac, n, 1);
    PortsAnnounce(io, a, b, c, cfg.mac, n, p);
  }

  // ---------------------------------------------------------------- the octets of a round

  /** The sixty octets of an announcement: group address, type, path and version, number, TLV and address. */
  predicate Body60(f: Frame, mac: Mac, n: Word, path: int, tlv: byte) {
    && |f| >= 60 && f[..6] == [0x01, 0x15, 0x4e, 0x00, 0x01, 0x00] && f[6..12] == mac
    && f[12] == 0x88 && f[13] == 0xfb && f[14] == path * 16 && f[15] == 1 && f[16] == n.hi && f[17] == n.lo
    && f[18] == tlv && f[19] == 6 && f[20..26] == mac && forall i :: 26 <= i < 60 ==> f[i] == 0
  }

  /** TLV 20 and path 0, followed by an RCT of `lan`. */
  predicate LanDialect(f: Frame, mac: Mac, n: Word, lan: int) {
    && |f| == 66 && Body60(f, mac, n, 0, 20) && f[60] == n.hi && f[61] == n.lo
    && f[62] == (10 + lan) * 16 && f[63] == 52 && f[64] == 0x88 && f[65] == 0xfb
  }

  /** TLV 23 and the path of the node, without a trailer. */
  predicate RingDialect(f: Frame, mac: Mac, n: Word, path: int) {
    |f| == 60 && Body60(f, mac, n, path, 23)
  }

  /** What a node of each role announces on each port. */
  predicate AnnouncedOn(cfg: Config, f: Frame, n: Word, p: Port) {
    match cfg.role
    case PrpSan => LanDialect(f, cfg.mac, n, if p == LanB then 1 else 0)
    case HsrSan => RingDialect(f, cfg.mac, n, 0)
    case HsrHsr => RingDialect(f, cfg.mac, n, 0)
    case HsrPrp =>
      if p == Interlink then LanDialect(f, cfg.mac, n, if cfg.lanB then 1 else 0)
      else RingDialect(f, cfg.mac, n, Lanes.ConfiguredPath(cfg) % 16)
  }

  lemma LanOctets(mac: Mac, n: Word, lan: nat)
    requires |mac| == 6 && lan <= 1
    ensures LanDialect(Supervision.BuildRcted(mac, n, lan), mac, n, lan)
  {
    Wire.DialectOctets(mac, n, lan, 0);
    Wire.AnnouncementOctets(mac, n, 0, 20);
    var f := Supervision.BuildRcted(mac, n, lan);
    assert f[..6] == f[..60][..6] && f[6..12] == f[..60][6..12] && f[20..26] == f[..60][20..26];
  }

  lemma RingOctets(mac: Mac, n: Word, path: nat)
    requires |mac| == 6
    ensures RingDialect(Supervision.BuildHsr(mac, n, path), mac, n, path % 16)
  {
    Wire.DialectOctets(mac, n, 0, path);
    Wire.AnnouncementOctets(mac, n, path, 23);
  }

  lemma AnnouncementDialect(cfg: Config, n: Word, p: Port)
    requires |cfg.mac| == 6
    ensures p != Interlink ==> AnnouncedOn(cfg, Announcement(cfg, n, p), n, p)
    ensures InterlinkAnnouncement(cfg, n).Some? ==> AnnouncedOn(cfg, InterlinkAnnouncement(cfg, n).value, n, Interlink)
  {
    LanOctets(cfg.mac, n, if p == LanB then 1 else 0);
    LanOctets(cfg.mac, n, if cfg.lanB then 1 else 0);
    RingOctets(cfg.mac, n, Lanes.ConfiguredPath(cfg));
  }

  lemma PortsCarry(cfg: Config, io: set<Port>, a: Frame, b: Frame, c: Option<Frame>, n: Word, p: Port)
    requires AnnouncedOn(cfg, a, n, LanA) && AnnouncedOn(cfg, b, n, LanB)
    requires c.Some? ==> AnnouncedOn(cfg, c.value, n, Interlink)
    ensures p in OnPorts(io, a, b, c) ==> AnnouncedOn(cfg, OnPorts(io, a, b, c)[p], n, p)
  {
  }

  /** Every octet of a round: dialect, LAN and path follow from the role, the port and the configured fields. */
  lemma RoundOctets(cfg: Config, st: State, io: set<Port>, p: Port)
    requires |cfg.mac| == 6
    ensures var o := Announce(cfg, st, io); p in o.out ==> AnnouncedOn(cfg, o.out[p], Succ(st.supSeq), p)
  {
    var n := Succ(st.supSeq);
    AnnouncementDialect(cfg, n, LanA);
    AnnouncementDialect(cfg, n, LanB);
    PortsCarry(cfg, io, Announcement(cfg, n, LanA), Announcement(cfg, n, LanB), InterlinkAnnouncement(cfg, n), n, p);
  }

  // ---------------------------------------------------------------- rounds over a run

  function RoundsBefore(run: Run, n: nat): nat
    requires n <= |run.evs|
  {
    if n == 0 then 0 else RoundsBefore(run, n - 1) + if run.evs[n - 1].Round? then 1 else 0
  }

  lemma RoundStep(cfg: Config, run: Run, i: nat)
    requires IsRun(cfg, run) && i < |run.evs|
    ensures run.sts[i + 1].supSeq == if run.evs[i].Round? then Succ(run.sts[i].supSeq) else run.sts[i].supSeq
    ensures run.evs[i].Round? ==>
              |cfg.mac| == 6 && forall p :: p in run.outs[i].out ==> Tells(run.outs[i].out[p], cfg.mac, run.sts[i + 1].supSeq)
  {
    assert StepAt(cfg, run, i);
    StepNumbers(cfg, run, i);
    if run.evs[i].Round? {
      forall p | p in run.outs[i].out ensures Tells(run.outs[i].out[p], cfg.mac, run.sts[i + 1].supSeq) {
        RoundTellsPeers(cfg, run.sts[i], run.evs[i].io, p);
      }
    }
  }

  /** Rounds are numbered consecutively, whatever happens in between. */
  lemma {:induction false} ConsecutiveRounds(cfg: Config, run: Run, n: nat)
    requires IsRun(cfg, run) && n <= |run.evs|
    ensures run.sts[n].supSeq == NumberAt(run.sts[0].supSeq, RoundsBefore(run, n))
  {
    if n > 0 {
      ConsecutiveRounds(cfg, run, n - 1);
      RoundStep(cfg, run, n - 1);
    }
  }

  /** The first round of a new node has number 1. */
  lemma FirstRound(cfg: Config, run: Run, n: nat)
    requires IsRun(cfg, run) && n < |run.evs| && run.sts[0] == INITIAL && run.evs[n].Round? && RoundsBefore(run, n) == 0
    ensures run.sts[n + 1].supSeq == Word(0, 1)
  {
    ConsecutiveRounds(cfg, run, n);
    RoundStep(cfg, run, n);
  }

  // ---------------------------------------------------------------- a peer that hears them

  /** Event `i` of the peer brings the frame that the announcer wrote on some port in round `r`. */
  ghost predicate Carries(ann: Run, ev: Event, r: nat) {
    && r < |ann.evs| && r < |ann.outs| && ann.evs[r].Round? && ev.Arrival?
    && exists p :: p in ann.outs[r].out && ev.frame == ann.outs[r].out[p]
  }

  /** Every announcement of `mac` that the peer hears stems from a round of the announcer. */
  ghost predicate HeardFrom(ann: Run, cfg: Config, peer: Run, mac: Mac, round: map<nat, nat>) {
    forall i :: 0 <= i < |peer.evs| && HearsAt(cfg, peer, i, mac) ==> i in round && Carries(ann, peer.evs[i], round[i])
  }

  /** They are heard in order, with fewer than 32768 rounds from one to the next heard. */
  ghost predicate HeardInOrder(ann: Run, cfg: Config, peer: Run, mac: Mac, round: map<nat, nat>) {
    forall i, j :: 0 <= i < j < |peer.evs| && NextHeard(cfg, peer, mac, i, j) && i in round && j in round
                   && round[i] <= |ann.evs| && round[j] <= |ann.evs| ==>
      0 <= RoundsBefore(ann, round[j]) - RoundsBefore(ann, round[i]) < 0x8000
  }

  ghost predicate NextHeard(cfg: Config, peer: Run, mac: Mac, i: nat, j: nat)
    requires i < j < |peer.evs|
  {
    && HearsAt(cfg, peer, i, mac) && HearsAt(cfg, peer, j, mac)
    && forall x :: i < x < j ==> !HearsAt(cfg, peer, x, mac)
  }

  lemma HeardNumber(cfgA: Config, ann: Run, cfg: Config, peer: Run, i: nat, r: nat)
    requires IsRun(cfgA, ann) && i < |peer.evs| && HearsAt(cfg, peer, i, cfgA.mac) && Carries(ann, peer.evs[i], r)
    ensures Heard(cfg, peer.evs[i]).value.seqNo == NumberAt(ann.sts[0].supSeq, RoundsBefore(ann, r) + 1)
  {
    RoundStep(cfgA, ann, r);
    ConsecutiveRounds(cfgA, ann, r + 1);
  }

  lemma {:induction false} LastHeardAt(cfg: Config, run: Run, n: nat, p: Mac) returns (i: nat)
    requires n <= |run.evs| && LastHeard(cfg, run, n, p).Some?
    ensures i < n && HearsAt(cfg, run, i, p) && forall x :: i < x < n ==> !HearsAt(cfg, run, x, p)
    ensures LastHeard(cfg, run, n, p).value == Heard(cfg, run.evs[i]).value.seqNo
  {
    if HearsAt(cfg, run, n - 1, p) { i := n - 1; } else { i := LastHeardAt(cfg, run, n - 1, p); }
  }

  lemma NextAdvances(cfgA: Config, ann: Run, cfg: Config, peer: Run, round: map<nat, nat>, j: nat)
    requires IsRun(cfgA, ann) && HeardFrom(ann, cfg, peer, cfgA.mac, round) && HeardInOrder(ann, cfg, peer, cfgA.mac, round)
    requires j < |peer.evs| && HearsAt(cfg, peer, j, cfgA.mac) && LastHeard(cfg, peer, j, cfgA.mac).Some?
    ensures exists d :: 0 <= d < 0x8000
              && Heard(cfg, peer.evs[j]).value.seqNo == NumberAt(LastHeard(cfg, peer, j, cfgA.mac).value, d)
  {
    var i := LastHeardAt(cfg, peer, j, cfgA.mac);
    HeardNumber(cfgA, ann, cfg, peer, i, round[i]);
    HeardNumber(cfgA, ann, cfg, peer, j, round[j]);
    assert NextHeard(cfg, peer, cfgA.mac, i, j);
    var d := RoundsBefore(ann, round[j]) - RoundsBefore(ann, round[i]);
    StepsAdd(ann.sts[0].supSeq, RoundsBefore(ann, round[i]) + 1, d);
  }

  /** A peer that hears a running node's announcements in order never takes it for restarted. */
  lemma RunningNodeIsNotFlushed(cfgA: Config, ann: Run, cfg: Config, peer: Run, round: map<nat, nat>, i: nat)
    requires IsRun(cfgA, ann) && IsRun(cfg, peer) && i < |peer.evs| && cfgA.mac !in peer.sts[0].supSeqs
    requires HeardFrom(ann, cfg, peer, cfgA.mac, round) && HeardInOrder(ann, cfg, peer, cfgA.mac, round)
    ensures KeepsAdvancing(cfg, peer, |peer.evs|, cfgA.mac)
    ensures Possible(cfg, peer.evs[i]) && !Flushes(cfg, peer.sts[i], peer.evs[i], cfgA.mac)
  {
    forall j | 0 <= j < |peer.evs| && HearsAt(cfg, peer, j, cfgA.mac) && LastHeard(cfg, peer, j, cfgA.mac).Some?
      ensures exists d :: 0 <= d < 0x8000
                && Heard(cfg, peer.evs[j]).value.seqNo == NumberAt(LastHeard(cfg, peer, j, cfgA.mac).value, d)
    {
      NextAdvances(cfgA, ann, cfg, peer, round, j);
    }
    NeverFlushed(cfg, peer, |peer.evs|, cfgA.mac, i);
  }
}
