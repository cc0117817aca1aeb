/**
 * The three tables of known nodes: ring members, peers whose supervision was heard, and
 * the SANs or PRP nodes behind the interlink. What enters them, what the periodic cleanup removes, and exactly who is in them at
 * any moment of a run.
 */
module Housekeeping {
  import opened Bytes
  import opened Engine
  import opened NodeTable
  import opened Role
  import opened NodeSpec
  import opened NodeRun
  import Lanes
  import Membership
  import Redundancy
  import Supervision
  import Wire

  datatype Kind = Members | Peers | Proxied

  /** When each node of the table was last learned. */
  function Known(st: State, kind: Kind): map<Mac, int> {
    match kind case Members => st.ring case Peers => st.supSeen case Proxied => st.proxy
  }

  predicate OnRingPort(cfg: Config, ev: Event) {
    cfg.role != PrpSan && ev.Arrival? && ev.port != Interlink
  }

  /** A frame of the interlink that a node repeats to its redundant ports. */
  predicate FromInterlink(cfg: Config, ev: Event) {
    && ev.Arrival? && ev.port == Interlink && |ev.frame| >= 14
    && cfg.role != HsrHsr && (cfg.role == PrpSan ==> Redundancy.Passes(cfg, ev.frame))
  }

  /**
   * What teaches a node about `s`: an announcement makes it a peer, and on a ring port also
   * a ring member, as does a first copy there; a frame from the interlink makes it proxied.
   */
  predicate Learns(cfg: Config, ev: Event, o: Outcome, kind: Kind, s: Mac)
    requires Possible(cfg, ev)
  {
    match kind
    case Proxied => FromInterlink(cfg, ev) && SrcMac(ev.frame) == s
    case Peers => Heard(cfg, ev).Some? && Heard(cfg, ev).value.src == s
    case Members =>
      && OnRingPort(cfg, ev)
      && ((Heard(cfg, ev).Some? && Heard(cfg, ev).value.src == s) || (o.verdict.Accepted? && o.verdict.key.src == s))
  }

  /** A tick forgets what is older than the forget time, as long as some peer is remembered; proxied nodes stay. */
  predicate Forgets(cfg: Config, st: State, ev: Event, kind: Kind, learned: int) {
    kind != Proxied && ev.Tick? && st.supSeen != map[] && ev.now - learned > cfg.NodeForgetMs()
  }

  /** The complete effect of a step on the entry of one node. */
  ghost predicate KnownAfter(cfg: Config, st: State, ev: Event, o: Outcome, kind: Kind, s: Mac)
    requires Possible(cfg, ev)
  {
    var before, after := Known(st, kind), Known(o.st, kind);
    if Learns(cfg, ev, o, kind, s) then s in after && after[s] == ev.now
    else
      && (s in after <==> s in before && !Forgets(cfg, st, ev, kind, before[s]))
      && (s in after ==> after[s] == before[s])
  }

  // ---------------------------------------------------------------- one step

  /** Peers and proxied nodes are left alone. */
  ghost predicate KeepsOthers(st: State, o: Outcome) {
    Same(o.st.supSeen, st.supSeen) && Same(o.st.proxy, st.proxy)
  }

  lemma AcceptKeeps(cfg: Config, st: State, now: int, port: Port, v: RingView, io: set<Port>, victim: Key)
    ensures KeepsOthers(st, HsrAccept(cfg, st, now, port, v, io, victim))
  {
  }

  lemma QuadBoxKeeps(cfg: Config, st: State, now: int, v: RingView, io: set<Port>, victim: Key)
    ensures KeepsOthers(st, QuadBoxAccept(cfg, st, now, v, io, victim))
  {
  }

  lemma ScreenKeeps(cfg: Config, st: State, now: int, port: Port, v: RingView, io: set<Port>, victim: Key)
    ensures KeepsOthers(st, HsrScreen(cfg, st, now, port, v, io, victim))
  {
    if port == Interlink {
      QuadBoxKeeps(cfg, st, now, v, io, victim);
    } else {
      AcceptKeeps(cfg, st, now, port, v, io, victim);
    }
  }

  lemma ReceiveKnown(cfg: Config, st: State, ev: Event)
    requires ev.Arrival?
    ensures var o := HsrReceive(cfg, st, ev.now, ev.port, ev.frame, ev.io, ev.victim);
            && KeepsOthers(st, o)
            && o.st.ring == if o.verdict.Accepted? && ev.port != Interlink then st.ring[o.verdict.key.src := ev.now] else st.ring
  {
    var s := st.In(ev.port);
    var view := ViewOf(cfg, s, ev.now, ev.frame);
    if view.Some? {
      Membership.ScreenLearns(cfg, s, ev.now, ev.port, view.value, ev.io, ev.victim);
      ScreenKeeps(cfg, s, ev.now, ev.port, view.value, ev.io, ev.victim);
    }
  }

  lemma PrpAcceptKeeps(cfg: Config, st: State, now: int, v: LanView, io: set<Port>, victim: Key)
    ensures var o := PrpAccept(cfg, st, now, v, io, victim); KeepsOthers(st, o) && Same(o.st.ring, st.ring)
  {
  }

  lemma PrpScreenKeeps(cfg: Config, st: State, now: int, v: LanView, io: set<Port>, victim: Key, o: Outcome)
    requires o == Refuse(st, Malformed) || o == Refuse(st, Path) || o == PrpScreen(cfg, st, now, v, io, victim)
    ensures KeepsOthers(st, o) && Same(o.st.ring, st.ring)
  {
    PrpAcceptKeeps(cfg, st, now, v, io, victim);
  }

  lemma PrpReceiveKeeps(cfg: Config, st: State, ev: Event)
    requires ev.Arrival?
    ensures var o := PrpReceive(cfg, st, ev.now, ev.port, ev.frame, ev.io, ev.victim);
            KeepsOthers(st, o) && Same(o.st.ring, st.ring)
  {
    var s, o := st.In(ev.port), PrpReceive(cfg, st, ev.now, ev.port, ev.frame, ev.io, ev.victim);
    var view := LanViewOf(cfg, s, ev.now, ev.frame);
    if view.Some? { PrpScreenKeeps(cfg, s, ev.now, view.value, ev.io, ev.victim, o); }
  }

  /** Only the source is learned, as a node behind the interlink. */
  ghost predicate Proxies(st: State, now: int, src: Mac, o: Outcome) {
    Same(o.st.supSeen, st.supSeen) && Same(o.st.ring, st.ring) && Same(o.st.proxy, st.proxy[src := now])
  }

  lemma LaunchKeeps(cfg: Config, st: State, now: int, k: Key, w: Frame, io: set<Port>, victim: Key)
    ensures var o := Launch(cfg, st, now, k, w, io, victim); KeepsOthers(st, o) && Same(o.st.ring, st.ring)
  {
  }

  lemma InjectProxies(cfg: Config, st: State, now: int, f: Frame, io: set<Port>, victim: Key)
    requires |f| >= HeaderLen(f) || (cfg.IsCoupling() && DecodeRct(f).None?)
    ensures Proxies(st, now, SrcMac(f), HsrInject(cfg, st, now, f, io, victim))
  {
    var src := SrcMac(f);
    var s := st.In(Interlink).(proxy := st.proxy[src := now]);
    if !cfg.IsCoupling() {
      var n := NextSeq(cfg, s, src);
      LaunchKeeps(cfg, TakeSeq(cfg, s, src), now, Key(src, n), Tagged(f, InjectionPath(cfg), n), io, victim);
    } else if DecodeRct(f).Some? {
      var n := DecodeRct(f).value.seqNo;
      LaunchKeeps(cfg, s, now, Key(src, n), Tagged(f, InjectionPath(cfg), n), io, victim);
    }
  }

  lemma InterlinkKnown(cfg: Config, st: State, ev: Event, kind: Kind, s: Mac)
    requires ev.Arrival? && Possible(cfg, ev) && |ev.frame| >= 14 && ev.port == Interlink && !cfg.IsQuadBox()
    ensures KnownAfter(cfg, st, ev, Step(cfg, st, ev), kind, s)
  {
    if cfg.IsHsr() {
      InjectProxies(cfg, st, ev.now, ev.frame, ev.io, ev.victim);
    } else {
      Redundancy.SanFrameIsSent(cfg, st, ev);
    }
  }

  lemma DataKnown(cfg: Config, st: State, ev: Event, kind: Kind, s: Mac)
    requires ev.Arrival? && Possible(cfg, ev) && |ev.frame| >= 14 && !IsSupervision(cfg, ev.port, ev.frame)
    ensures KnownAfter(cfg, st, ev, Step(cfg, st, ev), kind, s)
  {
    if ev.port == Interlink && !cfg.IsQuadBox() {
      InterlinkKnown(cfg, st, ev, kind, s);
    } else if cfg.IsHsr() {
      ReceiveKnown(cfg, st, ev);
    } else {
      PrpReceiveKeeps(cfg, st, ev);
    }
  }

  lemma SuperviseKnown(cfg: Config, st: State, ev: Event, o: Outcome, kind: Kind, s: Mac)
    requires ev.Arrival? && Possible(cfg, ev) && |ev.frame| >= 14 && IsSupervision(cfg, ev.port, ev.frame)
    requires var s1 := Supervise(cfg, st, ev.now, ev.port, ev.frame);
             o.verdict == Ignored && o.st.ring == s1.ring && o.st.supSeen == s1.supSeen && o.st.proxy == s1.proxy
    ensures KnownAfter(cfg, st, ev, o, kind, s)
  {
  }

  lemma HeardKnown(cfg: Config, st: State, ev: Event, kind: Kind, s: Mac)
    requires ev.Arrival? && Possible(cfg, ev) && |ev.frame| >= 14 && IsSupervision(cfg, ev.port, ev.frame)
    ensures KnownAfter(cfg, st, ev, Step(cfg, st, ev), kind, s)
  {
    BridgeKeeps(cfg, Supervise(cfg, st, ev.now, ev.port, ev.frame), ev.port, ev.frame, ev.io);
    SuperviseKnown(cfg, st, ev, Step(cfg, st, ev), kind, s);
  }

  lemma StepKnown(cfg: Config, st: State, ev: Event, kind: Kind, s: Mac)
    requires Possible(cfg, ev)
    ensures KnownAfter(cfg, st, ev, Step(cfg, st, ev), kind, s)
  {
    if ev.Arrival? && |ev.frame| >= 14 {
      if IsSupervision(cfg, ev.port, ev.frame) {
        HeardKnown(cfg, st, ev, kind, s);
      } else {
        DataKnown(cfg, st, ev, kind, s);
      }
    }
  }

  // ---------------------------------------------------------------- runs

  predicate LearnsAt(cfg: Config, run: Run, i: nat, kind: Kind, s: Mac)
    requires i < |run.evs| == |run.outs|
  {
    Possible(cfg, run.evs[i]) && Learns(cfg, run.evs[i], run.outs[i], kind, s)
  }

  /** No tick from `i` up to `n` forgets what was learned in step `i`. */
  ghost predicate Lasts(cfg: Config, run: Run, i: nat, n: nat, kind: Kind)
    requires i < n <= |run.evs| && |run.sts| == |run.evs| + 1
  {
    forall j :: i < j < n ==> !Forgets(cfg, run.sts[j], run.evs[j], kind, run.evs[i].now)
  }

  lemma KnownStep(cfg: Config, run: Run, i: nat, kind: Kind, s: Mac)
    requires IsRun(cfg, run) && i < |run.evs|
    ensures Possible(cfg, run.evs[i]) && run.sts[i + 1] == run.outs[i].st
    ensures KnownAfter(cfg, run.sts[i], run.evs[i], run.outs[i], kind, s)
  {
    assert StepAt(cfg, run, i);
    StepKnown(cfg, run.sts[i], run.evs[i], kind, s);
  }

  lemma {:induction false} LearnedIsKnown(cfg: Config, run: Run, i: nat, n: nat, kind: Kind, s: Mac)
    requires IsRun(cfg, run) && i < n <= |run.evs| && LearnsAt(cfg, run, i, kind, s) && Lasts(cfg, run, i, n, kind)
    ensures s in Known(run.sts[n], kind) && Known(run.sts[n], kind)[s] >= run.evs[i].now
  {
    KnownStep(cfg, run, n - 1, kind, s);
    assert InOrder(run, i, n - 1);
    if i < n - 1 { LearnedIsKnown(cfg, run, i, n - 1, kind, s); }
  }

  lemma {:induction false} KnownWasLearned(cfg: Config, run: Run, n: nat, kind: Kind, s: Mac) returns (i: nat)
    requires IsRun(cfg, run) && n <= |run.evs| && s !in Known(run.sts[0], kind) && s in Known(run.sts[n], kind)
    ensures i < n && LearnsAt(cfg, run, i, kind, s) && Lasts(cfg, run, i, n, kind)
    ensures Known(run.sts[n], kind)[s] == run.evs[i].now
  {
    i := n - 1;
    KnownStep(cfg, run, i, kind, s);
    if !LearnsAt(cfg, run, i, kind, s) {
      i := KnownWasLearned(cfg, run, n - 1, kind, s);
    }
  }

  /**
   * Exactly who is known: a node is a ring member, or a peer, if and only if some step
   * taught it and no later tick found that too old. So nothing but a tick removes a node,
   * and a tick never removes one that was learned within the forget time.
   */
  lemma KnownIffLearned(cfg: Config, run: Run, n: nat, kind: Kind, s: Mac)
    requires IsRun(cfg, run) && n <= |run.evs| && s !in Known(run.sts[0], kind)
    ensures s in Known(run.sts[n], kind) <==>
              exists i :: 0 <= i < n && LearnsAt(cfg, run, i, kind, s) && Lasts(cfg, run, i, n, kind)
  {
    if s in Known(run.sts[n], kind) {
      var i := KnownWasLearned(cfg, run, n, kind, s);
    } else {
      forall i | 0 <= i < n && LearnsAt(cfg, run, i, kind, s) ensures !Lasts(cfg, run, i, n, kind) {
        if Lasts(cfg, run, i, n, kind) { LearnedIsKnown(cfg, run, i, n, kind, s); }
      }
    }
  }

  // ---------------------------------------------------------------- what teaches

  /** A first copy on a ring port makes its source a ring member as of now. */
  lemma FirstCopyTeaches(cfg: Config, st: State, ev: Event)
    requires Lanes.FirstCopy(cfg, st, ev) && ev.port != Interlink
    ensures Possible(cfg, ev)
    ensures var s := Step(cfg, st, ev).st; s.ring == st.ring[SrcMac(ev.frame) := ev.now]
  {
    var v := Lanes.FirstCopyIsScreened(cfg, st, ev);
    Membership.AcceptLearns(cfg, st.In(ev.port), ev.now, ev.port, v, ev.io, ev.victim);
  }

  /** The frame is an announcement, by its octets. */
  predicate Announces(f: Frame) {
    |f| >= 26 && f[..6] == [0x01, 0x15, 0x4e, 0x00, 0x01, 0x00] && f[12] == 0x88 && f[13] == 0xfb
  }

  /** Consumed as supervision: on the redundant ports, and on the interlink of a QuadBox. */
  predicate Listens(cfg: Config, port: Port) { port != Interlink || cfg.role == HsrHsr }

  lemma AnnouncementIsHeard(cfg: Config, ev: Event)
    requires ev.Arrival? && Announces(ev.frame) && Listens(cfg, ev.port)
    ensures Possible(cfg, ev) && IsSupervision(cfg, ev.port, ev.frame)
    ensures var a := Heard(cfg, ev);
            a.Some? && a.value.src == ev.frame[6..12] && a.value.seqNo == Word(ev.frame[16], ev.frame[17])
  {
    Wire.ReadsAnnouncement(ev.frame);
  }

  /**
   * What a tick leaves of peers and ring members: everything while no peer is remembered,
   * otherwise what was learned within the forget time; and the duplicate entries that have
   * not expired.
   */
  lemma TickForgets(cfg: Config, run: Run, i: nat, s: Mac, k: Key)
    requires IsRun(cfg, run) && i < |run.evs| && run.evs[i].Tick?
    ensures var before, after, cutoff := run.sts[i], run.sts[i + 1], run.evs[i].now - cfg.NodeForgetMs();
            && (before.supSeen == map[] ==> after.ring == before.ring && after.supSeen == map[])
            && (before.supSeen != map[] ==>
                  && (s in after.ring <==> s in before.ring && before.ring[s] >= cutoff)
                  && (s in after.supSeen <==> s in before.supSeen && before.supSeen[s] >= cutoff))
            && after.proxy == before.proxy
            && (k in after.dup <==> k in before.dup && run.evs[i].now - before.dup[k].lastSeen <= before.dup[k].expiryMs)
            && (k in after.dup ==> after.dup[k] == before.dup[k])
  {
    assert StepAt(cfg, run, i);
    KnownStep(cfg, run, i, Members, s);
    KnownStep(cfg, run, i, Peers, s);
  }

  /** An announcement makes its source a peer, on a ring port also a ring member, and its number the last heard. */
  lemma AnnouncementTeaches(cfg: Config, st: State, ev: Event)
    requires ev.Arrival? && Announces(ev.frame) && Listens(cfg, ev.port)
    ensures Possible(cfg, ev)
    ensures var s, src := Step(cfg, st, ev).st, ev.frame[6..12];
            && src in s.supSeen && s.supSeen[src] == ev.now
            && (OnRingPort(cfg, ev) ==> src in s.ring && s.ring[src] == ev.now)
            && src in s.supSeqs && s.supSeqs[src] == Word(ev.frame[16], ev.frame[17])
  {
    AnnouncementIsHeard(cfg, ev);
    StepKnown(cfg, st, ev, Peers, ev.frame[6..12]);
    StepKnown(cfg, st, ev, Members, ev.frame[6..12]);
    StepHasEffect(cfg, st, ev);
  }
}
