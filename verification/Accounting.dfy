/**
 * The books of a node of any role, whatever writes fail: what becomes of every arriving
 * frame, and that over every run the port counters count exactly the data frames received
 * and the frames written, and each drop reason exactly the frames lost for it.
 */
module Accounting {
  import opened Bytes
  import opened Engine
  import opened NodeTable
  import opened Role
  import opened NodeSpec
  import opened NodeRun
  import opened KeyFlow
  import Conservation
  import Redundancy
  import Supervision
  import Wire

  // ---------------------------------------------------------------- which frames a node survives

  /** A supervision frame that ends before its address field. */
  predicate CutShort(f: Frame) {
    20 <= |f| < 26 && f[..6] == [0x01, 0x15, 0x4e, 0x00, 0x01, 0x00] && f[12] == 0x88 && f[13] == 0xfb
  }

  /**
   * The only frames on which the source slices out of range: a cut supervision frame where
   * it is consumed, and on the interlink a frame that ends inside its VLAN tag, at an
   * hsr-san node or at a prp-san node that filters by VLAN.
   */
  lemma CrashesExactly(cfg: Config, ev: Event)
    requires ev.Arrival?
    ensures !Possible(cfg, ev) <==>
              || (CutShort(ev.frame) && (ev.port != Interlink || cfg.role == HsrHsr))
              || (ev.port == Interlink && cfg.role == HsrSan && Wire.VlanAt12(ev.frame) && |ev.frame| < 18)
              || (ev.port == Interlink && cfg.role == PrpSan && cfg.vlanFilter != []
                  && Wire.VlanAt12(ev.frame) && |ev.frame| < 16)
  {
    var f := ev.frame;
    if Supervision.IsAnnouncement(f) {
      assert EtherTypeOffset(f, 12) == Some(12);
    }
  }

  // ---------------------------------------------------------------- verdicts

  /** Supervision is consumed on the redundant ports and on the interlink of a QuadBox. */
  predicate Consumed(cfg: Config, ev: Event) {
    ev.Arrival? && EtherType(ev.frame) == PRP_SUFFIX && (ev.port != Interlink || cfg.role == HsrHsr)
  }

  /** A frame from a redundant network: from the ring, a LAN, or the other ring behind a QuadBox. */
  predicate Incoming(cfg: Config, ev: Event) {
    ev.Arrival? && |ev.frame| >= 14 && !Consumed(cfg, ev) && (ev.port != Interlink || cfg.role == HsrHsr)
  }

  /** What such a frame is judged to be: own, duplicate and new ones are told apart by its key. */
  function Judged(cfg: Config, st: State, ev: Event): Verdict
    requires Incoming(cfg, ev)
  {
    var src := SrcMac(ev.frame);
    if cfg.role != PrpSan then
      match DecodeHsr(ev.frame)
      case None => Refused(Malformed)
      case Some(t) => Screened(cfg, st, ev.now, Key(src, t.seqNo))
    else
      match DecodeRct(ev.frame)
      case None => Refused(Malformed)
      case Some(r) =>
        if r.lan != (if ev.port == LanB then 1 else 0) then Refused(Path) else Screened(cfg, st, ev.now, Key(src, r.seqNo))
  }

  function Screened(cfg: Config, st: State, now: int, k: Key): Verdict {
    if k.src == cfg.mac then Refused(Own)
    else if k in st.dup && now - st.dup[k].lastSeen <= st.dup[k].expiryMs then Refused(Dup)
    else Accepted(k)
  }

  lemma IncomingVerdict(cfg: Config, st: State, ev: Event)
    requires Incoming(cfg, ev)
    ensures Possible(cfg, ev) && Step(cfg, st, ev).verdict == Judged(cfg, st, ev)
  {
    var s := st.In(ev.port);
    if cfg.role == PrpSan {
      PrpStep(cfg, st, ev);
      var view := LanViewOf(cfg, s, ev.now, ev.frame);
      if view.Some? { PrpScreenVerdict(cfg, s, ev.now, view.value, ev.io, ev.victim); }
    } else {
      var view := ViewOf(cfg, s, ev.now, ev.frame);
      if view.Some? { ScreenVerdict(cfg, s, ev.now, ev.port, view.value, ev.io, ev.victim); }
    }
  }

  /** A refused frame is written nowhere, and the node learns from it at most who sent it. */
  ghost predicate Silent(st: State, o: Outcome) {
    o.verdict.Refused? ==>
      o.out == map[] && o.st == st.(proxy := o.st.proxy, drops := o.st.drops, counters := o.st.counters)
  }

  lemma ScreenSilent(cfg: Config, st: State, now: int, port: Port, v: RingView, io: set<Port>, victim: Key)
    ensures Silent(st, HsrScreen(cfg, st, now, port, v, io, victim))
  {
    ScreenVerdict(cfg, st, now, port, v, io, victim);
  }

  lemma PrpScreenSilent(cfg: Config, st: State, now: int, v: LanView, io: set<Port>, victim: Key, o: Outcome)
    requires o == Refuse(st, Malformed) || o == Refuse(st, Path) || o == PrpScreen(cfg, st, now, v, io, victim)
    ensures Silent(st, o)
  {
    PrpScreenVerdict(cfg, st, now, v, io, victim);
  }

  lemma ReceiveSilent(cfg: Config, st: State, ev: Event)
    requires Incoming(cfg, ev)
    ensures Possible(cfg, ev) && Silent(st, Step(cfg, st, ev))
  {
    var s, o := st.In(ev.port), Step(cfg, st, ev);
    if cfg.role == PrpSan {
      PrpStep(cfg, st, ev);
      var view := LanViewOf(cfg, s, ev.now, ev.frame);
      if view.Some? { PrpScreenSilent(cfg, s, ev.now, view.value, ev.io, ev.victim, o); }
    } else {
      var view := ViewOf(cfg, s, ev.now, ev.frame);
      if view.Some? { ScreenSilent(cfg, s, ev.now, ev.port, view.value, ev.io, ev.victim); }
    }
  }

  lemma InjectSilent(cfg: Config, st: State, ev: Event, o: Outcome)
    requires ev.Arrival? && (|ev.frame| >= HeaderLen(ev.frame) || (cfg.IsCoupling() && DecodeRct(ev.frame).None?))
    requires o == HsrInject(cfg, st, ev.now, ev.frame, ev.io, ev.victim)
    ensures Silent(st, o)
  {
    var s := st.In(Interlink).(proxy := st.proxy[SrcMac(ev.frame) := ev.now]);
    if cfg.IsCoupling() && DecodeRct(ev.frame).None? { assert o == Refuse(s, Malformed); }
  }

  lemma RefusedIsSilent(cfg: Config, st: State, ev: Event)
    requires Possible(cfg, ev)
    ensures Silent(st, Step(cfg, st, ev))
  {
    if ev.Arrival? && |ev.frame| >= 14 {
      if Consumed(cfg, ev) {
        BridgeKeeps(cfg, Supervise(cfg, st, ev.now, ev.port, ev.frame), ev.port, ev.frame, ev.io);
      } else if Incoming(cfg, ev) {
        ReceiveSilent(cfg, st, ev);
      } else if cfg.role == PrpSan {
        Redundancy.SanFrameIsSent(cfg, st, ev);
      } else {
        InjectSilent(cfg, st, ev, Step(cfg, st, ev));
      }
    }
  }

  /** Supervision is repeated by a QuadBox alone: from its rings to the other ring, unchanged. */
  lemma SupervisionRelayed(cfg: Config, st: State, ev: Event, p: Port)
    requires Consumed(cfg, ev) && |ev.frame| >= 14 && Possible(cfg, ev)
    ensures var o := Step(cfg, st, ev);
            && o.verdict == Ignored
            && (p in o.out <==>
                  p in ev.io && cfg.role == HsrHsr && if ev.port == Interlink then p != Interlink else p == Interlink && cfg.hasInterlink)
            && (p in o.out ==> o.out[p] == ev.frame)
  {
    Redundancy.BothWritten(Supervise(cfg, st, ev.now, ev.port, ev.frame), ev.frame, ev.frame, Ignored, ev.io);
  }

  // ---------------------------------------------------------------- port counters

  function InCount(c: Counters, p: Port): nat {
    match p case LanA => c.lanAIn case LanB => c.lanBIn case Interlink => c.interIn
  }

  function OutCount(c: Counters, p: Port): nat {
    match p case LanA => c.lanAOut case LanB => c.lanBOut case Interlink => c.interOut
  }

  /** Nothing more was received and each port written was counted once. */
  ghost predicate Counts(st: State, o: Outcome, p: Port) {
    && InCount(o.st.counters, p) == InCount(st.counters, p)
    && OutCount(o.st.counters, p) == OutCount(st.counters, p) + if p in o.out then 1 else 0
  }

  lemma DeliverCounts(st: State, out: map<Port, Frame>, d: Delivery, k: Key, io: set<Port>, p: Port)
    requires Interlink !in out
    ensures var o := Deliver(st, out, d, k, io);
            && InCount(o.st.counters, p) == InCount(st.counters, p)
            && OutCount(o.st.counters, p) == OutCount(st.counters, p) + (if p == Interlink && p in o.out then 1 else 0)
            && (p != Interlink ==> (p in o.out <==> p in out))
  {
  }

  lemma OutCounts(st: State, port: Port, io: set<Port>, p: Port)
    ensures var c := st.Out(port, io).counters;
            && InCount(c, p) == InCount(st.counters, p)
            && OutCount(c, p) == OutCount(st.counters, p) + if p == port && p in io then 1 else 0
  {
  }

  function Forwarded(s: State, other: Port, f: Option<Frame>, d: Delivery, k: Key, io: set<Port>): Outcome {
    if f.None? then Deliver(s, map[], d, k, io) else Deliver(s.Out(other, io), Put(map[], other, f.value, io), d, k, io)
  }

  lemma AcceptForwards(cfg: Config, st: State, now: int, port: Port, v: RingView, io: set<Port>, victim: Key)
    returns (s: State, other: Port, f: Option<Frame>)
    ensures HsrAccept(cfg, st, now, port, v, io, victim)
            == Forwarded(s, other, f, ToInterlink(cfg, Learned(st, v.key.src, now), v), v.key, io)
    ensures s.drops == st.drops && s.counters == st.counters && other != Interlink
  {
    s := Register(cfg, st, v.key, 0, now, victim).(ring := st.ring[v.key.src := now]);
    other := OtherRingPort(port);
    f := if other == LanA then v.laneA else v.laneB;
    assert ToInterlink(cfg, s, v) == ToInterlink(cfg, Learned(st, v.key.src, now), v);
  }

  lemma ForwardCounts(st: State, s: State, other: Port, f: Option<Frame>, d: Delivery, k: Key, io: set<Port>, o: Outcome, p: Port)
    requires o == Forwarded(s, other, f, d, k, io) && s.counters == st.counters && other != Interlink
    ensures Counts(st, o, p)
  {
    if f.Some? {
      OutCounts(s, other, io, p);
      DeliverCounts(s.Out(other, io), Put(map[], other, f.value, io), d, k, io, p);
    } else {
      DeliverCounts(s, map[], d, k, io, p);
    }
  }

  lemma AcceptCounts(cfg: Config, st: State, now: int, port: Port, v: RingView, io: set<Port>, victim: Key, p: Port)
    ensures Counts(st, HsrAccept(cfg, st, now, port, v, io, victim), p)
  {
    var s, other, f := AcceptForwards(cfg, st, now, port, v, io, victim);
    ForwardCounts(st, s, other, f, ToInterlink(cfg, Learned(st, v.key.src, now), v), v.key, io,
                  HsrAccept(cfg, st, now, port, v, io, victim), p);
  }

  lemma BothCount(st: State, a: Frame, b: Frame, v: Verdict, io: set<Port>, p: Port)
    ensures Counts(st, BothPorts(st, a, b, v, io), p)
  {
  }

  lemma QuadBoxCounts(cfg: Config, st: State, now: int, v: RingView, io: set<Port>, victim: Key, p: Port)
    ensures Counts(st, QuadBoxAccept(cfg, st, now, v, io, victim), p)
  {
    if v.reset.Some? {
      BothCount(Register(cfg, st, v.key, 0, now, victim), v.reset.value, v.reset.value, Accepted(v.key), io, p);
    }
  }

  lemma ScreenCounts(cfg: Config, st: State, now: int, port: Port, v: RingView, io: set<Port>, victim: Key, p: Port)
    ensures Counts(st, HsrScreen(cfg, st, now, port, v, io, victim), p)
  {
    if port == Interlink {
      QuadBoxCounts(cfg, st, now, v, io, victim, p);
    } else {
      AcceptCounts(cfg, st, now, port, v, io, victim, p);
    }
  }

  lemma PrpAcceptCounts(cfg: Config, st: State, now: int, v: LanView, io: set<Port>, victim: Key, p: Port)
    ensures Counts(st, PrpAccept(cfg, st, now, v, io, victim), p)
  {
    var s := Register(cfg, st, v.key, v.lan, now, victim);
    var d := if !cfg.hasInterlink then Nothing else if !v.passes then Discard(Filter) else Write(v.body);
    DeliverCounts(s, map[], d, v.key, io, p);
  }

  lemma PrpScreenCounts(cfg: Config, st: State, now: int, v: LanView, io: set<Port>, victim: Key, p: Port)
    ensures Counts(st, PrpScreen(cfg, st, now, v, io, victim), p)
  {
    PrpAcceptCounts(cfg, st, now, v, io, victim, p);
  }

  /** A data frame was received on `p`; a frame was sent on `p`, where unmarked copies count even if their write failed. */
  function Received(cfg: Config, ev: Event, p: Port): nat {
    if ev.Arrival? && |ev.frame| >= 14 && ev.port == p && !Consumed(cfg, ev) then 1 else 0
  }

  function Written(ev: Event, o: Outcome, p: Port): nat {
    if ev.Round? then 0
    else if o.verdict.Copied? then (if p == Interlink then 0 else 1)
    else if p in o.out then 1 else 0
  }

  ghost predicate Counted(cfg: Config, st: State, ev: Event, o: Outcome, p: Port) {
    && InCount(o.st.counters, p) == InCount(st.counters, p) + Received(cfg, ev, p)
    && OutCount(o.st.counters, p) == OutCount(st.counters, p) + Written(ev, o, p)
  }

  /** The arrival itself is counted first. */
  lemma ArrivalCounted(cfg: Config, st: State, ev: Event, o: Outcome, p: Port)
    requires ev.Arrival? && |ev.frame| >= 14 && !Consumed(cfg, ev) && !o.verdict.Copied? && Counts(st.In(ev.port), o, p)
    ensures Counted(cfg, st, ev, o, p)
  {
  }

  lemma HsrReceiveCounts(cfg: Config, st: State, ev: Event, p: Port)
    requires Incoming(cfg, ev)
    ensures var o := HsrReceive(cfg, st, ev.now, ev.port, ev.frame, ev.io, ev.victim);
            Counts(st.In(ev.port), o, p) && !o.verdict.Copied?
  {
    var s := st.In(ev.port);
    var view := ViewOf(cfg, s, ev.now, ev.frame);
    if view.Some? {
      ScreenCounts(cfg, s, ev.now, ev.port, view.value, ev.io, ev.victim, p);
      ScreenVerdict(cfg, s, ev.now, ev.port, view.value, ev.io, ev.victim);
    }
  }

  lemma LanViewCounts(cfg: Config, st: State, now: int, v: LanView, io: set<Port>, victim: Key, o: Outcome, p: Port)
    requires o == Refuse(st, Malformed) || o == Refuse(st, Path) || o == PrpScreen(cfg, st, now, v, io, victim)
    ensures Counts(st, o, p) && !o.verdict.Copied?
  {
    PrpScreenCounts(cfg, st, now, v, io, victim, p);
    PrpScreenVerdict(cfg, st, now, v, io, victim);
  }

  lemma PrpReceiveCounts(cfg: Config, st: State, ev: Event, p: Port)
    requires Incoming(cfg, ev)
    ensures var o := PrpReceive(cfg, st, ev.now, ev.port, ev.frame, ev.io, ev.victim);
            Counts(st.In(ev.port), o, p) && !o.verdict.Copied?
  {
    var s, o := st.In(ev.port), PrpReceive(cfg, st, ev.now, ev.port, ev.frame, ev.io, ev.victim);
    var view := LanViewOf(cfg, s, ev.now, ev.frame);
    if view.Some? {
      LanViewCounts(cfg, s, ev.now, view.value, ev.io, ev.victim, o, p);
    } else {
      assert o == Refuse(s, Malformed);
    }
  }

  lemma InjectCounts(cfg: Config, st: State, ev: Event, p: Port)
    requires ev.Arrival? && (|ev.frame| >= HeaderLen(ev.frame) || (cfg.IsCoupling() && DecodeRct(ev.frame).None?))
    ensures var o := HsrInject(cfg, st, ev.now, ev.frame, ev.io, ev.victim);
            Counts(st.In(Interlink), o, p) && !o.verdict.Copied?
  {
    var src := SrcMac(ev.frame);
    var s := st.In(Interlink).(proxy := st.proxy[src := ev.now]);
    if !cfg.IsCoupling() {
      var n := NextSeq(cfg, s, src);
      LaunchCounts(cfg, TakeSeq(cfg, s, src), ev.now, Key(src, n), Tagged(ev.frame, InjectionPath(cfg), n), ev.io, ev.victim, p);
    } else if DecodeRct(ev.frame).Some? {
      var n := DecodeRct(ev.frame).value.seqNo;
      LaunchCounts(cfg, s, ev.now, Key(src, n), Tagged(ev.frame, InjectionPath(cfg), n), ev.io, ev.victim, p);
    }
  }

  /** Frames sent with a trailer are counted where the write went through, plain copies on both LANs. */
  lemma PrpSendCounted(cfg: Config, st: State, ev: Event, p: Port)
    requires Redundancy.FromSan(cfg, ev) && (cfg.vlanFilter != [] && IsVlan(ev.frame) ==> |ev.frame| >= 16)
    ensures Counted(cfg, st, ev, PrpSend(cfg, st, ev.now, ev.frame, ev.io), p)
  {
    var src, o := SrcMac(ev.frame), PrpSend(cfg, st, ev.now, ev.frame, ev.io);
    var s := st.In(Interlink).(proxy := st.proxy[src := ev.now]);
    if !VlanPasses(cfg, ev.frame) {
      assert o == Refuse(st.In(Interlink), Filter);
      ArrivalCounted(cfg, st, ev, o, p);
    } else if cfg.trailerEnabled {
      var n := NextSeq(cfg, s, src);
      var a, b := EncodeRct(ev.frame, n, 0), EncodeRct(ev.frame, n, 1);
      BothCount(TakeSeq(cfg, s, src), a, b, Sent(n), ev.io, p);
      ArrivalCounted(cfg, st, ev, BothPorts(TakeSeq(cfg, s, src), a, b, Sent(n), ev.io), p);
    } else {
      CopyCounted(cfg, st, s, ev, o, p);
    }
  }

  lemma CopyCounted(cfg: Config, st: State, s: State, ev: Event, o: Outcome, p: Port)
    requires Redundancy.FromSan(cfg, ev) && s.counters == st.counters.In(Interlink)
    requires o.verdict.Copied? && o.st.counters == s.counters.Out(LanA).Out(LanB)
    ensures Counted(cfg, st, ev, o, p)
  {
  }

  lemma LaunchCounts(cfg: Config, st: State, now: int, k: Key, w: Frame, io: set<Port>, victim: Key, p: Port)
    ensures Counts(st, Launch(cfg, st, now, k, w, io, victim), p) && Launch(cfg, st, now, k, w, io, victim).verdict == Injected(k)
  {
    BothCount(Register(cfg, st, k, 0, now, victim), w, w, Injected(k), io, p);
  }

  lemma BridgeCounts(cfg: Config, st: State, port: Port, f: Frame, io: set<Port>, p: Port)
    ensures Counts(st, Bridge(cfg, st, port, f, io), p) && Bridge(cfg, st, port, f, io).verdict == Ignored
  {
    if port == Interlink {
      BothCount(st, f, f, Ignored, io, p);
    } else {
      OutCounts(st, Interlink, io, p);
    }
  }

  lemma HeardCounted(cfg: Config, st: State, ev: Event, s: State, o: Outcome, p: Port)
    requires Consumed(cfg, ev) && s.counters == st.counters && Counts(s, o, p) && o.verdict == Ignored
    ensures Counted(cfg, st, ev, o, p)
  {
  }

  lemma HeardStepCounted(cfg: Config, st: State, ev: Event, p: Port)
    requires Possible(cfg, ev) && Consumed(cfg, ev) && |ev.frame| >= 14
    ensures Counted(cfg, st, ev, Step(cfg, st, ev), p)
  {
    var s := Supervise(cfg, st, ev.now, ev.port, ev.frame);
    BridgeCounts(cfg, s, ev.port, ev.frame, ev.io, p);
    HeardCounted(cfg, st, ev, s, Step(cfg, st, ev), p);
  }

  lemma DataStepCounted(cfg: Config, st: State, ev: Event, p: Port)
    requires ev.Arrival? && Possible(cfg, ev) && |ev.frame| >= 14 && !Consumed(cfg, ev)
    ensures Counted(cfg, st, ev, Step(cfg, st, ev), p)
  {
    if ev.port == Interlink && cfg.role == PrpSan {
      PrpSendCounted(cfg, st, ev, p);
    } else {
      DataCounts(cfg, st, ev, p);
      ArrivalCounted(cfg, st, ev, Step(cfg, st, ev), p);
    }
  }

  lemma IdleCounted(cfg: Config, st: State, ev: Event, p: Port)
    requires Possible(cfg, ev) && (ev.Arrival? ==> |ev.frame| < 14)
    ensures Counted(cfg, st, ev, Step(cfg, st, ev), p)
  {
  }

  lemma StepCounted(cfg: Config, st: State, ev: Event, p: Port)
    requires Possible(cfg, ev)
    ensures Counted(cfg, st, ev, Step(cfg, st, ev), p)
  {
    if !ev.Arrival? || |ev.frame| < 14 {
      IdleCounted(cfg, st, ev, p);
    } else if Consumed(cfg, ev) {
      HeardStepCounted(cfg, st, ev, p);
    } else {
      DataStepCounted(cfg, st, ev, p);
    }
  }

  lemma DataCounts(cfg: Config, st: State, ev: Event, p: Port)
    requires ev.Arrival? && Possible(cfg, ev) && |ev.frame| >= 14 && !Consumed(cfg, ev)
    requires ev.port == Interlink ==> cfg.role != PrpSan
    ensures var o := Step(cfg, st, ev); Counts(st.In(ev.port), o, p) && !o.verdict.Copied?
  {
    if ev.port == Interlink && cfg.role != HsrHsr {
      InjectCounts(cfg, st, ev, p);
    } else if cfg.role != PrpSan {
      HsrReceiveCounts(cfg, st, ev, p);
    } else {
      PrpReceiveCounts(cfg, st, ev, p);
    }
  }

  // ---------------------------------------------------------------- drop reasons

  /** Why a first copy on a ring port is not handed to the interlink: by its path, its addresses and its payload. */
  function Undelivered(cfg: Config, st: State, now: int, f: Frame): Option<Reason>
    requires DecodeHsr(f).Some?
  {
    var t := DecodeHsr(f).value;
    var stays := !LeavesRing(st, Multicast(f), DstMac(f), SrcMac(f));
    match cfg.role
    case HsrPrp =>
      if t.path / 2 != (if cfg.netId > 0 then cfg.netId else 1) then None
      else if t.path % 2 == (if cfg.lanB then 1 else 0) then Some(Own) else Some(Path)
    case HsrHsr => if cfg.hasInterlink && stays then Some(Filter) else None
    case _ => if stays || !ShouldForward(cfg, st, now, t.payload) then Some(Filter) else None
  }

  /** The reason a step counts a drop for, if it does. Own frames coming back on a PRP LAN are not counted. */
  function Loss(cfg: Config, st: State, ev: Event, v: Verdict): Option<Reason> {
    match v
    case Refused(r) => if cfg.role == PrpSan && r == Own then None else Some(r)
    case Accepted(_) =>
      if !ev.Arrival? then None
      else if cfg.role == PrpSan then
        if cfg.hasInterlink && !ShouldForward(cfg, st, ev.now, Redundancy.Body(ev.frame)) then Some(Filter) else None
      else if ev.port != Interlink && DecodeHsr(ev.frame).Some? then Undelivered(cfg, st, ev.now, ev.frame)
      else None
    case _ => None
  }

  ghost predicate Drops(st: State, o: Outcome, loss: Option<Reason>, r: Reason) {
    Dropped(o.st, r) == Dropped(st, r) + if loss == Some(r) then 1 else 0
  }

  function LossOf(d: Delivery): Option<Reason> { if d.Discard? then Some(d.reason) else None }

  lemma DropCounts(st: State, s: Reason, r: Reason)
    ensures Dropped(Drop(st, s), r) == Dropped(st, r) + if s == r then 1 else 0
  {
  }

  lemma DeliverDrops(st: State, out: map<Port, Frame>, d: Delivery, k: Key, io: set<Port>, r: Reason)
    ensures Drops(st, Deliver(st, out, d, k, io), LossOf(d), r)
  {
    if d.Discard? { DropCounts(st, d.reason, r); }
  }

  lemma ForwardDrops(st: State, s: State, other: Port, f: Option<Frame>, d: Delivery, k: Key, io: set<Port>, o: Outcome, r: Reason)
    requires o == Forwarded(s, other, f, d, k, io) && s.drops == st.drops
    ensures Drops(st, o, LossOf(d), r)
  {
    if f.Some? {
      DeliverDrops(s.Out(other, io), Put(map[], other, f.value, io), d, k, io, r);
    } else {
      DeliverDrops(s, map[], d, k, io, r);
    }
  }

  lemma AcceptDrops(cfg: Config, st: State, now: int, port: Port, v: RingView, io: set<Port>, victim: Key, o: Outcome, r: Reason)
    requires o == HsrAccept(cfg, st, now, port, v, io, victim)
    ensures Drops(st, o, LossOf(ToInterlink(cfg, Learned(st, v.key.src, now), v)), r)
  {
    var s, other, f := AcceptForwards(cfg, st, now, port, v, io, victim);
    ForwardDrops(st, s, other, f, ToInterlink(cfg, Learned(st, v.key.src, now), v), v.key, io, o, r);
  }

  lemma ViewLoss(cfg: Config, st: State, now: int, port: Port, f: Frame)
    requires DecodeHsr(f).Some? && cfg.role != PrpSan
    ensures ViewOf(cfg, st.In(port), now, f).Some?
    ensures var v := ViewOf(cfg, st.In(port), now, f).value;
            LossOf(ToInterlink(cfg, Learned(st.In(port), v.key.src, now), v)) == Undelivered(cfg, st, now, f)
  {
    Conservation.DecodedIsComplete(cfg, st.In(port), now, f);
  }

  /** The cases of a tagged frame, with the reason each counts. */
  lemma ScreenDrops(cfg: Config, st: State, now: int, port: Port, v: RingView, io: set<Port>, victim: Key, o: Outcome, r: Reason)
    requires o == HsrScreen(cfg, st, now, port, v, io, victim) && v.reset.Some?
    ensures o.verdict.Refused? ==> Drops(st, o, Some(o.verdict.reason), r)
    ensures o.verdict.Accepted? && port == Interlink ==> Drops(st, o, None, r)
    ensures o.verdict.Accepted? && port != Interlink ==>
              Drops(st, o, LossOf(ToInterlink(cfg, Learned(st, v.key.src, now), v)), r)
    ensures o.verdict.Refused? || o.verdict.Accepted?
  {
    ScreenVerdict(cfg, st, now, port, v, io, victim);
    if o.verdict.Refused? {
      DropCounts(st, o.verdict.reason, r);
    } else if port != Interlink {
      AcceptDrops(cfg, st, now, port, v, io, victim, o, r);
    }
  }

  lemma HsrReceiveDrops(cfg: Config, st: State, ev: Event, o: Outcome, r: Reason)
    requires Incoming(cfg, ev) && cfg.role != PrpSan
    requires o == HsrReceive(cfg, st, ev.now, ev.port, ev.frame, ev.io, ev.victim)
    ensures Drops(st, o, Loss(cfg, st, ev, o.verdict), r)
  {
    var s := st.In(ev.port);
    var view := ViewOf(cfg, s, ev.now, ev.frame);
    if view.Some? {
      Conservation.DecodedIsComplete(cfg, s, ev.now, ev.frame);
      ViewLoss(cfg, st, ev.now, ev.port, ev.frame);
      ScreenDrops(cfg, s, ev.now, ev.port, view.value, ev.io, ev.victim, o, r);
    } else {
      assert o == Refuse(s, Malformed);
      DropCounts(s, Malformed, r);
    }
  }

  lemma PrpScreenDrops(cfg: Config, st: State, now: int, v: LanView, io: set<Port>, victim: Key, o: Outcome, r: Reason)
    requires o == PrpScreen(cfg, st, now, v, io, victim)
    ensures o.verdict == Refused(Own) ==> Drops(st, o, None, r)
    ensures o.verdict == Refused(Dup) ==> Drops(st, o, Some(Dup), r)
    ensures o.verdict.Accepted? ==> Drops(st, o, if cfg.hasInterlink && !v.passes then Some(Filter) else None, r)
    ensures o.verdict == Refused(Own) || o.verdict == Refused(Dup) || o.verdict.Accepted?
  {
    PrpScreenVerdict(cfg, st, now, v, io, victim);
    if o.verdict == Refused(Dup) {
      DropCounts(st, Dup, r);
    } else if o.verdict.Accepted? {
      var d := if !cfg.hasInterlink then Nothing else if !v.passes then Discard(Filter) else Write(v.body);
      DeliverDrops(Register(cfg, st, v.key, v.lan, now, victim), map[], d, v.key, io, r);
    }
  }

  /** The loss of a LAN frame in terms of its view. */
  lemma LanViewLoss(cfg: Config, st: State, ev: Event, o: Outcome)
    requires Incoming(cfg, ev) && cfg.role == PrpSan && DecodeRct(ev.frame).Some?
    ensures LanViewOf(cfg, st.In(ev.port), ev.now, ev.frame).Some?
    ensures var v := LanViewOf(cfg, st.In(ev.port), ev.now, ev.frame).value;
            o.verdict.Accepted? ==>
              Loss(cfg, st, ev, o.verdict) == if cfg.hasInterlink && !v.passes then Some(Filter) else None
  {
  }

  lemma PrpReceiveDrops(cfg: Config, st: State, ev: Event, o: Outcome, r: Reason)
    requires Incoming(cfg, ev) && cfg.role == PrpSan
    requires o == PrpReceive(cfg, st, ev.now, ev.port, ev.frame, ev.io, ev.victim)
    ensures Drops(st, o, Loss(cfg, st, ev, o.verdict), r)
  {
    var s := st.In(ev.port);
    var view := LanViewOf(cfg, s, ev.now, ev.frame);
    if view.None? {
      assert o == Refuse(s, Malformed);
      DropCounts(s, Malformed, r);
    } else if view.value.lan != (if ev.port == LanB then 1 else 0) {
      assert o == Refuse(s, Path);
      DropCounts(s, Path, r);
    } else {
      LanViewLoss(cfg, st, ev, o);
      PrpScreenDrops(cfg, s, ev.now, view.value, ev.io, ev.victim, o, r);
    }
  }

  lemma LaunchDrops(cfg: Config, st: State, now: int, k: Key, w: Frame, io: set<Port>, victim: Key, r: Reason)
    ensures Drops(st, Launch(cfg, st, now, k, w, io, victim), None, r)
  {
  }

  lemma InjectDrops(cfg: Config, st: State, ev: Event, o: Outcome, r: Reason)
    requires ev.Arrival? && (|ev.frame| >= HeaderLen(ev.frame) || (cfg.IsCoupling() && DecodeRct(ev.frame).None?))
    requires o == HsrInject(cfg, st, ev.now, ev.frame, ev.io, ev.victim) && cfg.role != PrpSan
    ensures Drops(st, o, Loss(cfg, st, ev, o.verdict), r)
  {
    var src := SrcMac(ev.frame);
    var s := st.In(Interlink).(proxy := st.proxy[src := ev.now]);
    if !cfg.IsCoupling() {
      var n := NextSeq(cfg, s, src);
      LaunchDrops(cfg, TakeSeq(cfg, s, src), ev.now, Key(src, n), Tagged(ev.frame, InjectionPath(cfg), n), ev.io, ev.victim, r);
    } else if DecodeRct(ev.frame).Some? {
      var n := DecodeRct(ev.frame).value.seqNo;
      LaunchDrops(cfg, s, ev.now, Key(src, n), Tagged(ev.frame, InjectionPath(cfg), n), ev.io, ev.victim, r);
    } else {
      assert o == Refuse(s, Malformed);
      DropCounts(s, Malformed, r);
    }
  }

  lemma PrpSendDrops(cfg: Config, st: State, ev: Event, o: Outcome, r: Reason)
    requires Redundancy.FromSan(cfg, ev) && (cfg.vlanFilter != [] && IsVlan(ev.frame) ==> |ev.frame| >= 16)
    requires o == PrpSend(cfg, st, ev.now, ev.frame, ev.io)
    ensures Drops(st, o, Loss(cfg, st, ev, o.verdict), r)
  {
    if !VlanPasses(cfg, ev.frame) {
      assert o == Refuse(st.In(Interlink), Filter);
      DropCounts(st.In(Interlink), Filter, r);
    }
  }

  lemma StepDrops(cfg: Config, st: State, ev: Event, r: Reason)
    requires Possible(cfg, ev)
    ensures var o := Step(cfg, st, ev); Drops(st, o, Loss(cfg, st, ev, o.verdict), r)
  {
    if ev.Arrival? && |ev.frame| >= 14 {
      if Consumed(cfg, ev) {
        BridgeKeeps(cfg, Supervise(cfg, st, ev.now, ev.port, ev.frame), ev.port, ev.frame, ev.io);
      } else if ev.port == Interlink && cfg.role == PrpSan {
        PrpSendDrops(cfg, st, ev, Step(cfg, st, ev), r);
      } else if ev.port == Interlink && cfg.role != HsrHsr {
        InjectDrops(cfg, st, ev, Step(cfg, st, ev), r);
      } else if cfg.role != PrpSan {
        HsrReceiveDrops(cfg, st, ev, Step(cfg, st, ev), r);
      } else {
        PrpReceiveDrops(cfg, st, ev, Step(cfg, st, ev), r);
      }
    }
  }

  // ---------------------------------------------------------------- runs

  /** How many of the first `n` events brought a data frame on `p`, wrote to `p`, or lost a frame for reason `r`. */
  function ReceivedIn(cfg: Config, run: Run, n: nat, p: Port): nat
    requires n <= |run.evs|
  {
    if n == 0 then 0 else ReceivedIn(cfg, run, n - 1, p) + Received(cfg, run.evs[n - 1], p)
  }

  function WrittenIn(run: Run, n: nat, p: Port): nat
    requires n <= |run.evs| == |run.outs|
  {
    if n == 0 then 0 else WrittenIn(run, n - 1, p) + Written(run.evs[n - 1], run.outs[n - 1], p)
  }

  function LostIn(cfg: Config, run: Run, n: nat, r: Reason): nat
    requires n <= |run.evs| == |run.outs| && |run.sts| == |run.evs| + 1
  {
    if n == 0 then 0
    else LostIn(cfg, run, n - 1, r)
         + if Loss(cfg, run.sts[n - 1], run.evs[n - 1], run.outs[n - 1].verdict) == Some(r) then 1 else 0
  }

  /** Over every run, in every role, the counters are these numbers. */
  lemma {:induction false} BooksBalance(cfg: Config, run: Run, n: nat, p: Port, r: Reason)
    requires IsRun(cfg, run) && n <= |run.evs|
    ensures InCount(run.sts[n].counters, p) == InCount(run.sts[0].counters, p) + ReceivedIn(cfg, run, n, p)
    ensures OutCount(run.sts[n].counters, p) == OutCount(run.sts[0].counters, p) + WrittenIn(run, n, p)
    ensures Dropped(run.sts[n], r) == Dropped(run.sts[0], r) + LostIn(cfg, run, n, r)
  {
    if n > 0 {
      BooksBalance(cfg, run, n - 1, p, r);
      BookStep(cfg, run, n - 1, p, r);
    }
  }

  lemma BookStep(cfg: Config, run: Run, i: nat, p: Port, r: Reason)
    requires IsRun(cfg, run) && i < |run.evs|
    ensures run.sts[i + 1] == run.outs[i].st && Counted(cfg, run.sts[i], run.evs[i], run.outs[i], p)
    ensures Drops(run.sts[i], run.outs[i], Loss(cfg, run.sts[i], run.evs[i], run.outs[i].verdict), r)
  {
    assert StepAt(cfg, run, i);
    StepCounted(cfg, run.sts[i], run.evs[i], p);
    StepDrops(cfg, run.sts[i], run.evs[i], r);
  }
}
