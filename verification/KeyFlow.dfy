/**
 * What an HSR node sends for one (source, sequence number) key, in terms of the
 * frames on its HSR ports. All port writes succeed here: a failed write is a frame
 * lost on the link.
 */
module KeyFlow {
  import opened Bytes
  import opened Engine
  import opened NodeTable
  import opened Role
  import opened NodeSpec
  import opened NodeRun
  import Supervision

  /** What a tagged frame carries around the ring: everything but the lane bit and padding. */
  datatype Tag = Tag(key: Key, original: Frame, net: nat, dst: Mac, multicast: bool, payload: Frame)

  function TagOf(f: Frame): Option<Tag> {
    match DecodeHsr(f)
    case None => None
    case Some(t) =>
      Some(Tag(Key(SrcMac(f), t.seqNo), StripHsr(f).value, NetOf(t.path), DstMac(f), Multicast(f), t.payload))
  }

  /** Of the HSR ports exactly the `loud` ones are written, each with a frame carrying `t`. */
  ghost predicate Sends(cfg: Config, out: map<Port, Frame>, loud: set<Port>, t: Tag) {
    forall p :: p in cfg.HsrPorts() ==> (p in out <==> p in loud) && (p in out ==> TagOf(out[p]) == Some(t))
  }

  ghost predicate SendsUntagged(cfg: Config, out: map<Port, Frame>) {
    forall p :: p in cfg.HsrPorts() && p in out ==> TagOf(out[p]).None?
  }

  // ---------------------------------------------------------------- the view of a tagged frame

  ghost predicate StillCarries(g: Option<Frame>, t: Tag) {
    g.Some? && TagOf(g.value) == Some(t)
  }

  /** Every form in which the node may put the frame on an HSR port still carries its tag. */
  ghost predicate FaithfulView(cfg: Config, st: State, now: int, v: RingView, t: Tag) {
    && v.key == t.key && v.net == t.net && v.dst == t.dst && v.multicast == t.multicast
    && TagOf(v.raw) == Some(t) && StillCarries(v.laneA, t) && StillCarries(v.laneB, t)
    && StillCarries(v.reset, t.(net := 0))
    && v.original == Some(t.original) && v.coupled == Some(EncodeRct(t.original, t.key.seqNo, cfg.Lan()))
    && v.passes == ShouldForward(cfg, st, now, t.payload)
  }

  lemma CarriesSame(f: Frame, g: Frame, net: nat)
    requires DecodeHsr(f).Some? && DecodeHsr(g).Some? && StripHsr(g) == StripHsr(f) && g[..12] == f[..12]
    requires DecodeHsr(g).value.seqNo == DecodeHsr(f).value.seqNo && NetOf(DecodeHsr(g).value.path) == net
    requires DecodeHsr(g).value.payload == DecodeHsr(f).value.payload
    ensures TagOf(g) == Some(TagOf(f).value.(net := net))
  {
    SameAddresses(f, g);
  }

  lemma LaneKeeps(f: Frame, laneA: bool)
    requires TagOf(f).Some?
    ensures StillCarries(RewritePathLane(f, laneA), TagOf(f).value)
  {
    RewriteLaneDecodes(f, laneA);
    CarriesSame(f, RewritePathLane(f, laneA).value, NetOf(DecodeHsr(f).value.path));
  }

  lemma ResetKeeps(f: Frame)
    requires TagOf(f).Some?
    ensures StillCarries(RewritePath(f, 0), TagOf(f).value.(net := 0))
  {
    RewritePathDecodes(f, 0);
    CarriesSame(f, RewritePath(f, 0).value, 0);
  }

  lemma SameAddresses(f: Frame, g: Frame)
    requires |f| >= 12 && |g| >= 12 && g[..12] == f[..12]
    ensures SrcMac(g) == SrcMac(f) && DstMac(g) == DstMac(f) && Multicast(g) == Multicast(f)
  {
    assert g[6..12] == g[..12][6..12] && f[6..12] == f[..12][6..12];
    assert g[0..6] == g[..12][0..6] && f[0..6] == f[..12][0..6];
    assert g[0] == g[..12][0] && f[0] == f[..12][0];
  }

  lemma ViewIsFaithful(cfg: Config, st: State, now: int, f: Frame)
    requires TagOf(f).Some?
    ensures ViewOf(cfg, st, now, f).Some?
    ensures FaithfulView(cfg, st, now, ViewOf(cfg, st, now, f).value, TagOf(f).value)
  {
    LaneKeeps(f, true);
    LaneKeeps(f, false);
    ResetKeeps(f);
  }

  // ---------------------------------------------------------------- receiving

  /** The ports a first copy is sent on: all HSR ports but the one it came from. */
  function Others(cfg: Config, port: Port): set<Port> {
    cfg.HsrPorts() - {port}
  }

  /** What is written for a first copy that leaves the ring port as `g` and the interlink as `d` says. */
  function Writes(port: Port, g: Frame, d: Delivery): map<Port, Frame> {
    if d.Write? then map[OtherRingPort(port) := g, Interlink := d.frame] else map[OtherRingPort(port) := g]
  }

  function LaneFrame(port: Port, v: RingView): Frame
    requires v.laneA.Some? && v.laneB.Some?
  {
    if port == LanB then v.laneA.value else v.laneB.value
  }

  function Learned(st: State, src: Mac, now: int): State {
    st.(ring := st.ring[src := now])
  }

  lemma AcceptOut(cfg: Config, st: State, now: int, port: Port, v: RingView, victim: Key)
    requires v.laneA.Some? && v.laneB.Some? && port != Interlink
    ensures HsrAccept(cfg, st, now, port, v, ALL, victim).out
            == Writes(port, LaneFrame(port, v), ToInterlink(cfg, Learned(st, v.key.src, now), v))
  {
    var s := Register(cfg, st, v.key, 0, now, victim).(ring := st.ring[v.key.src := now]);
    assert ToInterlink(cfg, s, v) == ToInterlink(cfg, Learned(st, v.key.src, now), v);
  }

  /** A QuadBox keeps unicast for a member of its own ring on that ring. */
  predicate KeptBack(cfg: Config, st: State, t: Tag) {
    cfg.IsQuadBox() && !LeavesRing(st, t.multicast, t.dst, t.key.src)
  }

  lemma QuadBoxRepeats(cfg: Config, st: State, now: int, v: RingView, t: Tag)
    requires Interlink in cfg.HsrPorts() && v.key == t.key && v.multicast == t.multicast && v.dst == t.dst
    ensures ToInterlink(cfg, Learned(st, v.key.src, now), v)
            == if KeptBack(cfg, st, t) then Discard(Filter) else Write(v.raw)
  {
  }

  lemma WritesSend(cfg: Config, port: Port, g: Frame, d: Delivery, t: Tag)
    requires port in cfg.HsrPorts() && port != Interlink && TagOf(g) == Some(t)
    requires Interlink in cfg.HsrPorts() && d.Write? ==> TagOf(d.frame) == Some(t)
    ensures Sends(cfg, Writes(port, g, d), Others(cfg, port) - (if d.Write? then {} else {Interlink}), t)
  {
  }

  /** The HSR ports a first copy leaves on. */
  function Loud(cfg: Config, st: State, port: Port, t: Tag): set<Port> {
    if port != Interlink && KeptBack(cfg, st, t) then Others(cfg, port) - {Interlink} else Others(cfg, port)
  }

  lemma AcceptSends(cfg: Config, st: State, now: int, port: Port, v: RingView, t: Tag)
    requires port in cfg.HsrPorts() && port != Interlink
    requires v.key == t.key && v.multicast == t.multicast && v.dst == t.dst && TagOf(v.raw) == Some(t)
    requires StillCarries(v.laneA, t) && StillCarries(v.laneB, t)
    ensures Sends(cfg, Writes(port, LaneFrame(port, v), ToInterlink(cfg, Learned(st, v.key.src, now), v)),
                  Loud(cfg, st, port, t), t)
  {
    var d, g := ToInterlink(cfg, Learned(st, v.key.src, now), v), LaneFrame(port, v);
    if Interlink in cfg.HsrPorts() { QuadBoxRepeats(cfg, st, now, v, t); }
    WritesSend(cfg, port, g, d, t);
    assert Interlink !in cfg.HsrPorts() ==> Others(cfg, port) - {Interlink} == Others(cfg, port);
  }

  lemma QuadBoxSends(cfg: Config, st: State, now: int, v: RingView, t: Tag, victim: Key)
    requires Interlink in cfg.HsrPorts() && StillCarries(v.reset, t.(net := 0))
    ensures Sends(cfg, QuadBoxAccept(cfg, st, now, v, ALL, victim).out, Others(cfg, Interlink), t.(net := 0))
  {
  }

  /** The ring-member filter lets a frame out of the ring; its source was learned just before. */
  predicate LeavesRing(st: State, multicast: bool, dst: Mac, src: Mac) {
    multicast || (dst !in st.ring && dst != src)
  }

  /** What a first copy becomes on the interlink of a node that has a SAN or a PRP LAN there. */
  ghost predicate DeliveredTo(cfg: Config, st: State, now: int, out: map<Port, Frame>, t: Tag) {
    && (cfg.role == HsrSan ==>
          && (Interlink in out <==>
                LeavesRing(st, t.multicast, t.dst, t.key.src) && ShouldForward(cfg, st, now, t.payload))
          && (Interlink in out ==> out[Interlink] == t.original))
    && (cfg.role == HsrPrp ==>
          && (Interlink in out <==> t.net != cfg.Net())
          && (Interlink in out ==> out[Interlink] == EncodeRct(t.original, t.key.seqNo, cfg.Lan())))
  }

  lemma AcceptDelivers(cfg: Config, st: State, now: int, port: Port, v: RingView, t: Tag)
    requires port != Interlink && FaithfulView(cfg, st, now, v, t)
    ensures DeliveredTo(cfg, st, now, Writes(port, LaneFrame(port, v), ToInterlink(cfg, Learned(st, v.key.src, now), v)), t)
  {
  }

  // ---------------------------------------------------------------- a whole step

  /** What a frame arriving on an HSR port makes the node do. */
  ghost predicate ArrivalFlow(cfg: Config, st: State, now: int, port: Port, tag: Option<Tag>, o: Outcome) {
    match tag
    case None => KeyOf(o.verdict).None? && SendsUntagged(cfg, o.out)
    case Some(t) =>
      if cfg.mac == t.key.src || Found(st.dup, t.key, now) then
        KeyOf(o.verdict).None? && o.out == map[]
      else
        && o.verdict == Accepted(t.key)
        && Sends(cfg, o.out, Loud(cfg, st, port, t), if port == Interlink then t.(net := 0) else t)
        && (port != Interlink ==> DeliveredTo(cfg, st, now, o.out, t))
  }

  lemma ScreenFlow(cfg: Config, st: State, now: int, port: Port, v: RingView, t: Tag, victim: Key)
    requires port in cfg.HsrPorts() && FaithfulView(cfg, st, now, v, t)
    ensures ArrivalFlow(cfg, st, now, port, Some(t), HsrScreen(cfg, st, now, port, v, ALL, victim))
  {
    if cfg.mac != t.key.src && !Found(st.dup, t.key, now) {
      if port == Interlink {
        QuadBoxSends(cfg, st, now, v, t, victim);
      } else {
        AcceptOut(cfg, st, now, port, v, victim);
        AcceptSends(cfg, st, now, port, v, t);
        AcceptDelivers(cfg, st, now, port, v, t);
      }
    }
  }

  lemma ReceiveIsScreen(cfg: Config, st: State, now: int, port: Port, f: Frame, v: RingView, victim: Key)
    requires ViewOf(cfg, st.In(port), now, f) == Some(v)
    ensures HsrReceive(cfg, st, now, port, f, ALL, victim) == HsrScreen(cfg, st.In(port), now, port, v, ALL, victim)
  {
  }

  /** Counting the frame in does not change what happens to it. */
  lemma FlowAfterCounting(cfg: Config, st: State, now: int, port: Port, tag: Option<Tag>, o: Outcome)
    requires ArrivalFlow(cfg, st.In(port), now, port, tag, o)
    ensures ArrivalFlow(cfg, st, now, port, tag, o)
  {
  }

  lemma ReceiveFlow(cfg: Config, st: State, ev: Event)
    requires ev.Arrival? && ev.io == ALL && ev.port in cfg.HsrPorts() && TagOf(ev.frame).Some?
    ensures ArrivalFlow(cfg, st, ev.now, ev.port, TagOf(ev.frame),
                        HsrReceive(cfg, st, ev.now, ev.port, ev.frame, ALL, ev.victim))
  {
    var s := st.In(ev.port);
    ViewIsFaithful(cfg, s, ev.now, ev.frame);
    var v := ViewOf(cfg, s, ev.now, ev.frame).value;
    ReceiveIsScreen(cfg, st, ev.now, ev.port, ev.frame, v, ev.victim);
    ScreenFlow(cfg, s, ev.now, ev.port, v, TagOf(ev.frame).value, ev.victim);
    FlowAfterCounting(cfg, st, ev.now, ev.port, TagOf(ev.frame), HsrScreen(cfg, s, ev.now, ev.port, v, ALL, ev.victim));
  }

  lemma UntaggedFlow(cfg: Config, st: State, ev: Event)
    requires ev.Arrival? && Possible(cfg, ev) && ev.port in cfg.HsrPorts() && TagOf(ev.frame).None?
    ensures ArrivalFlow(cfg, st, ev.now, ev.port, None, Step(cfg, st, ev))
  {
    if |ev.frame| >= 14 {
      if IsSupervision(cfg, ev.port, ev.frame) {
        BridgeSends(cfg, Supervise(cfg, st, ev.now, ev.port, ev.frame), ev.port, ev.frame, ev.io);
      } else {
        HsrStep(cfg, st, ev);
      }
    }
  }

  lemma BridgeSends(cfg: Config, st: State, port: Port, f: Frame, io: set<Port>)
    ensures var o := Bridge(cfg, st, port, f, io);
            o.verdict == Ignored && forall p :: p in o.out ==> o.out[p] == f
  {
  }

  /** The source handles every frame with a readable tag, on every HSR port. */
  lemma TaggedIsPossible(cfg: Config, ev: Event)
    requires ev.Arrival? && ev.port in cfg.HsrPorts() && TagOf(ev.frame).Some?
    ensures Possible(cfg, ev)
  {
    TaggedEtherType(ev.frame);
  }

  lemma StepArrivalFlow(cfg: Config, st: State, ev: Event)
    requires ev.Arrival? && ev.io == ALL && Possible(cfg, ev) && ev.port in cfg.HsrPorts()
    ensures ArrivalFlow(cfg, st, ev.now, ev.port, TagOf(ev.frame), Step(cfg, st, ev))
  {
    if TagOf(ev.frame).None? {
      UntaggedFlow(cfg, st, ev);
    } else {
      TaggedEtherType(ev.frame);
      HsrStep(cfg, st, ev);
      ReceiveFlow(cfg, st, ev);
    }
  }

  // ---------------------------------------------------------------- injection

  /** The payload fits the length field of the tag. */
  predicate Fits(f: Frame) {
    |f| >= HeaderLen(f) && |f| - HeaderLen(f) <= 4089
  }

  /** A frame that a far node restores byte for byte. */
  predicate Transparent(f: Frame) {
    Fits(f) && !DoubleTagged(f)
  }

  /** The tag under which node `cfg` injects `f` with sequence number `n`. */
  function InjectedTag(cfg: Config, f: Frame, n: Word): Tag
    requires |f| >= HeaderLen(f)
  {
    Tag(Key(SrcMac(f), n), Restored(f), NetOf(Trunc4(InjectionPath(cfg))), DstMac(f), Multicast(f),
        f[HeaderLen(f)..])
  }

  /** What a frame entering at the interlink of an hsr-san or hsr-prp node makes the node do. */
  ghost predicate EntryFlow(cfg: Config, f: Frame, o: Outcome) {
    if KeyOf(o.verdict).None? then o.out == map[]
    else
      && o.verdict.Injected? && |f| >= HeaderLen(f) && o.verdict.key.src == SrcMac(f)
      && (Fits(f) ==> Sends(cfg, o.out, {LanA, LanB}, InjectedTag(cfg, f, o.verdict.key.seqNo)))
      && InjectsOnly(cfg, f, o.out, o.verdict.key.seqNo)
  }

  /** Whatever the size of the frame, only its content can differ from the tag above. */
  ghost predicate InjectsOnly(cfg: Config, f: Frame, out: map<Port, Frame>, n: Word)
    requires |f| >= HeaderLen(f)
  {
    forall p :: p in cfg.HsrPorts() && p in out && TagOf(out[p]).Some? ==>
      Resembles(TagOf(out[p]).value, InjectedTag(cfg, f, n))
  }

  predicate Resembles(t: Tag, u: Tag) {
    t == u.(original := t.original, payload := t.payload)
  }

  lemma TaggedCarries(cfg: Config, f: Frame, n: Word)
    requires Fits(f)
    ensures TagOf(Tagged(f, InjectionPath(cfg), n)) == Some(InjectedTag(cfg, f, n))
  {
    var path := Trunc4(InjectionPath(cfg));
    assert Tagged(f, InjectionPath(cfg), n) == Tagged(f, path, n);
    TaggedDecodes(f, path, n);
    TaggedStrips(f, path, n);
    SameAddresses(f, Tagged(f, path, n));
  }

  lemma TaggedResembles(cfg: Config, f: Frame, n: Word)
    requires |f| >= HeaderLen(f)
    ensures var t := TagOf(Tagged(f, InjectionPath(cfg), n)); t.Some? ==> Resembles(t.value, InjectedTag(cfg, f, n))
  {
    TaggedLayout(f, InjectionPath(cfg), n);
    var w, h := Tagged(f, InjectionPath(cfg), n), HeaderLen(f);
    PackFields(Trunc4(InjectionPath(cfg)), Trunc12(HSR_TAG_LEN + |f| - h));
    SameStart(w, f, h - 2);
    SameAddresses(f, w);
  }

  lemma LaunchFlow(cfg: Config, st: State, now: int, k: Key, w: Frame, victim: Key)
    requires cfg.role == HsrSan || cfg.role == HsrPrp
    ensures var o := Launch(cfg, st, now, k, w, ALL, victim);
            && o.verdict == Injected(k)
            && (TagOf(w).Some? ==> Sends(cfg, o.out, {LanA, LanB}, TagOf(w).value))
            && forall p :: p in o.out ==> o.out[p] == w
  {
  }

  lemma InjectFlow(cfg: Config, st: State, now: int, f: Frame, victim: Key)
    requires cfg.role == HsrSan || cfg.role == HsrPrp
    requires |f| >= HeaderLen(f) || (cfg.IsCoupling() && DecodeRct(f).None?)
    ensures EntryFlow(cfg, f, HsrInject(cfg, st, now, f, ALL, victim))
  {
    var src := SrcMac(f);
    var s := st.In(Interlink).(proxy := st.proxy[src := now]);
    if cfg.IsCoupling() && DecodeRct(f).None? { return; }
    var n := if cfg.IsCoupling() then DecodeRct(f).value.seqNo else NextSeq(cfg, s, src);
    var s1 := if cfg.IsCoupling() then s else TakeSeq(cfg, s, src);
    var w := Tagged(f, InjectionPath(cfg), n);
    LaunchFlow(cfg, s1, now, Key(src, n), w, victim);
    TaggedResembles(cfg, f, n);
    if Fits(f) { TaggedCarries(cfg, f, n); }
  }

  lemma StepEntryFlow(cfg: Config, st: State, ev: Event)
    requires ev.Arrival? && ev.io == ALL && Possible(cfg, ev) && ev.port == Interlink
    requires cfg.role == HsrSan || cfg.role == HsrPrp
    ensures EntryFlow(cfg, ev.frame, Step(cfg, st, ev))
  {
    if |ev.frame| >= 14 {
      InjectFlow(cfg, st, ev.now, ev.frame, ev.victim);
    }
  }

  // ---------------------------------------------------------------- timers

  /** Timers put nothing tagged on the HSR ports. */
  lemma StepTimerFlow(cfg: Config, st: State, ev: Event)
    requires !ev.Arrival? && Possible(cfg, ev)
    ensures KeyOf(Step(cfg, st, ev).verdict).None? && SendsUntagged(cfg, Step(cfg, st, ev).out)
  {
    if ev.Round? && cfg.IsHsr() {
      AnnouncementUntagged(cfg.mac, Succ(st.supSeq), InjectionPath(cfg));
    }
  }

  lemma AnnouncementUntagged(mac: Mac, n: Word, path: nat)
    requires |mac| == 6
    ensures DecodeHsr(Supervision.BuildHsr(mac, n, path)).None?
  {
    var w := Supervision.BuildHsr(mac, n, path);
    assert w == w + [];
    assert Supervision.BuildHsr(mac, n, path) == Supervision.BuildHsr(mac, n, Trunc4(path));
    Supervision.ParseBody(mac, n, Trunc4(path), Supervision.HSR_LIFE_CHECK, []);
    if TagOffset(w).Some? { TaggedEtherType(w); }
  }
}
