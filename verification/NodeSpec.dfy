/**
 * One step of a node (internal/prp/prp.go and internal/prp/hsr.go) as a function
 * of its state. The class in Node.dfy is proved to compute it; runs and networks
 * of nodes are built from it.
 *
 * A step also depends on `now`, on `io` (the ports whose write succeeds in this
 * step) and on `victim` (which of several equally old entries is evicted).
 */
module NodeSpec {
  import opened Bytes
  import opened Engine
  import opened NodeTable
  import opened Role
  import Supervision
  import MulticastPattern

  datatype Reason = Dup | Own | Path | Filter | Malformed

  datatype Counters = Counters(
    lanAIn: nat, lanBIn: nat, lanAOut: nat, lanBOut: nat, interIn: nat, interOut: nat)
  {
    function In(port: Port): Counters {
      match port
      case LanA => this.(lanAIn := lanAIn + 1)
      case LanB => this.(lanBIn := lanBIn + 1)
      case Interlink => this.(interIn := interIn + 1)
    }

    function Out(port: Port): Counters {
      match port
      case LanA => this.(lanAOut := lanAOut + 1)
      case LanB => this.(lanBOut := lanBOut + 1)
      case Interlink => this.(interOut := interOut + 1)
    }

    /** Counts a write to `port` if it went through. */
    function OutIf(port: Port, io: set<Port>): Counters {
      if port in io then Out(port) else this
    }
  }

  /** A node's tables, counters and last supervision number. */
  datatype State = State(
    dup: Entries,
    seqs: map<Mac, Word>,
    proxy: map<Mac, int>,
    ring: map<Mac, int>,
    supSeen: map<Mac, int>,
    supSeqs: map<Mac, Word>,
    supSeq: Word,
    drops: map<Reason, nat>,
    counters: Counters)
  {
    function In(port: Port): State { this.(counters := counters.In(port)) }

    function Out(port: Port, io: set<Port>): State { this.(counters := counters.OutIf(port, io)) }
  }

  function Dropped(st: State, r: Reason): nat { Count(st.drops, r) }

  function Drop(st: State, r: Reason): State { st.(drops := Bumped(st.drops, r)) }

  function Count(drops: map<Reason, nat>, r: Reason): nat {
    if r in drops then drops[r] else 0
  }

  function Bumped(drops: map<Reason, nat>, r: Reason): map<Reason, nat> {
    drops[r := Count(drops, r) + 1]
  }

  /** The frames written so far plus one more write, if it went through. */
  function Put(out: map<Port, Frame>, port: Port, f: Frame, io: set<Port>): map<Port, Frame> {
    if port in io then out[port := f] else out
  }

  const INITIAL: State := State(map[], map[], map[], map[], map[], map[], ZERO, map[], Counters(0, 0, 0, 0, 0, 0))

  /** What a step did with the frame. */
  datatype Verdict =
    | Ignored                 // too short, or supervision consumed locally
    | Refused(reason: Reason) // dropped without touching the duplicate table
    | Accepted(key: Key)      // first copy: entered in the duplicate table
    | Injected(key: Key)      // tagged for the ring and entered in the duplicate table
    | Sent(seqNo: Word)     // sent on both LANs with an RCT
    | Copied                  // sent on both LANs as is

  datatype Outcome = Outcome(st: State, out: map<Port, Frame>, verdict: Verdict)

  function Refuse(st: State, r: Reason): Outcome {
    Outcome(Drop(st, r), map[], Refused(r))
  }

  function NextSeq(cfg: Config, st: State, src: Mac): Word {
    if src in st.seqs then st.seqs[src] else cfg.seqStart
  }

  function Register(cfg: Config, st: State, k: Key, lan: nat, now: int, victim: Key): State {
    st.(dup := Inserted(st.dup, cfg.MaxTable(), k, Entry(lan, now, cfg.ForgetMs()), victim))
  }

  // ---------------------------------------------------------------- filters

  predicate ShouldForward(cfg: Config, st: State, now: int, f: Frame) {
    || cfg.forwardAll
    || (if Multicast(f) then MulticastPattern.Allowed(cfg.multicastFirstOctet, f)
        else DstMac(f) in st.proxy && now - st.proxy[DstMac(f)] <= cfg.ProxyForgetMs())
  }

  // ---------------------------------------------------------------- ring port of an HSR node

  /**
   * A tagged frame as the handlers see it: its key, addresses and PathId, and what
   * it would become on each port. `passes` is the verdict of the SAN filter, which
   * is applied to the bare payload.
   */
  datatype RingView = RingView(
    key: Key, dst: Mac, multicast: bool, net: nat, lane: nat,
    raw: Frame, laneA: Option<Frame>, laneB: Option<Frame>, reset: Option<Frame>,
    original: Option<Frame>, coupled: Option<Frame>, passes: bool)

  function ViewOf(cfg: Config, st: State, now: int, f: Frame): Option<RingView> {
    match DecodeHsr(f)
    case None => None
    case Some(t) =>
      var original := StripHsr(f);
      Some(RingView(
             Key(SrcMac(f), t.seqNo), DstMac(f), Multicast(f), NetOf(t.path), LaneOf(t.path),
             f, RewritePathLane(f, true), RewritePathLane(f, false), RewritePath(f, 0),
             original,
             if original.None? then None else Some(EncodeRct(original.value, t.seqNo, cfg.Lan())),
             ShouldForward(cfg, st, now, t.payload)))
  }

  predicate UnicastToRingMember(st: State, v: RingView) {
    !v.multicast && v.dst in st.ring
  }

  datatype Delivery = Write(frame: Frame) | Discard(reason: Reason) | Nothing

  function WriteOr(f: Option<Frame>): Delivery {
    if f.None? then Discard(Malformed) else Write(f.value)
  }

  /** What an accepted ring frame becomes on the interlink. */
  function ToInterlink(cfg: Config, st: State, v: RingView): Delivery {
    if cfg.IsCoupling() then
      if v.net != cfg.Net() then WriteOr(v.coupled)
      else if v.lane == cfg.Lan() then Discard(Own)
      else Discard(Path)
    else if cfg.IsQuadBox() && !cfg.hasInterlink then Nothing
    else if UnicastToRingMember(st, v) then Discard(Filter)
    else if cfg.IsQuadBox() then Write(v.raw)
    else if !v.passes then Discard(Filter)
    else WriteOr(v.original)
  }

  /** Delivery touches counters only, and at most one port besides those already written. */
  function Deliver(st: State, out: map<Port, Frame>, d: Delivery, k: Key, io: set<Port>): (o: Outcome)
    ensures o.verdict == Accepted(k)
    ensures o.st == st.(drops := o.st.drops, counters := o.st.counters)
    ensures o.out == if d.Write? then Put(out, Interlink, d.frame, io) else out
  {
    match d
    case Nothing => Outcome(st, out, Accepted(k))
    case Discard(r) => Outcome(Drop(st, r), out, Accepted(k))
    case Write(f) =>
      Outcome(st.Out(Interlink, io), Put(out, Interlink, f, io), Accepted(k))
  }

  /** First copy of a ring frame: register it, learn its source, forward it and deliver it. */
  function HsrAccept(cfg: Config, st: State, now: int, port: Port, v: RingView, io: set<Port>, victim: Key): Outcome {
    var s := Register(cfg, st, v.key, 0, now, victim).(ring := st.ring[v.key.src := now]);
    var other := OtherRingPort(port);
    var fwd := if other == LanA then v.laneA else v.laneB;
    if fwd.None? then Deliver(s, map[], ToInterlink(cfg, s, v), v.key, io)
    else Deliver(s.Out(other, io), Put(map[], other, fwd.value, io), ToInterlink(cfg, s, v), v.key, io)
  }

  function HsrScreen(cfg: Config, st: State, now: int, port: Port, v: RingView, io: set<Port>, victim: Key): Outcome {
    if cfg.mac == v.key.src then Refuse(st, Own)
    else if Found(st.dup, v.key, now) then Refuse(st, Dup)
    else if port == Interlink then QuadBoxAccept(cfg, st, now, v, io, victim)
    else HsrAccept(cfg, st, now, port, v, io, victim)
  }

  /** A tagged frame arriving on a ring port, or on the interlink of a QuadBox. */
  function HsrReceive(cfg: Config, st: State, now: int, port: Port, f: Frame, io: set<Port>, victim: Key): Outcome {
    var s := st.In(port);
    match ViewOf(cfg, s, now, f)
    case None => Refuse(s, Malformed)
    case Some(v) => HsrScreen(cfg, s, now, port, v, io, victim)
  }

  function BothPorts(st: State, a: Frame, b: Frame, v: Verdict, io: set<Port>): (o: Outcome)
    ensures o.verdict == v && o.st == st.(counters := o.st.counters)
  {
    Outcome(st.Out(LanA, io).Out(LanB, io), Put(Put(map[], LanA, a, io), LanB, b, io), v)
  }

  /** First copy from the other ring: it starts a fresh traversal of this one. */
  function QuadBoxAccept(cfg: Config, st: State, now: int, v: RingView, io: set<Port>, victim: Key): Outcome {
    var s := Register(cfg, st, v.key, 0, now, victim);
    if v.reset.None? then Outcome(Drop(s, Malformed), map[], Accepted(v.key))
    else BothPorts(s, v.reset.value, v.reset.value, Accepted(v.key), io)
  }

  // ---------------------------------------------------------------- interlink of an HSR node

  function InjectionPath(cfg: Config): nat {
    if cfg.IsCoupling() then cfg.Net() * 2 + cfg.Lan() else 0
  }

  /** Both ring copies carry one tag, and the key is registered before they leave. */
  function Launch(cfg: Config, st: State, now: int, k: Key, w: Frame, io: set<Port>, victim: Key): Outcome {
    BothPorts(Register(cfg, st, k, 0, now, victim), w, w, Injected(k), io)
  }

  function TakeSeq(cfg: Config, st: State, src: Mac): State {
    st.(seqs := st.seqs[src := Succ(NextSeq(cfg, st, src))])
  }

  function HsrInject(cfg: Config, st: State, now: int, f: Frame, io: set<Port>, victim: Key): Outcome
    requires |f| >= HeaderLen(f) || (cfg.IsCoupling() && DecodeRct(f).None?)
  {
    var src := SrcMac(f);
    var s := st.In(Interlink).(proxy := st.proxy[src := now]);
    if !cfg.IsCoupling() then
      var n := NextSeq(cfg, s, src);
      Launch(cfg, TakeSeq(cfg, s, src), now, Key(src, n), Tagged(f, InjectionPath(cfg), n), io, victim)
    else match DecodeRct(f)
      case None => Refuse(s, Malformed)
      case Some(r) =>
        Launch(cfg, s, now, Key(src, r.seqNo), Tagged(f, InjectionPath(cfg), r.seqNo), io, victim)
  }

  // ---------------------------------------------------------------- PRP node

  /** An RCT frame as the handlers see it. */
  datatype LanView = LanView(key: Key, lan: nat, body: Frame, passes: bool)

  function LanViewOf(cfg: Config, st: State, now: int, f: Frame): Option<LanView> {
    match DecodeRct(f)
    case None => None
    case Some(r) => Some(LanView(Key(SrcMac(f), r.seqNo), r.lan, r.body, ShouldForward(cfg, st, now, r.body)))
  }

  function PrpReceive(cfg: Config, st: State, now: int, port: Port, f: Frame, io: set<Port>, victim: Key): Outcome {
    var s := st.In(port);
    match LanViewOf(cfg, s, now, f)
    case None => Refuse(s, Malformed)
    case Some(v) =>
      if v.lan != (if port == LanB then 1 else 0) then Refuse(s, Path)
      else PrpScreen(cfg, s, now, v, io, victim)
  }

  function PrpScreen(cfg: Config, st: State, now: int, v: LanView, io: set<Port>, victim: Key): Outcome {
    if cfg.mac == v.key.src then Outcome(st, map[], Refused(Own))
    else if Found(st.dup, v.key, now) then Refuse(st, Dup)
    else PrpAccept(cfg, st, now, v, io, victim)
  }

  function PrpAccept(cfg: Config, st: State, now: int, v: LanView, io: set<Port>, victim: Key): Outcome {
    var s := Register(cfg, st, v.key, v.lan, now, victim);
    var d := if !cfg.hasInterlink then Nothing else if !v.passes then Discard(Filter) else Write(v.body);
    Deliver(s, map[], d, v.key, io)
  }

  predicate VlanPasses(cfg: Config, f: Frame)
    requires cfg.vlanFilter != [] && IsVlan(f) ==> |f| >= 16
  {
    cfg.vlanFilter == [] || (VlanId(f).Some? && VlanId(f).value in cfg.vlanFilter)
  }

  function PrpSend(cfg: Config, st: State, now: int, f: Frame, io: set<Port>): Outcome
    requires cfg.vlanFilter != [] && IsVlan(f) ==> |f| >= 16
  {
    var src := SrcMac(f);
    var s := st.In(Interlink);
    if !VlanPasses(cfg, f) then Refuse(s, Filter)
    else
      var s1 := s.(proxy := s.proxy[src := now]);
      if !cfg.trailerEnabled then
        BothPorts(s1, f, f, Copied, io).(st := s1.Out(LanA, {LanA}).Out(LanB, {LanB}))
      else
        var n := NextSeq(cfg, s1, src);
        BothPorts(TakeSeq(cfg, s1, src), EncodeRct(f, n, 0), EncodeRct(f, n, 1), Sent(n), io)
  }

  // ---------------------------------------------------------------- supervision and dispatch

  /** The 16-bit difference is negative: the peer's counter went backwards. */
  predicate Regressed(last: Word, next: Word) {
    var d := Num(next) - Num(last);
    -0x8000 <= d < 0 || 0x8000 <= d
  }

  function Supervise(cfg: Config, st: State, now: int, port: Port, f: Frame): State
    requires Supervision.IsAnnouncement(f) ==> |f| >= 26
  {
    match Supervision.Parse(f)
    case None => st
    case Some(a) =>
      var restarted := a.src in st.supSeqs && Regressed(st.supSeqs[a.src], a.seqNo);
      st.(supSeen := st.supSeen[a.src := now],
          ring := if cfg.IsHsr() && port != Interlink then st.ring[a.src := now] else st.ring,
          dup := if restarted then Flushed(st.dup, a.src) else st.dup,
          supSeqs := st.supSeqs[a.src := a.seqNo])
  }

  predicate IsSupervision(cfg: Config, port: Port, f: Frame) {
    EtherType(f) == PRP_SUFFIX && (port != Interlink || cfg.IsQuadBox())
  }

  /** A QuadBox repeats supervision towards the other ring. */
  function Bridge(cfg: Config, st: State, port: Port, f: Frame, io: set<Port>): Outcome {
    if !cfg.IsQuadBox() then Outcome(st, map[], Ignored)
    else if port == Interlink then BothPorts(st, f, f, Ignored, io)
    else if cfg.hasInterlink && Interlink in io then Outcome(st.Out(Interlink, io), map[Interlink := f], Ignored)
    else Outcome(st, map[], Ignored)
  }

  /** Frames on which the source neither slices out of range nor dereferences an unbound port. */
  predicate Safe(cfg: Config, port: Port, f: Frame) {
    |f| >= 14 ==>
      if IsSupervision(cfg, port, f) then Supervision.IsAnnouncement(f) ==> |f| >= 26
      else if port != Interlink then true
      else match cfg.role
        case PrpSan => cfg.vlanFilter != [] && IsVlan(f) ==> |f| >= 16
        case HsrSan => |f| >= HeaderLen(f)
        case _ => true
  }

  function HandleFrame(cfg: Config, st: State, now: int, port: Port, f: Frame, io: set<Port>, victim: Key): Outcome
    requires Safe(cfg, port, f)
  {
    if |f| < 14 then Outcome(st, map[], Ignored)
    else if IsSupervision(cfg, port, f) then Bridge(cfg, Supervise(cfg, st, now, port, f), port, f, io)
    else Dispatch(cfg, st, now, port, f, io, victim)
  }

  function Dispatch(cfg: Config, st: State, now: int, port: Port, f: Frame, io: set<Port>, victim: Key): Outcome
    requires Safe(cfg, port, f) && |f| >= 14 && !IsSupervision(cfg, port, f)
  {
    if port != Interlink then
      if cfg.IsHsr() then HsrReceive(cfg, st, now, port, f, io, victim)
      else PrpReceive(cfg, st, now, port, f, io, victim)
    else match cfg.role
      case PrpSan => PrpSend(cfg, st, now, f, io)
      case HsrHsr => HsrReceive(cfg, st, now, Interlink, f, io, victim)
      case _ => HsrInject(cfg, st, now, f, io, victim)
  }

  // ---------------------------------------------------------------- timers

  function Recent(m: map<Mac, int>, cutoff: int): map<Mac, int> {
    map mac | mac in m && m[mac] >= cutoff :: m[mac]
  }

  /** Ring members are pruned only while some peer's supervision is remembered. */
  function Cleanup(cfg: Config, st: State, now: int): State {
    var s := st.(dup := Cleaned(st.dup, now));
    if st.supSeen == map[] then s
    else
      var cutoff := now - cfg.NodeForgetMs();
      s.(supSeen := Recent(st.supSeen, cutoff), ring := Recent(st.ring, cutoff))
  }

  /** What a node announces on a redundant port: HSR dialect on a ring, PRP dialect with an RCT on a LAN. */
  function Announcement(cfg: Config, n: Word, port: Port): Frame
    requires |cfg.mac| == 6
  {
    if cfg.IsHsr() then Supervision.BuildHsr(cfg.mac, n, InjectionPath(cfg))
    else Supervision.BuildRcted(cfg.mac, n, if port == LanB then 1 else 0)
  }

  /** A QuadBox announces itself to the other ring, a coupling node to its PRP LAN. */
  function InterlinkAnnouncement(cfg: Config, n: Word): Option<Frame>
    requires |cfg.mac| == 6
  {
    if !cfg.hasInterlink then None
    else if cfg.IsQuadBox() then Some(Announcement(cfg, n, Interlink))
    else if cfg.IsCoupling() then Some(Supervision.BuildRcted(cfg.mac, n, cfg.Lan()))
    else None
  }

  /** One frame per port, where the write goes through. */
  function OnPorts(io: set<Port>, a: Frame, b: Frame, c: Option<Frame>): map<Port, Frame> {
    map p | p in io && (p == Interlink ==> c.Some?) ::
      match p case LanA => a case LanB => b case Interlink => c.value
  }

  function Announce(cfg: Config, st: State, io: set<Port>): Outcome
    requires |cfg.mac| == 6
  {
    var n := Succ(st.supSeq);
    Outcome(st.(supSeq := n),
            OnPorts(io, Announcement(cfg, n, LanA), Announcement(cfg, n, LanB), InterlinkAnnouncement(cfg, n)), Ignored)
  }

  // ---------------------------------------------------------------- the free choices of a step

  function KeyOf(v: Verdict): Option<Key> {
    match v
    case Accepted(k) => Some(k)
    case Injected(k) => Some(k)
    case _ => None
  }

  /** `victim` is a legal choice for a step that ended with verdict `v`. */
  ghost predicate ValidChoice(cfg: Config, st: State, now: int, v: Verdict, victim: Key) {
    KeyOf(v).Some? ==> ValidVictim(st.dup, cfg.MaxTable(), KeyOf(v).value, now, victim)
  }
}
