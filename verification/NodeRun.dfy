/**
 * Runs of a single node: any interleaving of arriving frames, cleanup ticks and
 * supervision rounds, on a clock that never runs backwards.
 */
module NodeRun {
  import opened Bytes
  import opened Engine
  import opened NodeTable
  import opened Role
  import opened NodeSpec
  import Supervision

  datatype Event =
    | Arrival(now: int, port: Port, frame: Frame, io: set<Port>, victim: Key)
    | Tick(now: int)
    | Round(now: int, io: set<Port>)

  predicate Possible(cfg: Config, ev: Event) {
    match ev
    case Arrival(_, port, f, _, _) => Safe(cfg, port, f)
    case Tick(_) => true
    case Round(_, _) => |cfg.mac| == 6
  }

  function Step(cfg: Config, st: State, ev: Event): Outcome
    requires Possible(cfg, ev)
  {
    match ev
    case Arrival(now, port, f, io, victim) => HandleFrame(cfg, st, now, port, f, io, victim)
    case Tick(now) => Outcome(NodeSpec.Cleanup(cfg, st, now), map[], Ignored)
    case Round(_, io) => Announce(cfg, st, io)
  }

  /** States, the events between them and what each event led to. */
  datatype Run = Run(sts: seq<State>, evs: seq<Event>, outs: seq<Outcome>)

  ghost predicate StepAt(cfg: Config, run: Run, i: nat)
    requires i < |run.evs| == |run.outs| && |run.sts| == |run.evs| + 1
  {
    && Possible(cfg, run.evs[i])
    && run.outs[i] == Step(cfg, run.sts[i], run.evs[i])
    && run.sts[i + 1] == run.outs[i].st
    && (run.evs[i].Arrival? ==>
          ValidChoice(cfg, run.sts[i], run.evs[i].now, run.outs[i].verdict, run.evs[i].victim))
  }

  /** The clock did not run backwards from event `i` to event `j`. */
  predicate InOrder(run: Run, i: nat, j: nat)
    requires i <= j < |run.evs|
  {
    run.evs[i].now <= run.evs[j].now
  }

  ghost predicate IsRun(cfg: Config, run: Run) {
    && |run.evs| == |run.outs| && |run.sts| == |run.evs| + 1
    && (forall i :: 0 <= i < |run.evs| ==> StepAt(cfg, run, i))
    && (forall i, j :: 0 <= i <= j < |run.evs| ==> InOrder(run, i, j))
  }

  // ---------------------------------------------------------------- what a step does to the duplicate table

  /** The announcement a step consumes, if any. */
  function Heard(cfg: Config, ev: Event): Option<Supervision.Announcement>
    requires Possible(cfg, ev)
  {
    if ev.Arrival? && |ev.frame| >= 14 && IsSupervision(cfg, ev.port, ev.frame)
    then Supervision.Parse(ev.frame) else None
  }

  predicate Flushes(cfg: Config, st: State, ev: Event, src: Mac)
    requires Possible(cfg, ev)
  {
    var a := Heard(cfg, ev);
    a.Some? && a.value.src == src && src in st.supSeqs && Regressed(st.supSeqs[src], a.value.seqNo)
  }

  /** The step made room in a full table by dropping `k`. */
  predicate Evicts(cfg: Config, st: State, ev: Event, v: Verdict, k: Key) {
    && ev.Arrival? && ev.victim == k
    && KeyOf(v).Some? && Overflows(st.dup, cfg.MaxTable(), KeyOf(v).value)
  }

  /**
   * Equality of two tables as single values. Spelled `==` on maps it is compared key by
   * key, which makes the proofs below several times as expensive.
   */
  predicate Same<T(==)>(a: T, b: T) { a == b }

  /** The effect on the duplicate table of a step that was no announcement. */
  ghost predicate DupAfter(cfg: Config, st: State, now: int, lan: nat, o: Outcome, victim: Key) {
    match KeyOf(o.verdict)
    case None => Same(o.st.dup, st.dup)
    case Some(k) => Same(o.st.dup, Inserted(st.dup, cfg.MaxTable(), k, Entry(lan, now, cfg.ForgetMs()), victim))
  }

  /** The LAN an entry made on this port is filed under. */
  function EntryLan(cfg: Config, port: Port): nat {
    if cfg.IsHsr() || port != LanB then 0 else 1
  }

  lemma AcceptDup(cfg: Config, st: State, now: int, port: Port, v: RingView, io: set<Port>, victim: Key)
    ensures DupAfter(cfg, st, now, 0, HsrAccept(cfg, st, now, port, v, io, victim), victim)
    ensures Same(HsrAccept(cfg, st, now, port, v, io, victim).st.supSeqs, st.supSeqs)
  {
  }

  lemma QuadBoxDup(cfg: Config, st: State, now: int, v: RingView, io: set<Port>, victim: Key)
    ensures DupAfter(cfg, st, now, 0, QuadBoxAccept(cfg, st, now, v, io, victim), victim)
    ensures Same(QuadBoxAccept(cfg, st, now, v, io, victim).st.supSeqs, st.supSeqs)
  {
  }

  lemma ScreenDup(cfg: Config, st: State, now: int, port: Port, v: RingView, io: set<Port>, victim: Key)
    ensures DupAfter(cfg, st, now, 0, HsrScreen(cfg, st, now, port, v, io, victim), victim)
    ensures Same(HsrScreen(cfg, st, now, port, v, io, victim).st.supSeqs, st.supSeqs)
  {
    if port == Interlink {
      QuadBoxDup(cfg, st, now, v, io, victim);
    } else {
      AcceptDup(cfg, st, now, port, v, io, victim);
    }
  }

  lemma PrpAcceptDup(cfg: Config, st: State, now: int, v: LanView, io: set<Port>, victim: Key)
    ensures DupAfter(cfg, st, now, v.lan, PrpAccept(cfg, st, now, v, io, victim), victim)
    ensures Same(PrpAccept(cfg, st, now, v, io, victim).st.supSeqs, st.supSeqs)
  {
  }

  lemma PrpScreenDup(cfg: Config, st: State, now: int, v: LanView, io: set<Port>, victim: Key)
    ensures DupAfter(cfg, st, now, v.lan, PrpScreen(cfg, st, now, v, io, victim), victim)
    ensures Same(PrpScreen(cfg, st, now, v, io, victim).st.supSeqs, st.supSeqs)
  {
    PrpAcceptDup(cfg, st, now, v, io, victim);
  }

  lemma LaunchDup(cfg: Config, st: State, now: int, k: Key, w: Frame, io: set<Port>, victim: Key)
    ensures DupAfter(cfg, st, now, 0, Launch(cfg, st, now, k, w, io, victim), victim)
    ensures Same(Launch(cfg, st, now, k, w, io, victim).st.supSeqs, st.supSeqs)
  {
  }

  lemma HsrReceiveDup(cfg: Config, st: State, now: int, port: Port, f: Frame, io: set<Port>, victim: Key)
    ensures DupAfter(cfg, st, now, 0, HsrReceive(cfg, st, now, port, f, io, victim), victim)
    ensures Same(HsrReceive(cfg, st, now, port, f, io, victim).st.supSeqs, st.supSeqs)
  {
    var s := st.In(port);
    var view := ViewOf(cfg, s, now, f);
    if view.Some? { ScreenDup(cfg, s, now, port, view.value, io, victim); }
  }

  lemma PrpReceiveDup(cfg: Config, st: State, now: int, port: Port, f: Frame, io: set<Port>, victim: Key)
    ensures DupAfter(cfg, st, now, if port == LanB then 1 else 0, PrpReceive(cfg, st, now, port, f, io, victim), victim)
    ensures Same(PrpReceive(cfg, st, now, port, f, io, victim).st.supSeqs, st.supSeqs)
  {
    var s := st.In(port);
    var view := LanViewOf(cfg, s, now, f);
    if view.Some? { PrpScreenDup(cfg, s, now, view.value, io, victim); }
  }

  lemma HsrInjectDup(cfg: Config, st: State, now: int, f: Frame, io: set<Port>, victim: Key)
    requires |f| >= HeaderLen(f) || (cfg.IsCoupling() && DecodeRct(f).None?)
    ensures DupAfter(cfg, st, now, 0, HsrInject(cfg, st, now, f, io, victim), victim)
    ensures Same(HsrInject(cfg, st, now, f, io, victim).st.supSeqs, st.supSeqs)
  {
    var src := SrcMac(f);
    var s := st.In(Interlink).(proxy := st.proxy[src := now]);
    if !cfg.IsCoupling() {
      var n := NextSeq(cfg, s, src);
      LaunchDup(cfg, TakeSeq(cfg, s, src), now, Key(src, n), Tagged(f, InjectionPath(cfg), n), io, victim);
    } else if DecodeRct(f).Some? {
      var n := DecodeRct(f).value.seqNo;
      LaunchDup(cfg, s, now, Key(src, n), Tagged(f, InjectionPath(cfg), n), io, victim);
    }
  }

  lemma PrpSendDup(cfg: Config, st: State, now: int, f: Frame, io: set<Port>, victim: Key)
    requires cfg.vlanFilter != [] && IsVlan(f) ==> |f| >= 16
    ensures DupAfter(cfg, st, now, 0, PrpSend(cfg, st, now, f, io), victim)
    ensures Same(PrpSend(cfg, st, now, f, io).st.supSeqs, st.supSeqs)
  {
  }

  lemma InterlinkDup(cfg: Config, st: State, now: int, f: Frame, io: set<Port>, victim: Key)
    requires Safe(cfg, Interlink, f) && |f| >= 14 && !IsSupervision(cfg, Interlink, f)
    ensures DupAfter(cfg, st, now, 0, Dispatch(cfg, st, now, Interlink, f, io, victim), victim)
    ensures Same(Dispatch(cfg, st, now, Interlink, f, io, victim).st.supSeqs, st.supSeqs)
  {
    if cfg.IsQuadBox() {
      HsrReceiveDup(cfg, st, now, Interlink, f, io, victim);
    } else if cfg.IsHsr() {
      HsrInjectDup(cfg, st, now, f, io, victim);
    } else {
      PrpSendDup(cfg, st, now, f, io, victim);
    }
  }

  lemma DispatchDup(cfg: Config, st: State, now: int, port: Port, f: Frame, io: set<Port>, victim: Key)
    requires Safe(cfg, port, f) && |f| >= 14 && !IsSupervision(cfg, port, f)
    ensures DupAfter(cfg, st, now, EntryLan(cfg, port), Dispatch(cfg, st, now, port, f, io, victim), victim)
    ensures Same(Dispatch(cfg, st, now, port, f, io, victim).st.supSeqs, st.supSeqs)
  {
    if port == Interlink {
      InterlinkDup(cfg, st, now, f, io, victim);
    } else if cfg.IsHsr() {
      HsrReceiveDup(cfg, st, now, port, f, io, victim);
    } else {
      PrpReceiveDup(cfg, st, now, port, f, io, victim);
    }
  }

  /** What hearing an announcement does: flush exactly its source's entries if its numbers went backwards. */
  lemma SuperviseDup(cfg: Config, st: State, now: int, port: Port, f: Frame, io: set<Port>, victim: Key)
    requires Safe(cfg, port, f) && |f| >= 14 && IsSupervision(cfg, port, f)
    ensures var o := HandleFrame(cfg, st, now, port, f, io, victim); var a := Supervision.Parse(f);
            && o.verdict == Ignored
            && (a.None? ==> o.st.dup == st.dup && o.st.supSeqs == st.supSeqs)
            && (a.Some? ==>
                  && o.st.supSeqs == st.supSeqs[a.value.src := a.value.seqNo]
                  && o.st.dup == if a.value.src in st.supSeqs && Regressed(st.supSeqs[a.value.src], a.value.seqNo)
                                 then Flushed(st.dup, a.value.src) else st.dup)
  {
    BridgeKeeps(cfg, Supervise(cfg, st, now, port, f), port, f, io);
  }

  lemma BridgeKeeps(cfg: Config, st: State, port: Port, f: Frame, io: set<Port>)
    ensures var o := Bridge(cfg, st, port, f, io);
            o.verdict == Ignored && o.st == st.(counters := o.st.counters)
  {
  }

  /** The complete effect of a step on the duplicate table and the supervision numbers. */
  ghost predicate StepEffect(cfg: Config, st: State, ev: Event, o: Outcome)
    requires Possible(cfg, ev)
  {
    && (ev.Tick? ==> o.st.dup == Cleaned(st.dup, ev.now) && KeyOf(o.verdict).None?)
    && (ev.Round? ==> o.st.dup == st.dup && KeyOf(o.verdict).None?)
    && (Heard(cfg, ev).None? ==>
          && (ev.Arrival? ==> DupAfter(cfg, st, ev.now, EntryLan(cfg, ev.port), o, ev.victim))
          && o.st.supSeqs == st.supSeqs)
    && (Heard(cfg, ev).Some? ==>
          && KeyOf(o.verdict).None?
          && o.st.supSeqs == st.supSeqs[Heard(cfg, ev).value.src := Heard(cfg, ev).value.seqNo]
          && o.st.dup == if Flushes(cfg, st, ev, Heard(cfg, ev).value.src)
                         then Flushed(st.dup, Heard(cfg, ev).value.src) else st.dup)
  }

  lemma StepHasEffect(cfg: Config, st: State, ev: Event)
    requires Possible(cfg, ev)
    ensures StepEffect(cfg, st, ev, Step(cfg, st, ev))
  {
    if ev.Arrival? && |ev.frame| >= 14 {
      if IsSupervision(cfg, ev.port, ev.frame) {
        SuperviseDup(cfg, st, ev.now, ev.port, ev.frame, ev.io, ev.victim);
      } else {
        DispatchDup(cfg, st, ev.now, ev.port, ev.frame, ev.io, ev.victim);
      }
    }
  }

  lemma RunStepEffect(cfg: Config, run: Run, i: nat)
    requires IsRun(cfg, run) && i < |run.evs|
    ensures Possible(cfg, run.evs[i]) && run.sts[i + 1] == run.outs[i].st
    ensures StepEffect(cfg, run.sts[i], run.evs[i], run.outs[i])
  {
    assert StepAt(cfg, run, i);
    StepHasEffect(cfg, run.sts[i], run.evs[i]);
  }

  /** The step drops the entry of `k` although it has not expired. */
  predicate ForgetsKey(cfg: Config, st: State, ev: Event, v: Verdict, k: Key)
    requires Possible(cfg, ev)
  {
    Evicts(cfg, st, ev, v, k) || Flushes(cfg, st, ev, k.src)
  }

  /** What a step does to the entry of one key. */
  ghost predicate KeyEffect(cfg: Config, st: State, ev: Event, o: Outcome, k: Key)
    requires Possible(cfg, ev)
  {
    if ForgetsKey(cfg, st, ev, o.verdict, k) then k !in o.st.dup
    else if KeyOf(o.verdict) == Some(k) then
      k in o.st.dup && o.st.dup[k].lastSeen == ev.now && o.st.dup[k].expiryMs == cfg.ForgetMs()
    else
      && (k in o.st.dup ==> k in st.dup && o.st.dup[k] == st.dup[k])
      && (k in st.dup && k !in o.st.dup ==> ev.Tick? && Expired(st.dup[k], ev.now))
  }

  lemma EffectOnKey(cfg: Config, st: State, ev: Event, o: Outcome, k: Key)
    requires Possible(cfg, ev) && StepEffect(cfg, st, ev, o)
    ensures KeyEffect(cfg, st, ev, o, k)
  {
  }

  // ---------------------------------------------------------------- one key over a run

  predicate RegistersAt(run: Run, i: nat, k: Key)
    requires i < |run.outs|
  {
    KeyOf(run.outs[i].verdict) == Some(k)
  }

  predicate ForgetsAt(cfg: Config, run: Run, i: nat, k: Key)
    requires i < |run.evs| == |run.outs| && |run.sts| == |run.evs| + 1 && Possible(cfg, run.evs[i])
  {
    ForgetsKey(cfg, run.sts[i], run.evs[i], run.outs[i].verdict, k)
  }

  lemma StepOnKey(cfg: Config, run: Run, i: nat, k: Key)
    requires IsRun(cfg, run) && i < |run.evs|
    ensures Possible(cfg, run.evs[i]) && run.sts[i + 1] == run.outs[i].st
    ensures KeyEffect(cfg, run.sts[i], run.evs[i], run.outs[i], k)
  {
    RunStepEffect(cfg, run, i);
    EffectOnKey(cfg, run.sts[i], run.evs[i], run.outs[i], k);
  }

  /** No step from `i` up to `j` flushes the source of `k` or evicts `k`. */
  ghost predicate Remembered(cfg: Config, run: Run, i: nat, j: nat, k: Key)
    requires |run.evs| == |run.outs| && |run.sts| == |run.evs| + 1 && j <= |run.evs|
  {
    forall x :: i <= x < j ==> Possible(cfg, run.evs[x]) && !ForgetsAt(cfg, run, x, k)
  }

  /** A registration keeps its key in the table for the forget time. */
  lemma {:induction false} RegistrationLasts(cfg: Config, run: Run, i: nat, j: nat, k: Key)
    requires IsRun(cfg, run) && i < j <= |run.evs|
    requires RegistersAt(run, i, k) && Remembered(cfg, run, i, j, k)
    requires run.evs[j - 1].now - run.evs[i].now <= cfg.ForgetMs()
    ensures k in run.sts[j].dup && run.sts[j].dup[k].lastSeen >= run.evs[i].now
    ensures run.sts[j].dup[k].expiryMs == cfg.ForgetMs()
    decreases j - i
  {
    StepOnKey(cfg, run, j - 1, k);
    assert InOrder(run, i, j - 1);
    if j > i + 1 {
      assert InOrder(run, j - 2, j - 1);
      RegistrationLasts(cfg, run, i, j - 1, k);
    }
  }

  /** Every entry was put there by a registration that nothing has undone since. */
  lemma {:induction false} EntryHasOrigin(cfg: Config, run: Run, j: nat, k: Key) returns (i: nat)
    requires IsRun(cfg, run) && j <= |run.evs| && k !in run.sts[0].dup && k in run.sts[j].dup
    ensures i < j && RegistersAt(run, i, k) && Remembered(cfg, run, i, j, k)
    ensures run.sts[j].dup[k].lastSeen == run.evs[i].now && run.sts[j].dup[k].expiryMs == cfg.ForgetMs()
  {
    i := j - 1;
    StepOnKey(cfg, run, i, k);
    if !RegistersAt(run, i, k) {
      i := EntryHasOrigin(cfg, run, j - 1, k);
    }
  }

  // ---------------------------------------------------------------- acceptance

  /** The duplicate key of a data frame that reaches the duplicate check of the node. */
  function OfferedKey(cfg: Config, port: Port, f: Frame): Option<Key> {
    if |f| < 14 || IsSupervision(cfg, port, f) || cfg.mac == SrcMac(f) then None
    else if port in cfg.HsrPorts() then
      match DecodeHsr(f) case None => None case Some(t) => Some(Key(SrcMac(f), t.seqNo))
    else if port != Interlink && !cfg.IsHsr() then
      match DecodeRct(f)
      case None => None
      case Some(r) => if r.lan == (if port == LanB then 1 else 0) then Some(Key(SrcMac(f), r.seqNo)) else None
    else None
  }

  predicate Offers(cfg: Config, ev: Event, k: Key) {
    ev.Arrival? && OfferedKey(cfg, ev.port, ev.frame) == Some(k)
  }

  lemma ScreenVerdict(cfg: Config, st: State, now: int, port: Port, v: RingView, io: set<Port>, victim: Key)
    ensures HsrScreen(cfg, st, now, port, v, io, victim).verdict
            == if cfg.mac == v.key.src then Refused(Own)
               else if Found(st.dup, v.key, now) then Refused(Dup) else Accepted(v.key)
  {
  }

  lemma PrpScreenVerdict(cfg: Config, st: State, now: int, v: LanView, io: set<Port>, victim: Key)
    ensures PrpScreen(cfg, st, now, v, io, victim).verdict
            == if cfg.mac == v.key.src then Refused(Own)
               else if Found(st.dup, v.key, now) then Refused(Dup) else Accepted(v.key)
  {
  }

  /** The duplicate check decides: a copy is accepted exactly if its key is not in the table. */
  lemma HsrVerdict(cfg: Config, st: State, now: int, port: Port, f: Frame, io: set<Port>, victim: Key)
    requires DecodeHsr(f).Some?
    ensures var k := Key(SrcMac(f), DecodeHsr(f).value.seqNo);
            HsrReceive(cfg, st, now, port, f, io, victim).verdict
            == if cfg.mac == k.src then Refused(Own)
               else if Found(st.dup, k, now) then Refused(Dup) else Accepted(k)
  {
    var s := st.In(port);
    ScreenVerdict(cfg, s, now, port, ViewOf(cfg, s, now, f).value, io, victim);
  }

  lemma PrpVerdict(cfg: Config, st: State, now: int, port: Port, f: Frame, io: set<Port>, victim: Key)
    requires DecodeRct(f).Some? && DecodeRct(f).value.lan == (if port == LanB then 1 else 0)
    ensures var k := Key(SrcMac(f), DecodeRct(f).value.seqNo);
            PrpReceive(cfg, st, now, port, f, io, victim).verdict
            == if cfg.mac == k.src then Refused(Own)
               else if Found(st.dup, k, now) then Refused(Dup) else Accepted(k)
  {
    var s := st.In(port);
    PrpScreenVerdict(cfg, s, now, LanViewOf(cfg, s, now, f).value, io, victim);
  }

  lemma HsrStep(cfg: Config, st: State, ev: Event)
    requires ev.Arrival? && Possible(cfg, ev) && |ev.frame| >= 14
    requires !IsSupervision(cfg, ev.port, ev.frame) && ev.port in cfg.HsrPorts()
    ensures Step(cfg, st, ev) == HsrReceive(cfg, st, ev.now, ev.port, ev.frame, ev.io, ev.victim)
  {
  }

  lemma PrpStep(cfg: Config, st: State, ev: Event)
    requires ev.Arrival? && Possible(cfg, ev) && |ev.frame| >= 14
    requires !IsSupervision(cfg, ev.port, ev.frame) && !cfg.IsHsr() && ev.port != Interlink
    ensures Step(cfg, st, ev) == PrpReceive(cfg, st, ev.now, ev.port, ev.frame, ev.io, ev.victim)
  {
  }

  lemma OfferVerdict(cfg: Config, run: Run, i: nat, k: Key)
    requires IsRun(cfg, run) && i < |run.evs| && Offers(cfg, run.evs[i], k)
    ensures run.outs[i].verdict == if Found(run.sts[i].dup, k, run.evs[i].now) then Refused(Dup) else Accepted(k)
  {
    assert StepAt(cfg, run, i);
    var st, ev := run.sts[i], run.evs[i];
    if ev.port in cfg.HsrPorts() {
      HsrStep(cfg, st, ev);
      HsrVerdict(cfg, st, ev.now, ev.port, ev.frame, ev.io, ev.victim);
    } else {
      PrpStep(cfg, st, ev);
      PrpVerdict(cfg, st, ev.now, ev.port, ev.frame, ev.io, ev.victim);
    }
  }

  /** An earlier registration that still stands in the way of `k` at event `j`. */
  ghost predicate Blocks(cfg: Config, run: Run, i: nat, j: nat, k: Key)
    requires |run.evs| == |run.outs| && |run.sts| == |run.evs| + 1 && i < j < |run.evs|
  {
    && RegistersAt(run, i, k)
    && run.evs[j].now - run.evs[i].now <= cfg.ForgetMs()
    && Remembered(cfg, run, i, j, k)
  }

  /**
   * Exactly when a copy is accepted: over every run that starts without an entry for
   * the key, it is accepted if and only if every earlier registration of the key is
   * older than the forget time, or was undone by a flush of its source or an eviction.
   */
  lemma AcceptedIffNothingBlocks(cfg: Config, run: Run, j: nat, k: Key)
    requires IsRun(cfg, run) && k !in run.sts[0].dup && j < |run.evs| && Offers(cfg, run.evs[j], k)
    ensures run.outs[j].verdict == Accepted(k) <==> forall i :: 0 <= i < j ==> !Blocks(cfg, run, i, j, k)
  {
    OfferVerdict(cfg, run, j, k);
    if Found(run.sts[j].dup, k, run.evs[j].now) {
      var i := EntryHasOrigin(cfg, run, j, k);
      assert Blocks(cfg, run, i, j, k);
    } else {
      forall i | 0 <= i < j ensures !Blocks(cfg, run, i, j, k) {
        if Blocks(cfg, run, i, j, k) {
          assert InOrder(run, j - 1, j);
          RegistrationLasts(cfg, run, i, j, k);
        }
      }
    }
  }

  /** Nothing is accepted without its key being checked against the table first. */
  lemma AcceptedWasNew(cfg: Config, run: Run, j: nat, k: Key)
    requires IsRun(cfg, run) && j < |run.evs| && run.outs[j].verdict == Accepted(k)
    ensures !Found(run.sts[j].dup, k, run.evs[j].now)
  {
    assert StepAt(cfg, run, j);
    var st, ev := run.sts[j], run.evs[j];
    if ev.Arrival? && |ev.frame| >= 14 {
      if IsSupervision(cfg, ev.port, ev.frame) {
        SuperviseDup(cfg, st, ev.now, ev.port, ev.frame, ev.io, ev.victim);
      } else if ev.port != Interlink && !cfg.IsHsr() {
        var s := st.In(ev.port);
        var view := LanViewOf(cfg, s, ev.now, ev.frame);
        if view.Some? { PrpScreenVerdict(cfg, s, ev.now, view.value, ev.io, ev.victim); }
      } else if cfg.IsHsr() {
        var s := st.In(ev.port);
        var view := ViewOf(cfg, s, ev.now, ev.frame);
        if view.Some? { ScreenVerdict(cfg, s, ev.now, ev.port, view.value, ev.io, ev.victim); }
      }
    }
  }

  /** At most once: a second acceptance of a key needs the forget time to pass, a flush or an eviction. */
  lemma AtMostOnce(cfg: Config, run: Run, i: nat, j: nat, k: Key)
    requires IsRun(cfg, run) && i < j < |run.evs|
    requires run.outs[i].verdict == Accepted(k) && run.outs[j].verdict == Accepted(k)
    ensures || run.evs[j].now - run.evs[i].now > cfg.ForgetMs()
            || exists x :: i <= x < j && Possible(cfg, run.evs[x]) && ForgetsAt(cfg, run, x, k)
  {
    forall x | i <= x < j ensures Possible(cfg, run.evs[x]) { assert StepAt(cfg, run, x); }
    AcceptedWasNew(cfg, run, j, k);
    assert InOrder(run, j - 1, j);
    if run.evs[j].now - run.evs[i].now <= cfg.ForgetMs() && Remembered(cfg, run, i, j, k) {
      RegistrationLasts(cfg, run, i, j, k);
    }
  }
}
