/**
 * Duplicate discard at a PRP node, and PRP end to end: two independent LANs that
 * lose, reorder and duplicate frames between a sending and a receiving RedBox.
 */
module Redundancy {
  import opened Bytes
  import opened Engine
  import opened Role
  import opened NodeTable
  import opened NodeSpec
  import opened NodeRun
  import opened Window
  import Wire

  // ---------------------------------------------------------------- receiving

  function Body(f: Frame): Frame {
    if DecodeRct(f).Some? then DecodeRct(f).value.body else []
  }

  /** What a PRP node does with a copy that reaches its duplicate check. */
  ghost predicate Received(cfg: Config, st: State, ev: Event, o: Outcome)
    requires ev.Arrival?
  {
    && (o.verdict.Accepted? ==>
          o.out == if cfg.hasInterlink && ShouldForward(cfg, st, ev.now, Body(ev.frame)) && Interlink in ev.io
                   then map[Interlink := Body(ev.frame)] else map[])
    && (!o.verdict.Accepted? ==> o.out == map[])
  }

  lemma AcceptWrites(cfg: Config, st: State, now: int, v: LanView, io: set<Port>, victim: Key)
    ensures PrpAccept(cfg, st, now, v, io, victim).out
            == if cfg.hasInterlink && v.passes && Interlink in io then map[Interlink := v.body] else map[]
  {
  }

  lemma ReceiveWrites(cfg: Config, st: State, ev: Event)
    requires ev.Arrival? && DecodeRct(ev.frame).Some?
    ensures Received(cfg, st, ev, PrpReceive(cfg, st, ev.now, ev.port, ev.frame, ev.io, ev.victim))
  {
    var s := st.In(ev.port);
    var v := LanViewOf(cfg, s, ev.now, ev.frame).value;
    AcceptWrites(cfg, s, ev.now, v, ev.io, ev.victim);
    PrpScreenVerdict(cfg, s, ev.now, v, ev.io, ev.victim);
  }

  lemma OfferReceived(cfg: Config, run: Run, j: nat, k: Key)
    requires IsRun(cfg, run) && j < |run.evs| && !cfg.IsHsr() && Offers(cfg, run.evs[j], k)
    ensures Received(cfg, run.sts[j], run.evs[j], run.outs[j])
  {
    assert StepAt(cfg, run, j);
    PrpStep(cfg, run.sts[j], run.evs[j]);
    ReceiveWrites(cfg, run.sts[j], run.evs[j]);
  }

  /** At a PRP node a key is registered only by a copy that was offered. */
  lemma RegistersOffered(cfg: Config, run: Run, j: nat, k: Key)
    requires IsRun(cfg, run) && j < |run.evs| && !cfg.IsHsr() && RegistersAt(run, j, k)
    ensures Offers(cfg, run.evs[j], k)
  {
    assert StepAt(cfg, run, j);
    var st, ev := run.sts[j], run.evs[j];
    if ev.Arrival? && |ev.frame| >= 14 {
      if IsSupervision(cfg, ev.port, ev.frame) {
        SuperviseDup(cfg, st, ev.now, ev.port, ev.frame, ev.io, ev.victim);
      } else if ev.port != Interlink {
        PrpStep(cfg, st, ev);
        var s := st.In(ev.port);
        var view := LanViewOf(cfg, s, ev.now, ev.frame);
        if view.Some? { PrpScreenVerdict(cfg, s, ev.now, view.value, ev.io, ev.victim); }
      }
    }
  }

  // ---------------------------------------------------------------- the copies of one frame

  predicate Apart(a: int, b: int, gap: int) {
    a - b > gap || b - a > gap
  }

  ghost predicate AllOffer(cfg: Config, run: Run, k: Key, J: set<nat>) {
    forall j :: j in J ==> j < |run.evs| && Offers(cfg, run.evs[j], k)
  }

  ghost predicate Together(cfg: Config, run: Run, k: Key, J: set<nat>)
    requires |run.evs| == |run.outs| && |run.sts| == |run.evs| + 1
  {
    forall a, b :: a in J && b in J && a < b < |run.evs| ==>
      run.evs[b].now - run.evs[a].now <= cfg.ForgetMs() && Kept(cfg, run, a, b, k)
  }

  ghost predicate OthersFar(cfg: Config, run: Run, k: Key, J: set<nat>) {
    forall x, j :: 0 <= x < |run.evs| && x !in J && Offers(cfg, run.evs[x], k) && j in J && j < |run.evs| ==>
      Apart(run.evs[x].now, run.evs[j].now, cfg.ForgetMs())
  }

  /**
   * The events `J` bring the copies of one frame with key `k`: they come within the
   * forget time of each other, the node keeps the key between them, and
   * every other frame with that key is further away.
   */
  ghost predicate Batch(cfg: Config, run: Run, k: Key, J: set<nat>)
    requires |run.evs| == |run.outs| && |run.sts| == |run.evs| + 1
  {
    J != {} && AllOffer(cfg, run, k, J) && Together(cfg, run, k, J) && OthersFar(cfg, run, k, J)
  }

  lemma {:induction false} Least(J: set<nat>) returns (m: nat)
    requires J != {}
    ensures m in J && forall j :: j in J ==> m <= j
    decreases |J|
  {
    var x :| x in J;
    m := x;
    var rest := J - {x};
    assert J == rest + {x};
    if rest != {} {
      var l := Least(rest);
      if l < x { m := l; }
    }
  }

  lemma BeforeBatch(cfg: Config, run: Run, k: Key, J: set<nat>, first: nat, i: nat)
    requires IsRun(cfg, run) && !cfg.IsHsr() && Batch(cfg, run, k, J)
    requires i < first && first in J && i !in J
    ensures !Blocks(cfg, run, i, first, k)
  {
    assert InOrder(run, i, first);
    if RegistersAt(run, i, k) { RegistersOffered(cfg, run, i, k); }
  }

  lemma FirstIsRemembered(cfg: Config, run: Run, k: Key, first: nat, j: nat)
    requires IsRun(cfg, run) && first < j < |run.evs| && RegistersAt(run, first, k) && Kept(cfg, run, first, j, k)
    requires run.evs[j].now - run.evs[first].now <= cfg.ForgetMs()
    ensures Remembered(cfg, run, first, j, k)
  {
    assert InOrder(run, j - 1, j);
    if !Remembered(cfg, run, first, j, k) { KeptWhileFresh(cfg, run, first, j, k); }
  }

  lemma AfterFirst(cfg: Config, run: Run, k: Key, J: set<nat>, first: nat, j: nat)
    requires IsRun(cfg, run) && !cfg.IsHsr() && k !in run.sts[0].dup && Batch(cfg, run, k, J)
    requires first < j && first in J && j in J && run.outs[first].verdict == Accepted(k)
    ensures run.outs[j].verdict == Refused(Dup) && run.outs[j].out == map[]
  {
    FirstIsRemembered(cfg, run, k, first, j);
    assert Blocks(cfg, run, first, j, k);
    AcceptedIffNothingBlocks(cfg, run, j, k);
    OfferVerdict(cfg, run, j, k);
    OfferReceived(cfg, run, j, k);
  }

  /** Exactly one of the copies of a frame is accepted, the first; all others are discarded as duplicates. */
  lemma OneOfEachBatch(cfg: Config, run: Run, k: Key, J: set<nat>) returns (first: nat)
    requires IsRun(cfg, run) && !cfg.IsHsr() && k !in run.sts[0].dup && Batch(cfg, run, k, J)
    ensures first in J && run.outs[first].verdict == Accepted(k) && forall j :: j in J ==> first <= j
    ensures forall j :: j in J && j != first ==> run.outs[j].verdict == Refused(Dup) && run.outs[j].out == map[]
  {
    first := Least(J);
    AcceptedIffNothingBlocks(cfg, run, first, k);
    forall i | 0 <= i < first ensures !Blocks(cfg, run, i, first, k) {
      BeforeBatch(cfg, run, k, J, first, i);
    }
    forall j | j in J && j != first ensures run.outs[j].verdict == Refused(Dup) && run.outs[j].out == map[] {
      AfterFirst(cfg, run, k, J, first, j);
    }
  }

  // ---------------------------------------------------------------- sending

  function LanOf(port: Port): nat { if port == LanB then 1 else 0 }

  /** What a PRP node does when it sends: both LANs get the same frame under the same number. */
  ghost predicate SendsBoth(ev: Event, o: Outcome) {
    o.verdict.Sent? ==>
      && ev.Arrival? && |ev.frame| >= 14
      && (forall p :: p in o.out <==> p != Interlink && p in ev.io)
      && (forall p :: p in o.out ==> o.out[p] == EncodeRct(ev.frame, o.verdict.seqNo, LanOf(p)))
  }

  /** The VLAN filter by octets: no list, or the outer tag's id is listed. */
  predicate Passes(cfg: Config, f: Frame) {
    cfg.vlanFilter == [] || (|f| >= 16 && Wire.VlanAt12(f) && Wire.Size12(f[14], f[15]) in cfg.vlanFilter)
  }

  predicate FromSan(cfg: Config, ev: Event) {
    cfg.role == PrpSan && ev.Arrival? && ev.port == Interlink && |ev.frame| >= 14
  }

  /** The number a frame was sent under. */
  function NumberOf(o: Outcome): Word { if o.verdict.Sent? then o.verdict.seqNo else ZERO }

  /**
   * What a PRP node does with a SAN's frame. A frame the filter lets pass goes out on both
   * LANs, with an RCT of the source's next number or, without trailers, as it is. Any
   * other frame is refused and nothing is written.
   */
  ghost predicate SendsExactly(cfg: Config, st: State, ev: Event, o: Outcome)
    requires FromSan(cfg, ev)
  {
    var f := ev.frame;
    && o.verdict == (if !Passes(cfg, f) then Refused(Filter) else if !cfg.trailerEnabled then Copied
                     else Sent(if SrcMac(f) in st.seqs then st.seqs[SrcMac(f)] else cfg.seqStart))
    && (forall p :: p in o.out <==> p != Interlink && p in ev.io && Passes(cfg, f))
    && (forall p :: p in o.out ==> o.out[p] == if cfg.trailerEnabled then EncodeRct(f, NumberOf(o), LanOf(p)) else f)
  }

  /** What it remembers of it: the source exactly if the frame passes, and how many numbers were taken. */
  ghost predicate RemembersSan(cfg: Config, st: State, ev: Event, o: Outcome)
    requires FromSan(cfg, ev)
  {
    && o.st.proxy == (if Passes(cfg, ev.frame) then st.proxy[SrcMac(ev.frame) := ev.now] else st.proxy)
    && o.st.seqs == (if o.verdict.Sent? then st.seqs[SrcMac(ev.frame) := Succ(NumberOf(o))] else st.seqs)
    && o.st == st.(proxy := o.st.proxy, seqs := o.st.seqs, counters := o.st.counters, drops := o.st.drops)
  }

  lemma PassesByFields(cfg: Config, f: Frame)
    requires |f| >= 14 && (cfg.vlanFilter != [] && IsVlan(f) ==> |f| >= 16)
    ensures VlanPasses(cfg, f) <==> Passes(cfg, f)
  {
  }

  lemma BothWritten(st: State, a: Frame, b: Frame, v: Verdict, io: set<Port>)
    ensures var out := BothPorts(st, a, b, v, io).out;
            && (forall p :: p in out <==> p != Interlink && p in io)
            && (forall p :: p in out ==> out[p] == if p == LanA then a else b)
  {
  }

  lemma PrpSendExact(cfg: Config, st: State, ev: Event)
    requires FromSan(cfg, ev) && (cfg.vlanFilter != [] && IsVlan(ev.frame) ==> |ev.frame| >= 16)
    ensures SendsExactly(cfg, st, ev, PrpSend(cfg, st, ev.now, ev.frame, ev.io))
  {
    var f, src := ev.frame, SrcMac(ev.frame);
    PassesByFields(cfg, f);
    var s := st.In(Interlink).(proxy := st.proxy[src := ev.now]);
    var n := NextSeq(cfg, s, src);
    BothWritten(TakeSeq(cfg, s, src), EncodeRct(f, n, 0), EncodeRct(f, n, 1), Sent(n), ev.io);
    BothWritten(s, f, f, Copied, ev.io);
  }

  lemma PrpSendRemembers(cfg: Config, st: State, ev: Event)
    requires FromSan(cfg, ev) && (cfg.vlanFilter != [] && IsVlan(ev.frame) ==> |ev.frame| >= 16)
    ensures RemembersSan(cfg, st, ev, PrpSend(cfg, st, ev.now, ev.frame, ev.io))
  {
    PassesByFields(cfg, ev.frame);
  }

  lemma SanFrameIsSent(cfg: Config, st: State, ev: Event)
    requires FromSan(cfg, ev) && Possible(cfg, ev)
    ensures SendsExactly(cfg, st, ev, Step(cfg, st, ev)) && RemembersSan(cfg, st, ev, Step(cfg, st, ev))
  {
    PrpSendExact(cfg, st, ev);
    PrpSendRemembers(cfg, st, ev);
  }

  lemma PrpSendSends(cfg: Config, st: State, ev: Event)
    requires ev.Arrival? && (cfg.vlanFilter != [] && IsVlan(ev.frame) ==> |ev.frame| >= 16) && |ev.frame| >= 14
    ensures SendsBoth(ev, PrpSend(cfg, st, ev.now, ev.frame, ev.io))
  {
  }

  lemma StepSends(cfg: Config, run: Run, i: nat)
    requires IsRun(cfg, run) && i < |run.evs| && !cfg.IsHsr()
    ensures SendsBoth(run.evs[i], run.outs[i])
  {
    assert StepAt(cfg, run, i);
    var st, ev := run.sts[i], run.evs[i];
    if ev.Arrival? && |ev.frame| >= 14 {
      if IsSupervision(cfg, ev.port, ev.frame) {
        SuperviseDup(cfg, st, ev.now, ev.port, ev.frame, ev.io, ev.victim);
      } else if ev.port == Interlink {
        PrpSendSends(cfg, st, ev);
      } else {
        PrpStep(cfg, st, ev);
        var s := st.In(ev.port);
        var view := LanViewOf(cfg, s, ev.now, ev.frame);
        if view.Some? { PrpScreenVerdict(cfg, s, ev.now, view.value, ev.io, ev.victim); }
      }
    }
  }

  // ---------------------------------------------------------------- end to end

  /** `ev` brings the receiver a copy of what the sender wrote to the same LAN in step `i`. */
  ghost predicate CopyOf(snd: Run, ev: Event, i: nat) {
    && i < |snd.evs| && i < |snd.outs| && snd.outs[i].verdict.Sent?
    && ev.Arrival? && ev.port in snd.outs[i].out && ev.frame == snd.outs[i].out[ev.port]
  }

  predicate FromLan(ev: Event, s: Mac) {
    ev.Arrival? && ev.port != Interlink && SrcMac(ev.frame) == s
  }

  /**
   * The LANs carry the frames of source `s`: `origin` tells which sender step each
   * arriving copy stems from. A step may have no copy (loss) or many (duplication),
   * and copies arrive in any order.
   */
  ghost predicate Carried(snd: Run, rcv: Run, s: Mac, origin: map<nat, nat>) {
    && (forall j :: 0 <= j < |rcv.evs| && FromLan(rcv.evs[j], s) ==> j in origin)
    && (forall j :: j in origin ==> j < |rcv.evs| && CopyOf(snd, rcv.evs[j], origin[j]))
  }

  function CopiesOf(origin: map<nat, nat>, i: nat): set<nat> {
    set j | j in origin && origin[j] == i
  }

  /** On neither LAN is the frame, sent with number `n`, taken for supervision. */
  predicate TakenForData(f: Frame, n: Word) {
    EtherType(EncodeRct(f, n, 0)) != PRP_SUFFIX && EtherType(EncodeRct(f, n, 1)) != PRP_SUFFIX
  }

  /** A frame PRP carries: it fits the RCT and is taken for data. */
  predicate Carriable(f: Frame, n: Word) {
    14 <= |f| <= 4089 + HeaderLen(f) && TakenForData(f, n)
  }

  /** For a frame that does not end inside its VLAN tags this is a matter of its own type. */
  lemma OrdinaryIsData(f: Frame, n: Word)
    requires EtherTypeOffset(f, 12).Some?
    ensures TakenForData(f, n) <==> EtherType(f) != PRP_SUFFIX
  {
    EtherTypeOfEncodeRct(f, n, 0);
    EtherTypeOfEncodeRct(f, n, 1);
  }

  /** Both frames of the sender carry the same number. */
  predicate SameNumber(snd: Run, s: Mac, i: nat, j: nat)
    requires i < |snd.evs| == |snd.outs| && j < |snd.evs|
  {
    snd.outs[i].verdict == snd.outs[j].verdict && snd.evs[j].Arrival? && SrcMac(snd.evs[j].frame) == s
  }

  /** Event `b` brings a copy of another frame with the source and number of the one sent in step `i`. */
  predicate Reuses(snd: Run, rcv: Run, s: Mac, origin: map<nat, nat>, i: nat, b: nat)
    requires i < |snd.evs| == |snd.outs|
  {
    b in origin && b < |rcv.evs| && origin[b] != i && origin[b] < |snd.evs| && SameNumber(snd, s, i, origin[b])
  }

  /** Copies of other frames with the same source and number arrive further away than the forget time. */
  ghost predicate ReusedLater(cfg: Config, snd: Run, rcv: Run, s: Mac, origin: map<nat, nat>, i: nat)
    requires i < |snd.evs| == |snd.outs|
  {
    forall a: nat, b: nat :: a in CopiesOf(origin, i) && a < |rcv.evs| && Reuses(snd, rcv, s, origin, i, b) ==>
      Apart(rcv.evs[b].now, rcv.evs[a].now, cfg.ForgetMs())
  }

  lemma CopyDecodes(snd: Run, ev: Event, i: nat, cfgS: Config)
    requires IsRun(cfgS, snd) && !cfgS.IsHsr() && CopyOf(snd, ev, i)
    ensures snd.evs[i].Arrival? && |snd.evs[i].frame| >= 14 && SrcMac(ev.frame) == SrcMac(snd.evs[i].frame)
    ensures ev.port != Interlink && |ev.frame| >= 14
    ensures DecodeRct(ev.frame).Some? ==>
              DecodeRct(ev.frame).value == Rct(LanOf(ev.port), snd.outs[i].verdict.seqNo, Padded(snd.evs[i].frame))
    ensures Carriable(snd.evs[i].frame, snd.outs[i].verdict.seqNo) ==>
              DecodeRct(ev.frame).Some? && EtherType(ev.frame) != PRP_SUFFIX
  {
    StepSends(cfgS, snd, i);
    var f, n, lan := snd.evs[i].frame, snd.outs[i].verdict.seqNo, LanOf(ev.port);
    RctRoundTrip(f, n, lan);
  }

  /**
   * Exactly when a copy reaches the duplicate check, under the number in its RCT: it
   * fits the RCT and is not taken for supervision. Otherwise it offers no key at all.
   */
  lemma RctOffered(cfg: Config, ev: Event, f: Frame, n: Word)
    requires !cfg.IsHsr() && ev.Arrival? && ev.port != Interlink && |f| >= 14 && cfg.mac != SrcMac(f)
    requires ev.frame == EncodeRct(f, n, LanOf(ev.port))
    ensures OfferedKey(cfg, ev.port, ev.frame)
            == if |f| <= 4089 + HeaderLen(f) && EtherType(ev.frame) != PRP_SUFFIX then Some(Key(SrcMac(f), n)) else None
    ensures |f| <= 4089 + HeaderLen(f) ==> Body(ev.frame) == Padded(f)
  {
    RctRoundTrip(f, n, LanOf(ev.port));
  }

  lemma CopyIsOffered(cfgS: Config, snd: Run, cfgR: Config, ev: Event, i: nat)
    requires IsRun(cfgS, snd) && !cfgS.IsHsr() && !cfgR.IsHsr() && CopyOf(snd, ev, i)
    requires snd.evs[i].Arrival? && cfgR.mac != SrcMac(snd.evs[i].frame)
    requires Carriable(snd.evs[i].frame, snd.outs[i].verdict.seqNo)
    ensures Offers(cfgR, ev, Key(SrcMac(snd.evs[i].frame), snd.outs[i].verdict.seqNo))
  {
    CopyDecodes(snd, ev, i, cfgS);
  }

  lemma OfferIsSameNumber(cfgS: Config, snd: Run, cfgR: Config, ev: Event, i: nat, x: nat)
    requires IsRun(cfgS, snd) && !cfgS.IsHsr() && !cfgR.IsHsr() && CopyOf(snd, ev, x)
    requires i < |snd.evs| && snd.outs[i].verdict.Sent?
    requires snd.evs[i].Arrival? && Offers(cfgR, ev, Key(SrcMac(snd.evs[i].frame), snd.outs[i].verdict.seqNo))
    ensures SameNumber(snd, SrcMac(snd.evs[i].frame), i, x)
  {
    CopyDecodes(snd, ev, x, cfgS);
  }

  lemma OfferComesFromLan(cfg: Config, ev: Event, k: Key)
    requires !cfg.IsHsr() && Offers(cfg, ev, k)
    ensures FromLan(ev, k.src)
  {
  }

  lemma CopiesOffer(cfgS: Config, snd: Run, cfgR: Config, rcv: Run, s: Mac, origin: map<nat, nat>, i: nat)
    requires IsRun(cfgS, snd) && !cfgS.IsHsr() && !cfgR.IsHsr() && cfgR.mac != s && Carried(snd, rcv, s, origin)
    requires i < |snd.evs| && snd.outs[i].verdict.Sent?
    requires snd.evs[i].Arrival? && SrcMac(snd.evs[i].frame) == s
    requires Carriable(snd.evs[i].frame, snd.outs[i].verdict.seqNo)
    ensures AllOffer(cfgR, rcv, Key(s, snd.outs[i].verdict.seqNo), CopiesOf(origin, i))
  {
    forall j | j in CopiesOf(origin, i)
      ensures j < |rcv.evs| && Offers(cfgR, rcv.evs[j], Key(s, snd.outs[i].verdict.seqNo))
    {
      CopyIsOffered(cfgS, snd, cfgR, rcv.evs[j], i);
    }
  }

  lemma ReusedFar(cfgS: Config, snd: Run, cfgR: Config, rcv: Run, s: Mac, origin: map<nat, nat>, i: nat)
    requires IsRun(cfgS, snd) && !cfgS.IsHsr() && !cfgR.IsHsr() && Carried(snd, rcv, s, origin)
    requires i < |snd.evs| && snd.outs[i].verdict.Sent? && snd.evs[i].Arrival? && SrcMac(snd.evs[i].frame) == s
    requires ReusedLater(cfgR, snd, rcv, s, origin, i)
    ensures OthersFar(cfgR, rcv, Key(s, snd.outs[i].verdict.seqNo), CopiesOf(origin, i))
  {
    var k, J := Key(s, snd.outs[i].verdict.seqNo), CopiesOf(origin, i);
    forall x, j | 0 <= x < |rcv.evs| && x !in J && Offers(cfgR, rcv.evs[x], k) && j in J && j < |rcv.evs|
      ensures Apart(rcv.evs[x].now, rcv.evs[j].now, cfgR.ForgetMs())
    {
      OfferComesFromLan(cfgR, rcv.evs[x], k);
      OfferIsSameNumber(cfgS, snd, cfgR, rcv.evs[x], i, origin[x]);
      assert Reuses(snd, rcv, s, origin, i, x);
    }
  }

  lemma SentInRun(cfg: Config, run: Run, i: nat)
    requires IsRun(cfg, run) && i < |run.evs| && FromSan(cfg, run.evs[i])
    ensures run.outs[i].verdict.Sent? <==> cfg.trailerEnabled && Passes(cfg, run.evs[i].frame)
  {
    assert StepAt(cfg, run, i);
    SanFrameIsSent(cfg, run.sts[i], run.evs[i]);
  }

  /**
   * PRP end to end: a frame that the sender's VLAN filter lets pass and of which at least one copy arrives is delivered to the
   * far SAN exactly once, zero-padded to the minimum frame size, as soon as the first
   * copy arrives. Its other copies leave no trace.
   */
  lemma PrpEndToEnd(cfgS: Config, snd: Run, cfgR: Config, rcv: Run, s: Mac, origin: map<nat, nat>, i: nat)
    returns (first: nat)
    requires IsRun(cfgS, snd) && IsRun(cfgR, rcv) && !cfgR.IsHsr() && cfgR.mac != s
    requires Carried(snd, rcv, s, origin) && CopiesOf(origin, i) != {}
    requires i < |snd.evs| && FromSan(cfgS, snd.evs[i]) && SrcMac(snd.evs[i].frame) == s
    requires cfgS.trailerEnabled && Passes(cfgS, snd.evs[i].frame)
    requires Carriable(snd.evs[i].frame, NumberOf(snd.outs[i]))
    requires Key(s, NumberOf(snd.outs[i])) !in rcv.sts[0].dup
    requires Together(cfgR, rcv, Key(s, NumberOf(snd.outs[i])), CopiesOf(origin, i))
    requires ReusedLater(cfgR, snd, rcv, s, origin, i)
    ensures first in CopiesOf(origin, i) && first < |rcv.evs| && rcv.evs[first].Arrival?
    ensures forall j :: j in CopiesOf(origin, i) ==> first <= j < |rcv.evs|
    ensures forall j :: j in CopiesOf(origin, i) && j != first ==> rcv.outs[j].out == map[]
    ensures var body := Padded(snd.evs[i].frame); var ev := rcv.evs[first];
            rcv.outs[first].out
            == if cfgR.hasInterlink && ShouldForward(cfgR, rcv.sts[first], ev.now, body) && Interlink in ev.io
               then map[Interlink := body] else map[]
  {
    SentInRun(cfgS, snd, i);
    var k, J := Key(s, NumberOf(snd.outs[i])), CopiesOf(origin, i);
    CopiesOffer(cfgS, snd, cfgR, rcv, s, origin, i);
    ReusedFar(cfgS, snd, cfgR, rcv, s, origin, i);
    first := OneOfEachBatch(cfgR, rcv, k, J);
    OfferReceived(cfgR, rcv, first, k);
    CopyDecodes(snd, rcv.evs[first], i, cfgS);
  }
}
