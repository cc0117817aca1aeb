/**
 * Sequence numbers over whole runs: how a source's frames are numbered, and how a
 * peer's restart is told from its counter wrapping around.
 */
module Numbering {
  import opened Bytes
  import opened Engine
  import opened NodeTable
  import opened Role
  import opened NodeSpec
  import opened NodeRun
  import Supervision

  /** The number `d` steps after `w`. */
  function NumberAt(w: Word, d: nat): Word {
    if d == 0 then w else Succ(NumberAt(w, d - 1))
  }

  /** The least number of steps from `v` to `w`. */
  function Advance(v: Word, w: Word): (d: nat)
    ensures d < 0x1_0000
  {
    if Num(w) >= Num(v) then Num(w) - Num(v) else Num(w) - Num(v) + 0x1_0000
  }

  lemma {:induction false} NumOfNumberAt(v: Word, d: nat)
    requires d <= 0x1_0000
    ensures Num(NumberAt(v, d)) == if Num(v) + d < 0x1_0000 then Num(v) + d else Num(v) + d - 0x1_0000
  {
    if d > 0 {
      NumOfNumberAt(v, d - 1);
      NumSucc(NumberAt(v, d - 1));
    }
  }

  /** `Advance` counts steps: it is the only count below 65536 that leads from `v` to `w`. */
  lemma AdvanceIsSteps(v: Word, w: Word, d: nat)
    requires d < 0x1_0000
    ensures NumberAt(v, d) == w <==> d == Advance(v, w)
  {
    NumOfNumberAt(v, d);
    if d == Advance(v, w) { NumInjective(NumberAt(v, d), w); }
  }

  lemma {:induction false} StepsAdd(v: Word, d: nat, e: nat)
    ensures NumberAt(v, d + e) == NumberAt(NumberAt(v, d), e)
  {
    if e > 0 { StepsAdd(v, d, e - 1); }
  }

  lemma SameAfter(u: Word, x: Word, m: nat)
    requires 0 < m <= 0x1_0000
    requires Num(x) == if Num(u) + m < 0x1_0000 then Num(u) + m else Num(u) + m - 0x1_0000
    ensures u == x <==> m == 0x1_0000
  {
    if Num(x) == Num(u) { NumInjective(x, u); }
  }

  /** A number comes back after 65536 steps and not earlier. */
  lemma NumbersRepeat(v: Word, d: nat, e: nat)
    requires d < e <= d + 0x1_0000
    ensures NumberAt(v, d) == NumberAt(v, e) <==> e == d + 0x1_0000
  {
    var m := e - d;
    StepsAdd(v, d, m);
    NumOfNumberAt(NumberAt(v, d), m);
    SameAfter(NumberAt(v, d), NumberAt(v, e), m);
  }

  // ---------------------------------------------------------------- numbering what is sent

  /**
   * The step takes a number for the frame it sends: on both LANs of a prp-san node or
   * into the ring of an hsr-san node. Coupling nodes reuse the number in the RCT.
   */
  predicate TakesNumber(cfg: Config, o: Outcome) {
    o.verdict.Sent? || (o.verdict.Injected? && !cfg.IsCoupling())
  }

  function NumberOf(o: Outcome): Word
    requires o.verdict.Sent? || o.verdict.Injected?
  {
    if o.verdict.Sent? then o.verdict.seqNo else o.verdict.key.seqNo
  }

  /** A step numbers at most the frame it sends, with the next number of its source. */
  ghost predicate Numbers(cfg: Config, st: State, ev: Event, o: Outcome) {
    && (ev.Arrival? ==> o.st.supSeq == st.supSeq)
    && if TakesNumber(cfg, o) then
      && ev.Arrival? && NumberOf(o) == NextSeq(cfg, st, SrcMac(ev.frame))
      && (o.verdict.Injected? ==> o.verdict.key.src == SrcMac(ev.frame))
      && o.st.seqs == st.seqs[SrcMac(ev.frame) := Succ(NumberOf(o))]
    else o.st.seqs == st.seqs
  }

  /** The step sends nothing new and leaves the counters alone. */
  ghost predicate NoNumber(st: State, o: Outcome) {
    !o.verdict.Sent? && !o.verdict.Injected? && o.st.seqs == st.seqs && o.st.supSeq == st.supSeq
  }

  lemma SendNumbers(cfg: Config, st: State, ev: Event)
    requires ev.Arrival? && (cfg.vlanFilter != [] && IsVlan(ev.frame) ==> |ev.frame| >= 16)
    ensures Numbers(cfg, st, ev, PrpSend(cfg, st, ev.now, ev.frame, ev.io))
  {
  }

  lemma InjectNumbers(cfg: Config, st: State, ev: Event)
    requires ev.Arrival?
    requires |ev.frame| >= HeaderLen(ev.frame) || (cfg.IsCoupling() && DecodeRct(ev.frame).None?)
    ensures Numbers(cfg, st, ev, HsrInject(cfg, st, ev.now, ev.frame, ev.io, ev.victim))
  {
  }

  lemma PrpScreenNumbers(cfg: Config, st: State, now: int, v: LanView, io: set<Port>, victim: Key)
    ensures NoNumber(st, PrpScreen(cfg, st, now, v, io, victim))
  {
    PrpScreenVerdict(cfg, st, now, v, io, victim);
  }

  lemma PrpReceiveNumbers(cfg: Config, st: State, ev: Event)
    requires ev.Arrival?
    ensures NoNumber(st, PrpReceive(cfg, st, ev.now, ev.port, ev.frame, ev.io, ev.victim))
  {
    var s := st.In(ev.port);
    var view := LanViewOf(cfg, s, ev.now, ev.frame);
    if view.Some? { PrpScreenNumbers(cfg, s, ev.now, view.value, ev.io, ev.victim); }
    CountedNumbers(st, ev.port, PrpReceive(cfg, st, ev.now, ev.port, ev.frame, ev.io, ev.victim));
  }

  lemma RingAcceptNumbers(cfg: Config, st: State, now: int, port: Port, v: RingView, io: set<Port>, victim: Key)
    ensures NoNumber(st, HsrAccept(cfg, st, now, port, v, io, victim))
  {
  }

  lemma QuadBoxNumbers(cfg: Config, st: State, now: int, v: RingView, io: set<Port>, victim: Key)
    ensures NoNumber(st, QuadBoxAccept(cfg, st, now, v, io, victim))
  {
  }

  lemma CountedNumbers(st: State, port: Port, o: Outcome)
    requires NoNumber(st.In(port), o)
    ensures NoNumber(st, o)
  {
  }

  lemma HsrScreenNumbers(cfg: Config, st: State, now: int, port: Port, v: RingView, io: set<Port>, victim: Key)
    ensures NoNumber(st, HsrScreen(cfg, st, now, port, v, io, victim))
  {
    if port == Interlink {
      QuadBoxNumbers(cfg, st, now, v, io, victim);
    } else {
      RingAcceptNumbers(cfg, st, now, port, v, io, victim);
    }
  }

  lemma HsrReceiveNumbers(cfg: Config, st: State, ev: Event)
    requires ev.Arrival?
    ensures NoNumber(st, HsrReceive(cfg, st, ev.now, ev.port, ev.frame, ev.io, ev.victim))
  {
    var s := st.In(ev.port);
    var view := ViewOf(cfg, s, ev.now, ev.frame);
    if view.Some? { HsrScreenNumbers(cfg, s, ev.now, ev.port, view.value, ev.io, ev.victim); }
    CountedNumbers(st, ev.port, HsrReceive(cfg, st, ev.now, ev.port, ev.frame, ev.io, ev.victim));
  }

  lemma SuperviseNumbers(cfg: Config, st: State, ev: Event)
    requires ev.Arrival? && (Supervision.IsAnnouncement(ev.frame) ==> |ev.frame| >= 26)
    ensures NoNumber(st, Bridge(cfg, Supervise(cfg, st, ev.now, ev.port, ev.frame), ev.port, ev.frame, ev.io))
  {
    BridgeKeeps(cfg, Supervise(cfg, st, ev.now, ev.port, ev.frame), ev.port, ev.frame, ev.io);
  }

  lemma DispatchNumbers(cfg: Config, st: State, ev: Event)
    requires ev.Arrival? && Possible(cfg, ev) && |ev.frame| >= 14 && !IsSupervision(cfg, ev.port, ev.frame)
    ensures Numbers(cfg, st, ev, Dispatch(cfg, st, ev.now, ev.port, ev.frame, ev.io, ev.victim))
  {
    if ev.port == Interlink && cfg.role == PrpSan {
      SendNumbers(cfg, st, ev);
    } else if ev.port == Interlink && !cfg.IsQuadBox() {
      InjectNumbers(cfg, st, ev);
    } else if cfg.IsHsr() {
      HsrReceiveNumbers(cfg, st, ev);
    } else {
      PrpReceiveNumbers(cfg, st, ev);
    }
  }

  lemma StepNumbers(cfg: Config, run: Run, i: nat)
    requires IsRun(cfg, run) && i < |run.evs|
    ensures Numbers(cfg, run.sts[i], run.evs[i], run.outs[i]) && run.sts[i + 1] == run.outs[i].st
  {
    assert StepAt(cfg, run, i);
    var st, ev := run.sts[i], run.evs[i];
    if ev.Arrival? && |ev.frame| >= 14 {
      if IsSupervision(cfg, ev.port, ev.frame) {
        SuperviseNumbers(cfg, st, ev);
      } else {
        DispatchNumbers(cfg, st, ev);
      }
    }
  }

  /** Step `i` numbers a frame of source `s`. */
  predicate NumbersAt(cfg: Config, run: Run, i: nat, s: Mac)
    requires i < |run.evs| == |run.outs|
  {
    TakesNumber(cfg, run.outs[i]) && run.evs[i].Arrival? && SrcMac(run.evs[i].frame) == s
  }

  /** How many frames of source `s` were numbered in the first `n` steps. */
  function NumberedBefore(cfg: Config, run: Run, n: nat, s: Mac): nat
    requires n <= |run.evs| == |run.outs|
  {
    if n == 0 then 0 else NumberedBefore(cfg, run, n - 1, s) + if NumbersAt(cfg, run, n - 1, s) then 1 else 0
  }

  /** In every run of every role the frames of a source are numbered consecutively, whatever happens in between. */
  lemma {:induction false} ConsecutiveNumbers(cfg: Config, run: Run, n: nat, s: Mac)
    requires IsRun(cfg, run) && n <= |run.evs|
    ensures NextSeq(cfg, run.sts[n], s) == NumberAt(NextSeq(cfg, run.sts[0], s), NumberedBefore(cfg, run, n, s))
    ensures n < |run.evs| && NumbersAt(cfg, run, n, s) ==>
              NumberOf(run.outs[n]) == NumberAt(NextSeq(cfg, run.sts[0], s), NumberedBefore(cfg, run, n, s))
  {
    if n > 0 {
      ConsecutiveNumbers(cfg, run, n - 1, s);
      StepNumbers(cfg, run, n - 1);
    }
    if n < |run.evs| { StepNumbers(cfg, run, n); }
  }

  lemma {:induction false} NumberedGrows(cfg: Config, run: Run, m: nat, n: nat, s: Mac)
    requires m <= n <= |run.evs| == |run.outs|
    ensures NumberedBefore(cfg, run, m, s) <= NumberedBefore(cfg, run, n, s)
  {
    if m < n { NumberedGrows(cfg, run, m, n - 1, s); }
  }

  /** Two frames of a source carry the same number only if at least 65536 frames of it were sent in between. */
  lemma ReusedAfterWrap(cfg: Config, run: Run, i: nat, j: nat, s: Mac)
    requires IsRun(cfg, run) && i < j < |run.evs| && NumbersAt(cfg, run, i, s) && NumbersAt(cfg, run, j, s)
    requires NumberedBefore(cfg, run, j, s) - NumberedBefore(cfg, run, i, s) <= 0x1_0000
    ensures NumberOf(run.outs[i]) == NumberOf(run.outs[j]) <==>
              NumberedBefore(cfg, run, j, s) == NumberedBefore(cfg, run, i, s) + 0x1_0000
  {
    ConsecutiveNumbers(cfg, run, i, s);
    ConsecutiveNumbers(cfg, run, j, s);
    NumberedGrows(cfg, run, i + 1, j, s);
    NumbersRepeat(NextSeq(cfg, run.sts[0], s), NumberedBefore(cfg, run, i, s), NumberedBefore(cfg, run, j, s));
  }

  /** So an hsr-san node injects a key again only after 65536 injections of its source. */
  lemma KeyReusedAfterWrap(cfg: Config, run: Run, i: nat, j: nat, k: Key)
    requires IsRun(cfg, run) && i < j < |run.evs| && cfg.role == HsrSan
    requires run.outs[i].verdict == Injected(k) && run.outs[j].verdict == Injected(k)
    ensures NumberedBefore(cfg, run, j, k.src) - NumberedBefore(cfg, run, i, k.src) >= 0x1_0000
  {
    StepNumbers(cfg, run, i);
    StepNumbers(cfg, run, j);
    if NumberedBefore(cfg, run, j, k.src) - NumberedBefore(cfg, run, i, k.src) <= 0x1_0000 {
      ReusedAfterWrap(cfg, run, i, j, k.src);
    }
  }

  // ---------------------------------------------------------------- restart detection

  /** A counter went backwards exactly if it is more than 32767 steps ahead. */
  lemma RegressedIffFar(v: Word, w: Word)
    ensures Regressed(v, w) <==> Advance(v, w) >= 0x8000
  {
  }

  predicate HearsAt(cfg: Config, run: Run, i: nat, p: Mac)
    requires i < |run.evs|
  {
    Possible(cfg, run.evs[i]) && Heard(cfg, run.evs[i]).Some? && Heard(cfg, run.evs[i]).value.src == p
  }

  /** The number of the last announcement of `p` among the first `n` events. */
  function LastHeard(cfg: Config, run: Run, n: nat, p: Mac): Option<Word>
    requires n <= |run.evs|
  {
    if n == 0 then None
    else if HearsAt(cfg, run, n - 1, p) then Some(Heard(cfg, run.evs[n - 1]).value.seqNo)
    else LastHeard(cfg, run, n - 1, p)
  }

  lemma RemembersStep(cfg: Config, run: Run, i: nat, p: Mac)
    requires IsRun(cfg, run) && i < |run.evs|
    ensures var before, after := run.sts[i].supSeqs, run.sts[i + 1].supSeqs;
            if HearsAt(cfg, run, i, p) then p in after && after[p] == Heard(cfg, run.evs[i]).value.seqNo
            else (p in after <==> p in before) && (p in after ==> after[p] == before[p])
  {
    RunStepEffect(cfg, run, i);
  }

  lemma {:induction false} RemembersLast(cfg: Config, run: Run, n: nat, p: Mac)
    requires IsRun(cfg, run) && n <= |run.evs| && p !in run.sts[0].supSeqs
    ensures var last := LastHeard(cfg, run, n, p);
            && (last.Some? <==> p in run.sts[n].supSeqs)
            && (last.Some? ==> run.sts[n].supSeqs[p] == last.value)
  {
    if n > 0 {
      RemembersLast(cfg, run, n - 1, p);
      RemembersStep(cfg, run, n - 1, p);
    }
  }

  /**
   * Restart detection: an announcement flushes its source if and only if its number
   * is more than 32767 steps ahead of the last one heard, counting modulo 65536. A
   * flush removes the entries of that source and no others; otherwise the
   * announcement leaves the duplicate table alone.
   */
  lemma FlushIffRestarted(cfg: Config, run: Run, i: nat, p: Mac)
    requires IsRun(cfg, run) && i < |run.evs| && p !in run.sts[0].supSeqs && HearsAt(cfg, run, i, p)
    ensures var last, next := LastHeard(cfg, run, i, p), Heard(cfg, run.evs[i]).value.seqNo;
            var restarted := last.Some? && Advance(last.value, next) >= 0x8000;
            && Flushes(cfg, run.sts[i], run.evs[i], p) == restarted
            && (forall k :: k in run.sts[i + 1].dup <==> k in run.sts[i].dup && !(restarted && k.src == p))
            && (forall k :: k in run.sts[i + 1].dup ==> run.sts[i + 1].dup[k] == run.sts[i].dup[k])
  {
    RemembersLast(cfg, run, i, p);
    RunStepEffect(cfg, run, i);
    var last, next := LastHeard(cfg, run, i, p), Heard(cfg, run.evs[i]).value.seqNo;
    if last.Some? { RegressedIffFar(last.value, next); }
  }

  /** Every announcement of `p` is at most 32767 steps after the one before it. */
  ghost predicate KeepsAdvancing(cfg: Config, run: Run, n: nat, p: Mac)
    requires n <= |run.evs|
  {
    forall i :: 0 <= i < n && HearsAt(cfg, run, i, p) && LastHeard(cfg, run, i, p).Some? ==>
      exists d :: 0 <= d < 0x8000
                  && Heard(cfg, run.evs[i]).value.seqNo == NumberAt(LastHeard(cfg, run, i, p).value, d)
  }

  /** A peer that keeps advancing is never flushed, however often its counter wraps. */
  lemma NeverFlushed(cfg: Config, run: Run, n: nat, p: Mac, i: nat)
    requires IsRun(cfg, run) && n <= |run.evs| && p !in run.sts[0].supSeqs
    requires KeepsAdvancing(cfg, run, n, p) && i < n
    ensures Possible(cfg, run.evs[i]) && !Flushes(cfg, run.sts[i], run.evs[i], p)
  {
    assert StepAt(cfg, run, i);
    if HearsAt(cfg, run, i, p) {
      FlushIffRestarted(cfg, run, i, p);
      var last, next := LastHeard(cfg, run, i, p), Heard(cfg, run.evs[i]).value.seqNo;
      if last.Some? {
        var d :| 0 <= d < 0x8000 && next == NumberAt(last.value, d);
        AdvanceIsSteps(last.value, next, d);
      }
    }
  }
}
