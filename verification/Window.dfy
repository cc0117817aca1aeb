/**
 * Sizing the duplicate table: while the keys registered within one forget time fit the
 * table, an eviction only ever hits an expired entry, so only flushes can make a node
 * accept a key again early.
 */
module Window {
  import opened Bytes
  import opened NodeTable
  import opened Role
  import opened NodeSpec
  import opened NodeRun

  predicate RecentAt(cfg: Config, run: Run, i: nat, x: nat)
    requires i <= x < |run.evs| == |run.outs|
  {
    KeyOf(run.outs[i].verdict).Some? && run.evs[x].now - run.evs[i].now <= cfg.ForgetMs()
  }

  /** The keys registered up to step `x` within the forget time before it. */
  function RecentKeys(cfg: Config, run: Run, x: nat): set<Key>
    requires x < |run.evs| == |run.outs|
  {
    set i | 0 <= i <= x && RecentAt(cfg, run, i, x) :: KeyOf(run.outs[i].verdict).value
  }

  predicate FitsAt(cfg: Config, run: Run, x: nat)
    requires x < |run.evs| == |run.outs|
  {
    KeyOf(run.outs[x].verdict).Some? ==> |RecentKeys(cfg, run, x)| <= cfg.MaxTable()
  }

  /** A run from an empty table in which the keys of any forget time fit the table. */
  ghost predicate WindowFits(cfg: Config, run: Run)
    requires |run.evs| == |run.outs| && |run.sts| == |run.evs| + 1
  {
    && run.sts[0].dup == map[]
    && forall x :: 0 <= x < |run.evs| ==> FitsAt(cfg, run, x)
  }

  /** An entry as young as the forget time belongs to a recent key. */
  lemma YoungIsRecent(cfg: Config, run: Run, x: nat, k: Key)
    requires IsRun(cfg, run) && x < |run.evs| && run.sts[0].dup == map[] && k in run.sts[x].dup
    requires run.evs[x].now - run.sts[x].dup[k].lastSeen <= cfg.ForgetMs()
    ensures k in RecentKeys(cfg, run, x)
  {
    var i := EntryHasOrigin(cfg, run, x, k);
    assert RecentAt(cfg, run, i, x);
  }

  /** If the table had to make room and even its oldest entry was young, the recent keys did not fit. */
  lemma YoungTableOverflows(cfg: Config, run: Run, x: nat, added: Key)
    requires IsRun(cfg, run) && x < |run.evs| && run.sts[0].dup == map[] && RegistersAt(run, x, added)
    requires Overflows(run.sts[x].dup, cfg.MaxTable(), added)
    requires forall k :: k in run.sts[x].dup && k != added ==>
               run.evs[x].now - run.sts[x].dup[k].lastSeen <= cfg.ForgetMs()
    ensures |RecentKeys(cfg, run, x)| > cfg.MaxTable()
  {
    var m := run.sts[x].dup;
    var grown := m.Keys + {added};
    assert RecentAt(cfg, run, x, x);
    forall k | k in grown ensures k in RecentKeys(cfg, run, x) {
      if k != added { YoungIsRecent(cfg, run, x, k); }
    }
    assert added in m ==> grown == m.Keys;
    SubsetSize(grown, RecentKeys(cfg, run, x));
  }

  lemma VictimIsOldest(cfg: Config, run: Run, x: nat, k: Key)
    requires IsRun(cfg, run) && x < |run.evs| && Evicts(cfg, run.sts[x], run.evs[x], run.outs[x].verdict, k)
    ensures var m, added := run.sts[x].dup, KeyOf(run.outs[x].verdict).value;
            && Overflows(m, cfg.MaxTable(), added) && IsOldest(m[added := Entry(0, run.evs[x].now, 0)], k)
  {
    assert StepAt(cfg, run, x);
  }

  /** An eviction removes an expired entry, never the key being registered. */
  lemma EvictsOnlyExpired(cfg: Config, run: Run, x: nat, k: Key)
    requires IsRun(cfg, run) && WindowFits(cfg, run) && x < |run.evs|
    requires Evicts(cfg, run.sts[x], run.evs[x], run.outs[x].verdict, k)
    ensures KeyOf(run.outs[x].verdict) != Some(k)
    ensures k in run.sts[x].dup && run.evs[x].now - run.sts[x].dup[k].lastSeen > cfg.ForgetMs()
  {
    VictimIsOldest(cfg, run, x, k);
    assert FitsAt(cfg, run, x);
    var m, added, now := run.sts[x].dup, KeyOf(run.outs[x].verdict).value, run.evs[x].now;
    var grown := m[added := Entry(0, now, 0)];
    if now - grown[k].lastSeen <= cfg.ForgetMs() {
      forall q | q in m && q != added ensures now - m[q].lastSeen <= cfg.ForgetMs() {
        assert grown[q] == m[q];
      }
      YoungTableOverflows(cfg, run, x, added);
    }
  }

  /** No step from `i` up to `j` flushes `src`. */
  ghost predicate Unflushed(cfg: Config, run: Run, i: nat, j: nat, src: Mac)
    requires |run.evs| == |run.outs| && |run.sts| == |run.evs| + 1 && j <= |run.evs|
  {
    forall x :: i <= x < j ==> Possible(cfg, run.evs[x]) && !Flushes(cfg, run.sts[x], run.evs[x], src)
  }

  lemma NotForgotten(cfg: Config, run: Run, x: nat, k: Key)
    requires IsRun(cfg, run) && WindowFits(cfg, run) && x < |run.evs|
    requires Possible(cfg, run.evs[x]) && !Flushes(cfg, run.sts[x], run.evs[x], k.src)
    requires || RegistersAt(run, x, k)
             || (k in run.sts[x].dup && run.evs[x].now - run.sts[x].dup[k].lastSeen <= cfg.ForgetMs())
    ensures !ForgetsAt(cfg, run, x, k)
  {
    if Evicts(cfg, run.sts[x], run.evs[x], run.outs[x].verdict, k) { EvictsOnlyExpired(cfg, run, x, k); }
  }

  /** The run from a registration of `k` at `i` up to `j`, within the forget time and without a flush. */
  ghost predicate Fresh(cfg: Config, run: Run, i: nat, j: nat, k: Key) {
    && IsRun(cfg, run) && WindowFits(cfg, run) && i < j <= |run.evs| && RegistersAt(run, i, k)
    && Unflushed(cfg, run, i, j, k.src) && run.evs[j - 1].now - run.evs[i].now <= cfg.ForgetMs()
  }

  lemma FreshNotForgotten(cfg: Config, run: Run, i: nat, x: nat, j: nat, k: Key)
    requires Fresh(cfg, run, i, j, k) && i <= x < j && Remembered(cfg, run, i, x, k)
    ensures Possible(cfg, run.evs[x]) && !ForgetsAt(cfg, run, x, k)
  {
    assert InOrder(run, x, j - 1);
    if i < x {
      assert InOrder(run, x - 1, x);
      RegistrationLasts(cfg, run, i, x, k);
    }
    NotForgotten(cfg, run, x, k);
  }

  lemma RememberedOn(cfg: Config, run: Run, i: nat, x: nat, k: Key)
    requires |run.evs| == |run.outs| && |run.sts| == |run.evs| + 1 && i <= x < |run.evs|
    requires Remembered(cfg, run, i, x, k) && Possible(cfg, run.evs[x]) && !ForgetsAt(cfg, run, x, k)
    ensures Remembered(cfg, run, i, x + 1, k)
  {
  }

  lemma {:induction false} RememberedUpTo(cfg: Config, run: Run, i: nat, x: nat, j: nat, k: Key)
    requires Fresh(cfg, run, i, j, k) && i <= x <= j
    ensures Remembered(cfg, run, i, x, k)
    decreases x
  {
    if i < x {
      RememberedUpTo(cfg, run, i, x - 1, j, k);
      FreshNotForgotten(cfg, run, i, x - 1, j, k);
      RememberedOn(cfg, run, i, x - 1, k);
    }
  }

  /** A registered key is not evicted before the forget time is over. */
  lemma KeptWhileFresh(cfg: Config, run: Run, i: nat, j: nat, k: Key)
    requires IsRun(cfg, run) && WindowFits(cfg, run) && i < j <= |run.evs|
    requires RegistersAt(run, i, k) && Unflushed(cfg, run, i, j, k.src)
    requires run.evs[j - 1].now - run.evs[i].now <= cfg.ForgetMs()
    ensures Remembered(cfg, run, i, j, k)
  {
    RememberedUpTo(cfg, run, i, j, j, k);
  }

  /**
   * At most once, by a condition on the traffic: if the keys of any forget time fit the
   * table, two acceptances of a key are further apart than the forget time or separated
   * by a flush of its source.
   */
  lemma AtMostOnceIfFitting(cfg: Config, run: Run, i: nat, j: nat, k: Key)
    requires IsRun(cfg, run) && WindowFits(cfg, run) && i < j < |run.evs|
    requires run.outs[i].verdict == Accepted(k) && run.outs[j].verdict == Accepted(k)
    ensures run.evs[j].now - run.evs[i].now > cfg.ForgetMs() || !Unflushed(cfg, run, i, j, k.src)
  {
    assert InOrder(run, j - 1, j);
    if run.evs[j].now - run.evs[i].now <= cfg.ForgetMs() && Unflushed(cfg, run, i, j, k.src) {
      KeptWhileFresh(cfg, run, i, j, k);
      AtMostOnce(cfg, run, i, j, k);
    }
  }

  /** Nothing makes the node forget `k` from `i` up to `j`, or at least nothing flushes it and its table is large enough. */
  ghost predicate Kept(cfg: Config, run: Run, i: nat, j: nat, k: Key)
    requires |run.evs| == |run.outs| && |run.sts| == |run.evs| + 1 && j <= |run.evs|
  {
    Remembered(cfg, run, i, j, k) || (WindowFits(cfg, run) && Unflushed(cfg, run, i, j, k.src))
  }
}
