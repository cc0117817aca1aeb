/**
 * Frame accounting of an hsr-san node whose port writes succeed: every ring frame
 * is delivered or counted under one drop reason, and every ring transmission is
 * explained by an injection or a forwarded frame.
 */
module Conservation {
  import opened Bytes
  import opened Engine
  import opened NodeTable
  import opened Role
  import opened NodeSpec
  import opened NodeRun

  /** Ring frames received minus those delivered or dropped with a reason. */
  function Unaccounted(st: State): int {
    st.counters.lanAIn + st.counters.lanBIn
    - (st.counters.interOut + Dropped(st, Malformed) + Dropped(st, Own) + Dropped(st, Dup) + Dropped(st, Filter))
  }

  /** Ring transmissions minus two per injected frame and one per frame accepted from the ring. */
  function Unexplained(st: State): int {
    st.counters.lanAOut + st.counters.lanBOut
    - (2 * st.counters.interIn + st.counters.interOut + Dropped(st, Filter))
  }

  predicate Complete(v: RingView) {
    v.laneA.Some? && v.laneB.Some? && v.reset.Some? && v.original.Some? && v.coupled.Some?
  }

  /** Once the tag decodes, rewriting and stripping cannot fail. */
  lemma DecodedIsComplete(cfg: Config, st: State, now: int, f: Frame)
    requires DecodeHsr(f).Some?
    ensures ViewOf(cfg, st, now, f).Some? && Complete(ViewOf(cfg, st, now, f).value)
  {
    RewriteLaneDecodes(f, true);
    RewriteLaneDecodes(f, false);
    RewritePathDecodes(f, 0);
  }

  lemma DeliverBalance(st: State, out: map<Port, Frame>, d: Delivery, k: Key)
    requires d.Write? || d == Discard(Filter)
    ensures var s := Deliver(st, out, d, k, ALL).st;
            Unaccounted(s) == Unaccounted(st) - 1 && Unexplained(s) == Unexplained(st) - 1
  {
  }

  lemma ScreenBalance(cfg: Config, st: State, now: int, port: Port, v: RingView, victim: Key)
    requires cfg.role == HsrSan && port != Interlink && Complete(v)
    ensures var s := HsrScreen(cfg, st, now, port, v, ALL, victim).st;
            Unaccounted(s) == Unaccounted(st) - 1 && Unexplained(s) == Unexplained(st)
  {
    if cfg.mac != v.key.src && !Found(st.dup, v.key, now) {
      var s := Register(cfg, st, v.key, 0, now, victim).(ring := st.ring[v.key.src := now]);
      var other := OtherRingPort(port);
      var fwd := if other == LanA then v.laneA else v.laneB;
      DeliverBalance(s.Out(other, ALL), Put(map[], other, fwd.value, ALL), ToInterlink(cfg, s, v), v.key);
    }
  }

  lemma ReceiveBalance(cfg: Config, st: State, now: int, port: Port, f: Frame, victim: Key)
    requires cfg.role == HsrSan && port != Interlink
    ensures var s := HsrReceive(cfg, st, now, port, f, ALL, victim).st;
            Unaccounted(s) == Unaccounted(st) && Unexplained(s) == Unexplained(st)
  {
    var s := st.In(port);
    var view := ViewOf(cfg, s, now, f);
    if view.Some? {
      DecodedIsComplete(cfg, s, now, f);
      ScreenBalance(cfg, s, now, port, view.value, victim);
    }
  }

  lemma LaunchBalance(cfg: Config, st: State, now: int, k: Key, w: Frame, victim: Key)
    ensures var s := Launch(cfg, st, now, k, w, ALL, victim).st;
            Unaccounted(s) == Unaccounted(st) && Unexplained(s) == Unexplained(st) + 2
  {
  }

  lemma InjectBalance(cfg: Config, st: State, now: int, f: Frame, victim: Key)
    requires cfg.role == HsrSan && |f| >= HeaderLen(f)
    ensures var s := HsrInject(cfg, st, now, f, ALL, victim).st;
            Unaccounted(s) == Unaccounted(st) && Unexplained(s) == Unexplained(st)
  {
    var src := SrcMac(f);
    var s := st.In(Interlink).(proxy := st.proxy[src := now]);
    var n := NextSeq(cfg, s, src);
    LaunchBalance(cfg, TakeSeq(cfg, s, src), now, Key(src, n), Tagged(f, InjectionPath(cfg), n), victim);
  }

  lemma DispatchBalance(cfg: Config, st: State, now: int, port: Port, f: Frame, victim: Key)
    requires cfg.role == HsrSan && Safe(cfg, port, f) && |f| >= 14 && !IsSupervision(cfg, port, f)
    ensures var s := Dispatch(cfg, st, now, port, f, ALL, victim).st;
            Unaccounted(s) == Unaccounted(st) && Unexplained(s) == Unexplained(st)
  {
    if port != Interlink {
      ReceiveBalance(cfg, st, now, port, f, victim);
    } else {
      InjectBalance(cfg, st, now, f, victim);
    }
  }

  lemma SuperviseBalance(cfg: Config, st: State, now: int, port: Port, f: Frame, victim: Key)
    requires cfg.role == HsrSan && Safe(cfg, port, f) && |f| >= 14 && IsSupervision(cfg, port, f)
    ensures var s := HandleFrame(cfg, st, now, port, f, ALL, victim).st;
            s.counters == st.counters && s.drops == st.drops
  {
  }

  lemma StepBalance(cfg: Config, run: Run, i: nat)
    requires IsRun(cfg, run) && i < |run.evs| && cfg.role == HsrSan
    requires run.evs[i].Arrival? ==> run.evs[i].io == ALL
    ensures Unaccounted(run.sts[i + 1]) == Unaccounted(run.sts[i])
    ensures Unexplained(run.sts[i + 1]) == Unexplained(run.sts[i])
  {
    assert StepAt(cfg, run, i);
    var st, ev := run.sts[i], run.evs[i];
    if ev.Arrival? && |ev.frame| >= 14 {
      if IsSupervision(cfg, ev.port, ev.frame) {
        SuperviseBalance(cfg, st, ev.now, ev.port, ev.frame, ev.victim);
      } else {
        DispatchBalance(cfg, st, ev.now, ev.port, ev.frame, ev.victim);
      }
    }
  }

  lemma {:induction false} RunBalance(cfg: Config, run: Run, n: nat)
    requires IsRun(cfg, run) && n <= |run.evs| && cfg.role == HsrSan
    requires forall i :: 0 <= i < n && run.evs[i].Arrival? ==> run.evs[i].io == ALL
    ensures Unaccounted(run.sts[n]) == Unaccounted(run.sts[0])
    ensures Unexplained(run.sts[n]) == Unexplained(run.sts[0])
  {
    if n > 0 {
      RunBalance(cfg, run, n - 1);
      StepBalance(cfg, run, n - 1);
    }
  }

  /** Conservation over every run of a new hsr-san node whose writes succeed. */
  lemma FramesAreConserved(cfg: Config, run: Run, n: nat)
    requires IsRun(cfg, run) && n <= |run.evs| && cfg.role == HsrSan && run.sts[0] == INITIAL
    requires forall i :: 0 <= i < n && run.evs[i].Arrival? ==> run.evs[i].io == ALL
    ensures var s := run.sts[n]; var c := s.counters;
            && c.lanAIn + c.lanBIn
               == c.interOut + Dropped(s, Malformed) + Dropped(s, Own) + Dropped(s, Dup) + Dropped(s, Filter)
            && c.lanAOut + c.lanBOut == 2 * c.interIn + c.interOut + Dropped(s, Filter)
  {
    RunBalance(cfg, run, n);
  }
}
