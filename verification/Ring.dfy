/**
 * Theorems about one key in a network of HSR nodes: who receives it, how often,
 * and how much traffic it causes, under every interleaving and any set of failed
 * links.
 */
module Ring {
  import opened Bytes
  import opened Role
  import opened NodeTable
  import opened NodeSpec
  import opened NodeRun
  import opened KeyFlow
  import opened Network
  import opened RingFlood
  import Flood

  ghost predicate CalmAt(topo: Topology, tr: Trace, i: nat, k: Key, t0: int)
    requires tr.Shaped() && i < |tr.acts|
  {
    && Enabled(topo, tr.nets[i], tr.acts[i]) && |tr.nets[i].nodes| == |topo.cfgs|
    && Calm(topo, tr.nets[i], tr.acts[i], tr.outs[i], k, t0)
  }

  ghost predicate Quiet(net: Net, k: Key) {
    forall i :: 0 <= i < |net.flight| ==> !IsCopy(net.flight[i], k)
  }

  /**
   * The first `n` steps of a run that starts without a copy or a live entry of the
   * key and keeps every live entry of it: all steps happen within the forget time
   * after `t0`, and no table evicts a live entry of the key or flushes its source
   * while it has one.
   */
  ghost predicate CalmRun(topo: Topology, tr: Trace, n: nat, k: Key, t0: int) {
    && IsTrace(topo, tr) && n <= |tr.acts|
    && Quiet(tr.nets[0], k) && Holders(tr.nets[0].nodes, k, t0) == {}
    && forall i :: 0 <= i < n ==> CalmAt(topo, tr, i, k, t0)
  }

  /** The key is injected only in frames that fit the tag and, if there are QuadBoxes, are multicast. */
  ghost predicate ProperRun(topo: Topology, tr: Trace, n: nat, k: Key)
    requires tr.Shaped() && n <= |tr.acts|
  {
    forall i :: 0 <= i < n ==> Proper(topo, tr.acts[i], tr.outs[i], k)
  }

  function ActAt(topo: Topology, tr: Trace, i: nat, k: Key): Flood.Act
    requires tr.Shaped() && i < |tr.acts|
  {
    if Enabled(topo, tr.nets[i], tr.acts[i]) then ActOf(topo, tr.nets[i], tr.acts[i], tr.outs[i], k) else Flood.Idle
  }

  /** The run as the flooding machine sees it. */
  function Shadow(topo: Topology, tr: Trace, n: nat, k: Key, t0: int): Flood.Trace
    requires tr.Shaped() && n <= |tr.acts|
  {
    Flood.Trace(seq(n + 1, i requires 0 <= i <= n => View(tr.nets[i], k, t0)),
                seq(n, i requires 0 <= i < n => ActAt(topo, tr, i, k)))
  }

  lemma {:induction false} QuietHasNoCopies(flight: seq<Packet>, k: Key)
    requires forall i :: 0 <= i < |flight| ==> !IsCopy(flight[i], k)
    ensures Copies(flight, k) == multiset{}
  {
    if flight != [] { QuietHasNoCopies(flight[1..], k); }
  }

  lemma StaysEligible(topo: Topology, tr: Trace, n: nat, k: Key, t0: int)
    requires CalmRun(topo, tr, n, k, t0) && ProperRun(topo, tr, n, k)
    ensures Eligible(topo, tr.nets[n].flight, k)
  {
    var ok := (t: Tag) => t.multicast || topo.Plain();
    forall i | 0 <= i < n ensures InjectsOk(topo, tr.acts[i], tr.outs[i], k, ok) {
      assert Proper(topo, tr.acts[i], tr.outs[i], k);
    }
    TagInvariant(topo, tr, n, k, ok);
  }

  lemma {:induction false} StaysLive(topo: Topology, tr: Trace, n: nat, k: Key, t0: int)
    requires CalmRun(topo, tr, n, k, t0)
    ensures |tr.nets[n].nodes| == |topo.cfgs| && Live(topo, tr.nets[n], k, t0)
  {
    if n > 0 {
      StaysLive(topo, tr, n - 1, k, t0);
      StepMoved(topo, tr, n - 1);
      StepTable(topo, tr, n - 1, k);
      assert CalmAt(topo, tr, n - 1, k, t0);
      TableStep(topo, tr.nets[n - 1], tr.acts[n - 1], tr.outs[n - 1], tr.nets[n], k, t0);
    } else {
      forall v | 0 <= v < |topo.cfgs| ensures LiveAt(topo.cfgs[v], tr.nets[0].nodes[v], k, t0) {
        assert v !in Holders(tr.nets[0].nodes, k, t0);
      }
    }
  }

  /** Every calm step is a flooding step, and acceptances are exactly its joins. */
  lemma StepRefines(topo: Topology, tr: Trace, n: nat, i: nat, k: Key, t0: int)
    requires CalmRun(topo, tr, n, k, t0) && i < n
    ensures var g := GraphOf(topo, k); var s, a := View(tr.nets[i], k, t0), ActAt(topo, tr, i, k);
            && Flood.Next(g, s, a, View(tr.nets[i + 1], k, t0))
            && (Flood.Joins(g, s, a) <==> tr.acts[i].Deliver? && KeyOf(tr.outs[i].verdict) == Some(k))
  {
    StaysLive(topo, tr, i, k, t0);
    Labels(topo, tr, i);
    StepMoved(topo, tr, i);
    StepFlow(topo, tr, i);
    StepTable(topo, tr, i, k);
    GraphIsGraph(topo, k);
    assert CalmAt(topo, tr, i, k, t0);
    RingFlood.Refines(topo, GraphOf(topo, k), tr.nets[i], tr.acts[i], tr.outs[i], tr.nets[i + 1], k, t0);
  }

  lemma ShadowIsTrace(topo: Topology, tr: Trace, n: nat, k: Key, t0: int)
    requires CalmRun(topo, tr, n, k, t0)
    ensures Flood.IsTrace(GraphOf(topo, k), Shadow(topo, tr, n, k, t0)) && GraphOf(topo, k).Valid()
  {
    var g, sh := GraphOf(topo, k), Shadow(topo, tr, n, k, t0);
    GraphIsGraph(topo, k);
    QuietHasNoCopies(tr.nets[0].flight, k);
    assert sh.ss[0] == Flood.State({}, multiset{});
    forall i | 0 <= i < n ensures Flood.NextAt(g, sh, i) {
      StepRefines(topo, tr, n, i, k, t0);
    }
  }

  // ---------------------------------------------------------------- who takes part

  predicate InjectsAt(tr: Trace, i: nat, k: Key)
    requires tr.Shaped() && i < |tr.acts|
  {
    tr.acts[i].Enter? && tr.outs[i].verdict == Injected(k)
  }

  /** The nodes that injected the key in the first `n` steps. */
  function Injectors(tr: Trace, n: nat, k: Key): set<nat>
    requires tr.Shaped() && n <= |tr.acts|
  {
    if n == 0 then {}
    else Injectors(tr, n - 1, k) + if InjectsAt(tr, n - 1, k) then {tr.acts[n - 1].node} else {}
  }

  function Injections(tr: Trace, n: nat, k: Key): nat
    requires tr.Shaped() && n <= |tr.acts|
  {
    if n == 0 then 0 else Injections(tr, n - 1, k) + if InjectsAt(tr, n - 1, k) then 1 else 0
  }

  /** Node `v` accepts a first copy of the key in step `i`. */
  predicate AcceptsAt(tr: Trace, i: nat, k: Key, v: nat)
    requires tr.Shaped() && i < |tr.acts|
  {
    && tr.acts[i].Deliver? && tr.acts[i].index < |tr.nets[i].flight|
    && tr.nets[i].flight[tr.acts[i].index].at.node == v && tr.outs[i].verdict == Accepted(k)
  }

  function Acceptances(tr: Trace, n: nat, k: Key, v: nat): nat
    requires tr.Shaped() && n <= |tr.acts|
  {
    if n == 0 then 0 else Acceptances(tr, n - 1, k, v) + if AcceptsAt(tr, n - 1, k, v) then 1 else 0
  }

  predicate ArrivesAt(tr: Trace, i: nat, k: Key)
    requires tr.Shaped() && i < |tr.acts|
  {
    && tr.acts[i].Deliver? && tr.acts[i].index < |tr.nets[i].flight|
    && IsCopy(tr.nets[i].flight[tr.acts[i].index], k)
  }

  /** How many copies of the key reached a node in the first `n` steps. */
  function Arrivals(tr: Trace, n: nat, k: Key): nat
    requires tr.Shaped() && n <= |tr.acts|
  {
    if n == 0 then 0 else Arrivals(tr, n - 1, k) + if ArrivesAt(tr, n - 1, k) then 1 else 0
  }

  predicate LosesAt(tr: Trace, i: nat, k: Key)
    requires tr.Shaped() && i < |tr.acts|
  {
    && tr.acts[i].Lose? && tr.acts[i].index < |tr.nets[i].flight|
    && IsCopy(tr.nets[i].flight[tr.acts[i].index], k)
  }

  predicate DuplicatesAt(tr: Trace, i: nat, k: Key)
    requires tr.Shaped() && i < |tr.acts|
  {
    && tr.acts[i].Duplicate? && tr.acts[i].index < |tr.nets[i].flight|
    && IsCopy(tr.nets[i].flight[tr.acts[i].index], k)
  }

  function Duplications(tr: Trace, n: nat, k: Key): nat
    requires tr.Shaped() && n <= |tr.acts|
  {
    if n == 0 then 0 else Duplications(tr, n - 1, k) + if DuplicatesAt(tr, n - 1, k) then 1 else 0
  }

  /** The port at which the copy concerned by step `i` is about to arrive. */
  function PortAt(tr: Trace, i: nat, k: Key): Endpoint
    requires tr.Shaped() && i < |tr.acts| && (LosesAt(tr, i, k) || ArrivesAt(tr, i, k) || DuplicatesAt(tr, i, k))
  {
    tr.nets[i].flight[tr.acts[i].index].at
  }

  /** Ports on whose link a copy was lost in the first `n` steps. */
  function LostPorts(tr: Trace, n: nat, k: Key): set<Endpoint>
    requires tr.Shaped() && n <= |tr.acts|
  {
    if n == 0 then {} else LostPorts(tr, n - 1, k) + if LosesAt(tr, n - 1, k) then {PortAt(tr, n - 1, k)} else {}
  }

  /** Ports at which a copy arrived in the first `n` steps. */
  function ReachedPorts(tr: Trace, n: nat, k: Key): set<Endpoint>
    requires tr.Shaped() && n <= |tr.acts|
  {
    if n == 0 then {} else ReachedPorts(tr, n - 1, k) + if ArrivesAt(tr, n - 1, k) then {PortAt(tr, n - 1, k)} else {}
  }

  /** The network without the links that lost a copy of the key and never delivered one. */
  function Survivors(topo: Topology, tr: Trace, n: nat, k: Key): Flood.Graph
    requires tr.Shaped() && n <= |tr.acts|
  {
    var lost, reached := LostPorts(tr, n, k), ReachedPorts(tr, n, k);
    GraphOf(topo, k).(wire := map u | u in topo.wire && (topo.wire[u] !in lost || topo.wire[u] in reached) :: topo.wire[u])
  }

  /** If nothing was lost, every link that is up survives. */
  lemma AllSurvive(topo: Topology, tr: Trace, n: nat, k: Key)
    requires tr.Shaped() && n <= |tr.acts| && LostPorts(tr, n, k) == {}
    ensures Survivors(topo, tr, n, k) == GraphOf(topo, k)
  {
    assert Survivors(topo, tr, n, k).wire == topo.wire;
  }

  lemma SurvivorsSurvive(topo: Topology, tr: Trace, n: nat, k: Key)
    requires tr.Shaped() && n <= |tr.acts|
    ensures Flood.Surviving(GraphOf(topo, k), LostPorts(tr, n, k), ReachedPorts(tr, n, k), Survivors(topo, tr, n, k))
  {
  }

  /** What step `i` of the run is to the flooding machine. */
  ghost predicate Mirrors(a: Flood.Act, tr: Trace, i: nat, k: Key)
    requires tr.Shaped() && i < |tr.acts|
  {
    && (a.Launch? <==> InjectsAt(tr, i, k)) && (a.Launch? ==> a.node == tr.acts[i].node)
    && (a.Arrive? <==> ArrivesAt(tr, i, k)) && (a.Drop? <==> LosesAt(tr, i, k))
    && (a.Duplicate? <==> DuplicatesAt(tr, i, k))
    && (a.Arrive? || a.Drop? ==> a.at == PortAt(tr, i, k))
  }

  lemma ShadowMirrors(topo: Topology, tr: Trace, i: nat, k: Key)
    requires tr.Shaped() && i < |tr.acts| && Enabled(topo, tr.nets[i], tr.acts[i])
    ensures Mirrors(ActAt(topo, tr, i, k), tr, i, k)
  {
  }

  /** In a delivery the key that is registered is the one that is accepted. */
  lemma DeliveryAccepts(topo: Topology, tr: Trace, i: nat, k: Key)
    requires IsTrace(topo, tr) && i < |tr.acts| && tr.acts[i].Deliver?
    ensures KeyOf(tr.outs[i].verdict) == Some(k) <==> tr.outs[i].verdict == Accepted(k)
  {
    Labels(topo, tr, i);
    StepFlow(topo, tr, i);
  }

  lemma ShadowAccepts(topo: Topology, tr: Trace, n: nat, i: nat, k: Key, t0: int, v: nat)
    requires CalmRun(topo, tr, n, k, t0) && i < n
    ensures var a := ActAt(topo, tr, i, k);
            AcceptsAt(tr, i, k, v) <==> Flood.Joins(GraphOf(topo, k), View(tr.nets[i], k, t0), a) && a.at.node == v
  {
    assert CalmAt(topo, tr, i, k, t0);
    StepRefines(topo, tr, n, i, k, t0);
    if tr.acts[i].Deliver? { DeliveryAccepts(topo, tr, i, k); }
    ShadowMirrors(topo, tr, i, k);
  }

  lemma {:induction false} SameCounts(sh: Flood.Trace, tr: Trace, m: nat, k: Key)
    requires tr.Shaped() && m <= |tr.acts| && m <= |sh.acts|
    requires forall i :: 0 <= i < m ==> Mirrors(sh.acts[i], tr, i, k)
    ensures Flood.CountLaunches(sh, m) == Injections(tr, m, k) && Flood.CountArrivals(sh, m) == Arrivals(tr, m, k)
    ensures Flood.CountDuplicates(sh, m) == Duplications(tr, m, k)
  {
    if m > 0 { SameCounts(sh, tr, m - 1, k); }
  }

  lemma {:induction false} SamePlaces(sh: Flood.Trace, tr: Trace, m: nat, k: Key)
    requires tr.Shaped() && m <= |tr.acts| && m <= |sh.acts|
    requires forall i :: 0 <= i < m ==> Mirrors(sh.acts[i], tr, i, k)
    ensures Flood.Launched(sh, m) == Injectors(tr, m, k)
    ensures Flood.Lost(sh, m) == LostPorts(tr, m, k) && Flood.Reached(sh, m) == ReachedPorts(tr, m, k)
  {
    if m > 0 { SamePlaces(sh, tr, m - 1, k); }
  }

  lemma ShadowHistory(topo: Topology, tr: Trace, n: nat, k: Key, t0: int)
    requires CalmRun(topo, tr, n, k, t0)
    ensures var sh := Shadow(topo, tr, n, k, t0);
            && Flood.CountLaunches(sh, n) == Injections(tr, n, k) && Flood.CountArrivals(sh, n) == Arrivals(tr, n, k)
            && Flood.CountDuplicates(sh, n) == Duplications(tr, n, k) && Flood.Launched(sh, n) == Injectors(tr, n, k)
            && Flood.Lost(sh, n) == LostPorts(tr, n, k) && Flood.Reached(sh, n) == ReachedPorts(tr, n, k)
  {
    var sh := Shadow(topo, tr, n, k, t0);
    forall i | 0 <= i < n ensures Mirrors(sh.acts[i], tr, i, k) {
      assert CalmAt(topo, tr, i, k, t0);
      ShadowMirrors(topo, tr, i, k);
    }
    SameCounts(sh, tr, n, k);
    SamePlaces(sh, tr, n, k);
  }

  lemma {:induction false} SameJoins(g: Flood.Graph, sh: Flood.Trace, tr: Trace, m: nat, k: Key, v: nat)
    requires tr.Shaped() && m <= |tr.acts| && m <= |sh.acts| < |sh.ss|
    requires forall i :: 0 <= i < m ==>
               (AcceptsAt(tr, i, k, v) <==> Flood.Joins(g, sh.ss[i], sh.acts[i]) && sh.acts[i].at.node == v)
    ensures Flood.JoinCount(g, sh, v, m) == Acceptances(tr, m, k, v)
  {
    if m > 0 { SameJoins(g, sh, tr, m - 1, k, v); }
  }

  lemma ShadowJoins(topo: Topology, tr: Trace, n: nat, k: Key, v: nat, t0: int)
    requires CalmRun(topo, tr, n, k, t0)
    ensures Flood.JoinCount(GraphOf(topo, k), Shadow(topo, tr, n, k, t0), v, n) == Acceptances(tr, n, k, v)
  {
    var g, sh := GraphOf(topo, k), Shadow(topo, tr, n, k, t0);
    forall i | 0 <= i < n
      ensures AcceptsAt(tr, i, k, v) <==> Flood.Joins(g, sh.ss[i], sh.acts[i]) && sh.acts[i].at.node == v
    {
      ShadowAccepts(topo, tr, n, i, k, t0, v);
    }
    SameJoins(g, sh, tr, n, k, v);
  }

  /** In a proper run no port is kept back. */
  lemma ShadowIsFull(topo: Topology, tr: Trace, n: nat, k: Key, t0: int)
    requires CalmRun(topo, tr, n, k, t0) && ProperRun(topo, tr, n, k)
    ensures Flood.Full(GraphOf(topo, k), Shadow(topo, tr, n, k, t0), n)
  {
    var g, sh := GraphOf(topo, k), Shadow(topo, tr, n, k, t0);
    forall i | 0 <= i < n ensures Flood.UsesAll(g, sh.ss[i], sh.acts[i]) {
      StepUsesAll(topo, tr, n, i, k, t0);
    }
  }

  lemma EligibleBefore(topo: Topology, tr: Trace, n: nat, i: nat, k: Key, t0: int)
    requires CalmRun(topo, tr, n, k, t0) && ProperRun(topo, tr, n, k) && i < n
    ensures Eligible(topo, tr.nets[i].flight, k) && Proper(topo, tr.acts[i], tr.outs[i], k)
  {
    assert Proper(topo, tr.acts[i], tr.outs[i], k);
    StaysEligible(topo, tr, i, k, t0);
  }

  lemma StepUsesAll(topo: Topology, tr: Trace, n: nat, i: nat, k: Key, t0: int)
    requires CalmRun(topo, tr, n, k, t0) && ProperRun(topo, tr, n, k) && i < n
    ensures Flood.UsesAll(GraphOf(topo, k), View(tr.nets[i], k, t0), ActAt(topo, tr, i, k))
  {
    EligibleBefore(topo, tr, n, i, k, t0);
    Labels(topo, tr, i);
    StepFlow(topo, tr, i);
    StepRefines(topo, tr, n, i, k, t0);
    ProperUsesAll(topo, GraphOf(topo, k), tr.nets[i], tr.acts[i], tr.outs[i], k, View(tr.nets[i], k, t0));
  }

  // ---------------------------------------------------------------- coverage and exactly once

  /**
   * Coverage: once no copy is left in flight, the nodes holding the key are exactly
   * those joined to an injector by links that are up and did not lose every copy they
   * carried, over nodes that do not own its source address; and each of them that did
   * not inject the key accepted it exactly once.
   */
  lemma RingCoverage(topo: Topology, tr: Trace, n: nat, k: Key, t0: int, v: nat)
    requires CalmRun(topo, tr, n, k, t0) && ProperRun(topo, tr, n, k) && Quiet(tr.nets[n], k)
    ensures v in Holders(tr.nets[n].nodes, k, t0) <==>
              Flood.Reachable(Survivors(topo, tr, n, k), Injectors(tr, n, k), v)
    ensures v !in Injectors(tr, n, k) ==>
              Acceptances(tr, n, k, v) == if v in Holders(tr.nets[n].nodes, k, t0) then 1 else 0
  {
    ShadowIsTrace(topo, tr, n, k, t0);
    ShadowHistory(topo, tr, n, k, t0);
    ShadowIsFull(topo, tr, n, k, t0);
    SurvivorsSurvive(topo, tr, n, k);
    QuietHasNoCopies(tr.nets[n].flight, k);
    Flood.Coverage(GraphOf(topo, k), Shadow(topo, tr, n, k, t0), n, Survivors(topo, tr, n, k), v);
    RingAtMostOnce(topo, tr, n, k, t0, v);
  }

  /**
   * For every data key, unicast across QuadBoxes included, and at any moment: only
   * nodes joined to an injector by links that did not lose every copy hold the key.
   */
  lemma RingReach(topo: Topology, tr: Trace, n: nat, k: Key, t0: int, v: nat)
    requires CalmRun(topo, tr, n, k, t0) && v in Holders(tr.nets[n].nodes, k, t0)
    ensures Flood.Reachable(Survivors(topo, tr, n, k), Injectors(tr, n, k), v)
  {
    ShadowIsTrace(topo, tr, n, k, t0);
    ShadowHistory(topo, tr, n, k, t0);
    SurvivorsSurvive(topo, tr, n, k);
    Flood.SeenAreReachable(GraphOf(topo, k), Shadow(topo, tr, n, k, t0), n, n, Survivors(topo, tr, n, k));
  }

  /**
   * For every data key, at any moment and whatever is lost or duplicated: no node has
   * accepted it twice, and every holder that did not inject it accepted it once.
   */
  lemma RingAtMostOnce(topo: Topology, tr: Trace, n: nat, k: Key, t0: int, v: nat)
    requires CalmRun(topo, tr, n, k, t0)
    ensures Acceptances(tr, n, k, v) <= 1
    ensures v !in Holders(tr.nets[n].nodes, k, t0) ==> Acceptances(tr, n, k, v) == 0
    ensures v in Holders(tr.nets[n].nodes, k, t0) && v !in Injectors(tr, n, k) ==> Acceptances(tr, n, k, v) == 1
  {
    ShadowIsTrace(topo, tr, n, k, t0);
    ShadowHistory(topo, tr, n, k, t0);
    ShadowJoins(topo, tr, n, k, v, t0);
    Flood.JoinsOnce(GraphOf(topo, k), Shadow(topo, tr, n, k, t0), v, n);
  }

  // ---------------------------------------------------------------- no storms

  /** Copies in flight plus two for every node that does not hold the key. */
  function Energy(topo: Topology, net: Net, k: Key, t0: int): nat {
    |Copies(net.flight, k)| + 2 * |Flood.Nodes(|topo.cfgs|) - Holders(net.nodes, k, t0)|
  }

  /**
   * Loop freedom, for every data key: every arrival of a copy strictly lowers the
   * energy, and only an injection or a duplicating link can raise it.
   */
  lemma LoopFreedom(topo: Topology, tr: Trace, n: nat, i: nat, k: Key, t0: int)
    requires CalmRun(topo, tr, n, k, t0) && i < n
    ensures ArrivesAt(tr, i, k) ==> Energy(topo, tr.nets[i + 1], k, t0) < Energy(topo, tr.nets[i], k, t0)
    ensures !InjectsAt(tr, i, k) && !DuplicatesAt(tr, i, k) ==>
              Energy(topo, tr.nets[i + 1], k, t0) <= Energy(topo, tr.nets[i], k, t0)
  {
    GraphIsGraph(topo, k);
    StepRefines(topo, tr, n, i, k, t0);
    assert CalmAt(topo, tr, i, k, t0);
    ShadowMirrors(topo, tr, i, k);
    Flood.ArrivalLowersEnergy(GraphOf(topo, k), View(tr.nets[i], k, t0), ActAt(topo, tr, i, k), View(tr.nets[i + 1], k, t0));
  }

  /** No storm, for every data key: so many arrivals, however the steps interleave, and then the key is at rest. */
  lemma NoStorm(topo: Topology, tr: Trace, n: nat, k: Key, t0: int)
    requires CalmRun(topo, tr, n, k, t0)
    ensures Arrivals(tr, n, k) + Energy(topo, tr.nets[n], k, t0)
            <= 2 * |topo.cfgs| + 3 * Injections(tr, n, k) + Duplications(tr, n, k)
  {
    ShadowIsTrace(topo, tr, n, k, t0);
    ShadowHistory(topo, tr, n, k, t0);
    Flood.ArrivalsAreBounded(GraphOf(topo, k), Shadow(topo, tr, n, k, t0), n);
  }

  // ---------------------------------------------------------------- transmissions

  /** The HSR ports written with a frame of `k` in step `i`. */
  function PortsWritten(topo: Topology, tr: Trace, i: nat, k: Key): set<Port>
    requires tr.Shaped() && i < |tr.acts|
  {
    var net, a := tr.nets[i], tr.acts[i];
    if !Enabled(topo, net, a) || a.Passive() then {}
    else set p | p in topo.cfgs[Actor(topo, net, a)].HsrPorts() && Spoken(tr.outs[i].out, p, k)
  }

  function Transmissions(topo: Topology, tr: Trace, n: nat, k: Key): nat
    requires tr.Shaped() && n <= |tr.acts|
  {
    if n == 0 then 0 else Transmissions(topo, tr, n - 1, k) + |PortsWritten(topo, tr, n - 1, k)|
  }

  lemma PortsOfStep(topo: Topology, tr: Trace, i: nat, k: Key)
    requires tr.Shaped() && i < |tr.acts| && Enabled(topo, tr.nets[i], tr.acts[i])
    ensures PortsWritten(topo, tr, i, k)
            == if tr.acts[i].Passive() then {}
               else topo.cfgs[Actor(topo, tr.nets[i], tr.acts[i])].HsrPorts()
                    - Skip(topo, tr.nets[i], tr.acts[i], tr.outs[i], k)
  {
  }

  lemma SizeOfWrites(g: Flood.Graph, sh: Flood.Trace, i: nat, v: nat, skip: set<Port>)
    requires i < |sh.acts| < |sh.ss| && v < |g.ports|
    requires sh.acts[i].Launch? ==> sh.acts[i] == Flood.Launch(v, skip)
    requires sh.acts[i].Arrive? ==> sh.acts[i].at.node == v && sh.acts[i].skip == skip
    requires !sh.acts[i].Launch? && !Flood.Joins(g, sh.ss[i], sh.acts[i]) ==> skip == g.ports[v]
    ensures |g.ports[v] - skip| == Flood.Writes(g, sh, i)
  {
    assert skip == g.ports[v] ==> g.ports[v] - skip == {};
  }

  lemma WritesOfStep(topo: Topology, tr: Trace, n: nat, i: nat, k: Key, t0: int)
    requires CalmRun(topo, tr, n, k, t0) && i < n
    ensures |PortsWritten(topo, tr, i, k)| == Flood.Writes(GraphOf(topo, k), Shadow(topo, tr, n, k, t0), i)
  {
    var g, sh, net, a, o := GraphOf(topo, k), Shadow(topo, tr, n, k, t0), tr.nets[i], tr.acts[i], tr.outs[i];
    assert CalmAt(topo, tr, i, k, t0);
    PortsOfStep(topo, tr, i, k);
    StepRefines(topo, tr, n, i, k, t0);
    if !a.Passive() {
      GraphIsGraph(topo, k);
      Labels(topo, tr, i);
      StepFlow(topo, tr, i);
      StepSkips(topo, net, a, o, k);
      SizeOfWrites(g, sh, i, Actor(topo, net, a), Skip(topo, net, a, o, k));
    }
  }

  ghost predicate SameAt(g: Flood.Graph, sh: Flood.Trace, topo: Topology, tr: Trace, i: nat, k: Key)
    requires tr.Shaped() && i < |tr.acts| && i < |sh.acts| < |sh.ss|
  {
    |PortsWritten(topo, tr, i, k)| == Flood.Writes(g, sh, i)
  }

  lemma {:induction false} SameWrites(g: Flood.Graph, sh: Flood.Trace, topo: Topology, tr: Trace, m: nat, k: Key)
    requires tr.Shaped() && m <= |tr.acts| && m <= |sh.acts| < |sh.ss|
    requires forall i :: 0 <= i < m ==> SameAt(g, sh, topo, tr, i, k)
    ensures Transmissions(topo, tr, m, k) == Flood.TotalWrites(g, sh, m)
  {
    if m > 0 {
      SameWrites(g, sh, topo, tr, m - 1, k);
      assert SameAt(g, sh, topo, tr, m - 1, k);
    }
  }

  lemma ShadowWrites(topo: Topology, tr: Trace, n: nat, k: Key, t0: int)
    requires CalmRun(topo, tr, n, k, t0)
    ensures Transmissions(topo, tr, n, k) == Flood.TotalWrites(GraphOf(topo, k), Shadow(topo, tr, n, k, t0), n)
  {
    var g, sh := GraphOf(topo, k), Shadow(topo, tr, n, k, t0);
    forall i | 0 <= i < n ensures SameAt(g, sh, topo, tr, i, k) {
      WritesOfStep(topo, tr, n, i, k, t0);
    }
    SameWrites(g, sh, topo, tr, n, k);
  }

  /**
   * In a ring without QuadBoxes one injection causes at most one transmission for each
   * node that comes to hold the key and one more, so at most one per node plus one;
   * exactly so many if the frame fits the tag.
   */
  lemma RingTraffic(topo: Topology, tr: Trace, n: nat, k: Key, t0: int)
    requires CalmRun(topo, tr, n, k, t0) && topo.Plain() && Injections(tr, n, k) == 1
    ensures Transmissions(topo, tr, n, k) <= |Holders(tr.nets[n].nodes, k, t0)| + 1 <= |topo.cfgs| + 1
    ensures ProperRun(topo, tr, n, k) ==> Transmissions(topo, tr, n, k) == |Holders(tr.nets[n].nodes, k, t0)| + 1
  {
    var g, sh := GraphOf(topo, k), Shadow(topo, tr, n, k, t0);
    ShadowIsTrace(topo, tr, n, k, t0);
    ShadowHistory(topo, tr, n, k, t0);
    ShadowWrites(topo, tr, n, k, t0);
    if ProperRun(topo, tr, n, k) { ShadowIsFull(topo, tr, n, k, t0); }
    Flood.RingTransmissions(g, sh, n);
    Flood.SeenAreNodes(g, sh, n);
  }
}
