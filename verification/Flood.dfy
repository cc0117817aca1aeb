/**
 * Duplicate-suppressed flooding over point-to-point links: what the HSR ring
 * protocol amounts to for one (source, sequence number) key. Each direction of
 * each link is up or down on its own, links lose and duplicate copies, nodes in
 * `blocked` discard the key (it carries their own MAC address), and every
 * interleaving of steps is allowed. A node may keep a copy back from some ports
 * (`skip`); what needs it to use all of them assumes `Full`.
 */
module Flood {
  import opened Bytes
  import opened Role

  datatype Endpoint = Endpoint(node: nat, port: Port)

  datatype Graph = Graph(ports: seq<set<Port>>, wire: map<Endpoint, Endpoint>, blocked: set<nat>)
  {
    predicate Has(e: Endpoint) { e.node < |ports| && e.port in ports[e.node] }

    /** Links join ports that exist, and both directions of a link join the same two ports. */
    predicate Valid() {
      && (forall e :: e in wire ==> Has(e) && Has(wire[e]))
      && (forall e, f :: e in wire && f in wire && wire[e] == f ==> wire[f] == e)
    }
  }

  /** Nodes that have seen the key, and the ports at which copies are about to arrive. */
  datatype State = State(seen: set<nat>, flight: multiset<Endpoint>)

  datatype Act =
    | Idle
    | Arrive(at: Endpoint, skip: set<Port>)
    | Launch(node: nat, skip: set<Port>)
    | Drop(at: Endpoint)
    | Duplicate(at: Endpoint)

  function Toward(g: Graph, v: nat, p: Port, skip: set<Port>): multiset<Endpoint>
    requires v < |g.ports|
  {
    if p in g.ports[v] - skip && Endpoint(v, p) in g.wire then multiset{g.wire[Endpoint(v, p)]} else multiset{}
  }

  /** One copy over every working link of `v` except those on the skipped ports. */
  function Fanout(g: Graph, v: nat, skip: set<Port>): multiset<Endpoint>
    requires v < |g.ports|
  {
    Toward(g, v, LanA, skip) + Toward(g, v, LanB, skip) + Toward(g, v, Interlink, skip)
  }

  predicate Joins(g: Graph, s: State, a: Act) {
    a.Arrive? && a.at.node !in s.seen && a.at.node !in g.blocked
  }

  ghost predicate Next(g: Graph, s: State, a: Act, s': State) {
    match a
    case Idle => s' == s
    case Drop(e) => e in s.flight && s' == s.(flight := s.flight - multiset{e})
    case Duplicate(e) => e in s.flight && s' == s.(flight := s.flight + multiset{e})
    case Launch(v, skip) => v < |g.ports| && s' == State(s.seen + {v}, s.flight + Fanout(g, v, skip))
    case Arrive(e, skip) =>
      && e in s.flight && e.node < |g.ports| && e.port in skip
      && s' == if Joins(g, s, a) then State(s.seen + {e.node}, s.flight - multiset{e} + Fanout(g, e.node, skip))
               else s.(flight := s.flight - multiset{e})
  }

  datatype Trace = Trace(ss: seq<State>, acts: seq<Act>)

  ghost predicate IsTrace(g: Graph, tr: Trace) {
    && |tr.ss| == |tr.acts| + 1 && tr.ss[0] == State({}, multiset{})
    && forall i :: 0 <= i < |tr.acts| ==> NextAt(g, tr, i)
  }

  ghost predicate NextAt(g: Graph, tr: Trace, i: nat)
    requires i < |tr.acts| && |tr.ss| == |tr.acts| + 1
  {
    Next(g, tr.ss[i], tr.acts[i], tr.ss[i + 1])
  }

  // ---------------------------------------------------------------- reachability

  ghost predicate Hop(g: Graph, u: nat, v: nat) {
    v !in g.blocked && exists p :: Endpoint(u, p) in g.wire && g.wire[Endpoint(u, p)].node == v
  }

  ghost predicate Path(g: Graph, p: seq<nat>) {
    |p| > 0 && forall i :: 0 <= i < |p| - 1 ==> Hop(g, p[i], p[i + 1])
  }

  ghost predicate Reachable(g: Graph, from: set<nat>, v: nat) {
    exists p :: Path(g, p) && p[0] in from && p[|p| - 1] == v
  }

  lemma ReachStart(g: Graph, from: set<nat>, v: nat)
    requires v in from
    ensures Reachable(g, from, v)
  {
    assert Path(g, [v]) && [v][0] in from && [v][|[v]| - 1] == v;
  }

  lemma ReachStep(g: Graph, from: set<nat>, u: nat, v: nat)
    requires Reachable(g, from, u) && Hop(g, u, v)
    ensures Reachable(g, from, v)
  {
    var p :| Path(g, p) && p[0] in from && p[|p| - 1] == u;
    var q := p + [v];
    assert Path(g, q) && q[0] in from && q[|q| - 1] == v;
  }

  lemma ReachMore(g: Graph, from: set<nat>, more: set<nat>, v: nat)
    requires from <= more && Reachable(g, from, v)
    ensures Reachable(g, more, v)
  {
    var p :| Path(g, p) && p[0] in from && p[|p| - 1] == v;
  }

  // ---------------------------------------------------------------- invariants

  /** Only nodes that have seen the key send it. */
  ghost predicate SentBySeen(g: Graph, s: State) {
    forall e :: e in s.flight ==> exists u :: u in g.wire && g.wire[u] == e && u.node in s.seen
  }

  /** Across every link a copy has been taken, refused for good, is on its way or was lost. */
  ghost predicate Spreads(g: Graph, s: State, lost: set<Endpoint>) {
    forall u :: u in g.wire && u.node in s.seen ==> Covered(g, s, lost, g.wire[u])
  }

  predicate Covered(g: Graph, s: State, lost: set<Endpoint>, e: Endpoint) {
    e.node in s.seen || e.node in g.blocked || e in s.flight || e in lost
  }

  /** The nodes that launched the key in the first `n` steps. */
  function Launched(tr: Trace, n: nat): set<nat>
    requires n <= |tr.acts|
  {
    if n == 0 then {}
    else Launched(tr, n - 1) + (if tr.acts[n - 1].Launch? then {tr.acts[n - 1].node} else {})
  }

  lemma ToFanout(g: Graph, u: Endpoint, skip: set<Port>)
    requires g.Valid() && u in g.wire && u.port !in skip
    ensures g.wire[u] in Fanout(g, u.node, skip)
  {
    assert g.Has(u) && Endpoint(u.node, u.port) == u;
    assert g.wire[u] in Toward(g, u.node, u.port, skip);
    match u.port
    case LanA => assert Toward(g, u.node, LanA, skip) <= Fanout(g, u.node, skip);
    case LanB => assert Toward(g, u.node, LanB, skip) <= Fanout(g, u.node, skip);
    case Interlink => assert Toward(g, u.node, Interlink, skip) <= Fanout(g, u.node, skip);
  }

  lemma FromFanout(g: Graph, v: nat, skip: set<Port>, e: Endpoint)
    requires v < |g.ports| && e in Fanout(g, v, skip)
    ensures exists u :: u in g.wire && u.node == v && u.port !in skip && g.wire[u] == e
  {
    if e in Toward(g, v, LanA, skip) {
      FromToward(g, v, LanA, skip, e);
    } else if e in Toward(g, v, LanB, skip) {
      FromToward(g, v, LanB, skip, e);
    } else {
      FromToward(g, v, Interlink, skip, e);
    }
  }

  lemma FromToward(g: Graph, v: nat, p: Port, skip: set<Port>, e: Endpoint)
    requires v < |g.ports| && e in Toward(g, v, p, skip)
    ensures Endpoint(v, p) in g.wire && p !in skip && g.wire[Endpoint(v, p)] == e
  {
  }

  lemma SentBySeenStep(g: Graph, s: State, a: Act, s': State)
    requires g.Valid() && SentBySeen(g, s) && Next(g, s, a, s')
    ensures SentBySeen(g, s')
  {
    forall e | e in s'.flight ensures exists u :: u in g.wire && g.wire[u] == e && u.node in s'.seen {
      if e !in s.flight {
        if a.Launch? {
          FromFanout(g, a.node, a.skip, e);
        } else {
          FromFanout(g, a.at.node, a.skip, e);
        }
      }
    }
  }

  /** The step uses every port it may: all, or all but the one the copy came from. */
  predicate UsesAll(g: Graph, s: State, a: Act) {
    && (a.Launch? ==> a.skip == {})
    && (Joins(g, s, a) ==> a.skip == {a.at.port})
  }

  /** The link `u` after a step that added its near end to the seen nodes. */
  lemma NewlySeenSpreads(g: Graph, s: State, a: Act, s': State, u: Endpoint)
    requires g.Valid() && SentBySeen(g, s) && Next(g, s, a, s') && UsesAll(g, s, a) && u in g.wire
    requires (a.Launch? && u.node == a.node) || (Joins(g, s, a) && u.node == a.at.node)
    ensures g.wire[u].node in s'.seen || g.wire[u] in s'.flight
  {
    if a.Launch? {
      ToFanout(g, u, {});
    } else if u.port == a.at.port {
      var w :| w in g.wire && g.wire[w] == a.at && w.node in s.seen;
      assert u == a.at;
    } else {
      ToFanout(g, u, {a.at.port});
    }
  }

  /** A link stays covered; a lost copy is remembered in `lost`. */
  lemma StaysCovered(g: Graph, s: State, a: Act, s': State, lost: set<Endpoint>, lost': set<Endpoint>, e: Endpoint)
    requires Next(g, s, a, s') && Covered(g, s, lost, e)
    requires lost' == lost + if a.Drop? then {a.at} else {}
    ensures Covered(g, s', lost', e)
  {
  }

  lemma SpreadsStep(g: Graph, s: State, a: Act, s': State, lost: set<Endpoint>, lost': set<Endpoint>)
    requires g.Valid() && SentBySeen(g, s) && Spreads(g, s, lost) && Next(g, s, a, s') && UsesAll(g, s, a)
    requires lost' == lost + if a.Drop? then {a.at} else {}
    ensures Spreads(g, s', lost')
  {
    SeenGrows(g, s, a, s');
    forall u | u in g.wire && u.node in s'.seen ensures Covered(g, s', lost', g.wire[u]) {
      if u.node in s.seen {
        StaysCovered(g, s, a, s', lost, lost', g.wire[u]);
      } else {
        NewlySeenSpreads(g, s, a, s', u);
      }
    }
  }

  // ---------------------------------------------------------------- links that failed

  /** Ports on whose link a copy was lost, and ports at which one arrived, in the first `n` steps. */
  function Lost(tr: Trace, n: nat): set<Endpoint>
    requires n <= |tr.acts|
  {
    if n == 0 then {} else Lost(tr, n - 1) + if tr.acts[n - 1].Drop? then {tr.acts[n - 1].at} else {}
  }

  function Reached(tr: Trace, n: nat): set<Endpoint>
    requires n <= |tr.acts|
  {
    if n == 0 then {} else Reached(tr, n - 1) + if tr.acts[n - 1].Arrive? then {tr.acts[n - 1].at} else {}
  }

  /** `gs` is `g` without the links that lost a copy and never delivered one. */
  ghost predicate Surviving(g: Graph, lost: set<Endpoint>, reached: set<Endpoint>, gs: Graph) {
    && gs.ports == g.ports && gs.blocked == g.blocked
    && (forall u :: u in gs.wire <==> u in g.wire && (g.wire[u] !in lost || g.wire[u] in reached))
    && (forall u :: u in gs.wire ==> gs.wire[u] == g.wire[u])
  }

  lemma {:induction false} ReachedGrows(tr: Trace, m: nat, n: nat)
    requires m <= n <= |tr.acts|
    ensures Reached(tr, m) <= Reached(tr, n) && Launched(tr, m) <= Launched(tr, n)
  {
    if m < n { ReachedGrows(tr, m, n - 1); }
  }

  lemma {:induction false} SendersHaveSeen(g: Graph, tr: Trace, n: nat)
    requires g.Valid() && IsTrace(g, tr) && n <= |tr.acts|
    ensures SentBySeen(g, tr.ss[n])
  {
    if n > 0 {
      SendersHaveSeen(g, tr, n - 1);
      assert NextAt(g, tr, n - 1);
      SentBySeenStep(g, tr.ss[n - 1], tr.acts[n - 1], tr.ss[n]);
    }
  }

  /** A node that takes the key is one hop, over a link that delivered, from one that had it. */
  lemma JoinIsHop(g: Graph, s: State, a: Act, gs: Graph, lost: set<Endpoint>, reached: set<Endpoint>) returns (u: Endpoint)
    requires SentBySeen(g, s) && Joins(g, s, a) && a.at in s.flight
    requires Surviving(g, lost, reached, gs) && a.at in reached
    ensures u.node in s.seen && Hop(gs, u.node, a.at.node)
  {
    u :| u in g.wire && g.wire[u] == a.at && u.node in s.seen;
    assert Endpoint(u.node, u.port) in gs.wire;
  }

  ghost predicate AllReachable(g: Graph, gs: Graph, from: set<nat>, seen: set<nat>) {
    forall v :: v in seen ==> v < |g.ports| && Reachable(gs, from, v)
  }

  lemma ReachableStep(g: Graph, s: State, a: Act, s': State, gs: Graph, from: set<nat>,
                      lost: set<Endpoint>, reached: set<Endpoint>)
    requires SentBySeen(g, s) && Next(g, s, a, s') && Surviving(g, lost, reached, gs)
    requires AllReachable(g, gs, from, s.seen)
    requires (a.Launch? ==> a.node in from) && (a.Arrive? ==> a.at in reached)
    ensures AllReachable(g, gs, from, s'.seen)
  {
    SeenGrows(g, s, a, s');
    if a.Launch? {
      ReachStart(gs, from, a.node);
    } else if Joins(g, s, a) {
      var u := JoinIsHop(g, s, a, gs, lost, reached);
      ReachStep(gs, from, u.node, a.at.node);
    }
  }

  lemma ReachableAt(g: Graph, tr: Trace, i: nat, n: nat, gs: Graph)
    requires g.Valid() && IsTrace(g, tr) && i < n <= |tr.acts| && Surviving(g, Lost(tr, n), Reached(tr, n), gs)
    requires AllReachable(g, gs, Launched(tr, n), tr.ss[i].seen)
    ensures AllReachable(g, gs, Launched(tr, n), tr.ss[i + 1].seen)
  {
    SendersHaveSeen(g, tr, i);
    ReachedGrows(tr, i + 1, n);
    assert NextAt(g, tr, i);
    ReachableStep(g, tr.ss[i], tr.acts[i], tr.ss[i + 1], gs, Launched(tr, n), Lost(tr, n), Reached(tr, n));
  }

  /** Whatever is lost, duplicated or kept back, the key gets only to nodes reachable over surviving links. */
  lemma {:induction false} SeenAreReachable(g: Graph, tr: Trace, m: nat, n: nat, gs: Graph)
    requires g.Valid() && IsTrace(g, tr) && m <= n <= |tr.acts| && Surviving(g, Lost(tr, n), Reached(tr, n), gs)
    ensures AllReachable(g, gs, Launched(tr, n), tr.ss[m].seen)
  {
    if m > 0 {
      SeenAreReachable(g, tr, m - 1, n, gs);
      ReachableAt(g, tr, m - 1, n, gs);
    }
  }

  lemma {:induction false} LaunchedAreSeen(g: Graph, tr: Trace, n: nat)
    requires IsTrace(g, tr) && n <= |tr.acts|
    ensures Launched(tr, n) <= tr.ss[n].seen
  {
    if n > 0 {
      LaunchedAreSeen(g, tr, n - 1);
      assert NextAt(g, tr, n - 1);
      SeenGrows(g, tr.ss[n - 1], tr.acts[n - 1], tr.ss[n]);
    }
  }

  /** What a step adds to the seen nodes. */
  lemma SeenGrows(g: Graph, s: State, a: Act, s': State)
    requires Next(g, s, a, s')
    ensures s'.seen == s.seen + (if a.Launch? then {a.node} else if Joins(g, s, a) then {a.at.node} else {})
  {
  }

  ghost predicate Full(g: Graph, tr: Trace, n: nat)
    requires n <= |tr.acts| < |tr.ss|
  {
    forall i :: 0 <= i < n ==> UsesAll(g, tr.ss[i], tr.acts[i])
  }

  lemma SpreadsAt(g: Graph, tr: Trace, i: nat, n: nat)
    requires g.Valid() && IsTrace(g, tr) && i < n <= |tr.acts| && Full(g, tr, n)
    requires Spreads(g, tr.ss[i], Lost(tr, i))
    ensures Spreads(g, tr.ss[i + 1], Lost(tr, i + 1))
  {
    SendersHaveSeen(g, tr, i);
    assert NextAt(g, tr, i);
    assert UsesAll(g, tr.ss[i], tr.acts[i]);
    SpreadsStep(g, tr.ss[i], tr.acts[i], tr.ss[i + 1], Lost(tr, i), Lost(tr, i + 1));
  }

  lemma {:induction false} FullSpreads(g: Graph, tr: Trace, i: nat, n: nat)
    requires g.Valid() && IsTrace(g, tr) && i <= n <= |tr.acts| && Full(g, tr, n)
    ensures Spreads(g, tr.ss[i], Lost(tr, i))
  {
    if i > 0 {
      FullSpreads(g, tr, i - 1, n);
      SpreadsAt(g, tr, i - 1, n);
    }
  }

  /** Where a copy arrived, the node has seen the key or refuses it. */
  lemma {:induction false} ReachedHaveSeen(g: Graph, tr: Trace, n: nat)
    requires IsTrace(g, tr) && n <= |tr.acts|
    ensures forall e :: e in Reached(tr, n) ==> e.node in tr.ss[n].seen || e.node in g.blocked
  {
    if n > 0 {
      ReachedHaveSeen(g, tr, n - 1);
      assert NextAt(g, tr, n - 1);
      SeenGrows(g, tr.ss[n - 1], tr.acts[n - 1], tr.ss[n]);
    }
  }

  /** The seen nodes are closed under hops over `gs`. */
  ghost predicate Closed(gs: Graph, seen: set<nat>) {
    forall u :: u in gs.wire && u.node in seen ==> gs.wire[u].node in seen || gs.wire[u].node in gs.blocked
  }

  lemma RestIsClosed(g: Graph, tr: Trace, n: nat, gs: Graph)
    requires g.Valid() && IsTrace(g, tr) && n <= |tr.acts| && Full(g, tr, n) && tr.ss[n].flight == multiset{}
    requires Surviving(g, Lost(tr, n), Reached(tr, n), gs)
    ensures Closed(gs, tr.ss[n].seen)
  {
    FullSpreads(g, tr, n, n);
    ReachedHaveSeen(g, tr, n);
  }

  lemma {:induction false} PathIsSeen(gs: Graph, seen: set<nat>, p: seq<nat>)
    requires Closed(gs, seen) && Path(gs, p) && p[0] in seen
    ensures p[|p| - 1] in seen
    decreases |p|
  {
    if |p| > 1 {
      var q := p[..|p| - 1];
      forall i | 0 <= i < |q| - 1 ensures Hop(gs, q[i], q[i + 1]) {
        assert Hop(gs, p[i], p[i + 1]);
      }
      PathIsSeen(gs, seen, q);
      assert Hop(gs, p[|p| - 2], p[|p| - 2 + 1]);
      var port :| Endpoint(p[|p| - 2], port) in gs.wire && gs.wire[Endpoint(p[|p| - 2], port)].node == p[|p| - 1];
    }
  }

  /**
   * Coverage: at rest, the nodes that have seen the key are exactly those reachable
   * from a launcher over the links that did not lose every copy they carried.
   */
  lemma Coverage(g: Graph, tr: Trace, n: nat, gs: Graph, v: nat)
    requires g.Valid() && IsTrace(g, tr) && n <= |tr.acts| && Full(g, tr, n) && tr.ss[n].flight == multiset{}
    requires Surviving(g, Lost(tr, n), Reached(tr, n), gs)
    ensures v in tr.ss[n].seen <==> Reachable(gs, Launched(tr, n), v)
  {
    SeenAreReachable(g, tr, n, n, gs);
    RestIsClosed(g, tr, n, gs);
    LaunchedAreSeen(g, tr, n);
    if Reachable(gs, Launched(tr, n), v) {
      var p :| Path(gs, p) && p[0] in Launched(tr, n) && p[|p| - 1] == v;
      PathIsSeen(gs, tr.ss[n].seen, p);
    }
  }

  // ---------------------------------------------------------------- exactly once

  /** How often `v` took the key from a link in the first `n` steps. */
  function JoinCount(g: Graph, tr: Trace, v: nat, n: nat): nat
    requires n <= |tr.acts| < |tr.ss|
  {
    if n == 0 then 0
    else JoinCount(g, tr, v, n - 1)
         + if Joins(g, tr.ss[n - 1], tr.acts[n - 1]) && tr.acts[n - 1].at.node == v then 1 else 0
  }

  /** A node takes the key at most once, and every node that has seen it took or launched it. */
  lemma {:induction false} JoinsOnce(g: Graph, tr: Trace, v: nat, n: nat)
    requires IsTrace(g, tr) && n <= |tr.acts|
    ensures JoinCount(g, tr, v, n) <= 1
    ensures v !in tr.ss[n].seen ==> JoinCount(g, tr, v, n) == 0
    ensures v in tr.ss[n].seen && v !in Launched(tr, n) ==> JoinCount(g, tr, v, n) == 1
  {
    if n > 0 {
      JoinsOnce(g, tr, v, n - 1);
      assert NextAt(g, tr, n - 1);
      SeenGrows(g, tr.ss[n - 1], tr.acts[n - 1], tr.ss[n]);
    }
  }

  // ---------------------------------------------------------------- loop freedom

  function Nodes(n: nat): (s: set<nat>)
    ensures |s| == n && forall v: nat :: v in s <==> v < n
  {
    if n == 0 then {} else Nodes(n - 1) + {n - 1}
  }

  function Unseen(g: Graph, s: State): set<nat> {
    Nodes(|g.ports|) - s.seen
  }

  /** Copies in flight plus two for every node that has not seen the key. */
  function Energy(g: Graph, s: State): nat {
    |s.flight| + 2 * |Unseen(g, s)|
  }

  lemma FanoutSize(g: Graph, v: nat, skip: set<Port>)
    requires v < |g.ports|
    ensures |Fanout(g, v, skip)| <= 3
    ensures skip != {} ==> |Fanout(g, v, skip)| <= 2
    ensures Interlink !in g.ports[v] ==> |Fanout(g, v, skip)| <= 2
  {
    assert LanA in skip ==> Toward(g, v, LanA, skip) == multiset{};
    assert LanB in skip ==> Toward(g, v, LanB, skip) == multiset{};
    assert Interlink in skip ==> Toward(g, v, Interlink, skip) == multiset{};
    if skip != {} {
      var p :| p in skip;
      assert p == LanA || p == LanB || p == Interlink;
    }
  }

  lemma SeenMore(g: Graph, s: State, v: nat)
    requires v < |g.ports| && v !in s.seen
    ensures |Unseen(g, State(s.seen + {v}, s.flight))| == |Unseen(g, s)| - 1
  {
    assert Unseen(g, State(s.seen + {v}, s.flight)) == Unseen(g, s) - {v};
  }

  lemma JoinEnergy(g: Graph, s: State, a: Act, s': State)
    requires Next(g, s, a, s') && Joins(g, s, a)
    ensures Energy(g, s') < Energy(g, s)
  {
    FanoutSize(g, a.at.node, a.skip);
    SeenMore(g, s, a.at.node);
    assert |s.flight - multiset{a.at}| == |s.flight| - 1;
    assert Unseen(g, s') == Unseen(g, State(s.seen + {a.at.node}, s.flight));
  }

  lemma LaunchEnergy(g: Graph, s: State, a: Act, s': State)
    requires Next(g, s, a, s') && a.Launch?
    ensures Energy(g, s') <= Energy(g, s) + 3
    ensures a.node !in s.seen ==> Energy(g, s') <= Energy(g, s) + 1
    ensures a.node !in s.seen && Interlink !in g.ports[a.node] ==> Energy(g, s') <= Energy(g, s)
  {
    FanoutSize(g, a.node, a.skip);
    assert Unseen(g, s') == Unseen(g, State(s.seen + {a.node}, s.flight));
    if a.node !in s.seen {
      SeenMore(g, s, a.node);
    } else {
      assert s.seen + {a.node} == s.seen;
    }
  }

  lemma LinkEnergy(g: Graph, s: State, a: Act, s': State)
    requires Next(g, s, a, s') && !a.Launch? && !Joins(g, s, a)
    ensures a.Arrive? || a.Drop? ==> Energy(g, s') == Energy(g, s) - 1
    ensures a.Duplicate? ==> Energy(g, s') == Energy(g, s) + 1
    ensures a.Idle? ==> Energy(g, s') == Energy(g, s)
  {
    if a.Arrive? || a.Drop? { assert |s.flight - multiset{a.at}| == |s.flight| - 1; }
    assert Unseen(g, s') == Unseen(g, s);
  }

  /** Every arrival strictly lowers the energy; a launch raises it by at most three and a duplication by one. */
  lemma ArrivalLowersEnergy(g: Graph, s: State, a: Act, s': State)
    requires Next(g, s, a, s')
    ensures a.Arrive? || a.Drop? ==> Energy(g, s') < Energy(g, s)
    ensures a.Idle? ==> Energy(g, s') == Energy(g, s)
    ensures a.Duplicate? ==> Energy(g, s') == Energy(g, s) + 1
    ensures a.Launch? ==> Energy(g, s') <= Energy(g, s) + 3
    ensures a.Launch? && a.node !in s.seen ==> Energy(g, s') <= Energy(g, s) + 1
    ensures a.Launch? && a.node !in s.seen && Interlink !in g.ports[a.node] ==> Energy(g, s') <= Energy(g, s)
  {
    if a.Launch? {
      LaunchEnergy(g, s, a, s');
    } else if Joins(g, s, a) {
      JoinEnergy(g, s, a, s');
    } else {
      LinkEnergy(g, s, a, s');
    }
  }

  function CountArrivals(tr: Trace, n: nat): nat
    requires n <= |tr.acts|
  {
    if n == 0 then 0 else CountArrivals(tr, n - 1) + if tr.acts[n - 1].Arrive? then 1 else 0
  }

  function CountLaunches(tr: Trace, n: nat): nat
    requires n <= |tr.acts|
  {
    if n == 0 then 0 else CountLaunches(tr, n - 1) + if tr.acts[n - 1].Launch? then 1 else 0
  }

  function CountDuplicates(tr: Trace, n: nat): nat
    requires n <= |tr.acts|
  {
    if n == 0 then 0 else CountDuplicates(tr, n - 1) + if tr.acts[n - 1].Duplicate? then 1 else 0
  }

  /** No storms: arrivals are bounded by the size of the network, the launches and what the links duplicate. */
  lemma {:induction false} ArrivalsAreBounded(g: Graph, tr: Trace, n: nat)
    requires g.Valid() && IsTrace(g, tr) && n <= |tr.acts|
    ensures CountArrivals(tr, n) + Energy(g, tr.ss[n]) <= 2 * |g.ports| + 3 * CountLaunches(tr, n) + CountDuplicates(tr, n)
  {
    if n == 0 {
      assert Unseen(g, tr.ss[0]) == Nodes(|g.ports|);
    } else {
      ArrivalsAreBounded(g, tr, n - 1);
      assert NextAt(g, tr, n - 1);
      ArrivalLowersEnergy(g, tr.ss[n - 1], tr.acts[n - 1], tr.ss[n]);
    }
  }

  // ---------------------------------------------------------------- ring transmissions

  /** Ports written in step `i`, whether or not a working link is attached to them. */
  function Writes(g: Graph, tr: Trace, i: nat): nat
    requires i < |tr.acts| < |tr.ss|
  {
    match tr.acts[i]
    case Launch(v, skip) => if v < |g.ports| then |g.ports[v] - skip| else 0
    case Arrive(e, skip) => if Joins(g, tr.ss[i], tr.acts[i]) && e.node < |g.ports| then |g.ports[e.node] - skip| else 0
    case _ => 0
  }

  function TotalWrites(g: Graph, tr: Trace, n: nat): nat
    requires n <= |tr.acts| < |tr.ss|
  {
    if n == 0 then 0 else TotalWrites(g, tr, n - 1) + Writes(g, tr, n - 1)
  }

  ghost predicate PlainRing(g: Graph) {
    forall v :: 0 <= v < |g.ports| ==> g.ports[v] == {LanA, LanB}
  }

  lemma LaunchWrites(g: Graph, tr: Trace, i: nat)
    requires IsTrace(g, tr) && i < |tr.acts| && PlainRing(g) && tr.acts[i].Launch?
    ensures Writes(g, tr, i) <= 2 && (tr.acts[i].skip == {} ==> Writes(g, tr, i) == 2)
  {
    assert NextAt(g, tr, i);
    var ports := {LanA, LanB};
    assert g.ports[tr.acts[i].node] == ports;
    assert tr.acts[i].skip == {} ==> ports - tr.acts[i].skip == ports;
    SubsetSize(ports - tr.acts[i].skip, ports);
  }

  lemma JoinWrites(g: Graph, tr: Trace, i: nat)
    requires g.Valid() && IsTrace(g, tr) && i < |tr.acts| && PlainRing(g) && SentBySeen(g, tr.ss[i])
    requires Joins(g, tr.ss[i], tr.acts[i])
    ensures Writes(g, tr, i) <= 1 && (UsesAll(g, tr.ss[i], tr.acts[i]) ==> Writes(g, tr, i) == 1)
  {
    assert NextAt(g, tr, i);
    var e, skip := tr.acts[i].at, tr.acts[i].skip;
    var w :| w in g.wire && g.wire[w] == e && w.node in tr.ss[i].seen;
    assert g.Has(e);
    var other := {OtherRingPort(e.port)};
    assert g.ports[e.node] - {e.port} == other;
    SubsetSize(g.ports[e.node] - skip, other);
  }

  lemma {:induction false} QuietBeforeLaunch(g: Graph, tr: Trace, n: nat)
    requires g.Valid() && IsTrace(g, tr) && n <= |tr.acts| && CountLaunches(tr, n) == 0
    ensures tr.ss[n] == State({}, multiset{})
  {
    if n > 0 {
      QuietBeforeLaunch(g, tr, n - 1);
      assert NextAt(g, tr, n - 1);
    }
  }

  /** The transmissions of a step against the nodes it adds. */
  lemma StepWrites(g: Graph, tr: Trace, i: nat)
    requires g.Valid() && IsTrace(g, tr) && i < |tr.acts| && PlainRing(g) && CountLaunches(tr, i + 1) <= 1
    ensures var more := |tr.ss[i + 1].seen| - |tr.ss[i].seen| + if tr.acts[i].Launch? then 1 else 0;
            Writes(g, tr, i) <= more && (UsesAll(g, tr.ss[i], tr.acts[i]) ==> Writes(g, tr, i) == more)
  {
    assert NextAt(g, tr, i);
    var s, a := tr.ss[i], tr.acts[i];
    SeenGrows(g, s, a, tr.ss[i + 1]);
    if a.Launch? {
      QuietBeforeLaunch(g, tr, i);
      LaunchWrites(g, tr, i);
      assert tr.ss[i + 1].seen == {a.node};
    } else if Joins(g, s, a) {
      SendersHaveSeen(g, tr, i);
      JoinWrites(g, tr, i);
    }
  }

  /**
   * In a ring of two-port nodes one launch causes at most one transmission per node
   * that sees the key, plus one; exactly so many if no port is kept back.
   */
  lemma {:induction false} RingTransmissions(g: Graph, tr: Trace, n: nat)
    requires g.Valid() && IsTrace(g, tr) && n <= |tr.acts| && PlainRing(g) && CountLaunches(tr, n) <= 1
    ensures TotalWrites(g, tr, n) <= |tr.ss[n].seen| + CountLaunches(tr, n)
    ensures Full(g, tr, n) ==> TotalWrites(g, tr, n) == |tr.ss[n].seen| + CountLaunches(tr, n)
  {
    if n > 0 {
      RingTransmissions(g, tr, n - 1);
      StepWrites(g, tr, n - 1);
    }
  }

  /** Only nodes of the graph see the key. */
  lemma {:induction false} SeenAreNodes(g: Graph, tr: Trace, n: nat)
    requires IsTrace(g, tr) && n <= |tr.acts|
    ensures tr.ss[n].seen <= Nodes(|g.ports|) && |tr.ss[n].seen| <= |g.ports|
  {
    if n > 0 {
      SeenAreNodes(g, tr, n - 1);
      assert NextAt(g, tr, n - 1);
      SeenGrows(g, tr.ss[n - 1], tr.acts[n - 1], tr.ss[n]);
    }
    SubsetSize(tr.ss[n].seen, Nodes(|g.ports|));
  }
}
