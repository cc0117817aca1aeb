/**
 * For one (source, sequence number) key, a network of HSR nodes refines
 * duplicate-suppressed flooding: the nodes that hold the key are the ones that have
 * seen it, and the copies in flight are those tagged with it. The refinement holds
 * while no entry of the key expires, is evicted or is flushed.
 */
module RingFlood {
  import opened Bytes
  import opened Role
  import opened NodeTable
  import opened NodeSpec
  import opened NodeRun
  import opened KeyFlow
  import opened Network
  import Engine
  import Flood

  // ---------------------------------------------------------------- abstraction

  function CopyOf(p: Packet, k: Key): multiset<Endpoint> {
    if IsCopy(p, k) then multiset{p.at} else multiset{}
  }

  /** Where the copies of `k` are about to arrive. */
  function Copies(flight: seq<Packet>, k: Key): multiset<Endpoint> {
    if flight == [] then multiset{} else CopyOf(flight[0], k) + Copies(flight[1..], k)
  }

  /** The nodes whose duplicate table has an entry for `k` that had not expired at `t0`. */
  function Holders(nodes: seq<State>, k: Key, t0: int): set<nat> {
    set v: nat | v < |nodes| && Found(nodes[v].dup, k, t0)
  }

  function View(net: Net, k: Key, t0: int): Flood.State {
    Flood.State(Holders(net.nodes, k, t0), Copies(net.flight, k))
  }

  function GraphOf(topo: Topology, k: Key): Flood.Graph {
    Flood.Graph(seq(|topo.cfgs|, i requires 0 <= i < |topo.cfgs| => topo.cfgs[i].HsrPorts()), topo.wire,
                set v: nat | v < |topo.cfgs| && topo.cfgs[v].mac == k.src)
  }

  ghost predicate IsGraph(topo: Topology, k: Key, g: Flood.Graph) {
    && |g.ports| == |topo.cfgs| && g.wire == topo.wire
    && (forall v :: 0 <= v < |topo.cfgs| ==> g.ports[v] == topo.cfgs[v].HsrPorts())
    && (forall v: nat :: v in g.blocked <==> v < |topo.cfgs| && topo.cfgs[v].mac == k.src)
  }

  lemma GraphIsGraph(topo: Topology, k: Key)
    ensures IsGraph(topo, k, GraphOf(topo, k))
    ensures topo.Valid() ==> GraphOf(topo, k).Valid()
  {
  }

  predicate Spoken(out: map<Port, Frame>, p: Port, k: Key) {
    p in out && TagOf(out[p]).Some? && TagOf(out[p]).value.key == k
  }

  /** The HSR ports that are not written with a frame of `k`. */
  function Silent(cfg: Config, out: map<Port, Frame>, k: Key): set<Port> {
    set p | p in cfg.HsrPorts() && !Spoken(out, p, k)
  }

  /** The ports on which the step does not send `k`. */
  function Skip(topo: Topology, net: Net, a: Action, o: Outcome, k: Key): set<Port>
    requires Enabled(topo, net, a) && !a.Passive()
  {
    Silent(topo.cfgs[Actor(topo, net, a)], o.out, k)
  }

  function ActOf(topo: Topology, net: Net, a: Action, o: Outcome, k: Key): Flood.Act
    requires Enabled(topo, net, a)
  {
    match a
    case Deliver(i, _, _) =>
      if IsCopy(net.flight[i], k) then Flood.Arrive(net.flight[i].at, Skip(topo, net, a, o, k)) else Flood.Idle
    case Enter(v, _, _, _) =>
      if o.verdict == Injected(k) then Flood.Launch(v, Skip(topo, net, a, o, k)) else Flood.Idle
    case Lose(i) => if IsCopy(net.flight[i], k) then Flood.Drop(net.flight[i].at) else Flood.Idle
    case Duplicate(i) => if IsCopy(net.flight[i], k) then Flood.Duplicate(net.flight[i].at) else Flood.Idle
    case _ => Flood.Idle
  }

  // ---------------------------------------------------------------- copies in flight

  lemma {:induction false} CopiesAppend(a: seq<Packet>, b: seq<Packet>, k: Key)
    ensures Copies(a + b, k) == Copies(a, k) + Copies(b, k)
    decreases |a|
  {
    if a == [] {
      assert a + b == b;
    } else {
      assert (a + b)[1..] == a[1..] + b;
      CopiesAppend(a[1..], b, k);
    }
  }

  lemma CopiesWithout(flight: seq<Packet>, i: nat, k: Key)
    requires i < |flight|
    ensures Copies(flight, k) == Copies(Without(flight, i), k) + CopyOf(flight[i], k)
  {
    var head, tail := flight[..i], flight[i..];
    assert flight == head + tail && tail[0] == flight[i] && tail[1..] == flight[i + 1..];
    CopiesAppend(head, tail, k);
    CopiesAppend(head, flight[i + 1..], k);
  }

  lemma CopyOfOne(p: Packet, k: Key)
    ensures Copies([p], k) == CopyOf(p, k)
  {
    assert [p][1..] == [];
  }

  lemma LeavingCopies(topo: Topology, g: Flood.Graph, v: nat, p: Port, out: map<Port, Frame>, k: Key, skip: set<Port>)
    requires topo.Valid() && IsGraph(topo, k, g) && v < |topo.cfgs|
    requires p in topo.cfgs[v].HsrPorts() ==> (p !in skip <==> Spoken(out, p, k))
    ensures Copies(Leaving(topo, v, p, out), k) == Flood.Toward(g, v, p, skip)
  {
    var e := Flood.Endpoint(v, p);
    assert e in topo.wire ==> topo.Has(e);
    if p in out && e in topo.wire { CopyOfOne(Packet(topo.wire[e], out[p], TagOf(out[p])), k); }
  }

  lemma EmittedCopies(topo: Topology, g: Flood.Graph, v: nat, out: map<Port, Frame>, k: Key)
    requires topo.Valid() && IsGraph(topo, k, g) && v < |topo.cfgs|
    ensures Copies(Emitted(topo, v, out), k) == Flood.Fanout(g, v, Silent(topo.cfgs[v], out, k))
  {
    var skip := Silent(topo.cfgs[v], out, k);
    var a, b, i := Leaving(topo, v, LanA, out), Leaving(topo, v, LanB, out), Leaving(topo, v, Interlink, out);
    LeavingCopies(topo, g, v, LanA, out, k, skip);
    LeavingCopies(topo, g, v, LanB, out, k, skip);
    LeavingCopies(topo, g, v, Interlink, out, k, skip);
    CopiesAppend(a, b, k);
    CopiesAppend(a + b, i, k);
  }

  lemma SilentFanout(g: Flood.Graph, v: nat)
    requires v < |g.ports|
    ensures Flood.Fanout(g, v, g.ports[v]) == multiset{}
  {
  }

  // ---------------------------------------------------------------- what one step sends

  /** A step that does not register `k` does not send it, and none sends it back where it came from. */
  lemma ArrivalSkips(cfg: Config, st: State, now: int, port: Port, tag: Option<Tag>, o: Outcome, k: Key)
    requires ArrivalFlow(cfg, st, now, port, tag, o) && port in cfg.HsrPorts()
    ensures KeyOf(o.verdict) == Some(k) <==>
              tag.Some? && tag.value.key == k && cfg.mac != k.src && !Found(st.dup, k, now)
    ensures port in Silent(cfg, o.out, k)
    ensures KeyOf(o.verdict) != Some(k) ==> Silent(cfg, o.out, k) == cfg.HsrPorts()
    ensures KeyOf(o.verdict) == Some(k) && (tag.value.multicast || !cfg.IsQuadBox()) ==> Silent(cfg, o.out, k) == {port}
  {
  }

  lemma EntrySkips(cfg: Config, f: Frame, o: Outcome, k: Key)
    requires EntryFlow(cfg, f, o) && (cfg.role == HsrSan || cfg.role == HsrPrp)
    ensures KeyOf(o.verdict) == Some(k) <==> o.verdict == Injected(k)
    ensures KeyOf(o.verdict) != Some(k) ==> Silent(cfg, o.out, k) == cfg.HsrPorts()
    ensures KeyOf(o.verdict) == Some(k) && Fits(f) ==> Silent(cfg, o.out, k) == {}
  {
    forall p | p in cfg.HsrPorts() && Spoken(o.out, p, k) ensures KeyOf(o.verdict) == Some(k) {
      assert Resembles(TagOf(o.out[p]).value, InjectedTag(cfg, f, o.verdict.key.seqNo));
    }
  }

  lemma UntaggedSkips(cfg: Config, out: map<Port, Frame>, k: Key)
    requires SendsUntagged(cfg, out)
    ensures Silent(cfg, out, k) == cfg.HsrPorts()
  {
  }

  // ---------------------------------------------------------------- calm steps

  /**
   * The step happens within the forget time after `t0`, and the acting node neither
   * evicts nor flushes a live or new entry of `k`.
   */
  ghost predicate Calm(topo: Topology, net: Net, a: Action, o: Outcome, k: Key, t0: int)
    requires Enabled(topo, net, a) && |net.nodes| == |topo.cfgs|
  {
    a.Passive() ||
    var v, ev := Actor(topo, net, a), EventOf(topo, net, a);
    && Possible(topo.cfgs[v], ev) && Spares(topo.cfgs[v], net.nodes[v], ev, o, k)
    && t0 <= ev.now <= t0 + topo.cfgs[v].ForgetMs()
  }

  /** Whatever entry of `k` the step drops early was not live, and it does not drop one it makes. */
  predicate Spares(cfg: Config, st: State, ev: Event, o: Outcome, k: Key)
    requires Possible(cfg, ev)
  {
    ForgetsKey(cfg, st, ev, o.verdict, k) ==> !Found(st.dup, k, ev.now) && KeyOf(o.verdict) != Some(k)
  }

  /** Entries that are live at `t0` or later were made since, with the configured forget time. */
  predicate LiveAt(cfg: Config, st: State, k: Key, t0: int) {
    Found(st.dup, k, t0) ==> st.dup[k].lastSeen >= t0 && st.dup[k].expiryMs == cfg.ForgetMs()
  }

  ghost predicate Live(topo: Topology, net: Net, k: Key, t0: int)
    requires |net.nodes| == |topo.cfgs|
  {
    forall v :: 0 <= v < |topo.cfgs| ==> LiveAt(topo.cfgs[v], net.nodes[v], k, t0)
  }

  lemma NodeKeeps(cfg: Config, st: State, ev: Event, o: Outcome, k: Key, t0: int)
    requires Possible(cfg, ev) && KeyEffect(cfg, st, ev, o, k) && Spares(cfg, st, ev, o, k)
    requires t0 <= ev.now <= t0 + cfg.ForgetMs() && LiveAt(cfg, st, k, t0)
    ensures LiveAt(cfg, o.st, k, t0)
    ensures Found(o.st.dup, k, t0) <==> Found(st.dup, k, t0) || KeyOf(o.verdict) == Some(k)
    ensures Found(st.dup, k, ev.now) <==> Found(st.dup, k, t0)
  {
  }

  predicate Registers(a: Action, o: Outcome, k: Key) {
    !a.Passive() && KeyOf(o.verdict) == Some(k)
  }

  lemma TableStep(topo: Topology, net: Net, a: Action, o: Outcome, net': Net, k: Key, t0: int)
    requires Enabled(topo, net, a) && |net.nodes| == |topo.cfgs| == |net'.nodes|
    requires Moved(topo, net, a, o, net') && TableMove(topo, net, a, o, k)
    requires Calm(topo, net, a, o, k, t0) && Live(topo, net, k, t0)
    ensures Live(topo, net', k, t0)
    ensures Holders(net'.nodes, k, t0)
            == Holders(net.nodes, k, t0) + if Registers(a, o, k) then {Actor(topo, net, a)} else {}
  {
    if !a.Passive() {
      var v := Actor(topo, net, a);
      NodeKeeps(topo.cfgs[v], net.nodes[v], EventOf(topo, net, a), o, k, t0);
    }
  }

  // ---------------------------------------------------------------- one step refines flooding

  lemma StepSkips(topo: Topology, net: Net, a: Action, o: Outcome, k: Key)
    requires topo.Valid() && Enabled(topo, net, a) && |net.nodes| == |topo.cfgs| && !a.Passive() && Flow(topo, net, a, o)
    ensures Registers(a, o, k) <==>
              || (a.Enter? && o.verdict == Injected(k))
              || (a.Deliver? && IsCopy(net.flight[a.index], k) && topo.cfgs[Actor(topo, net, a)].mac != k.src
                  && !Found(net.nodes[Actor(topo, net, a)].dup, k, a.now))
    ensures !Registers(a, o, k) ==> Skip(topo, net, a, o, k) == topo.cfgs[Actor(topo, net, a)].HsrPorts()
    ensures a.Deliver? ==> net.flight[a.index].at.port in Skip(topo, net, a, o, k)
  {
    var v := Actor(topo, net, a);
    match a {
      case Deliver(i, now, _) =>
        ArrivalSkips(topo.cfgs[v], net.nodes[v], now, net.flight[i].at.port, net.flight[i].tag, o, k);
      case Enter(_, f, _, _) => EntrySkips(topo.cfgs[v], f, o, k);
      case Timer(_, _) => UntaggedSkips(topo.cfgs[v], o.out, k);
      case Beacon(_, _) => UntaggedSkips(topo.cfgs[v], o.out, k);
    }
  }

  lemma CopiesStep(topo: Topology, g: Flood.Graph, net: Net, a: Action, o: Outcome, net': Net, k: Key)
    requires topo.Valid() && IsGraph(topo, k, g) && Enabled(topo, net, a)
    requires |net.nodes| == |topo.cfgs| == |net'.nodes| && Moved(topo, net, a, o, net') && !a.Passive()
    ensures Copies(net'.flight, k) + (if a.Deliver? then CopyOf(net.flight[a.index], k) else multiset{})
            == Copies(net.flight, k) + Flood.Fanout(g, Actor(topo, net, a), Skip(topo, net, a, o, k))
  {
    var v := Actor(topo, net, a);
    CopiesAppend(Rest(topo, net, a), Emitted(topo, v, o.out), k);
    EmittedCopies(topo, g, v, o.out, k);
    if a.Deliver? { CopiesWithout(net.flight, a.index, k); }
  }

  /** What happens to a copy on a link happens to it in the flooding machine. */
  lemma LinkNext(g: Flood.Graph, s: Flood.State, s': Flood.State, p: Packet, k: Key, lose: bool)
    requires s'.seen == s.seen && CopyOf(p, k) <= s.flight
    requires s'.flight == if lose then s.flight - CopyOf(p, k) else s.flight + CopyOf(p, k)
    ensures Flood.Next(g, s, if !IsCopy(p, k) then Flood.Idle else if lose then Flood.Drop(p.at) else Flood.Duplicate(p.at), s')
  {
    if !IsCopy(p, k) { assert s'.flight == s.flight; }
  }

  lemma LinkStep(topo: Topology, g: Flood.Graph, net: Net, a: Action, o: Outcome, net': Net, k: Key, t0: int)
    requires Enabled(topo, net, a) && |net.nodes| == |topo.cfgs| == |net'.nodes|
    requires Moved(topo, net, a, o, net') && a.Passive()
    ensures Flood.Next(g, View(net, k, t0), ActOf(topo, net, a, o, k), View(net', k, t0))
  {
    var p := net.flight[a.index];
    CopiesWithout(net.flight, a.index, k);
    CopiesAppend(net.flight, [p], k);
    CopyOfOne(p, k);
    assert a.Lose? ==> Copies(net'.flight, k) == Copies(net.flight, k) - CopyOf(p, k);
    LinkNext(g, View(net, k, t0), View(net', k, t0), p, k, a.Lose?);
  }

  lemma MoveOver(b: multiset<Endpoint>, a: multiset<Endpoint>, e: Endpoint, more: multiset<Endpoint>)
    requires e in a && b + multiset{e} == a + more
    ensures b == a - multiset{e} + more
  {
    forall x: Endpoint ensures b[x] == (a - multiset{e} + more)[x] {
      assert (b + multiset{e})[x] == (a + more)[x];
    }
  }

  lemma ArriveNext(g: Flood.Graph, s: Flood.State, s': Flood.State, e: Endpoint, took: bool, skip: set<Port>)
    requires e.node < |g.ports| && e in s.flight && (took <==> e.node !in s.seen && e.node !in g.blocked)
    requires e.port in skip && (!took ==> skip == g.ports[e.node])
    requires s'.seen == s.seen + if took then {e.node} else {}
    requires s'.flight + multiset{e} == s.flight + Flood.Fanout(g, e.node, skip)
    ensures Flood.Next(g, s, Flood.Arrive(e, skip), s')
  {
    MoveOver(s'.flight, s.flight, e, Flood.Fanout(g, e.node, skip));
    if !took {
      SilentFanout(g, e.node);
      assert s'.seen == s.seen;
      assert s'.flight == s.flight - multiset{e};
    }
  }

  lemma LocalNext(g: Flood.Graph, s: Flood.State, s': Flood.State, v: nat, launch: bool, skip: set<Port>)
    requires v < |g.ports| && s'.seen == s.seen + if launch then {v} else {}
    requires s'.flight == s.flight + Flood.Fanout(g, v, skip) && (!launch ==> skip == g.ports[v])
    ensures Flood.Next(g, s, if launch then Flood.Launch(v, skip) else Flood.Idle, s')
  {
    if !launch {
      SilentFanout(g, v);
      assert s'.seen == s.seen && s'.flight == s.flight;
    }
  }

  /** Every calm step of any network, for every data key, is a step of the flooding machine. */
  lemma Refines(topo: Topology, g: Flood.Graph, net: Net, a: Action, o: Outcome, net': Net, k: Key, t0: int)
    requires topo.Valid() && IsGraph(topo, k, g) && Enabled(topo, net, a)
    requires |net.nodes| == |topo.cfgs| == |net'.nodes| && Moved(topo, net, a, o, net')
    requires Flow(topo, net, a, o) && TableMove(topo, net, a, o, k)
    requires Calm(topo, net, a, o, k, t0) && Live(topo, net, k, t0)
    ensures Flood.Next(g, View(net, k, t0), ActOf(topo, net, a, o, k), View(net', k, t0))
    ensures Registers(a, o, k) && a.Deliver? <==> Flood.Joins(g, View(net, k, t0), ActOf(topo, net, a, o, k))
  {
    if a.Passive() {
      LinkStep(topo, g, net, a, o, net', k, t0);
    } else {
      var v := Actor(topo, net, a);
      TableStep(topo, net, a, o, net', k, t0);
      StepSkips(topo, net, a, o, k);
      CopiesStep(topo, g, net, a, o, net', k);
      NodeKeeps(topo.cfgs[v], net.nodes[v], EventOf(topo, net, a), o, k, t0);
      var s, s', skip := View(net, k, t0), View(net', k, t0), Skip(topo, net, a, o, k);
      if a.Deliver? && IsCopy(net.flight[a.index], k) {
        CopiesWithout(net.flight, a.index, k);
        ArriveNext(g, s, s', net.flight[a.index].at, Registers(a, o, k), skip);
      } else {
        LocalNext(g, s, s', v, Registers(a, o, k), skip);
      }
    }
  }

  // ---------------------------------------------------------------- no port kept back

  /** Frames injected under `k` fit the tag and, if there are QuadBoxes, are multicast. */
  predicate Proper(topo: Topology, a: Action, o: Outcome, k: Key) {
    a.Enter? && o.verdict == Injected(k) ==>
      Fits(a.frame) && (Engine.Multicast(a.frame) || topo.Plain())
  }

  /** Copies of `k` that QuadBoxes do not filter. */
  ghost predicate Eligible(topo: Topology, flight: seq<Packet>, k: Key) {
    AllTags(flight, k, (t: Tag) => t.multicast || topo.Plain())
  }

  lemma ProperUsesAll(topo: Topology, g: Flood.Graph, net: Net, a: Action, o: Outcome, k: Key, s: Flood.State)
    requires topo.Valid() && Enabled(topo, net, a) && |net.nodes| == |topo.cfgs| && Flow(topo, net, a, o)
    requires Proper(topo, a, o, k) && Eligible(topo, net.flight, k)
    requires Flood.Joins(g, s, ActOf(topo, net, a, o, k)) ==> a.Deliver? && KeyOf(o.verdict) == Some(k)
    ensures Flood.UsesAll(g, s, ActOf(topo, net, a, o, k))
  {
    if a.Deliver? {
      var v := Actor(topo, net, a);
      var p := net.flight[a.index];
      ArrivalSkips(topo.cfgs[v], net.nodes[v], a.now, p.at.port, p.tag, o, k);
    } else if a.Enter? {
      EntrySkips(topo.cfgs[a.node], a.frame, o, k);
    }
  }
}
