/**
 * A network of HSR nodes: every interleaving of node steps over links that delay,
 * reorder, lose and duplicate frames. A link direction that is down is absent from `wire`.
 */
module Network {
  import opened Bytes
  import opened Role
  import opened NodeTable
  import opened NodeSpec
  import opened NodeRun
  import opened KeyFlow
  import Engine
  import Flood

  type Endpoint = Flood.Endpoint

  datatype Topology = Topology(cfgs: seq<Config>, wire: map<Endpoint, Endpoint>)
  {
    predicate Has(e: Endpoint) { e.node < |cfgs| && e.port in cfgs[e.node].HsrPorts() }

    /** HSR nodes joined by links between their HSR ports. */
    predicate Valid() {
      && (forall v :: 0 <= v < |cfgs| ==> cfgs[v].IsHsr() && cfgs[v].Valid())
      && (forall e :: e in wire ==> Has(e) && Has(wire[e]))
      && (forall e, f :: e in wire && f in wire && wire[e] == f ==> wire[f] == e)
    }

    /** One ring, or several unconnected ones: no QuadBox. */
    predicate Plain() { forall v :: 0 <= v < |cfgs| ==> !cfgs[v].IsQuadBox() }
  }

  /** A frame about to arrive at a port, labelled with what its tag says. */
  datatype Packet = Packet(at: Endpoint, frame: Frame, tag: Option<Tag>)

  datatype Net = Net(nodes: seq<State>, flight: seq<Packet>)

  /** `Enter` is a frame from the SAN or PRP LAN behind an hsr-san or hsr-prp node. */
  datatype Action =
    | Deliver(index: nat, now: int, victim: Key)
    | Enter(node: nat, frame: Frame, now: int, victim: Key)
    | Timer(node: nat, now: int)
    | Beacon(node: nat, now: int)
    | Lose(index: nat)
    | Duplicate(index: nat)
  {
    /** Something happens on a link and no node acts. */
    predicate Passive() { Lose? || Duplicate? }
  }

  predicate Enabled(topo: Topology, net: Net, a: Action) {
    match a
    case Deliver(i, _, _) => i < |net.flight| && topo.Has(net.flight[i].at)
    case Enter(v, _, _, _) => v < |topo.cfgs| && (topo.cfgs[v].role == HsrSan || topo.cfgs[v].role == HsrPrp)
    case Timer(v, _) => v < |topo.cfgs|
    case Beacon(v, _) => v < |topo.cfgs|
    case Lose(i) => i < |net.flight|
    case Duplicate(i) => i < |net.flight|
  }

  /** The node that acts; 0 if none does. */
  function Actor(topo: Topology, net: Net, a: Action): (v: nat)
    requires Enabled(topo, net, a)
    ensures !a.Passive() ==> v < |topo.cfgs|
  {
    match a
    case Deliver(i, _, _) => net.flight[i].at.node
    case Enter(v, _, _, _) => v
    case Timer(v, _) => v
    case Beacon(v, _) => v
    case Lose(_) => 0
    case Duplicate(_) => 0
  }

  function EventOf(topo: Topology, net: Net, a: Action): Event
    requires Enabled(topo, net, a)
  {
    match a
    case Deliver(i, now, victim) => Arrival(now, net.flight[i].at.port, net.flight[i].frame, ALL, victim)
    case Enter(_, f, now, victim) => Arrival(now, Interlink, f, ALL, victim)
    case Timer(_, now) => Tick(now)
    case Beacon(_, now) => Event.Round(now, ALL)
    case Lose(_) => Tick(0)
    case Duplicate(_) => Tick(0)
  }

  function Without(flight: seq<Packet>, i: nat): seq<Packet>
    requires i < |flight|
  {
    flight[..i] + flight[i + 1..]
  }

  /** What stays in flight while `a` happens. */
  function Rest(topo: Topology, net: Net, a: Action): seq<Packet>
    requires Enabled(topo, net, a)
  {
    match a
    case Deliver(i, _, _) => Without(net.flight, i)
    case Lose(i) => Without(net.flight, i)
    case Duplicate(i) => net.flight + [net.flight[i]]
    case _ => net.flight
  }

  function Leaving(topo: Topology, v: nat, p: Port, out: map<Port, Frame>): seq<Packet> {
    var e := Flood.Endpoint(v, p);
    if p in out && e in topo.wire then [Packet(topo.wire[e], out[p], TagOf(out[p]))] else []
  }

  /** The copies put on working links by a step of node `v` that wrote `out`. */
  function Emitted(topo: Topology, v: nat, out: map<Port, Frame>): seq<Packet> {
    Leaving(topo, v, LanA, out) + Leaving(topo, v, LanB, out) + Leaving(topo, v, Interlink, out)
  }

  datatype Trace = Trace(nets: seq<Net>, acts: seq<Action>, outs: seq<Outcome>)
  {
    predicate Shaped() { |nets| == |acts| + 1 == |outs| + 1 }
  }

  /** One step: what an action leads to. */
  ghost predicate StepsTo(topo: Topology, net: Net, a: Action, o: Outcome, net': Net) {
    && Enabled(topo, net, a) && |net.nodes| == |topo.cfgs| == |net'.nodes|
    && if a.Passive() then
         KeyOf(o.verdict).None? && net'.nodes == net.nodes && net'.flight == Rest(topo, net, a)
       else
         var v, ev := Actor(topo, net, a), EventOf(topo, net, a);
         && Possible(topo.cfgs[v], ev)
         && o == Step(topo.cfgs[v], net.nodes[v], ev)
         && (ev.Arrival? ==> ValidChoice(topo.cfgs[v], net.nodes[v], ev.now, o.verdict, ev.victim))
         && net'.nodes == net.nodes[v := o.st]
         && net'.flight == Rest(topo, net, a) + Emitted(topo, v, o.out)
  }

  ghost predicate StepAt(topo: Topology, tr: Trace, i: nat)
    requires tr.Shaped() && i < |tr.acts|
  {
    StepsTo(topo, tr.nets[i], tr.acts[i], tr.outs[i], tr.nets[i + 1])
  }

  ghost predicate Labelled(net: Net) {
    forall i :: 0 <= i < |net.flight| ==> net.flight[i].tag == TagOf(net.flight[i].frame)
  }

  ghost predicate IsTrace(topo: Topology, tr: Trace) {
    && tr.Shaped() && topo.Valid() && |tr.nets[0].nodes| == |topo.cfgs| && Labelled(tr.nets[0])
    && forall i :: 0 <= i < |tr.acts| ==> StepAt(topo, tr, i)
  }

  // ---------------------------------------------------------------- what a step amounts to

  /** What the acting node does, without its code: by the tag of what reached it. */
  ghost predicate Flow(topo: Topology, net: Net, a: Action, o: Outcome)
    requires Enabled(topo, net, a) && |net.nodes| == |topo.cfgs|
  {
    match a
    case Deliver(i, now, _) =>
      var e := net.flight[i].at;
      ArrivalFlow(topo.cfgs[e.node], net.nodes[e.node], now, e.port, net.flight[i].tag, o)
    case Enter(v, f, _, _) => EntryFlow(topo.cfgs[v], f, o)
    case Lose(_) => KeyOf(o.verdict).None?
    case Duplicate(_) => KeyOf(o.verdict).None?
    case _ => KeyOf(o.verdict).None? && SendsUntagged(topo.cfgs[Actor(topo, net, a)], o.out)
  }

  lemma StepFlow(topo: Topology, tr: Trace, i: nat)
    requires IsTrace(topo, tr) && i < |tr.acts| && Labelled(tr.nets[i])
    ensures Enabled(topo, tr.nets[i], tr.acts[i]) && |tr.nets[i].nodes| == |topo.cfgs| == |tr.nets[i + 1].nodes|
    ensures Flow(topo, tr.nets[i], tr.acts[i], tr.outs[i])
  {
    assert StepAt(topo, tr, i);
    var net, a := tr.nets[i], tr.acts[i];
    if !a.Passive() {
      var v, ev := Actor(topo, net, a), EventOf(topo, net, a);
      match a {
        case Deliver(_, _, _) => StepArrivalFlow(topo.cfgs[v], net.nodes[v], ev);
        case Enter(_, _, _, _) => StepEntryFlow(topo.cfgs[v], net.nodes[v], ev);
        case Timer(_, _) => StepTimerFlow(topo.cfgs[v], net.nodes[v], ev);
        case Beacon(_, _) => StepTimerFlow(topo.cfgs[v], net.nodes[v], ev);
      }
    }
  }

  /** The tables and links after a step. */
  ghost predicate Moved(topo: Topology, net: Net, a: Action, o: Outcome, net': Net)
    requires Enabled(topo, net, a) && |net.nodes| == |topo.cfgs| == |net'.nodes|
  {
    if a.Passive() then net'.nodes == net.nodes && net'.flight == Rest(topo, net, a)
    else
      var v := Actor(topo, net, a);
      net'.nodes == net.nodes[v := o.st] && net'.flight == Rest(topo, net, a) + Emitted(topo, v, o.out)
  }

  lemma StepMoved(topo: Topology, tr: Trace, i: nat)
    requires IsTrace(topo, tr) && i < |tr.acts|
    ensures Enabled(topo, tr.nets[i], tr.acts[i]) && |tr.nets[i].nodes| == |topo.cfgs| == |tr.nets[i + 1].nodes|
    ensures Moved(topo, tr.nets[i], tr.acts[i], tr.outs[i], tr.nets[i + 1])
  {
    assert StepAt(topo, tr, i);
  }

  lemma LabelsKept(topo: Topology, net: Net, a: Action, o: Outcome, net': Net)
    requires Enabled(topo, net, a) && |net.nodes| == |topo.cfgs| == |net'.nodes|
    requires Moved(topo, net, a, o, net') && Labelled(net)
    ensures Labelled(net')
  {
  }

  lemma {:induction false} Labels(topo: Topology, tr: Trace, n: nat)
    requires IsTrace(topo, tr) && n <= |tr.acts|
    ensures Labelled(tr.nets[n]) && |tr.nets[n].nodes| == |topo.cfgs|
  {
    if n > 0 {
      Labels(topo, tr, n - 1);
      StepMoved(topo, tr, n - 1);
      LabelsKept(topo, tr.nets[n - 1], tr.acts[n - 1], tr.outs[n - 1], tr.nets[n]);
    }
  }

  /** What the step does to the entry of one key at the acting node. */
  ghost predicate TableMove(topo: Topology, net: Net, a: Action, o: Outcome, k: Key)
    requires Enabled(topo, net, a) && |net.nodes| == |topo.cfgs|
  {
    a.Passive() ||
    var v, ev := Actor(topo, net, a), EventOf(topo, net, a);
    Possible(topo.cfgs[v], ev) && KeyEffect(topo.cfgs[v], net.nodes[v], ev, o, k)
  }

  lemma StepTable(topo: Topology, tr: Trace, i: nat, k: Key)
    requires IsTrace(topo, tr) && i < |tr.acts|
    ensures Enabled(topo, tr.nets[i], tr.acts[i]) && |tr.nets[i].nodes| == |topo.cfgs|
    ensures TableMove(topo, tr.nets[i], tr.acts[i], tr.outs[i], k)
  {
    assert StepAt(topo, tr, i);
    var net, a := tr.nets[i], tr.acts[i];
    if !a.Passive() {
      var v, ev := Actor(topo, net, a), EventOf(topo, net, a);
      StepHasEffect(topo.cfgs[v], net.nodes[v], ev);
      EffectOnKey(topo.cfgs[v], net.nodes[v], ev, tr.outs[i], k);
    }
  }

  // ---------------------------------------------------------------- what travels under one key

  predicate IsCopy(p: Packet, k: Key) {
    p.tag.Some? && p.tag.value.key == k
  }

  /** Every copy of `k` in flight carries a tag with the property `ok`. */
  ghost predicate AllTags(flight: seq<Packet>, k: Key, ok: Tag -> bool) {
    forall i :: 0 <= i < |flight| && IsCopy(flight[i], k) ==> ok(flight[i].tag.value)
  }

  /** A QuadBox resets the NetId, so across QuadBoxes only properties that survive it are kept. */
  ghost predicate SurvivesReset(topo: Topology, ok: Tag -> bool) {
    topo.Plain() || forall t: Tag :: ok(t) ==> ok(t.(net := 0))
  }

  /** A tag that `f` injected with number `n` may travel under: the expected one if `f` fits the tag. */
  predicate MayCarry(t: Tag, cfg: Config, f: Frame, n: Word)
    requires |f| >= Engine.HeaderLen(f)
  {
    Resembles(t, InjectedTag(cfg, f, n)) && (Fits(f) ==> t == InjectedTag(cfg, f, n))
  }

  /** If the step injects `k`, it does so with the property `ok`. */
  ghost predicate InjectsOk(topo: Topology, a: Action, o: Outcome, k: Key, ok: Tag -> bool) {
    a.Enter? && o.verdict == Injected(k) && a.node < |topo.cfgs| && |a.frame| >= Engine.HeaderLen(a.frame) ==>
      forall t: Tag :: MayCarry(t, topo.cfgs[a.node], a.frame, k.seqNo) ==> ok(t)
  }

  ghost predicate WritesOk(cfg: Config, out: map<Port, Frame>, k: Key, ok: Tag -> bool) {
    forall p :: p in cfg.HsrPorts() && p in out && TagOf(out[p]).Some? && TagOf(out[p]).value.key == k ==>
      ok(TagOf(out[p]).value)
  }

  lemma ArrivalTags(topo: Topology, v: nat, st: State, now: int, port: Port, tag: Option<Tag>, o: Outcome,
                    k: Key, ok: Tag -> bool)
    requires v < |topo.cfgs| && port in topo.cfgs[v].HsrPorts()
    requires ArrivalFlow(topo.cfgs[v], st, now, port, tag, o) && SurvivesReset(topo, ok)
    requires tag.Some? && tag.value.key == k ==> ok(tag.value)
    ensures WritesOk(topo.cfgs[v], o.out, k, ok)
  {
  }

  lemma EntryTags(topo: Topology, v: nat, f: Frame, o: Outcome, k: Key, ok: Tag -> bool)
    requires v < |topo.cfgs| && (topo.cfgs[v].role == HsrSan || topo.cfgs[v].role == HsrPrp)
    requires EntryFlow(topo.cfgs[v], f, o)
    requires o.verdict == Injected(k) && |f| >= Engine.HeaderLen(f) ==>
               forall t: Tag :: MayCarry(t, topo.cfgs[v], f, k.seqNo) ==> ok(t)
    ensures WritesOk(topo.cfgs[v], o.out, k, ok)
  {
    var cfg := topo.cfgs[v];
    forall p | p in cfg.HsrPorts() && p in o.out && TagOf(o.out[p]).Some? && TagOf(o.out[p]).value.key == k
      ensures ok(TagOf(o.out[p]).value)
    {
      var t := TagOf(o.out[p]).value;
      assert MayCarry(t, cfg, f, o.verdict.key.seqNo);
    }
  }

  lemma EmittedTags(topo: Topology, v: nat, out: map<Port, Frame>, k: Key, ok: Tag -> bool)
    requires topo.Valid() && v < |topo.cfgs| && WritesOk(topo.cfgs[v], out, k, ok)
    ensures AllTags(Emitted(topo, v, out), k, ok)
  {
    assert forall p :: Flood.Endpoint(v, p) in topo.wire ==> topo.Has(Flood.Endpoint(v, p));
    assert AllTags(Leaving(topo, v, LanA, out), k, ok);
    assert AllTags(Leaving(topo, v, LanB, out), k, ok);
    assert AllTags(Leaving(topo, v, Interlink, out), k, ok);
  }

  lemma RestTags(topo: Topology, net: Net, a: Action, k: Key, ok: Tag -> bool)
    requires Enabled(topo, net, a) && AllTags(net.flight, k, ok)
    ensures AllTags(Rest(topo, net, a), k, ok)
  {
  }

  lemma TagsStep(topo: Topology, net: Net, a: Action, o: Outcome, net': Net, k: Key, ok: Tag -> bool)
    requires topo.Valid() && Enabled(topo, net, a) && |net.nodes| == |topo.cfgs| == |net'.nodes|
    requires Flow(topo, net, a, o) && Moved(topo, net, a, o, net')
    requires AllTags(net.flight, k, ok) && SurvivesReset(topo, ok) && InjectsOk(topo, a, o, k, ok)
    ensures AllTags(net'.flight, k, ok)
  {
    RestTags(topo, net, a, k, ok);
    if !a.Passive() {
      var v := Actor(topo, net, a);
      match a {
        case Deliver(i, now, _) =>
          var e := net.flight[i].at;
          ArrivalTags(topo, v, net.nodes[v], now, e.port, net.flight[i].tag, o, k, ok);
        case Enter(_, f, _, _) => EntryTags(topo, v, f, o, k, ok);
        case Timer(_, _) =>
        case Beacon(_, _) =>
      }
      EmittedTags(topo, v, o.out, k, ok);
    }
  }

  /** What every injection of `k` establishes holds of every copy of `k` at any time. */
  lemma {:induction false} TagInvariant(topo: Topology, tr: Trace, n: nat, k: Key, ok: Tag -> bool)
    requires IsTrace(topo, tr) && n <= |tr.acts| && AllTags(tr.nets[0].flight, k, ok) && SurvivesReset(topo, ok)
    requires forall i :: 0 <= i < n ==> InjectsOk(topo, tr.acts[i], tr.outs[i], k, ok)
    ensures AllTags(tr.nets[n].flight, k, ok)
  {
    if n > 0 {
      TagInvariant(topo, tr, n - 1, k, ok);
      Labels(topo, tr, n - 1);
      StepFlow(topo, tr, n - 1);
      StepMoved(topo, tr, n - 1);
      TagsStep(topo, tr.nets[n - 1], tr.acts[n - 1], tr.outs[n - 1], tr.nets[n], k, ok);
    }
  }
}
