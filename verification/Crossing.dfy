/**
 * What becomes of the NetId at a QuadBox: it is reset, so the rule that keeps a frame
 * from returning to its own PRP network protects one ring only.
 */
module Crossing {
  import opened Bytes
  import opened Engine
  import opened Role
  import opened NodeTable
  import opened NodeSpec
  import opened NodeRun
  import opened KeyFlow
  import opened Network
  import opened RingFlood
  import opened Ring
  import opened Delivery
  import Flood

  /** What a QuadBox takes from the other ring it sends on with NetId 0. */
  lemma CrossingResets(topo: Topology, tr: Trace, i: nat, k: Key, v: nat, p: Port)
    requires IsTrace(topo, tr) && i < |tr.acts| && AcceptsAt(tr, i, k, v)
    requires tr.nets[i].flight[tr.acts[i].index].at.port == Interlink
    requires v < |topo.cfgs| && p in topo.cfgs[v].HsrPorts() && p in tr.outs[i].out
    ensures TagOf(tr.outs[i].out[p]).Some? && TagOf(tr.outs[i].out[p]).value.key == k
    ensures TagOf(tr.outs[i].out[p]).value.net == 0
  {
    Labels(topo, tr, i);
    StepFlow(topo, tr, i);
  }

  /** Across QuadBoxes every copy carries the NetId it was injected with or none. */
  lemma NetIdOrNone(topo: Topology, tr: Trace, n: nat, k: Key, m: nat)
    requires IsTrace(topo, tr) && n <= |tr.acts| && Quiet(tr.nets[0], k) && InjectedFrom(topo, tr, n, k, m)
    ensures AllTags(tr.nets[n].flight, k, (t: Tag) => t.net == m || t.net == 0)
  {
    var ok := (t: Tag) => t.net == m || t.net == 0;
    forall j | 0 <= j < n ensures InjectsOk(topo, tr.acts[j], tr.outs[j], k, ok) {
    }
    TagInvariant(topo, tr, n, k, ok);
  }

  /**
   * In any network, QuadBoxes or not: a coupling node writes a frame of its own PRP
   * network back to that network if and only if the copy it accepts has lost its NetId.
   */
  lemma WrittenBackIffReset(topo: Topology, tr: Trace, i: nat, k: Key, net: nat, v: nat)
    requires IsTrace(topo, tr) && i < |tr.acts| && Quiet(tr.nets[0], k) && net < 8
    requires InjectedByNetwork(topo, tr, i, k, net) && AcceptsAt(tr, i, k, v)
    requires v < |topo.cfgs| && topo.cfgs[v].IsCoupling() && topo.cfgs[v].Net() == net
    ensures tr.nets[i].flight[tr.acts[i].index].tag.Some?
    ensures Interlink in tr.outs[i].out <==> tr.nets[i].flight[tr.acts[i].index].tag.value.net == 0
  {
    forall j | 0 <= j < i && InjectsAt(tr, j, k) && tr.acts[j].node < |topo.cfgs|
      ensures NetOf(Trunc4(InjectionPath(topo.cfgs[tr.acts[j].node]))) == net
    {
      NetIdFits(topo.cfgs[tr.acts[j].node]);
    }
    NetIdOrNone(topo, tr, i, k, net);
    Labels(topo, tr, i);
    StepFlow(topo, tr, i);
  }

  // ---------------------------------------------------------------- a run in which it happens

  /**
   * Coupling node 0 on one ring, QuadBoxes 1 and 2 joining it to another, and coupling
   * node 3 of the same PRP network there; of the links only those on the way are up.
   */
  ghost predicate IsTwoRings(topo: Topology, net: nat) {
    && |topo.cfgs| == 4 && (forall v :: 0 <= v < 4 ==> topo.cfgs[v].hasInterlink && topo.cfgs[v].mac == [])
    && topo.cfgs[0].IsCoupling() && topo.cfgs[0].Net() == net && topo.cfgs[1].IsQuadBox()
    && topo.cfgs[3].IsCoupling() && topo.cfgs[3].Net() == net && topo.cfgs[2].IsQuadBox()
    && topo.wire == map[Flood.Endpoint(0, LanB) := Flood.Endpoint(1, LanA),
                        Flood.Endpoint(1, Interlink) := Flood.Endpoint(2, Interlink),
                        Flood.Endpoint(2, LanA) := Flood.Endpoint(3, LanA)]
  }

  lemma TwoRingsAreValid(topo: Topology, net: nat)
    requires IsTwoRings(topo, net)
    ensures topo.Valid()
  {
    assert LanB in topo.cfgs[0].HsrPorts() && LanA in topo.cfgs[3].HsrPorts();
    forall e | e in topo.wire ensures topo.Has(e) && topo.Has(topo.wire[e]) && topo.wire[e] !in topo.wire {
      assert e == Flood.Endpoint(0, LanB) || e == Flood.Endpoint(1, Interlink) || e == Flood.Endpoint(2, LanA);
    }
  }

  /** With default settings, for example. */
  lemma TwoRingsExist() returns (topo: Topology)
    ensures IsTwoRings(topo, 1)
  {
    var coupler := Config(HsrPrp, [], ZERO, true, false, 1, true, true, [], "", 0, 0, 0, 0);
    var quadBox := coupler.(role := HsrHsr);
    topo := Topology([coupler, quadBox, quadBox, coupler.(lanB := true)],
                     map[Flood.Endpoint(0, LanB) := Flood.Endpoint(1, LanA),
                         Flood.Endpoint(1, Interlink) := Flood.Endpoint(2, Interlink),
                         Flood.Endpoint(2, LanA) := Flood.Endpoint(3, LanA)]);
  }

  /** A step of a node with an empty table: any choice of a victim will do. */
  lemma FirstStep(topo: Topology, net: Net, a: Action) returns (o: Outcome, net': Net)
    requires Enabled(topo, net, a) && |net.nodes| == |topo.cfgs| && !a.Passive()
    requires Possible(topo.cfgs[Actor(topo, net, a)], EventOf(topo, net, a))
    requires net.nodes[Actor(topo, net, a)] == INITIAL
    ensures StepsTo(topo, net, a, o, net')
    ensures o == Step(topo.cfgs[Actor(topo, net, a)], net.nodes[Actor(topo, net, a)], EventOf(topo, net, a))
    ensures net' == Net(net.nodes[Actor(topo, net, a) := o.st], Rest(topo, net, a) + Emitted(topo, Actor(topo, net, a), o.out))
  {
    var v := Actor(topo, net, a);
    o := Step(topo.cfgs[v], net.nodes[v], EventOf(topo, net, a));
    net' := Net(net.nodes[v := o.st], Rest(topo, net, a) + Emitted(topo, v, o.out));
  }

  /** The next delivery, if exactly one copy is in flight and its node has not acted yet. */
  lemma FirstDelivery(topo: Topology, net: Net, t: Tag) returns (o: Outcome, net': Net)
    requires |net.nodes| == |topo.cfgs| && |net.flight| == 1 && topo.Has(net.flight[0].at) && Labelled(net)
    requires net.flight[0].tag == Some(t) && net.nodes[net.flight[0].at.node] == INITIAL
    requires topo.cfgs[net.flight[0].at.node].mac != t.key.src
    ensures StepsTo(topo, net, Deliver(0, 0, t.key), o, net') && o.verdict == Accepted(t.key)
    ensures var e := net.flight[0].at; var cfg := topo.cfgs[e.node];
            && Sends(cfg, o.out, Loud(cfg, INITIAL, e.port, t), if e.port == Interlink then t.(net := 0) else t)
            && (e.port != Interlink ==> DeliveredTo(cfg, INITIAL, 0, o.out, t))
            && net' == Net(net.nodes[e.node := o.st], Emitted(topo, e.node, o.out))
  {
    var e, f := net.flight[0].at, net.flight[0].frame;
    var a := Deliver(0, 0, t.key);
    var ev := EventOf(topo, net, a);
    TaggedIsPossible(topo.cfgs[e.node], ev);
    o, net' := FirstStep(topo, net, a);
    StepArrivalFlow(topo.cfgs[e.node], INITIAL, ev);
    assert Rest(topo, net, a) == [];
  }

  /** A coupling node injects every frame with an RCT, under the number in it. */
  lemma CouplingInjects(cfg: Config, st: State, ev: Event)
    requires cfg.IsCoupling() && ev.Arrival? && ev.port == Interlink && DecodeRct(ev.frame).Some?
    ensures Possible(cfg, ev)
    ensures Step(cfg, st, ev).verdict == Injected(Key(SrcMac(ev.frame), DecodeRct(ev.frame).value.seqNo))
  {
  }

  /** If only port `p` of `v` has a link, what is written there is all that travels on. */
  lemma OneLeaves(topo: Topology, v: nat, p: Port, out: map<Port, Frame>)
    requires p in out && Flood.Endpoint(v, p) in topo.wire
    requires forall q :: Flood.Endpoint(v, q) in topo.wire ==> q == p
    ensures Emitted(topo, v, out) == [Packet(topo.wire[Flood.Endpoint(v, p)], out[p], TagOf(out[p]))]
  {
    match p
    case LanA => assert Leaving(topo, v, LanB, out) == [] && Leaving(topo, v, Interlink, out) == [];
    case LanB => assert Leaving(topo, v, LanA, out) == [] && Leaving(topo, v, Interlink, out) == [];
    case Interlink => assert Leaving(topo, v, LanA, out) == [] && Leaving(topo, v, LanB, out) == [];
  }

  /** The network with node states `nodes` and one copy on its way to `at`. */
  ghost predicate OneInFlight(topo: Topology, net: Net, at: Endpoint, t: Tag, acted: nat) {
    && |net.nodes| == |topo.cfgs| && |net.flight| == 1 && Labelled(net)
    && net.flight[0].at == at && net.flight[0].tag == Some(t)
    && forall v :: acted <= v < |net.nodes| ==> net.nodes[v] == INITIAL
  }

  lemma InjectionOut(cfg: Config, ev: Event, k: Key)
    requires cfg.IsCoupling() && ev.Arrival? && ev.port == Interlink && ev.io == ALL
    requires Fits(ev.frame) && DecodeRct(ev.frame).Some? && k == Key(SrcMac(ev.frame), DecodeRct(ev.frame).value.seqNo)
    ensures Possible(cfg, ev) && Step(cfg, INITIAL, ev).verdict == Injected(k) && LanB in Step(cfg, INITIAL, ev).out
    ensures TagOf(Step(cfg, INITIAL, ev).out[LanB]) == Some(InjectedTag(cfg, ev.frame, k.seqNo))
  {
    CouplingInjects(cfg, INITIAL, ev);
    StepEntryFlow(cfg, INITIAL, ev);
  }

  const START := Net([INITIAL, INITIAL, INITIAL, INITIAL], [])

  lemma Started(topo: Topology, o: Outcome, next: Net, t: Tag)
    requires |topo.cfgs| == 4 && LanB in o.out && TagOf(o.out[LanB]) == Some(t)
    requires Flood.Endpoint(0, LanB) in topo.wire && forall q :: Flood.Endpoint(0, q) in topo.wire ==> q == LanB
    requires next == Net(START.nodes[0 := o.st], [] + Emitted(topo, 0, o.out))
    ensures OneInFlight(topo, next, topo.wire[Flood.Endpoint(0, LanB)], t, 1)
  {
    OneLeaves(topo, 0, LanB, o.out);
  }

  /** Node 0 is a coupling node whose only link leads from its port B to `to`. */
  ghost predicate StartOk(topo: Topology, to: Endpoint) {
    && |topo.cfgs| == 4 && topo.cfgs[0].IsCoupling()
    && Flood.Endpoint(0, LanB) in topo.wire && topo.wire[Flood.Endpoint(0, LanB)] == to
    && forall q :: Flood.Endpoint(0, q) in topo.wire ==> q == LanB
  }

  lemma TwoRingsStart(topo: Topology, net: nat)
    requires IsTwoRings(topo, net)
    ensures StartOk(topo, Flood.Endpoint(1, LanA))
  {
  }

  lemma InjectionHop(topo: Topology, f: Frame, k: Key, to: Endpoint) returns (o: Outcome, next: Net)
    requires StartOk(topo, to) && Fits(f) && DecodeRct(f).Some? && k == Key(SrcMac(f), DecodeRct(f).value.seqNo)
    ensures StepsTo(topo, START, Enter(0, f, 0, k), o, next) && o.verdict == Injected(k)
    ensures OneInFlight(topo, next, to, InjectedTag(topo.cfgs[0], f, k.seqNo), 1)
  {
    var a := Enter(0, f, 0, k);
    InjectionOut(topo.cfgs[0], EventOf(topo, START, a), k);
    o, next := FirstStep(topo, START, a);
    Started(topo, o, next, InjectedTag(topo.cfgs[0], f, k.seqNo));
  }

  /** Node `v` of the two rings takes a copy on port `at` on to `to`, over its only link, on port `p`. */
  ghost predicate HopOk(topo: Topology, v: nat, at: Port, p: Port, to: Endpoint) {
    && topo.Has(Flood.Endpoint(v, at)) && topo.cfgs[v].mac == [] && p in topo.cfgs[v].HsrPorts() && p != at
    && Flood.Endpoint(v, p) in topo.wire && topo.wire[Flood.Endpoint(v, p)] == to
    && forall q :: Flood.Endpoint(v, q) in topo.wire ==> q == p
  }

  lemma TwoRingsHop(topo: Topology, net: nat)
    requires IsTwoRings(topo, net)
    ensures HopOk(topo, 1, LanA, Interlink, Flood.Endpoint(2, Interlink))
    ensures HopOk(topo, 2, Interlink, LanA, Flood.Endpoint(3, LanA))
    ensures topo.Has(Flood.Endpoint(3, LanA)) && topo.cfgs[3].mac == []
  {
  }

  /** The tag after a hop: a QuadBox resets what comes from the other ring. */
  function Hopped(t: Tag, at: Port): Tag {
    if at == Interlink then t.(net := 0) else t
  }

  lemma DeliveryHop(topo: Topology, net: Net, v: nat, at: Port, p: Port, to: Endpoint, t: Tag)
    returns (o: Outcome, next: Net)
    requires OneInFlight(topo, net, Flood.Endpoint(v, at), t, v) && HopOk(topo, v, at, p, to)
    requires t.key.src != [] && LeavesRing(INITIAL, t.multicast, t.dst, t.key.src)
    ensures StepsTo(topo, net, Deliver(0, 0, t.key), o, next) && OneInFlight(topo, next, to, Hopped(t, at), v + 1)
  {
    o, next := FirstDelivery(topo, net, t);
    OneLeaves(topo, v, p, o.out);
  }

  lemma SameStep(topo: Topology, tr: Trace, longer: Trace, i: nat)
    requires tr.Shaped() && longer.Shaped() && i < |tr.acts| && i < |longer.acts| && Network.StepAt(topo, tr, i)
    requires longer.nets[i] == tr.nets[i] && longer.acts[i] == tr.acts[i]
    requires longer.outs[i] == tr.outs[i] && longer.nets[i + 1] == tr.nets[i + 1]
    ensures Network.StepAt(topo, longer, i)
  {
  }

  lemma Extend(topo: Topology, tr: Trace, a: Action, o: Outcome, next: Net) returns (longer: Trace)
    requires IsTrace(topo, tr) && StepsTo(topo, tr.nets[|tr.acts|], a, o, next)
    ensures longer == Trace(tr.nets + [next], tr.acts + [a], tr.outs + [o]) && IsTrace(topo, longer)
  {
    longer := Trace(tr.nets + [next], tr.acts + [a], tr.outs + [o]);
    var n := |tr.acts|;
    forall i | 0 <= i < n ensures Network.StepAt(topo, longer, i) {
      SameStep(topo, tr, longer, i);
    }
    assert Network.StepAt(topo, longer, n);
  }

  /** A run that injected `f` at node 0 and whose only copy is on its way to `at`. */
  ghost predicate Travelling(topo: Topology, tr: Trace, f: Frame, k: Key, at: Endpoint, t: Tag, acted: nat) {
    && IsTrace(topo, tr) && |tr.acts| == acted > 0 && tr.nets[0] == START
    && tr.acts[0] == Enter(0, f, 0, k) && (forall i :: 1 <= i < acted ==> tr.acts[i].Deliver?)
    && OneInFlight(topo, tr.nets[acted], at, t, acted)
  }

  lemma Enters(topo: Topology, f: Frame, k: Key, to: Endpoint) returns (tr: Trace)
    requires topo.Valid() && StartOk(topo, to) && Fits(f) && DecodeRct(f).Some?
    requires k == Key(SrcMac(f), DecodeRct(f).value.seqNo)
    ensures Travelling(topo, tr, f, k, to, InjectedTag(topo.cfgs[0], f, k.seqNo), 1)
  {
    var o, next := InjectionHop(topo, f, k, to);
    tr := Extend(topo, Trace([START], [], []), Enter(0, f, 0, k), o, next);
  }

  lemma Hop(topo: Topology, tr: Trace, f: Frame, k: Key, v: nat, at: Port, p: Port, to: Endpoint, t: Tag)
    returns (longer: Trace)
    requires Travelling(topo, tr, f, k, Flood.Endpoint(v, at), t, v) && HopOk(topo, v, at, p, to)
    requires t.key.src != [] && LeavesRing(INITIAL, t.multicast, t.dst, t.key.src)
    ensures Travelling(topo, longer, f, k, to, Hopped(t, at), v + 1)
  {
    var o, next := DeliveryHop(topo, tr.nets[v], v, at, p, to, t);
    longer := Extend(topo, tr, Deliver(0, 0, t.key), o, next);
  }

  lemma Returns(topo: Topology, tr: Trace, f: Frame, k: Key, t: Tag) returns (longer: Trace)
    requires Travelling(topo, tr, f, k, Flood.Endpoint(3, LanA), t, 3) && topo.Has(Flood.Endpoint(3, LanA))
    requires t.key == k && k.src != [] && topo.cfgs[3].mac == [] && topo.cfgs[3].IsCoupling() && t.net != topo.cfgs[3].Net()
    ensures IsTrace(topo, longer) && |longer.acts| == 4 && longer.nets[0] == START
    ensures longer.acts[0] == Enter(0, f, 0, k) && longer.acts[1].Deliver? && longer.acts[2].Deliver?
    ensures AcceptsAt(longer, 3, k, 3) && Interlink in longer.outs[3].out
    ensures longer.outs[3].out[Interlink] == EncodeRct(t.original, k.seqNo, topo.cfgs[3].Lan())
  {
    var o, next := FirstDelivery(topo, tr.nets[3], t);
    longer := Extend(topo, tr, Deliver(0, 0, k), o, next);
  }

  lemma Crosses(topo: Topology, tr: Trace, f: Frame, k: Key, t: Tag) returns (longer: Trace)
    requires Travelling(topo, tr, f, k, Flood.Endpoint(1, LanA), t, 1)
    requires HopOk(topo, 1, LanA, Interlink, Flood.Endpoint(2, Interlink))
    requires HopOk(topo, 2, Interlink, LanA, Flood.Endpoint(3, LanA))
    requires t.key.src != [] && LeavesRing(INITIAL, t.multicast, t.dst, t.key.src)
    ensures Travelling(topo, longer, f, k, Flood.Endpoint(3, LanA), t.(net := 0), 3)
  {
    var half := Hop(topo, tr, f, k, 1, LanA, Interlink, Flood.Endpoint(2, Interlink), t);
    longer := Hop(topo, half, f, k, 2, Interlink, LanA, Flood.Endpoint(3, LanA), t);
  }

  lemma TravelTag(cfg: Config, f: Frame, k: Key, t: Tag)
    requires Transparent(f) && t == InjectedTag(cfg, f, k.seqNo) && k.src == SrcMac(f)
    ensures t.key == k && k.src != [] && t.original == f && t.multicast == Multicast(f) && t.dst == DstMac(f)
  {
    RestoredType(f);
  }

  lemma OnlyNodeZeroInjects(topo: Topology, tr: Trace, k: Key, net: nat)
    requires tr.Shaped() && |tr.acts| == 4 && tr.acts[0].Enter? && tr.acts[0].node == 0
    requires tr.acts[1].Deliver? && tr.acts[2].Deliver? && IsTwoRings(topo, net)
    ensures InjectedByNetwork(topo, tr, 3, k, net)
  {
  }

  /**
   * For every frame with an RCT that fits the tag there is a run in which a coupling
   * node writes it back to the PRP network it was injected from, under its old number:
   * it entered at node 0 and crossed the QuadBoxes to the ring of node 3.
   */
  lemma ReinjectionAcrossRings(topo: Topology, net: nat, f: Frame) returns (tr: Trace, k: Key)
    requires IsTwoRings(topo, net) && net < 8 && Transparent(f) && DecodeRct(f).Some?
    requires Multicast(f) || DstMac(f) != SrcMac(f)
    ensures IsTrace(topo, tr) && |tr.acts| == 4 && k == Key(SrcMac(f), DecodeRct(f).value.seqNo)
    ensures Quiet(tr.nets[0], k) && tr.acts[0] == Enter(0, f, 0, k) && InjectedByNetwork(topo, tr, 3, k, net)
    ensures AcceptsAt(tr, 3, k, 3) && Interlink in tr.outs[3].out
    ensures tr.outs[3].out[Interlink] == EncodeRct(f, k.seqNo, topo.cfgs[3].Lan())
  {
    k := Key(SrcMac(f), DecodeRct(f).value.seqNo);
    var t := InjectedTag(topo.cfgs[0], f, k.seqNo);
    TwoRingsAreValid(topo, net);
    TwoRingsStart(topo, net);
    var in1 := Enters(topo, f, k, Flood.Endpoint(1, LanA));
    tr := CrossesAndReturns(topo, net, in1, f, k, t);
    OnlyNodeZeroInjects(topo, tr, k, net);
  }

  lemma CrossesAndReturns(topo: Topology, net: nat, tr: Trace, f: Frame, k: Key, t: Tag) returns (longer: Trace)
    requires IsTwoRings(topo, net) && Transparent(f) && t == InjectedTag(topo.cfgs[0], f, k.seqNo)
    requires k.src == SrcMac(f) && (Multicast(f) || DstMac(f) != SrcMac(f))
    requires Travelling(topo, tr, f, k, Flood.Endpoint(1, LanA), t, 1)
    ensures IsTrace(topo, longer) && |longer.acts| == 4 && longer.nets[0] == START
    ensures longer.acts[0] == Enter(0, f, 0, k) && longer.acts[1].Deliver? && longer.acts[2].Deliver?
    ensures AcceptsAt(longer, 3, k, 3) && Interlink in longer.outs[3].out
    ensures longer.outs[3].out[Interlink] == EncodeRct(f, k.seqNo, topo.cfgs[3].Lan())
  {
    TravelTag(topo.cfgs[0], f, k, t);
    TwoRingsHop(topo, net);
    var far := Crosses(topo, tr, f, k, t);
    longer := Returns(topo, far, f, k, t.(net := 0));
  }
}
