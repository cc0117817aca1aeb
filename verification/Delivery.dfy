/**
 * What comes out of the ring: the frame every accepting node hands to its SAN or
 * PRP LAN, and the NetId rule that keeps a frame from returning to the PRP network
 * it came from.
 */
module Delivery {
  import opened Bytes
  import opened Engine
  import opened Role
  import opened NodeTable
  import opened NodeSpec
  import opened NodeRun
  import opened KeyFlow
  import opened Network
  import opened RingFlood
  import opened Ring
  import Flood

  /** The frame of an acceptance step, by the tag of the copy that was accepted. */
  lemma AcceptanceDelivers(topo: Topology, tr: Trace, i: nat, k: Key, v: nat, ok: Tag -> bool) returns (t: Tag)
    requires IsTrace(topo, tr) && i < |tr.acts| && AcceptsAt(tr, i, k, v) && AllTags(tr.nets[i].flight, k, ok)
    ensures v < |topo.cfgs| == |tr.nets[i].nodes| && ok(t) && t.key == k
    ensures !topo.cfgs[v].IsQuadBox() ==> 
              DeliveredTo(topo.cfgs[v], tr.nets[i].nodes[v], tr.acts[i].now, tr.outs[i].out, t)
  {
    Labels(topo, tr, i);
    StepFlow(topo, tr, i);
    var p := tr.nets[i].flight[tr.acts[i].index];
    assert p.tag.Some? && p.tag.value.key == k;
    t := p.tag.value;
  }

  lemma {:induction false} NoAcceptance(tr: Trace, n: nat, k: Key, v: nat)
    requires tr.Shaped() && n <= |tr.acts| && Acceptances(tr, n, k, v) == 0
    ensures forall j :: 0 <= j < n ==> !AcceptsAt(tr, j, k, v)
  {
    if n > 0 { NoAcceptance(tr, n - 1, k, v); }
  }

  lemma {:induction false} OnlyAcceptance(tr: Trace, n: nat, k: Key, v: nat) returns (i: nat)
    requires tr.Shaped() && n <= |tr.acts| && Acceptances(tr, n, k, v) == 1
    ensures i < n && forall j :: 0 <= j < n ==> (AcceptsAt(tr, j, k, v) <==> j == i)
  {
    if AcceptsAt(tr, n - 1, k, v) {
      i := n - 1;
      NoAcceptance(tr, n - 1, k, v);
    } else {
      i := OnlyAcceptance(tr, n - 1, k, v);
    }
  }

  // ---------------------------------------------------------------- the original frame

  /** Every injection of `k` puts one of the frames `fs` on the ring, with NetId `m`. */
  ghost predicate InjectedAs(topo: Topology, tr: Trace, n: nat, k: Key, fs: set<Frame>, m: nat)
    requires tr.Shaped() && n <= |tr.acts|
  {
    forall i :: 0 <= i < n && InjectsAt(tr, i, k) && tr.acts[i].node < |topo.cfgs| ==>
      tr.acts[i].frame in fs && NetOf(Trunc4(InjectionPath(topo.cfgs[tr.acts[i].node]))) == m
  }

  ghost predicate AllTransparent(fs: set<Frame>) {
    forall f :: f in fs ==> Transparent(f)
  }

  predicate CarriesOneOf(t: Tag, k: Key, fs: set<Frame>, m: nat) {
    var f := t.original;
    f in fs && |f| >= HeaderLen(f) && t == Tag(k, f, m, DstMac(f), Multicast(f), f[HeaderLen(f)..])
  }

  /** Every copy of the key restores to one of the injected frames, with its addresses and NetId. */
  lemma CopiesRestore(topo: Topology, tr: Trace, n: nat, k: Key, fs: set<Frame>, m: nat)
    requires IsTrace(topo, tr) && n <= |tr.acts| && Quiet(tr.nets[0], k) && InjectedAs(topo, tr, n, k, fs, m)
    requires AllTransparent(fs) && (topo.Plain() || m == 0)
    ensures AllTags(tr.nets[n].flight, k, (t: Tag) => CarriesOneOf(t, k, fs, m))
  {
    var ok := (t: Tag) => CarriesOneOf(t, k, fs, m);
    forall i | 0 <= i < n ensures InjectsOk(topo, tr.acts[i], tr.outs[i], k, ok) {
      Labels(topo, tr, i);
      StepFlow(topo, tr, i);
      if InjectsAt(tr, i, k) { RestoredType(tr.acts[i].frame); }
    }
    TagInvariant(topo, tr, n, k, ok);
  }

  /** What an accepting node writes for frame `f` of key `k`, injected with NetId `m`. */
  ghost predicate Hands(cfg: Config, st: State, now: int, out: map<Port, Frame>, k: Key, f: Frame, m: nat)
    requires |f| >= HeaderLen(f)
  {
    && (cfg.role == HsrSan ==>
          && (Interlink in out <==>
                LeavesRing(st, Multicast(f), DstMac(f), k.src) && ShouldForward(cfg, st, now, f[HeaderLen(f)..]))
          && (Interlink in out ==> out[Interlink] == f))
    && (cfg.role == HsrPrp ==>
          && (Interlink in out <==> m != cfg.Net())
          && (Interlink in out ==> out[Interlink] == EncodeRct(f, k.seqNo, cfg.Lan())))
  }

  /**
   * Delivery on the ring: in a calm run that has come to rest, a node joined to
   * an injector by links that did not lose every copy hands one of the injected frames to
   * its interlink in exactly one step. An hsr-san node writes it byte for byte, if and
   * only if the ring-member filter lets it out and the SAN filter passes its payload;
   * an hsr-prp node writes it with the sequence number and its own LAN in an RCT, if
   * and only if the frame does not come from its own PRP network.
   */
  lemma RingDelivery(topo: Topology, tr: Trace, n: nat, k: Key, t0: int, fs: set<Frame>, m: nat, v: nat)
    returns (i: nat, f: Frame)
    requires CalmRun(topo, tr, n, k, t0) && ProperRun(topo, tr, n, k) && Quiet(tr.nets[n], k)
    requires InjectedAs(topo, tr, n, k, fs, m) && AllTransparent(fs) && (topo.Plain() || m == 0)
    requires Flood.Reachable(Survivors(topo, tr, n, k), Injectors(tr, n, k), v) && v !in Injectors(tr, n, k)
    ensures i < n && v < |topo.cfgs| == |tr.nets[i].nodes| && tr.acts[i].Deliver? && f in fs && |f| >= HeaderLen(f)
    ensures forall j :: 0 <= j < n ==> (AcceptsAt(tr, j, k, v) <==> j == i)
    ensures Hands(topo.cfgs[v], tr.nets[i].nodes[v], tr.acts[i].now, tr.outs[i].out, k, f, m)
  {
    RingCoverage(topo, tr, n, k, t0, v);
    i := OnlyAcceptance(tr, n, k, v);
    CopiesRestore(topo, tr, i, k, fs, m);
    var t := AcceptanceDelivers(topo, tr, i, k, v, (t: Tag) => CarriesOneOf(t, k, fs, m));
    f := t.original;
  }

  // ---------------------------------------------------------------- reinjection safety

  /** The NetId nibble holds a coupling node's NetId exactly if it is below 8; SANs travel under NetId 0. */
  lemma NetIdFits(cfg: Config)
    ensures cfg.IsCoupling() ==> (NetOf(Trunc4(InjectionPath(cfg))) == cfg.Net() <==> cfg.Net() < 8)
    ensures !cfg.IsCoupling() ==> NetOf(Trunc4(InjectionPath(cfg))) == 0
  {
  }

  ghost predicate InjectedFrom(topo: Topology, tr: Trace, n: nat, k: Key, m: nat)
    requires tr.Shaped() && n <= |tr.acts|
  {
    forall i :: 0 <= i < n && InjectsAt(tr, i, k) && tr.acts[i].node < |topo.cfgs| ==>
      NetOf(Trunc4(InjectionPath(topo.cfgs[tr.acts[i].node]))) == m
  }

  /**
   * Without QuadBoxes, whatever expires, is evicted or lost and however many hops a
   * copy makes, an hsr-prp node that accepts a key writes it to its PRP LAN exactly
   * if its own NetId differs from the one the key was injected with.
   */
  lemma NetIdDecides(topo: Topology, tr: Trace, i: nat, k: Key, m: nat, v: nat)
    requires IsTrace(topo, tr) && topo.Plain() && i < |tr.acts| && Quiet(tr.nets[0], k)
    requires InjectedFrom(topo, tr, i, k, m) && AcceptsAt(tr, i, k, v)
    ensures v < |topo.cfgs|
    ensures topo.cfgs[v].IsCoupling() ==> (Interlink in tr.outs[i].out <==> topo.cfgs[v].Net() != m)
  {
    var ok := (t: Tag) => t.net == m;
    forall j | 0 <= j < i ensures InjectsOk(topo, tr.acts[j], tr.outs[j], k, ok) {
    }
    TagInvariant(topo, tr, i, k, ok);
    var t := AcceptanceDelivers(topo, tr, i, k, v, ok);
  }

  /** What the path nibble keeps of a NetId. */
  function Nibble(net: nat): nat { NetOf(Trunc4(net * 2)) }

  lemma LowNibble(q: nat, y: nat)
    requires y < 16
    ensures (16 * q + y) % 16 == y
  {
  }

  lemma NibbleFits(net: nat, lan: nat)
    requires lan <= 1
    ensures NetOf(Trunc4(net * 2 + lan)) == Nibble(net) && (Nibble(net) == net <==> net < 8)
  {
    if net >= 8 {
      var q, r := net / 8, net % 8;
      LowNibble(q, 2 * r + lan);
      LowNibble(q, 2 * r);
      assert net * 2 + lan == 16 * q + (2 * r + lan) && net * 2 == 16 * q + 2 * r;
      assert Trunc4(net * 2 + lan) == 2 * r + lan && Trunc4(net * 2) == 2 * r;
    }
  }

  ghost predicate InjectedByNetwork(topo: Topology, tr: Trace, n: nat, k: Key, net: nat)
    requires tr.Shaped() && n <= |tr.acts|
  {
    forall i :: 0 <= i < n && InjectsAt(tr, i, k) && tr.acts[i].node < |topo.cfgs| ==>
      topo.cfgs[tr.acts[i].node].IsCoupling() && topo.cfgs[tr.acts[i].node].Net() == net
  }

  /**
   * Reinjection safety (section 5.2.2.3.1 of IEC 62439-3:2021/COR1): a frame injected
   * by the coupling nodes of one PRP network never returns to that network through
   * either of them, exactly if the NetId is below 8.
   */
  lemma ReinjectionSafety(topo: Topology, tr: Trace, i: nat, k: Key, net: nat, v: nat)
    requires IsTrace(topo, tr) && topo.Plain() && i < |tr.acts| && Quiet(tr.nets[0], k)
    requires InjectedByNetwork(topo, tr, i, k, net) && AcceptsAt(tr, i, k, v)
    requires v < |topo.cfgs| && topo.cfgs[v].IsCoupling() && topo.cfgs[v].Net() == net
    ensures Interlink !in tr.outs[i].out <==> net < 8
  {
    var m := Nibble(net);
    NibbleFits(net, 0);
    forall j | 0 <= j < i && InjectsAt(tr, j, k) && tr.acts[j].node < |topo.cfgs|
      ensures NetOf(Trunc4(InjectionPath(topo.cfgs[tr.acts[j].node]))) == m
    {
      NibbleFits(net, topo.cfgs[tr.acts[j].node].Lan());
    }
    NetIdDecides(topo, tr, i, k, m, v);
  }

  /** A frame from a SAN on the ring always passes to every PRP network. */
  lemma SanFramesPass(topo: Topology, tr: Trace, i: nat, k: Key, v: nat)
    requires IsTrace(topo, tr) && topo.Plain() && i < |tr.acts| && Quiet(tr.nets[0], k)
    requires forall j :: 0 <= j < i && InjectsAt(tr, j, k) && tr.acts[j].node < |topo.cfgs| ==>
               topo.cfgs[tr.acts[j].node].role == HsrSan
    requires AcceptsAt(tr, i, k, v) && v < |topo.cfgs| && topo.cfgs[v].IsCoupling()
    ensures Interlink in tr.outs[i].out
  {
    NetIdDecides(topo, tr, i, k, 0, v);
  }

  // ---------------------------------------------------------------- by configuration

  /** `k` is injected only by hsr-prp nodes whose configured NetId is `a`. */
  ghost predicate InjectedUnder(topo: Topology, tr: Trace, n: nat, k: Key, a: int)
    requires tr.Shaped() && n <= |tr.acts|
  {
    forall i :: 0 <= i < n && InjectsAt(tr, i, k) && tr.acts[i].node < |topo.cfgs| ==>
      topo.cfgs[tr.acts[i].node].role == HsrPrp && topo.cfgs[tr.acts[i].node].netId == a
  }

  /**
   * Two PRP networks coupled to one ring hear each other and not themselves: a frame
   * injected under configured NetId `a` is written to the PRP LAN of an accepting coupling
   * node exactly if that node's configured NetId is another one. The loader admits 1 to 6.
   */
  lemma NetworksTalk(topo: Topology, tr: Trace, i: nat, k: Key, a: int, v: nat)
    requires IsTrace(topo, tr) && topo.Plain() && i < |tr.acts| && Quiet(tr.nets[0], k)
    requires 1 <= a <= 7 && InjectedUnder(topo, tr, i, k, a) && AcceptsAt(tr, i, k, v)
    requires v < |topo.cfgs| && topo.cfgs[v].role == HsrPrp && topo.cfgs[v].netId >= 1
    ensures Interlink in tr.outs[i].out <==> topo.cfgs[v].netId != a
  {
    forall j | 0 <= j < i && InjectsAt(tr, j, k) && tr.acts[j].node < |topo.cfgs|
      ensures NetOf(Trunc4(InjectionPath(topo.cfgs[tr.acts[j].node]))) == a
    {
      NetIdFits(topo.cfgs[tr.acts[j].node]);
    }
    NetIdDecides(topo, tr, i, k, a, v);
  }
}
