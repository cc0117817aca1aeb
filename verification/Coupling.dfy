/**
 * Coupling end to end: from a SAN on an HSR ring, through the two hsr-prp nodes of a
 * PRP network and its two LANs, to a SAN behind a prp-san node.
 */
module Coupling {
  import opened Bytes
  import opened Engine
  import opened Role
  import opened NodeTable
  import opened NodeSpec
  import opened NodeRun
  import opened KeyFlow
  import opened Network
  import opened RingFlood
  import opened Ring
  import opened Delivery
  import opened Redundancy
  import Flood

  /** `k` is injected only by hsr-san nodes, in frame `f`. */
  ghost predicate FromRingSan(topo: Topology, tr: Trace, n: nat, k: Key, f: Frame)
    requires tr.Shaped() && n <= |tr.acts|
  {
    forall i :: 0 <= i < n && InjectsAt(tr, i, k) && tr.acts[i].node < |topo.cfgs| ==>
      tr.acts[i].frame == f && topo.cfgs[tr.acts[i].node].role == HsrSan
  }

  /** A coupling node on the way: joined to an injector by links that did not lose every copy. */
  ghost predicate OnTheWay(topo: Topology, tr: Trace, n: nat, k: Key, c: nat)
    requires tr.Shaped() && n <= |tr.acts|
  {
    && c < |topo.cfgs| && topo.cfgs[c].role == HsrPrp && c !in Injectors(tr, n, k)
    && Flood.Reachable(Survivors(topo, tr, n, k), Injectors(tr, n, k), c)
  }

  /** Each coupling node hands the frame to its LAN in exactly one step, under the number it had on the ring. */
  lemma CouplerDelivers(topo: Topology, tr: Trace, n: nat, k: Key, t0: int, f: Frame, c: nat) returns (i: nat)
    requires CalmRun(topo, tr, n, k, t0) && ProperRun(topo, tr, n, k) && Quiet(tr.nets[n], k)
    requires FromRingSan(topo, tr, n, k, f) && Transparent(f) && OnTheWay(topo, tr, n, k, c)
    ensures i < n && forall j :: 0 <= j < n ==> (AcceptsAt(tr, j, k, c) <==> j == i)
    ensures Interlink in tr.outs[i].out
    ensures tr.outs[i].out[Interlink] == EncodeRct(f, k.seqNo, if topo.cfgs[c].lanB then 1 else 0)
  {
    var g;
    i, g := RingDelivery(topo, tr, n, k, t0, {f}, 0, c);
  }

  /** The receiver gets, on the LAN of coupling node `c`, what that node wrote for `k`. */
  ghost predicate Relayed(topo: Topology, tr: Trace, n: nat, k: Key, c: nat, ev: Event)
    requires tr.Shaped() && n <= |tr.acts| && c < |topo.cfgs|
  {
    && ev.Arrival? && ev.port == (if topo.cfgs[c].lanB then LanB else LanA)
    && exists i :: 0 <= i < n && AcceptsAt(tr, i, k, c) && Interlink in tr.outs[i].out
                   && ev.frame == tr.outs[i].out[Interlink]
  }

  lemma {:induction false} SourceOfKey(topo: Topology, tr: Trace, n: nat, k: Key, f: Frame)
    requires IsTrace(topo, tr) && n <= |tr.acts| && FromRingSan(topo, tr, n, k, f) && Injectors(tr, n, k) != {}
    ensures k.src == SrcMac(f)
  {
    if InjectsAt(tr, n - 1, k) {
      Labels(topo, tr, n - 1);
      StepFlow(topo, tr, n - 1);
    } else {
      SourceOfKey(topo, tr, n - 1, k, f);
    }
  }

  lemma RelayedDecodes(topo: Topology, tr: Trace, n: nat, k: Key, t0: int, f: Frame, c: nat, cfg: Config, ev: Event)
    requires CalmRun(topo, tr, n, k, t0) && ProperRun(topo, tr, n, k) && Quiet(tr.nets[n], k)
    requires FromRingSan(topo, tr, n, k, f) && Transparent(f) && Carriable(f, k.seqNo) && OnTheWay(topo, tr, n, k, c)
    requires Relayed(topo, tr, n, k, c, ev) && !cfg.IsHsr() && cfg.mac != k.src
    ensures Offers(cfg, ev, k) && Body(ev.frame) == Padded(f)
  {
    var i := CouplerDelivers(topo, tr, n, k, t0, f, c);
    var p :| Flood.Path(Survivors(topo, tr, n, k), p) && p[0] in Injectors(tr, n, k) && p[|p| - 1] == c;
    SourceOfKey(topo, tr, n, k, f);
    RctOffered(cfg, ev, f, k.seqNo);
  }

  /**
   * A frame injected by a SAN on the ring is delivered behind the prp-san node exactly
   * once, byte for byte up to padding and under its source address and ring sequence
   * number, from whichever LANs its copies arrive, one of them being enough.
   */
  lemma CouplingEndToEnd(topo: Topology, tr: Trace, n: nat, k: Key, t0: int, f: Frame, a: nat, b: nat,
                         cfg: Config, rcv: Run, J: set<nat>) returns (first: nat)
    requires CalmRun(topo, tr, n, k, t0) && ProperRun(topo, tr, n, k) && Quiet(tr.nets[n], k)
    requires FromRingSan(topo, tr, n, k, f) && Transparent(f) && Carriable(f, k.seqNo)
    requires OnTheWay(topo, tr, n, k, a) && OnTheWay(topo, tr, n, k, b)
    requires IsRun(cfg, rcv) && !cfg.IsHsr() && cfg.mac != k.src && k !in rcv.sts[0].dup
    requires J != {} && forall j :: j in J ==>
               j < |rcv.evs| && (Relayed(topo, tr, n, k, a, rcv.evs[j]) || Relayed(topo, tr, n, k, b, rcv.evs[j]))
    requires Together(cfg, rcv, k, J) && OthersFar(cfg, rcv, k, J)
    ensures first in J && rcv.evs[first].Arrival? && rcv.outs[first].verdict == Accepted(k)
    ensures forall j :: j in J && j != first ==> rcv.outs[j].out == map[]
    ensures var ev := rcv.evs[first];
            rcv.outs[first].out
            == if cfg.hasInterlink && ShouldForward(cfg, rcv.sts[first], ev.now, Padded(f)) && Interlink in ev.io
               then map[Interlink := Padded(f)] else map[]
  {
    forall j | j in J ensures Offers(cfg, rcv.evs[j], k) && Body(rcv.evs[j].frame) == Padded(f) {
      var c := if Relayed(topo, tr, n, k, a, rcv.evs[j]) then a else b;
      RelayedDecodes(topo, tr, n, k, t0, f, c, cfg, rcv.evs[j]);
    }
    first := OneOfEachBatch(cfg, rcv, k, J);
    OfferReceived(cfg, rcv, first, k);
  }

  // ---------------------------------------------------------------- from a PRP network to the ring

  /** A frame that still fits the tag with an RCT behind it. */
  predicate CouplesBack(g: Frame) {
    |g| >= HeaderLen(g) && |Padded(g)| + RCT_LEN - HeaderLen(g) <= 4089 && !DoubleTagged(g)
  }

  lemma RctIsTransparent(g: Frame, n: Word, lan: nat)
    requires CouplesBack(g) && lan <= 1
    ensures Transparent(EncodeRct(g, n, lan))
    ensures Multicast(EncodeRct(g, n, lan)) == Multicast(g) && DstMac(EncodeRct(g, n, lan)) == DstMac(g)
    ensures DecodeRct(EncodeRct(g, n, lan)) == Some(Rct(lan, n, Padded(g)))
  {
    RctLayout(g, n, lan);
    RctRoundTrip(g, n, lan);
    var w := EncodeRct(g, n, lan);
    assert w[0] == w[..|g|][0] && w[..6] == w[..|g|][..6];
    assert IsVlan(g) ==> Get16(w, 16) == Get16(w[..|g|], 16);
  }

  /** What an hsr-san node writes for LAN copy `w` of frame `g`. */
  ghost predicate HandsOver(cfg: Config, st: State, now: int, out: map<Port, Frame>, k: Key, g: Frame, w: Frame) {
    && |w| >= HeaderLen(w)
    && (Interlink in out <==>
          LeavesRing(st, Multicast(g), DstMac(g), k.src) && ShouldForward(cfg, st, now, w[HeaderLen(w)..]))
    && (Interlink in out ==> out[Interlink] == w)
  }

  /**
   * A PRP frame that both coupling nodes inject, one from each LAN, is accepted by a
   * node on the ring exactly once. An hsr-san node hands its SAN one of the two LAN
   * copies, with the number it had on the LANs and its trailer still attached, if and
   * only if the ring-member filter and the SAN filter let that copy pass.
   */
  lemma PrpToRing(topo: Topology, tr: Trace, n: nat, k: Key, t0: int, g: Frame, m: nat, v: nat)
    returns (i: nat, lan: nat)
    requires CalmRun(topo, tr, n, k, t0) && ProperRun(topo, tr, n, k) && Quiet(tr.nets[n], k) && topo.Plain()
    requires CouplesBack(g)
    requires InjectedAs(topo, tr, n, k, {EncodeRct(g, k.seqNo, 0), EncodeRct(g, k.seqNo, 1)}, m)
    requires Flood.Reachable(Survivors(topo, tr, n, k), Injectors(tr, n, k), v) && v !in Injectors(tr, n, k)
    requires v < |topo.cfgs| && topo.cfgs[v].role == HsrSan
    ensures i < n && |tr.nets[i].nodes| == |topo.cfgs| && tr.acts[i].Deliver?
    ensures forall j :: 0 <= j < n ==> (AcceptsAt(tr, j, k, v) <==> j == i)
    ensures lan <= 1 && DecodeRct(EncodeRct(g, k.seqNo, lan)) == Some(Rct(lan, k.seqNo, Padded(g)))
    ensures HandsOver(topo.cfgs[v], tr.nets[i].nodes[v], tr.acts[i].now, tr.outs[i].out, k, g, EncodeRct(g, k.seqNo, lan))
  {
    RctIsTransparent(g, k.seqNo, 0);
    RctIsTransparent(g, k.seqNo, 1);
    var f;
    i, f := SanGetsOne(topo, tr, n, k, t0, EncodeRct(g, k.seqNo, 0), EncodeRct(g, k.seqNo, 1), m, v);
    lan := if f == EncodeRct(g, k.seqNo, 0) then 0 else 1;
  }

  lemma SanGetsOne(topo: Topology, tr: Trace, n: nat, k: Key, t0: int, a: Frame, b: Frame, m: nat, v: nat)
    returns (i: nat, f: Frame)
    requires CalmRun(topo, tr, n, k, t0) && ProperRun(topo, tr, n, k) && Quiet(tr.nets[n], k) && topo.Plain()
    requires InjectedAs(topo, tr, n, k, {a, b}, m) && Transparent(a) && Transparent(b)
    requires Flood.Reachable(Survivors(topo, tr, n, k), Injectors(tr, n, k), v) && v !in Injectors(tr, n, k)
    requires v < |topo.cfgs|
    ensures i < n && |tr.nets[i].nodes| == |topo.cfgs| && tr.acts[i].Deliver? && |f| >= HeaderLen(f)
    ensures forall j :: 0 <= j < n ==> (AcceptsAt(tr, j, k, v) <==> j == i)
    ensures (f == a || f == b) && Hands(topo.cfgs[v], tr.nets[i].nodes[v], tr.acts[i].now, tr.outs[i].out, k, f, m)
  {
    i, f := RingDelivery(topo, tr, n, k, t0, {a, b}, m, v);
  }
}
