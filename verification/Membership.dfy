/**
 * The ring-member filter: a source that reaches a node only through its interlink is
 * not learned there as a ring member, so unicast to it is never held back on the ring.
 */
module Membership {
  import opened Bytes
  import opened Role
  import opened NodeTable
  import opened NodeSpec
  import opened NodeRun
  import opened KeyFlow
  import opened Network
  import opened Ring
  import opened Delivery
  import Engine
  import Flood
  import Supervision

  // ---------------------------------------------------------------- what a step does to the ring table

  lemma AcceptLearns(cfg: Config, st: State, now: int, port: Port, v: RingView, io: set<Port>, victim: Key)
    ensures HsrAccept(cfg, st, now, port, v, io, victim).st.ring == st.ring[v.key.src := now]
  {
  }

  lemma ScreenLearns(cfg: Config, st: State, now: int, port: Port, v: RingView, io: set<Port>, victim: Key)
    ensures var o := HsrScreen(cfg, st, now, port, v, io, victim);
            o.st.ring == (if o.verdict.Accepted? && port != Interlink then st.ring[v.key.src := now] else st.ring)
            && (o.verdict.Accepted? ==> o.verdict.key == v.key)
  {
    if port != Interlink { AcceptLearns(cfg, st, now, port, v, io, victim); }
    ScreenVerdict(cfg, st, now, port, v, io, victim);
  }

  /** A source becomes a ring member only by a first copy or an announcement on a ring port. */
  ghost predicate LearnsOnly(cfg: Config, st: State, ev: Event, o: Outcome, s: Mac)
    requires Possible(cfg, ev)
  {
    s in o.st.ring ==>
      || s in st.ring
      || (ev.Arrival? && ev.port != Interlink && o.verdict.Accepted? && o.verdict.key.src == s)
      || (ev.Arrival? && ev.port != Interlink && Heard(cfg, ev).Some? && Heard(cfg, ev).value.src == s)
  }

  lemma ReceiveLearns(cfg: Config, st: State, ev: Event, s: Mac)
    requires ev.Arrival?
    ensures var o := HsrReceive(cfg, st, ev.now, ev.port, ev.frame, ev.io, ev.victim);
            s in o.st.ring ==> s in st.ring || (ev.port != Interlink && o.verdict.Accepted? && o.verdict.key.src == s)
  {
    var s1 := st.In(ev.port);
    var view := ViewOf(cfg, s1, ev.now, ev.frame);
    if view.Some? { ScreenLearns(cfg, s1, ev.now, ev.port, view.value, ev.io, ev.victim); }
  }

  lemma InjectLearns(cfg: Config, st: State, now: int, f: Frame, io: set<Port>, victim: Key)
    requires |f| >= Engine.HeaderLen(f) || (cfg.IsCoupling() && Engine.DecodeRct(f).None?)
    ensures HsrInject(cfg, st, now, f, io, victim).st.ring == st.ring
  {
  }

  lemma SuperviseLearns(cfg: Config, st: State, now: int, port: Port, f: Frame, s: Mac)
    requires Supervision.IsAnnouncement(f) ==> |f| >= 26
    ensures s in Supervise(cfg, st, now, port, f).ring ==>
              s in st.ring || (port != Interlink && Supervision.Parse(f).Some? && Supervision.Parse(f).value.src == s)
  {
  }

  lemma StepLearns(cfg: Config, st: State, ev: Event, s: Mac)
    requires Possible(cfg, ev) && cfg.IsHsr() && (ev.Arrival? ==> ev.port in cfg.HsrPorts() || !cfg.IsQuadBox())
    ensures LearnsOnly(cfg, st, ev, Step(cfg, st, ev), s)
  {
    if ev.Arrival? && |ev.frame| >= 14 {
      if IsSupervision(cfg, ev.port, ev.frame) {
        BridgeKeeps(cfg, Supervise(cfg, st, ev.now, ev.port, ev.frame), ev.port, ev.frame, ev.io);
        SuperviseLearns(cfg, st, ev.now, ev.port, ev.frame, s);
      } else if ev.port in cfg.HsrPorts() {
        HsrStep(cfg, st, ev);
        ReceiveLearns(cfg, st, ev, s);
      } else {
        InjectLearns(cfg, st, ev.now, ev.frame, ev.io, ev.victim);
      }
    }
  }

  // ---------------------------------------------------------------- behind the gateway

  /** Ports of the ring that node `v` joins to the outside: those of the inside nodes and its own ring ports. */
  predicate OnRing(v: nat, inside: set<nat>, e: Endpoint) {
    e.node in inside || (e.node == v && e.port != Interlink)
  }

  /** The only way between the inside nodes and the rest of the network is through `v`. */
  ghost predicate Gateway(topo: Topology, v: nat, inside: set<nat>) {
    && v < |topo.cfgs| && v !in inside
    && forall e :: e in topo.wire ==> (OnRing(v, inside, e) <==> OnRing(v, inside, topo.wire[e]))
  }

  /** A copy of `k` is on its way on the ring of `v`. */
  ghost predicate Near(net: Net, v: nat, inside: set<nat>, k: Key) {
    exists i :: 0 <= i < |net.flight| && IsCopy(net.flight[i], k) && OnRing(v, inside, net.flight[i].at)
  }

  /** While a copy of source `s` is on the ring, `v` has an entry for it. */
  ghost predicate Known(net: Net, v: nat, inside: set<nat>, s: Mac)
    requires v < |net.nodes|
  {
    forall k: Key :: k.src == s && Near(net, v, inside, k) ==> k in net.nodes[v].dup
  }

  /** `v` keeps its entries of source `s`: a key it registers, or of which copies are still on the ring. */
  ghost predicate Keeps(topo: Topology, net: Net, a: Action, o: Outcome, v: nat, inside: set<nat>, s: Mac)
    requires Enabled(topo, net, a) && |net.nodes| == |topo.cfgs| && !a.Passive() && Actor(topo, net, a) == v
  {
    var cfg, st, ev := topo.cfgs[v], net.nodes[v], EventOf(topo, net, a);
    && Possible(cfg, ev)
    && forall k: Key :: k.src == s ==>
        && (KeyOf(o.verdict) == Some(k) || Near(net, v, inside, k) ==> !ForgetsKey(cfg, st, ev, o.verdict, k))
        && (Near(net, v, inside, k) && k in st.dup ==> !Expired(st.dup[k], ev.now))
  }

  /** Frames of source `s` are not injected inside, and no announcement of `s` reaches a ring port of `v`. */
  ghost predicate StaysOutside(topo: Topology, net: Net, a: Action, v: nat, inside: set<nat>, s: Mac)
    requires Enabled(topo, net, a)
  {
    && (a.Enter? && |a.frame| >= 14 && Engine.SrcMac(a.frame) == s ==> a.node !in inside)
    && (!a.Passive() && Actor(topo, net, a) == v ==>
          Possible(topo.cfgs[v], EventOf(topo, net, a)) &&
          var ev := EventOf(topo, net, a); var h := Heard(topo.cfgs[v], ev);
          h.Some? && ev.port != Interlink ==> h.value.src != s)
  }

  /** Whatever a step sends carries the key it registered. */
  lemma SendsItsKey(topo: Topology, net: Net, a: Action, o: Outcome, p: Port)
    requires topo.Valid() && Enabled(topo, net, a) && |net.nodes| == |topo.cfgs| && Flow(topo, net, a, o) && !a.Passive()
    requires p in topo.cfgs[Actor(topo, net, a)].HsrPorts() && p in o.out && TagOf(o.out[p]).Some?
    ensures KeyOf(o.verdict) == Some(TagOf(o.out[p]).value.key)
    ensures a.Deliver? ==> IsCopy(net.flight[a.index], TagOf(o.out[p]).value.key)
    ensures a.Enter? ==> |a.frame| >= 14 && TagOf(o.out[p]).value.key.src == Engine.SrcMac(a.frame)
  {
    match a {
      case Deliver(i, now, _) =>
      case Enter(v, f, _, _) => assert Resembles(TagOf(o.out[p]).value, InjectedTag(topo.cfgs[v], f, o.verdict.key.seqNo));
      case Timer(_, _) =>
      case Beacon(_, _) =>
    }
  }

  /** A kept entry survives the step, and a registered key has one afterwards. */
  lemma EntryKept(topo: Topology, net: Net, a: Action, o: Outcome, net': Net, v: nat, inside: set<nat>, k: Key)
    requires Enabled(topo, net, a) && |net.nodes| == |topo.cfgs| == |net'.nodes| && v < |topo.cfgs|
    requires Moved(topo, net, a, o, net') && TableMove(topo, net, a, o, k)
    requires !a.Passive() && Actor(topo, net, a) == v ==> Keeps(topo, net, a, o, v, inside, k.src)
    ensures Near(net, v, inside, k) && k in net.nodes[v].dup ==> k in net'.nodes[v].dup
    ensures !a.Passive() && Actor(topo, net, a) == v && KeyOf(o.verdict) == Some(k) ==> k in net'.nodes[v].dup
  {
  }

  /** A copy that a step puts on the ring has a key that `v` knows. */
  lemma EmittedKnown(topo: Topology, net: Net, a: Action, o: Outcome, net': Net, v: nat, inside: set<nat>, p: Port, k: Key)
    requires topo.Valid() && Enabled(topo, net, a) && |net.nodes| == |topo.cfgs| == |net'.nodes| && !a.Passive()
    requires Gateway(topo, v, inside) && Flow(topo, net, a, o) && Moved(topo, net, a, o, net')
    requires p in o.out && TagOf(o.out[p]).Some? && TagOf(o.out[p]).value.key == k
    requires EntersRing(topo, v, inside, Flood.Endpoint(Actor(topo, net, a), p))
    requires TableMove(topo, net, a, o, k) && StaysOutside(topo, net, a, v, inside, k.src)
    requires Known(net, v, inside, k.src) && (Actor(topo, net, a) == v ==> Keeps(topo, net, a, o, v, inside, k.src))
    ensures k in net'.nodes[v].dup
  {
    var u := Actor(topo, net, a);
    var e := Flood.Endpoint(u, p);
    assert topo.Has(e) && OnRing(v, inside, e);
    SendsItsKey(topo, net, a, o, p);
    EntryKept(topo, net, a, o, net', v, inside, k);
    if u != v {
      assert a.Deliver? && OnRing(v, inside, net.flight[a.index].at);
      assert Near(net, v, inside, k);
    }
  }

  /** The link from `e` leads to the ring of `v`. */
  predicate EntersRing(topo: Topology, v: nat, inside: set<nat>, e: Endpoint) {
    e in topo.wire && OnRing(v, inside, topo.wire[e])
  }

  /** Where a copy in flight after a step comes from. */
  lemma Origin(topo: Topology, net: Net, a: Action, o: Outcome, net': Net, j: nat) returns (p: Port, stays: bool)
    requires topo.Valid() && Enabled(topo, net, a) && |net.nodes| == |topo.cfgs| == |net'.nodes|
    requires Moved(topo, net, a, o, net') && j < |net'.flight|
    ensures stays ==> exists i :: 0 <= i < |net.flight| && net.flight[i] == net'.flight[j]
    ensures !stays ==> !a.Passive() && p in o.out
    ensures !stays ==> var e := Flood.Endpoint(Actor(topo, net, a), p);
              e in topo.wire && net'.flight[j] == Packet(topo.wire[e], o.out[p], TagOf(o.out[p]))
  {
    var rest := Rest(topo, net, a);
    stays, p := j < |rest|, LanA;
    if stays {
      assert rest[j] == net'.flight[j];
    } else {
      var u := Actor(topo, net, a);
      var q := net'.flight[j];
      if q in Leaving(topo, u, LanA, o.out) { p := LanA; }
      else if q in Leaving(topo, u, LanB, o.out) { p := LanB; }
      else { p := Interlink; }
    }
  }

  // ---------------------------------------------------------------- runs

  ghost predicate GuardedAt(topo: Topology, tr: Trace, i: nat, v: nat, inside: set<nat>, s: Mac)
    requires tr.Shaped() && i < |tr.acts|
  {
    var net, a, o := tr.nets[i], tr.acts[i], tr.outs[i];
    && Enabled(topo, net, a) && |net.nodes| == |topo.cfgs|
    && StaysOutside(topo, net, a, v, inside, s)
    && (!a.Passive() && Actor(topo, net, a) == v ==> Keeps(topo, net, a, o, v, inside, s))
  }

  /**
   * A run that starts with no copy of source `s` on the ring of `v` and without `s` as
   * a ring member there, in which frames of `s` get onto that ring only through `v`
   * and `v` keeps its entries of them while copies are around.
   */
  ghost predicate GuardedRun(topo: Topology, tr: Trace, n: nat, v: nat, inside: set<nat>, s: Mac) {
    && IsTrace(topo, tr) && n <= |tr.acts| && Gateway(topo, v, inside)
    && (forall k: Key :: k.src == s ==> !Near(tr.nets[0], v, inside, k)) && s !in tr.nets[0].nodes[v].ring
    && forall i :: 0 <= i < n ==> GuardedAt(topo, tr, i, v, inside, s)
  }

  lemma KnownStep(topo: Topology, tr: Trace, i: nat, v: nat, inside: set<nat>, s: Mac)
    requires IsTrace(topo, tr) && i < |tr.acts| && Gateway(topo, v, inside) && GuardedAt(topo, tr, i, v, inside, s)
    requires Labelled(tr.nets[i]) && Known(tr.nets[i], v, inside, s)
    ensures |tr.nets[i + 1].nodes| == |topo.cfgs| && Known(tr.nets[i + 1], v, inside, s)
  {
    StepMoved(topo, tr, i);
    StepFlow(topo, tr, i);
    var net, a, o, net' := tr.nets[i], tr.acts[i], tr.outs[i], tr.nets[i + 1];
    forall k: Key | k.src == s && Near(net', v, inside, k) ensures k in net'.nodes[v].dup {
      StepTable(topo, tr, i, k);
      var j :| 0 <= j < |net'.flight| && IsCopy(net'.flight[j], k) && OnRing(v, inside, net'.flight[j].at);
      var p, stays := Origin(topo, net, a, o, net', j);
      if stays {
        assert Near(net, v, inside, k);
        EntryKept(topo, net, a, o, net', v, inside, k);
      } else {
        EmittedKnown(topo, net, a, o, net', v, inside, p, k);
      }
    }
  }

  lemma LearnStep(topo: Topology, tr: Trace, i: nat, v: nat, inside: set<nat>, s: Mac)
    requires IsTrace(topo, tr) && i < |tr.acts| && Gateway(topo, v, inside) && GuardedAt(topo, tr, i, v, inside, s)
    requires Labelled(tr.nets[i]) && Known(tr.nets[i], v, inside, s) && s !in tr.nets[i].nodes[v].ring
    ensures |tr.nets[i + 1].nodes| == |topo.cfgs| && s !in tr.nets[i + 1].nodes[v].ring
  {
    var net, a, o := tr.nets[i], tr.acts[i], tr.outs[i];
    StepFlow(topo, tr, i);
    assert Network.StepAt(topo, tr, i);
    if !a.Passive() && Actor(topo, net, a) == v {
      var ev := EventOf(topo, net, a);
      StepLearns(topo.cfgs[v], net.nodes[v], ev, s);
      if a.Deliver? && net.flight[a.index].tag.Some? && ev.port != Interlink {
        assert Near(net, v, inside, net.flight[a.index].tag.value.key);
      }
    }
  }

  /** The source is never a ring member of `v`, at any moment of the run. */
  lemma {:induction false} NeverMember(topo: Topology, tr: Trace, n: nat, v: nat, inside: set<nat>, s: Mac)
    requires GuardedRun(topo, tr, n, v, inside, s)
    ensures |tr.nets[n].nodes| == |topo.cfgs| && Known(tr.nets[n], v, inside, s) && s !in tr.nets[n].nodes[v].ring
  {
    if n > 0 {
      NeverMember(topo, tr, n - 1, v, inside, s);
      Labels(topo, tr, n - 1);
      assert GuardedAt(topo, tr, n - 1, v, inside, s);
      KnownStep(topo, tr, n - 1, v, inside, s);
      LearnStep(topo, tr, n - 1, v, inside, s);
    }
  }

  /**
   * So unicast to the source is never dropped by the ring-member filter: at an hsr-san
   * node the first copy goes to its SAN byte for byte, unless the SAN filter refuses
   * the payload.
   */
  lemma UnicastGoesHome(topo: Topology, tr: Trace, i: nat, v: nat, inside: set<nat>, k: Key, f: Frame, m: nat)
    requires Transparent(f) && GuardedRun(topo, tr, i, v, inside, Engine.DstMac(f)) && i < |tr.acts|
    requires AcceptsAt(tr, i, k, v) && topo.cfgs[v].role == HsrSan
    requires Quiet(tr.nets[0], k) && InjectedAs(topo, tr, i, k, {f}, m) && (topo.Plain() || m == 0)
    requires !Engine.Multicast(f) && Engine.DstMac(f) != k.src
    ensures |tr.nets[i].nodes| == |topo.cfgs|
    ensures var out, payload := tr.outs[i].out, f[Engine.HeaderLen(f)..];
            && (Interlink in out <==> ShouldForward(topo.cfgs[v], tr.nets[i].nodes[v], tr.acts[i].now, payload))
            && (Interlink in out ==> out[Interlink] == f)
  {
    NeverMember(topo, tr, i, v, inside, Engine.DstMac(f));
    CopiesRestore(topo, tr, i, k, {f}, m);
    var t := AcceptanceDelivers(topo, tr, i, k, v, (t: Tag) => CarriesOneOf(t, k, {f}, m));
  }

  /** At a QuadBox it crosses to the other ring, still carrying the tag it arrived with. */
  lemma UnicastCrosses(topo: Topology, tr: Trace, i: nat, v: nat, inside: set<nat>, k: Key, t: Tag)
    requires GuardedRun(topo, tr, i, v, inside, t.dst) && i < |tr.acts| && AcceptsAt(tr, i, k, v)
    requires topo.cfgs[v].IsQuadBox() && topo.cfgs[v].hasInterlink
    requires var p := tr.nets[i].flight[tr.acts[i].index]; p.at.port != Interlink && p.tag == Some(t)
    requires t.dst != t.key.src
    ensures Interlink in tr.outs[i].out && TagOf(tr.outs[i].out[Interlink]) == Some(t)
  {
    NeverMember(topo, tr, i, v, inside, t.dst);
    Labels(topo, tr, i);
    StepFlow(topo, tr, i);
  }
}
