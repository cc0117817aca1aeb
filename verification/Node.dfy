/**
 * The node of internal/prp as a class whose handlers update its tables in place
 * and write to its ports. Every handler is proved to perform exactly the step that
 * NodeSpec defines.
 */
module Node {
  import opened Bytes
  import opened Engine
  import opened NodeTable
  import opened Role
  import opened NodeSpec
  import Supervision
  import MulticastPattern

  class SequenceManager {
    const start: Word
    var seqs: map<Mac, Word>

    constructor (start: Word)
      ensures this.start == start && seqs == map[]
    {
      this.start := start;
      seqs := map[];
    }

    /** Hands out consecutive 16-bit numbers per source, wrapping at 65536. */
    method Next(src: Mac) returns (n: Word)
      modifies this
      ensures n == if src in old(seqs) then old(seqs)[src] else start
      ensures seqs == old(seqs)[src := Succ(n)]
    {
      n := start;
      if src in seqs { n := seqs[src]; }
      seqs := seqs[src := Succ(n)];
    }
  }

  lemma ThreePuts(io: set<Port>, a: Frame, b: Frame, c: Option<Frame>)
    ensures var both := Put(Put(map[], LanA, a, io), LanB, b, io);
            OnPorts(io, a, b, c) == if c.Some? then Put(both, Interlink, c.value, io) else both
  {
    var both := Put(Put(map[], LanA, a, io), LanB, b, io);
    var all := if c.Some? then Put(both, Interlink, c.value, io) else both;
    forall p: Port ensures p in all <==> p in OnPorts(io, a, b, c) {
      match p case LanA => case LanB => case Interlink =>
    }
  }

  class Node {
    const cfg: Config
    const dupTable: Table
    const seqMgr: SequenceManager
    var proxy: map<Mac, int>
    var ring: map<Mac, int>
    var supSeen: map<Mac, int>
    var supSeqs: map<Mac, Word>
    var supSeq: Word
    var drops: map<Reason, nat>
    var counters: Counters
    /** Frames written since the current handler call began. */
    var sent: map<Port, Frame>

    ghost predicate Valid() {
      cfg.Valid() && dupTable.maxSize == cfg.MaxTable() && seqMgr.start == cfg.seqStart
    }

    ghost function St(): State
      reads this, dupTable, seqMgr
    {
      State(dupTable.entries, seqMgr.seqs, proxy, ring, supSeen, supSeqs, supSeq, drops, counters)
    }

    constructor (cfg: Config)
      requires cfg.Valid()
      ensures Valid() && St() == INITIAL && sent == map[]
      ensures fresh(dupTable) && fresh(seqMgr) && this.cfg == cfg
    {
      this.cfg := cfg;
      dupTable := new Table(cfg.MaxTable());
      seqMgr := new SequenceManager(cfg.seqStart);
      proxy, ring, supSeen, supSeqs, supSeq := map[], map[], map[], map[], ZERO;
      drops, counters, sent := map[], Counters(0, 0, 0, 0, 0, 0), map[];
    }

    // ---------------------------------------------------------------- single updates

    method NoteDrop(r: Reason)
      modifies this`drops
      ensures St() == Drop(old(St()), r)
    {
      var n := 0;
      if r in drops { n := drops[r]; }
      drops := drops[r := n + 1];
    }

    method CountIn(port: Port)
      modifies this`counters
      ensures St() == old(St()).In(port)
    {
      counters := counters.In(port);
    }

    /** A port write; when it succeeds the frame is on the wire and the port is counted. */
    method Write(port: Port, f: Frame, io: set<Port>)
      modifies this`counters, this`sent
      ensures St() == old(St()).Out(port, io)
      ensures sent == Put(old(sent), port, f, io)
    {
      if port in io {
        sent := sent[port := f];
        counters := counters.Out(port);
      }
    }

    method WriteBoth(a: Frame, b: Frame, io: set<Port>)
      requires sent == map[]
      modifies this`counters, this`sent
      ensures St() == old(St()).Out(LanA, io).Out(LanB, io)
      ensures sent == Put(Put(map[], LanA, a, io), LanB, b, io)
    {
      Write(LanA, a, io);
      Write(LanB, b, io);
    }

    method Enter(k: Key, lan: nat, now: int) returns (ghost victim: Key)
      requires Valid()
      modifies dupTable
      ensures ValidVictim(old(St()).dup, cfg.MaxTable(), k, now, victim)
      ensures St() == Register(cfg, old(St()), k, lan, now, victim)
    {
      victim := dupTable.InsertWithExpiry(k, lan, cfg.ForgetMs(), now);
    }

    method IsDuplicate(k: Key, now: int) returns (dup: bool)
      ensures dup == Found(St().dup, k, now)
    {
      dup := dupTable.Find(k, now);
    }

    method LearnRingMember(src: Mac, now: int)
      modifies this`ring
      ensures St() == old(St()).(ring := old(St()).ring[src := now])
    {
      ring := ring[src := now];
    }

    method LearnProxy(src: Mac, now: int)
      modifies this`proxy
      ensures St() == old(St()).(proxy := old(St()).proxy[src := now])
    {
      proxy := proxy[src := now];
    }

    method NextNumber(src: Mac) returns (n: Word)
      requires Valid()
      modifies seqMgr
      ensures n == NextSeq(cfg, old(St()), src) && St() == TakeSeq(cfg, old(St()), src)
    {
      n := seqMgr.Next(src);
    }

    // ---------------------------------------------------------------- ring port of an HSR node

    method ShouldForwardToInterlink(now: int, f: Frame) returns (ok: bool)
      ensures ok == ShouldForward(cfg, St(), now, f)
    {
      if cfg.forwardAll { return true; }
      if Multicast(f) {
        ok := MulticastPattern.MulticastAllowed(cfg.multicastFirstOctet, f);
        return;
      }
      var dst := DstMac(f);
      return dst in proxy && now - proxy[dst] <= cfg.ProxyForgetMs();
    }

    /** Decodes a tagged frame and prepares every form in which it may leave. */
    method Inspect(now: int, f: Frame) returns (v: Option<RingView>)
      ensures v == ViewOf(cfg, St(), now, f)
    {
      var tag := DecodeHsr(f);
      if tag.None? { return None; }
      var t := tag.value;
      var original := StripHsr(f);
      var coupled: Option<Frame> := None;
      if original.Some? { coupled := Some(EncodeRct(original.value, t.seqNo, cfg.Lan())); }
      var passes := ShouldForwardToInterlink(now, t.payload);
      return Some(RingView(Key(SrcMac(f), t.seqNo), DstMac(f), Multicast(f), NetOf(t.path), LaneOf(t.path),
                           f, RewritePathLane(f, true), RewritePathLane(f, false), RewritePath(f, 0),
                           original, coupled, passes));
    }

    /** Decides what an accepted ring frame becomes on the interlink. */
    method Classify(v: RingView) returns (d: Delivery)
      ensures d == ToInterlink(cfg, St(), v)
    {
      if cfg.IsCoupling() {
        if v.net != cfg.Net() { return WriteOr(v.coupled); }
        return Discard(if v.lane == cfg.Lan() then Own else Path);
      }
      if cfg.IsQuadBox() && !cfg.hasInterlink { return Nothing; }
      if !v.multicast && v.dst in ring { return Discard(Filter); }
      if cfg.IsQuadBox() { return Delivery.Write(v.raw); }
      if !v.passes { return Discard(Filter); }
      return WriteOr(v.original);
    }

    method Hand(d: Delivery, ghost k: Key, io: set<Port>)
      modifies this
      ensures var o := Deliver(old(St()), old(sent), d, k, io); St() == o.st && sent == o.out
    {
      match d {
        case Nothing =>
        case Discard(r) => NoteDrop(r);
        case Write(f) => Write(Interlink, f, io);
      }
    }

    method AcceptHsrFrame(now: int, port: Port, v: RingView, io: set<Port>) returns (ghost victim: Key)
      requires sent == map[] && Valid()
      modifies this, dupTable
      ensures ValidVictim(old(St()).dup, cfg.MaxTable(), v.key, now, victim)
      ensures var o := HsrAccept(cfg, old(St()), now, port, v, io, victim);
              St() == o.st && sent == o.out
    {
      victim := Enter(v.key, 0, now);
      LearnRingMember(v.key.src, now);
      var d := Classify(v);
      var other := LanB;
      if port == LanB { other := LanA; }
      var fwd := if other == LanA then v.laneA else v.laneB;
      if fwd.Some? { Write(other, fwd.value, io); }
      Hand(d, v.key, io);
    }

    method AcceptQuadBoxFrame(now: int, v: RingView, io: set<Port>) returns (ghost victim: Key)
      requires sent == map[] && Valid()
      modifies this, dupTable
      ensures ValidVictim(old(St()).dup, cfg.MaxTable(), v.key, now, victim)
      ensures var o := QuadBoxAccept(cfg, old(St()), now, v, io, victim);
              St() == o.st && sent == o.out
    {
      victim := Enter(v.key, 0, now);
      if v.reset.None? { NoteDrop(Malformed); return; }
      WriteBoth(v.reset.value, v.reset.value, io);
    }

    method ScreenHsrFrame(now: int, port: Port, v: RingView, io: set<Port>) returns (ghost victim: Key)
      requires sent == map[] && Valid()
      modifies this, dupTable
      ensures var o := HsrScreen(cfg, old(St()), now, port, v, io, victim);
              && ValidChoice(cfg, old(St()), now, o.verdict, victim)
              && St() == o.st && sent == o.out
    {
      victim := Key([], ZERO);
      if cfg.mac == v.key.src { NoteDrop(Own); return; }
      var dup := IsDuplicate(v.key, now);
      if dup { NoteDrop(Dup); return; }
      if port == Interlink {
        victim := AcceptQuadBoxFrame(now, v, io);
      } else {
        victim := AcceptHsrFrame(now, port, v, io);
      }
    }

    method HandleIncomingHsrFrame(now: int, port: Port, f: Frame, io: set<Port>) returns (ghost victim: Key)
      requires sent == map[] && Valid()
      modifies this, dupTable
      ensures var o := HsrReceive(cfg, old(St()), now, port, f, io, victim);
              && ValidChoice(cfg, old(St()), now, o.verdict, victim)
              && St() == o.st && sent == o.out
    {
      victim := Key([], ZERO);
      CountIn(port);
      var v := Inspect(now, f);
      if v.None? { NoteDrop(Malformed); return; }
      victim := ScreenHsrFrame(now, port, v.value, io);
    }

    // ---------------------------------------------------------------- interlink of an HSR node

    method Inject(now: int, k: Key, body: Frame, io: set<Port>) returns (ghost victim: Key)
      requires sent == map[] && Valid()
      modifies this, dupTable
      ensures ValidVictim(old(St()).dup, cfg.MaxTable(), k, now, victim)
      ensures var o := Launch(cfg, old(St()), now, k, body, io, victim);
              St() == o.st && sent == o.out
    {
      victim := Enter(k, 0, now);
      WriteBoth(body, body, io);
    }

    method RingPath() returns (path: nat)
      ensures path == InjectionPath(cfg)
    {
      path := 0;
      if cfg.IsCoupling() { path := cfg.Net() * 2 + cfg.Lan(); }
    }

    method HandleHsrInterlinkFrame(now: int, f: Frame, io: set<Port>) returns (ghost victim: Key)
      requires sent == map[] && Valid()
      requires |f| >= HeaderLen(f) || (cfg.IsCoupling() && DecodeRct(f).None?)
      modifies this, dupTable, seqMgr
      ensures var o := HsrInject(cfg, old(St()), now, f, io, victim);
              && ValidChoice(cfg, old(St()), now, o.verdict, victim)
              && St() == o.st && sent == o.out
    {
      victim := Key([], ZERO);
      CountIn(Interlink);
      var src := SrcMac(f);
      LearnProxy(src, now);
      var path := RingPath();
      var n;
      if cfg.IsCoupling() {
        var rct := DecodeRct(f);
        if rct.None? { NoteDrop(Malformed); return; }
        n := rct.value.seqNo;
      } else {
        n := NextNumber(src);
      }
      victim := Inject(now, Key(src, n), Tagged(f, path, n), io);
    }

    // ---------------------------------------------------------------- PRP node

    method InspectRct(now: int, f: Frame) returns (v: Option<LanView>)
      ensures v == LanViewOf(cfg, St(), now, f)
    {
      var rct := DecodeRct(f);
      if rct.None? { return None; }
      var passes := ShouldForwardToInterlink(now, rct.value.body);
      return Some(LanView(Key(SrcMac(f), rct.value.seqNo), rct.value.lan, rct.value.body, passes));
    }

    method AcceptPrpFrame(now: int, v: LanView, io: set<Port>) returns (ghost victim: Key)
      requires sent == map[] && Valid()
      modifies this, dupTable
      ensures ValidVictim(old(St()).dup, cfg.MaxTable(), v.key, now, victim)
      ensures var o := PrpAccept(cfg, old(St()), now, v, io, victim);
              St() == o.st && sent == o.out
    {
      victim := Enter(v.key, v.lan, now);
      if !cfg.hasInterlink { return; }
      if !v.passes { NoteDrop(Filter); return; }
      Write(Interlink, v.body, io);
    }

    method ScreenPrpFrame(now: int, v: LanView, io: set<Port>) returns (ghost victim: Key)
      requires sent == map[] && Valid()
      modifies this, dupTable
      ensures var o := PrpScreen(cfg, old(St()), now, v, io, victim);
              && ValidChoice(cfg, old(St()), now, o.verdict, victim)
              && St() == o.st && sent == o.out
    {
      victim := Key([], ZERO);
      if cfg.mac == v.key.src { return; }
      var dup := IsDuplicate(v.key, now);
      if dup { NoteDrop(Dup); return; }
      victim := AcceptPrpFrame(now, v, io);
    }

    method HandleIncomingPrpFrame(now: int, port: Port, f: Frame, io: set<Port>) returns (ghost victim: Key)
      requires sent == map[] && Valid()
      modifies this, dupTable
      ensures var o := PrpReceive(cfg, old(St()), now, port, f, io, victim);
              && ValidChoice(cfg, old(St()), now, o.verdict, victim)
              && St() == o.st && sent == o.out
    {
      victim := Key([], ZERO);
      CountIn(port);
      var v := InspectRct(now, f);
      if v.None? { NoteDrop(Malformed); return; }
      var expected := 0;
      if port == LanB { expected := 1; }
      if v.value.lan != expected { NoteDrop(Path); return; }
      victim := ScreenPrpFrame(now, v.value, io);
    }

    method HandleInterlinkFrame(now: int, f: Frame, io: set<Port>)
      requires sent == map[] && Valid() && (cfg.vlanFilter != [] && IsVlan(f) ==> |f| >= 16)
      modifies this, seqMgr
      ensures var o := PrpSend(cfg, old(St()), now, f, io);
              && St() == o.st && sent == o.out
    {
      CountIn(Interlink);
      if |cfg.vlanFilter| > 0 {
        var id := VlanId(f);
        if id.None? || id.value !in cfg.vlanFilter { NoteDrop(Filter); return; }
      }
      LearnProxy(SrcMac(f), now);
      if !cfg.trailerEnabled {
        sent := Put(Put(sent, LanA, f, io), LanB, f, io);
        counters := counters.Out(LanA).Out(LanB);
        return;
      }
      var n := NextNumber(SrcMac(f));
      WriteBoth(EncodeRct(f, n, 0), EncodeRct(f, n, 1), io);
    }

    // ---------------------------------------------------------------- supervision and dispatch

    method HandleSupervisionFrame(now: int, port: Port, f: Frame)
      requires Supervision.IsAnnouncement(f) ==> |f| >= 26
      modifies this, dupTable
      ensures St() == Supervise(cfg, old(St()), now, port, f) && sent == old(sent)
    {
      var sup := Supervision.Parse(f);
      if sup.None? { return; }
      var a := sup.value;
      supSeen := supSeen[a.src := now];
      if cfg.IsHsr() && port != Interlink { ring := ring[a.src := now]; }
      if a.src in supSeqs && Regressed(supSeqs[a.src], a.seqNo) {
        var _ := dupTable.FlushFor(a.src);
      }
      supSeqs := supSeqs[a.src := a.seqNo];
    }

    method BridgeSupervision(port: Port, f: Frame, io: set<Port>)
      requires sent == map[]
      modifies this
      ensures var o := Bridge(cfg, old(St()), port, f, io); St() == o.st && sent == o.out
    {
      if cfg.IsQuadBox() {
        if port != Interlink {
          if cfg.hasInterlink { Write(Interlink, f, io); }
        } else {
          WriteBoth(f, f, io);
        }
      }
    }

    method HandleFrame(now: int, port: Port, f: Frame, io: set<Port>) returns (ghost victim: Key)
      requires Valid() && Safe(cfg, port, f)
      modifies this, dupTable, seqMgr
      ensures var o := NodeSpec.HandleFrame(cfg, old(St()), now, port, f, io, victim);
              && ValidChoice(cfg, old(St()), now, o.verdict, victim)
              && St() == o.st && sent == o.out
    {
      victim := Key([], ZERO);
      sent := map[];
      if |f| < 14 { return; }
      var et := GetEtherType(f);
      if et == PRP_SUFFIX && (port != Interlink || cfg.IsQuadBox()) {
        HandleSupervisionFrame(now, port, f);
        BridgeSupervision(port, f, io);
      } else {
        victim := DispatchData(now, port, f, io);
      }
    }

    method DispatchData(now: int, port: Port, f: Frame, io: set<Port>) returns (ghost victim: Key)
      requires sent == map[] && Valid()
      requires Safe(cfg, port, f) && |f| >= 14 && !IsSupervision(cfg, port, f)
      modifies this, dupTable, seqMgr
      ensures var o := Dispatch(cfg, old(St()), now, port, f, io, victim);
              && ValidChoice(cfg, old(St()), now, o.verdict, victim)
              && St() == o.st && sent == o.out
    {
      victim := Key([], ZERO);
      if port != Interlink {
        if cfg.IsHsr() {
          victim := HandleIncomingHsrFrame(now, port, f, io);
        } else {
          victim := HandleIncomingPrpFrame(now, port, f, io);
        }
      } else if cfg.IsQuadBox() {
        victim := HandleIncomingHsrFrame(now, Interlink, f, io);
      } else if cfg.IsHsr() {
        victim := HandleHsrInterlinkFrame(now, f, io);
      } else {
        HandleInterlinkFrame(now, f, io);
      }
    }

    /** Deletes the entries older than the cutoff, visiting them in any order. */
    static method Prune(m: map<Mac, int>, cutoff: int) returns (r: map<Mac, int>)
      ensures r == Recent(m, cutoff)
    {
      r := m;
      var rest := m.Keys;
      while rest != {}
        invariant rest <= r.Keys <= m.Keys
        invariant forall k :: k in r ==> r[k] == m[k]
        invariant forall k :: k in m && (k in rest || m[k] >= cutoff) ==> k in r
        invariant forall k :: k in r && m[k] < cutoff ==> k in rest
        decreases rest
      {
        var k :| k in rest;
        if r[k] < cutoff { r := r - {k}; }
        rest := rest - {k};
      }
    }

    method PeriodicCleanup(now: int)
      requires Valid()
      modifies this, dupTable
      ensures St() == NodeSpec.Cleanup(cfg, old(St()), now) && sent == old(sent)
    {
      var _ := dupTable.Cleanup(now);
      if supSeen == map[] { return; }
      var cutoff := now - cfg.NodeForgetMs();
      supSeen := Prune(supSeen, cutoff);
      ring := Prune(ring, cutoff);
    }

    /** A port write that is not counted. */
    method Transmit(port: Port, f: Frame, io: set<Port>)
      modifies this`sent
      ensures sent == Put(old(sent), port, f, io)
    {
      if port in io { sent := sent[port := f]; }
    }

    /** Announcements on both redundant ports and, if there is one, on the interlink. */
    method TransmitRound(a: Frame, b: Frame, c: Option<Frame>, io: set<Port>)
      modifies this`sent
      ensures sent == OnPorts(io, a, b, c)
    {
      sent := map[];
      Transmit(LanA, a, io);
      Transmit(LanB, b, io);
      if c.Some? { Transmit(Interlink, c.value, io); }
      ThreePuts(io, a, b, c);
    }

    method SendSupervisionFrame(io: set<Port>)
      requires Valid() && |cfg.mac| == 6
      modifies this`supSeq, this`sent
      ensures var o := Announce(cfg, old(St()), io); St() == o.st && sent == o.out
    {
      supSeq := Succ(supSeq);
      if !cfg.IsHsr() {
        var frameA := Supervision.BuildRcted(cfg.mac, supSeq, 0);
        var frameB := Supervision.BuildRcted(cfg.mac, supSeq, 1);
        TransmitRound(frameA, frameB, None, io);
        return;
      }
      var path := RingPath();
      var sup := Supervision.BuildHsr(cfg.mac, supSeq, path);
      var third: Option<Frame> := None;
      if cfg.IsQuadBox() && cfg.hasInterlink { third := Some(sup); }
      if cfg.IsCoupling() && cfg.hasInterlink { third := Some(Supervision.BuildRcted(cfg.mac, supSeq, cfg.Lan())); }
      TransmitRound(sup, sup, third, io);
    }
  }
}
