/**
 * The SAN forwarding policy (`forward_all = false`): broadcast always, other
 * multicast by the configured prefix, unicast to SANs learned behind the interlink.
 * A prp-san node applies it to the frame. An hsr-san node applies it to the bare
 * payload, so it decides by the first six payload octets instead of the destination.
 */
module SanPolicy {
  import opened Bytes
  import opened Engine
  import opened Role
  import opened NodeTable
  import opened NodeSpec
  import opened NodeRun
  import opened KeyFlow
  import opened Delivery
  import opened MulticastPattern

  const BROADCAST: Mac := [0xff, 0xff, 0xff, 0xff, 0xff, 0xff]

  /** A SAN seen behind the interlink within the proxy forget time. */
  predicate LiveSan(cfg: Config, st: State, now: int, dst: Mac) {
    dst in st.proxy && now - st.proxy[dst] <= cfg.ProxyForgetMs()
  }

  /** The policy as documented: a matter of the destination address alone. */
  predicate Wanted(cfg: Config, st: State, now: int, dst: Mac) {
    || cfg.forwardAll
    || (if Multicast(dst) then dst == BROADCAST || Prefix(cfg.multicastFirstOctet) <= dst
        else LiveSan(cfg, st, now, dst))
  }

  lemma PrefixIsShort(pattern: string)
    ensures |Prefix(pattern)| <= 6
  {
    PatternAgreement(pattern);
  }

  /** The filter reads the first six octets it is given as a destination address and nothing else. */
  lemma FilterReadsSixOctets(cfg: Config, st: State, now: int, f: Frame)
    requires |f| >= 6
    ensures ShouldForward(cfg, st, now, f) == Wanted(cfg, st, now, f[..6])
  {
    PrefixIsShort(cfg.multicastFirstOctet);
    var p, dst := Prefix(cfg.multicastFirstOctet), f[..6];
    assert f[..|p|] == dst[..|p|];
    assert Broadcast(f) <==> dst == BROADCAST;
  }

  /** The start of a payload, read as if it were a destination, passes the filter. */
  predicate StartPasses(cfg: Config, st: State, now: int, payload: Frame) {
    if Multicast(payload) then BROADCAST <= payload || Prefix(cfg.multicastFirstOctet) <= payload
    else LiveSan(cfg, st, now, DstMac(payload))
  }

  lemma FilterOnPayload(cfg: Config, st: State, now: int, payload: Frame)
    ensures ShouldForward(cfg, st, now, payload) <==> cfg.forwardAll || StartPasses(cfg, st, now, payload)
  {
    assert Broadcast(payload) <==> BROADCAST <= payload by {
      assert |payload| >= 6 ==> (payload[..6] == BROADCAST <==> Broadcast(payload));
    }
  }

  /**
   * Exactly when an accepting hsr-san node follows the policy for the frame: if
   * everything is forwarded; or the frame is wanted and its payload happens to start
   * like a destination that passes; or it is not wanted and its payload does not.
   */
  lemma PolicyFollowedIff(cfg: Config, st: State, now: int, out: map<Port, Frame>, k: Key, f: Frame, m: nat)
    requires |f| >= HeaderLen(f) && cfg.role == HsrSan && Hands(cfg, st, now, out, k, f, m)
    requires LeavesRing(st, Multicast(f), DstMac(f), k.src)
    ensures var p := f[HeaderLen(f)..];
            (Interlink in out <==> Wanted(cfg, st, now, DstMac(f))) <==>
              || cfg.forwardAll
              || (Wanted(cfg, st, now, DstMac(f)) && StartPasses(cfg, st, now, p))
              || (!Wanted(cfg, st, now, DstMac(f)) && !StartPasses(cfg, st, now, p))
  {
    FilterOnPayload(cfg, st, now, f[HeaderLen(f)..]);
  }

  /**
   * Broadcast is promised to pass always. At an hsr-san node it does if and only if
   * everything is forwarded, or the payload starts with an odd octet and is itself
   * like a broadcast or matches the pattern, or it starts with the address of a SAN.
   */
  lemma BroadcastPassesIff(cfg: Config, st: State, now: int, out: map<Port, Frame>, k: Key, f: Frame, m: nat)
    requires |f| >= HeaderLen(f) && cfg.role == HsrSan && Hands(cfg, st, now, out, k, f, m) && DstMac(f) == BROADCAST
    ensures Wanted(cfg, st, now, DstMac(f))
    ensures var p := f[HeaderLen(f)..];
            Interlink in out <==>
              || cfg.forwardAll
              || (Multicast(p) && (BROADCAST <= p || Prefix(cfg.multicastFirstOctet) <= p))
              || (!Multicast(p) && LiveSan(cfg, st, now, DstMac(p)))
  {
    FilterOnPayload(cfg, st, now, f[HeaderLen(f)..]);
  }

  /** What an hsr-san node does with a first copy of `f` on a ring port. */
  lemma FirstCopyAtSan(cfg: Config, st: State, ev: Event, f: Frame, n: Word)
    requires cfg.role == HsrSan && Fits(f) && cfg.mac != SrcMac(f) && ev.Arrival? && !Found(st.dup, Key(SrcMac(f), n), ev.now)
    requires ev.port == LanA && ev.frame == Tagged(f, 0, n) && ev.io == ALL
    ensures Possible(cfg, ev) && Step(cfg, st, ev).verdict == Accepted(Key(SrcMac(f), n))
    ensures Interlink in Step(cfg, st, ev).out <==>
              LeavesRing(st, Multicast(f), DstMac(f), SrcMac(f)) && ShouldForward(cfg, st, ev.now, f[HeaderLen(f)..])
  {
    TaggedCarries(cfg, f, n);
    TaggedIsPossible(cfg, ev);
    StepArrivalFlow(cfg, st, ev);
    FlowAtSan(cfg, st, ev, InjectedTag(cfg, f, n), Step(cfg, st, ev));
  }

  lemma FlowAtSan(cfg: Config, st: State, ev: Event, t: Tag, o: Outcome)
    requires cfg.role == HsrSan && ev.Arrival? && ev.port == LanA && cfg.mac != t.key.src && !Found(st.dup, t.key, ev.now)
    requires ArrivalFlow(cfg, st, ev.now, ev.port, Some(t), o)
    ensures o.verdict == Accepted(t.key)
    ensures Interlink in o.out <==>
              LeavesRing(st, t.multicast, t.dst, t.key.src) && ShouldForward(cfg, st, ev.now, t.payload)
  {
  }

  lemma EvenIsRefused(cfg: Config, st: State, now: int, f: Frame)
    requires !cfg.forwardAll && st.proxy == map[]
    requires Fits(f) && DstMac(f) == BROADCAST && !Multicast(f[HeaderLen(f)..])
    ensures Wanted(cfg, st, now, DstMac(f)) && !ShouldForward(cfg, st, now, f[HeaderLen(f)..])
  {
    FilterOnPayload(cfg, st, now, f[HeaderLen(f)..]);
  }

  /**
   * A node that has not learned a SAN yet accepts a broadcast whose payload starts with
   * an even octet from the ring and withholds it, for every pattern, although the policy
   * wants it.
   */
  lemma EvenBroadcastIsWithheld(cfg: Config, st: State, ev: Event, f: Frame, n: Word)
    requires cfg.role == HsrSan && !cfg.forwardAll && st.proxy == map[] && cfg.mac != SrcMac(f)
    requires Fits(f) && DstMac(f) == BROADCAST && !Multicast(f[HeaderLen(f)..])
    requires ev.Arrival? && ev.port == LanA && ev.frame == Tagged(f, 0, n) && ev.io == ALL
    requires !Found(st.dup, Key(SrcMac(f), n), ev.now)
    ensures Wanted(cfg, st, ev.now, DstMac(f)) && Possible(cfg, ev)
    ensures Step(cfg, st, ev).verdict == Accepted(Key(SrcMac(f), n)) && Interlink !in Step(cfg, st, ev).out
  {
    EvenIsRefused(cfg, st, ev.now, f);
    FirstCopyAtSan(cfg, st, ev, f, n);
  }

  /** The start of an ARP request from SAN 02:00:00:00:00:01. */
  const ARP_REQUEST: Frame :=
    BROADCAST + [0x02, 0x00, 0x00, 0x00, 0x00, 0x01] + [0x08, 0x06] + [0x00, 0x01, 0x08, 0x00, 0x06, 0x04, 0x00, 0x01]

  /** It is such a frame. */
  lemma ArpIsEvenBroadcast()
    ensures Fits(ARP_REQUEST) && DstMac(ARP_REQUEST) == BROADCAST
    ensures !Multicast(ARP_REQUEST[HeaderLen(ARP_REQUEST)..])
  {
    var f := ARP_REQUEST;
    assert Get16(f, 12) == Word(0x08, 0x06) && f[14..][0] == 0x00;
    assert f[..6] == BROADCAST;
  }
}
