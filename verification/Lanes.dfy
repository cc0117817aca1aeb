/**
 * What exactly leaves the ring ports, octet by octet. A forwarded frame is the received
 * one with the lane bit of the port it leaves on (0 on LAN A, 1 on LAN B); a frame taken
 * from the other ring leaves with path 0; an injected frame carries the configured path.
 */
module Lanes {
  import opened Bytes
  import opened Engine
  import opened Role
  import opened NodeTable
  import opened NodeSpec
  import opened NodeRun
  import opened KeyFlow
  import Wire

  // ---------------------------------------------------------------- rewriting, octet by octet

  /** The frame with bit 4 of the octet at `off` replaced. */
  function Relaned(f: Frame, off: nat, lane: nat): Frame
    requires off < |f| && lane <= 1
  {
    f[off := f[off] - f[off] / 16 % 2 * 16 + lane * 16]
  }

  /** The frame with the upper four bits of the octet at `off` cleared. */
  function Repathed(f: Frame, off: nat): Frame
    requires off < |f|
  {
    f[off := f[off] % 16]
  }

  lemma RelaneOctet(w: Word, lane: nat)
    requires lane <= 1
    ensures var u := RelanedWord(w, lane);
            u.hi == w.hi - w.hi / 16 % 2 * 16 + lane * 16 && u.lo == w.lo
  {
  }

  lemma RepathOctet(w: Word)
    ensures var u := Pack(0, Low12(w)); u.hi == w.hi % 16 && u.lo == w.lo
  {
  }

  lemma PatchFirst(f: Frame, off: nat, u: Word, g: Frame)
    requires off + 2 <= |f| && u.lo == f[off + 1] && g == f[off := u.hi]
    ensures Patch16(f, off, u) == g
  {
    assert f[off := u.hi][off + 1 := u.lo] == f[off := u.hi];
  }

  /** The word a lane rewrite puts in place of `w`. */
  function RelanedWord(w: Word, lane: nat): Word
    requires lane <= 1
  {
    Pack(NetOf(High4(w)) * 2 + lane, Low12(w))
  }

  lemma RelanePatch(f: Frame, off: nat, lane: nat)
    requires off + 2 <= |f| && lane <= 1
    ensures Patch16(f, off, RelanedWord(Get16(f, off), lane)) == Relaned(f, off, lane)
  {
    RelaneOctet(Get16(f, off), lane);
    PatchFirst(f, off, RelanedWord(Get16(f, off), lane), Relaned(f, off, lane));
  }

  lemma RelaneFrame(f: Frame, laneA: bool)
    requires DecodeHsr(f).Some?
    ensures RewritePathLane(f, laneA) == Some(Relaned(f, TagOffset(f).value, if laneA then 0 else 1))
  {
    RelanePatch(f, TagOffset(f).value, if laneA then 0 else 1);
  }

  lemma RepathPatch(f: Frame, off: nat)
    requires off + 2 <= |f|
    ensures Patch16(f, off, Pack(0, Low12(Get16(f, off)))) == Repathed(f, off)
  {
    RepathOctet(Get16(f, off));
    PatchFirst(f, off, Pack(0, Low12(Get16(f, off))), Repathed(f, off));
  }

  lemma RepathFrame(f: Frame)
    requires DecodeHsr(f).Some?
    ensures RewritePath(f, 0) == Some(Repathed(f, TagOffset(f).value))
  {
    RepathPatch(f, TagOffset(f).value);
  }

  // ---------------------------------------------------------------- forwarding

  /** A tagged frame on an HSR port that the node has not registered and that is not its own. */
  predicate FirstCopy(cfg: Config, st: State, ev: Event) {
    && ev.Arrival? && ev.port in cfg.HsrPorts() && DecodeHsr(ev.frame).Some? && cfg.mac != SrcMac(ev.frame)
    && !Found(st.dup, Key(SrcMac(ev.frame), DecodeHsr(ev.frame).value.seqNo), ev.now)
  }

  lemma AcceptPort(cfg: Config, st: State, now: int, port: Port, v: RingView, io: set<Port>, victim: Key)
    requires v.laneA.Some? && v.laneB.Some? && port != Interlink
    ensures var out, q := HsrAccept(cfg, st, now, port, v, io, victim).out, if port == LanA then LanB else LanA;
            (q in out <==> q in io) && (q in out ==> out[q] == if q == LanA then v.laneA.value else v.laneB.value)
  {
  }

  lemma QuadBoxPorts(cfg: Config, st: State, now: int, v: RingView, io: set<Port>, victim: Key, q: Port)
    requires v.reset.Some?
    ensures var out := QuadBoxAccept(cfg, st, now, v, io, victim).out;
            (q in out <==> q in io && q != Interlink) && (q in out ==> out[q] == v.reset.value)
  {
  }

  lemma FirstCopyIsScreened(cfg: Config, st: State, ev: Event) returns (v: RingView)
    requires FirstCopy(cfg, st, ev)
    ensures Possible(cfg, ev) && v.key == Key(SrcMac(ev.frame), DecodeHsr(ev.frame).value.seqNo)
    ensures Step(cfg, st, ev) == if ev.port == Interlink then QuadBoxAccept(cfg, st.In(ev.port), ev.now, v, ev.io, ev.victim)
                                 else HsrAccept(cfg, st.In(ev.port), ev.now, ev.port, v, ev.io, ev.victim)
    ensures v.laneA == RewritePathLane(ev.frame, true) && v.laneB == RewritePathLane(ev.frame, false)
    ensures v.reset == RewritePath(ev.frame, 0)
  {
    v := ViewOf(cfg, st.In(ev.port), ev.now, ev.frame).value;
    TaggedIsPossible(cfg, ev);
    TaggedEtherType(ev.frame);
    HsrStep(cfg, st, ev);
  }

  /** A first copy on a ring port leaves on the other one, unchanged but for the lane bit of that port. */
  lemma ForwardedOctets(cfg: Config, st: State, ev: Event)
    requires FirstCopy(cfg, st, ev) && ev.port != Interlink
    ensures Possible(cfg, ev)
    ensures var out, q := Step(cfg, st, ev).out, if ev.port == LanA then LanB else LanA;
            && (q in out <==> q in ev.io)
            && (q in out ==> out[q] == Relaned(ev.frame, TagOffset(ev.frame).value, if q == LanA then 0 else 1))
  {
    var v := FirstCopyIsScreened(cfg, st, ev);
    RelaneFrame(ev.frame, true);
    RelaneFrame(ev.frame, false);
    RepathFrame(ev.frame);
    AcceptPort(cfg, st.In(ev.port), ev.now, ev.port, v, ev.io, ev.victim);
  }

  /** A first copy from the other ring leaves on both ring ports with its path cleared and nothing else changed. */
  lemma ReinjectedOctets(cfg: Config, st: State, ev: Event, q: Port)
    requires FirstCopy(cfg, st, ev) && ev.port == Interlink
    ensures Possible(cfg, ev)
    ensures var out := Step(cfg, st, ev).out;
            && (q in out <==> q in ev.io && q != Interlink)
            && (q in out ==> out[q] == Repathed(ev.frame, TagOffset(ev.frame).value))
  {
    var v := FirstCopyIsScreened(cfg, st, ev);
    RelaneFrame(ev.frame, true);
    RepathFrame(ev.frame);
    QuadBoxPorts(cfg, st.In(ev.port), ev.now, v, ev.io, ev.victim, q);
  }

  // ---------------------------------------------------------------- injection

  /** The path a node injects with, by its configuration: NetId and LAN bit of a coupling node, 0 for a SAN. */
  function ConfiguredPath(cfg: Config): nat {
    if cfg.role != HsrPrp then 0
    else (if cfg.netId > 0 then cfg.netId else 1) * 2 + if cfg.lanB then 1 else 0
  }

  /** Both ring ports get `f` with a tag of the configured path and number `n`. */
  ghost predicate Injects(cfg: Config, ev: Event, o: Outcome, n: Word)
    requires ev.Arrival? && |ev.frame| >= HeaderLen(ev.frame)
  {
    && o.verdict == Injected(Key(SrcMac(ev.frame), n))
    && (forall q :: q in o.out <==> q in ev.io && q != Interlink)
    && (forall q :: q in o.out ==> o.out[q] == Tagged(ev.frame, ConfiguredPath(cfg), n))
  }

  lemma LaunchPorts(cfg: Config, st: State, now: int, k: Key, w: Frame, io: set<Port>, victim: Key)
    ensures var o := Launch(cfg, st, now, k, w, io, victim);
            && o.verdict == Injected(k) && (forall q :: q in o.out <==> q in io && q != Interlink)
            && (forall q :: q in o.out ==> o.out[q] == w) && o.st.proxy == st.proxy && o.st.seqs == st.seqs
  {
  }

  lemma PathIsConfigured(cfg: Config)
    ensures InjectionPath(cfg) == ConfiguredPath(cfg)
  {
  }

  lemma LaunchInjects(cfg: Config, st: State, ev: Event, n: Word)
    requires ev.Arrival? && |ev.frame| >= HeaderLen(ev.frame)
    ensures var f := ev.frame;
            var o := Launch(cfg, st, ev.now, Key(SrcMac(f), n), Tagged(f, InjectionPath(cfg), n), ev.io, ev.victim);
            Injects(cfg, ev, o, n) && o.st.proxy == st.proxy
  {
    var f := ev.frame;
    PathIsConfigured(cfg);
    LaunchPorts(cfg, st, ev.now, Key(SrcMac(f), n), Tagged(f, InjectionPath(cfg), n), ev.io, ev.victim);
  }

  /** A SAN's frame always enters the ring, under the next number of its source, which is remembered as a SAN. */
  lemma SanFrameEnters(cfg: Config, st: State, ev: Event)
    requires cfg.role == HsrSan && ev.Arrival? && ev.port == Interlink && |ev.frame| >= HeaderLen(ev.frame)
    ensures Possible(cfg, ev) && Injects(cfg, ev, Step(cfg, st, ev), NextSeq(cfg, st, SrcMac(ev.frame)))
    ensures Step(cfg, st, ev).st.proxy == st.proxy[SrcMac(ev.frame) := ev.now]
  {
    var src := SrcMac(ev.frame);
    var s := st.In(Interlink).(proxy := st.proxy[src := ev.now]);
    LaunchInjects(cfg, TakeSeq(cfg, s, src), ev, NextSeq(cfg, s, src));
  }

  lemma CouplingStep(cfg: Config, st: State, ev: Event)
    requires cfg.role == HsrPrp && ev.Arrival? && ev.port == Interlink && |ev.frame| >= 14
    ensures Possible(cfg, ev)
    ensures DecodeRct(ev.frame).Some? ==> |ev.frame| >= HeaderLen(ev.frame)
    ensures var f, src := ev.frame, SrcMac(ev.frame);
            var s := st.In(Interlink).(proxy := st.proxy[src := ev.now]);
            Step(cfg, st, ev) == match DecodeRct(f)
                                 case None => Refuse(s, Malformed)
                                 case Some(r) => Launch(cfg, s, ev.now, Key(src, r.seqNo),
                                                        Tagged(f, InjectionPath(cfg), r.seqNo), ev.io, ev.victim)
  {
  }

  /** A frame from the PRP LAN enters exactly if it has an RCT, under the number in it; either way its source is remembered. */
  lemma LanFrameEnters(cfg: Config, st: State, ev: Event)
    requires cfg.role == HsrPrp && ev.Arrival? && ev.port == Interlink && |ev.frame| >= 14
    ensures Possible(cfg, ev) && Step(cfg, st, ev).st.proxy == st.proxy[SrcMac(ev.frame) := ev.now]
    ensures DecodeRct(ev.frame).Some? ==>
              |ev.frame| >= HeaderLen(ev.frame) && Injects(cfg, ev, Step(cfg, st, ev), DecodeRct(ev.frame).value.seqNo)
    ensures DecodeRct(ev.frame).None? ==>
              Step(cfg, st, ev).verdict == Refused(Malformed) && Step(cfg, st, ev).out == map[]
  {
    CouplingStep(cfg, st, ev);
    var s := st.In(Interlink).(proxy := st.proxy[SrcMac(ev.frame) := ev.now]);
    if DecodeRct(ev.frame).Some? {
      LaunchInjects(cfg, s, ev, DecodeRct(ev.frame).value.seqNo);
    } else {
      assert Step(cfg, st, ev) == Refuse(s, Malformed);
    }
  }
}
