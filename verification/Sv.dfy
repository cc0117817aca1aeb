/** internal/iec/sv.go: building and parsing sampled-value APDUs (IEC 61850-9-2). */
module Sv {
  import opened Bytes
  import opened Ber
  import opened Apdu

  const TAG: byte := 0x60

  function Asdu(smpCnt: Word, confRev: Word, svId: Frame): seq<Field> {
    [Field(0x80, svId), Field(0x81, Put16(smpCnt)), Field(0x82, Put16(confRev)),
     Field(0x83, [0x00]), Field(0x84, [0x12, 0xc0]), Field(0x85, [0x00, 0x00])]
  }

  /** The security field has the same tag as the sample count inside the ASDU. */
  function Items(asdu: Frame): seq<Field> {
    [Field(0x80, [0x01, 0x01, 0x01]), Field(0x81, [0x00, 0x00]), Field(0xa2, asdu)]
  }

  ghost predicate Fits(smpCnt: Word, confRev: Word, svId: Frame) {
    var asdu := Asdu(smpCnt, confRev, svId);
    Small(asdu) && Small(Items(Flatten(asdu))) && |Flatten(Items(Flatten(asdu)))| < INT_LIMIT
  }

  function Encoded(smpCnt: Word, confRev: Word, svId: Frame): Frame
    requires Fits(smpCnt, confRev, svId)
  {
    Tlv(TAG, Flatten(Items(Flatten(Asdu(smpCnt, confRev, svId)))))
  }

  method BuildSvApdu(smpCnt: Word, confRev: Word, svId: Frame) returns (apdu: Frame)
    requires Fits(smpCnt, confRev, svId)
    ensures apdu == Encoded(smpCnt, confRev, svId)
  {
    var asdu := Assemble(Asdu(smpCnt, confRev, svId));
    apdu := Wrap(TAG, Items(asdu));
  }

  /** The sample count found so far, or a slice out of range. */
  datatype Count = Count(smpCnt: Option<Word>) | Panicked

  /** The last 0x81 field of two bytes wins. */
  function CountIn(c: Option<Word>, fs: seq<Field>): Option<Word> {
    if fs == [] then c
    else
      var f := fs[|fs| - 1];
      if f.tag == 0x81 && |f.payload| == 2 then Number(f.payload) else CountIn(c, fs[..|fs| - 1])
  }

  function CountAfter(c: Option<Word>, f: Field): Count {
    if f.tag == 0x81 && |f.payload| == 2 then Count(Number(f.payload))
    else if f.tag != 0xa2 then Count(c)
    else match Fields(f.payload)
      case Crashed => Panicked
      case Visited(fs) => Count(CountIn(c, fs))
  }

  function CountAll(fs: seq<Field>): Count {
    if fs == [] then Count(None)
    else match CountAll(fs[..|fs| - 1])
      case Panicked => Panicked
      case Count(c) => CountAfter(c, fs[|fs| - 1])
  }

  /** A walk that crashes later still panics; so does one in which an earlier ASDU did. */
  function Parsed(apdu: Frame): Count {
    match Open(apdu, TAG, false)
    case Refused => Count(None)
    case Panic => Panicked
    case Inside(data) =>
      match Fields(data)
      case Crashed => Panicked
      case Visited(fs) => CountAll(fs)
  }

  lemma CountLast(fs: seq<Field>, f: Field)
    ensures CountAll(fs + [f]) == match CountAll(fs) case Panicked => Panicked case Count(c) => CountAfter(c, f)
    ensures forall c :: CountIn(c, fs + [f])
                        == if f.tag == 0x81 && |f.payload| == 2 then Number(f.payload) else CountIn(c, fs)
  {
    assert (fs + [f])[..|fs|] == fs;
  }

  method WalkAsdu(asdu: Frame, c: Option<Word>) returns (r: Count)
    ensures r == CountAfter(c, Field(0xa2, asdu))
  {
    var rest, n := asdu, c;
    ghost var done: seq<Field> := [];
    WalkStarts(rest);
    while rest != []
      invariant n == CountIn(c, done) && Underway(asdu, done, rest)
      decreases |rest|
    {
      var e := ParseTlv(rest);
      WalkStep(asdu, done, rest);
      if e.Crash? { return Panicked; }
      if e.Malformed? { return Count(n); }
      CountLast(done, Field(e.tag, e.payload));
      if e.tag == 0x81 && |e.payload| == 2 { n := Number(e.payload); }
      rest, done := e.rest, done + [Field(e.tag, e.payload)];
    }
    WalkEnds(asdu, done);
    return Count(n);
  }

  /** Once an ASDU made the walk panic, the whole parse does. */
  lemma {:induction false} PanicStays(fs: seq<Field>, more: seq<Field>)
    requires CountAll(fs) == Panicked
    ensures CountAll(fs + more) == Panicked
    decreases |more|
  {
    if more == [] {
      assert fs + more == fs;
    } else {
      var n := |more| - 1;
      PanicStays(fs, more[..n]);
      assert fs + more == (fs + more[..n]) + [more[n]];
      CountLast(fs + more[..n], more[n]);
    }
  }

  method ParseSvApdu(apdu: Frame) returns (r: Count)
    ensures r == Parsed(apdu)
  {
    var outer := OpenApdu(apdu, TAG, false);
    if outer.Refused? { return Count(None); }
    if outer.Panic? { return Panicked; }
    var data, rest := outer.data, outer.data;
    r := Count(None);
    ghost var done: seq<Field> := [];
    WalkStarts(rest);
    while rest != []
      invariant r == CountAll(done) && r.Count? && Underway(data, done, rest)
      decreases |rest|
    {
      var e := ParseTlv(rest);
      WalkStep(data, done, rest);
      if e.Crash? { return Panicked; }
      if e.Malformed? { return; }
      ghost var f := Field(e.tag, e.payload);
      CountLast(done, f);
      if e.tag == 0x81 {
        if |e.payload| == 2 { r := Count(Number(e.payload)); }
      } else if e.tag == 0xa2 {
        r := WalkAsdu(e.payload, r.smpCnt);
        if r.Panicked? {
          if Fields(e.rest).Visited? { PanicStays(done + [f], Fields(e.rest).fields); }
          return;
        }
      }
      rest, done := e.rest, done + [f];
    }
    WalkEnds(data, done);
  }

  /** The sample count is recovered although the security field, of the same tag and size, comes first. */
  lemma SvRoundTrip(smpCnt: Word, confRev: Word, svId: Frame, rest: Frame)
    requires Fits(smpCnt, confRev, svId) && |Encoded(smpCnt, confRev, svId) + rest| < INT_LIMIT
    ensures Parsed(Encoded(smpCnt, confRev, svId) + rest) == Count(Some(smpCnt))
  {
    var asdu := Asdu(smpCnt, confRev, svId);
    var items := Items(Flatten(asdu));
    OpenRoundTrip(TAG, items, rest, false);
    WalkVisitsAll(items);
    assert |items[2].payload| < INT_LIMIT;
    WalkVisitsAll(asdu);
    AsduCount(smpCnt, confRev, svId, Some(ZERO));
    ItemsCount(Flatten(asdu));
  }

  lemma ItemsCount(asdu: Frame)
    ensures CountAll(Items(asdu)) == CountAfter(Some(ZERO), Field(0xa2, asdu))
  {
    var items := Items(asdu);
    CountLast([], items[0]);
    CountLast([items[0]], items[1]);
    CountLast([items[0], items[1]], items[2]);
    assert [] + [items[0]] == [items[0]] && [items[0]] + [items[1]] == [items[0], items[1]];
    assert [items[0], items[1]] + [items[2]] == items;
  }

  lemma AsduCount(smpCnt: Word, confRev: Word, svId: Frame, c: Option<Word>)
    ensures CountIn(c, Asdu(smpCnt, confRev, svId)) == Some(smpCnt)
  {
    var asdu := Asdu(smpCnt, confRev, svId);
    var a, b := asdu[..2], asdu[..3];
    assert a == asdu[..1] + [asdu[1]];
    CountLast(asdu[..1], asdu[1]);
    CountLast(asdu[..2], asdu[2]);
    CountLast(asdu[..3], asdu[3]);
    CountLast(asdu[..4], asdu[4]);
    CountLast(asdu[..5], asdu[5]);
    assert asdu[..2] + [asdu[2]] == asdu[..3];
    assert asdu[..3] + [asdu[3]] == asdu[..4];
    assert asdu[..4] + [asdu[4]] == asdu[..5];
    assert asdu[..5] + [asdu[5]] == asdu;
  }

  /** Which argument each tag of the ASDU carries, and the constants around them. */
  function InAsdu(smpCnt: Word, confRev: Word, svId: Frame, tag: byte): Option<Frame> {
    match tag
    case 0x80 => Some(svId)
    case 0x81 => Some([smpCnt.hi, smpCnt.lo])
    case 0x82 => Some([confRev.hi, confRev.lo])
    case 0x83 => Some([0x00])
    case 0x84 => Some([0x12, 0xc0])
    case 0x85 => Some([0x00, 0x00])
    case _ => None
  }

  lemma PickInAsdu(smpCnt: Word, confRev: Word, svId: Frame, tag: byte)
    ensures Pick(Asdu(smpCnt, confRev, svId), tag) == InAsdu(smpCnt, confRev, svId, tag)
  {
    var asdu := Asdu(smpCnt, confRev, svId);
    if 0x80 <= tag <= 0x85 {
      PickAt(asdu, tag - 0x80);
    } else {
      PickNothing(asdu, tag);
    }
  }

  /** Any reader that walks the built APDU finds one ASDU and, in it, each argument under its own tag. */
  lemma SvCarries(smpCnt: Word, confRev: Word, svId: Frame, tag: byte)
    requires Fits(smpCnt, confRev, svId) && |Encoded(smpCnt, confRev, svId)| < INT_LIMIT
    ensures var apdu := Encoded(smpCnt, confRev, svId);
            && Lookup(apdu, 0x60, 0x80) == Some([0x01, 0x01, 0x01]) && Lookup(apdu, 0x60, 0x81) == Some([0x00, 0x00])
            && Lookup(apdu, 0x60, 0xa2).Some?
            && Inner(Lookup(apdu, 0x60, 0xa2).value, tag) == InAsdu(smpCnt, confRev, svId, tag)
  {
    var asdu := Asdu(smpCnt, confRev, svId);
    var items := Items(Flatten(asdu));
    OpenRoundTrip(TAG, items, [], true);
    assert Encoded(smpCnt, confRev, svId) + [] == Encoded(smpCnt, confRev, svId);
    WalkVisitsAll(items);
    PickAt(items, 0);
    PickAt(items, 1);
    PickAt(items, 2);
    assert |items[2].payload| < INT_LIMIT;
    WalkVisitsAll(asdu);
    PickInAsdu(smpCnt, confRev, svId, tag);
  }

  /** The SV parser does not check that the payload is there: an APDU cut inside it makes the source panic. */
  lemma CutApduPanics(payload: Frame, n: nat)
    requires |payload| < INT_LIMIT && 1 + |LengthBytes(|payload|)| <= n < |Tlv(0x60, payload)| < INT_LIMIT
    ensures Parsed(Tlv(0x60, payload)[..n]) == Panicked
  {
    CutPayload(0x60, payload, n, false);
  }
}
