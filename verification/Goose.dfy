/** internal/iec/goose.go: building and parsing GOOSE APDUs (IEC 61850-8-1). */
module Goose {
  import opened Bytes
  import opened Ber
  import opened Apdu
  import Utc

  const TAG: byte := 0x61

  function Items(stNum: Word, sqNum: Word, t: Frame, test: bool, confRev: Word,
                 gcbRef: Frame, datSet: Frame, goId: Frame): seq<Field>
  {
    [Field(0x80, gcbRef), Field(0x81, [0x07, 0xd0]), Field(0x82, datSet), Field(0x83, goId),
     Field(0x84, t), Field(0x85, Put16(stNum)), Field(0x86, Put16(sqNum)),
     Field(0x87, Boolean(test)), Field(0x88, Put16(confRev)), Field(0x89, Boolean(false)),
     Field(0x8a, [0x01]), Field(0xab, Boolean(test))]
  }

  method BuildGooseApdu(stNum: Word, sqNum: Word, t: Utc.Time, test: bool, confRev: Word,
                        gcbRef: Frame, datSet: Frame, goId: Frame) returns (apdu: Frame)
    requires t.Valid() && Small(Items(stNum, sqNum, Utc.Encode(t), test, confRev, gcbRef, datSet, goId))
    requires |Flatten(Items(stNum, sqNum, Utc.Encode(t), test, confRev, gcbRef, datSet, goId))| < INT_LIMIT
    ensures apdu == Tlv(TAG, Flatten(Items(stNum, sqNum, Utc.Encode(t), test, confRev, gcbRef, datSet, goId)))
  {
    var time := Utc.EncodeUtcTime(t);
    apdu := Wrap(TAG, Items(stNum, sqNum, time[..], test, confRev, gcbRef, datSet, goId));
  }

  /** What the walk has found so far. */
  datatype Found = Found(stNum: Option<Word>, sqNum: Option<Word>, t: Utc.Time, allData: Option<bool>)

  const NOTHING := Found(None, None, Utc.ZERO_TIME, None)

  function Note(g: Found, f: Field): Found {
    match f.tag
    case 0x85 => if |f.payload| == 2 then g.(stNum := Number(f.payload)) else g
    case 0x86 => if |f.payload| == 2 then g.(sqNum := Number(f.payload)) else g
    case 0x84 => if |f.payload| == 8 then g.(t := Utc.Decode(f.payload)) else g
    case 0xab =>
      if |f.payload| == 3 && f.payload[0] == 0x01 && f.payload[1] == 0x01
      then g.(allData := Some(f.payload[2] != 0x00)) else g
    case _ => g
  }

  function NoteAll(fs: seq<Field>): Found {
    if fs == [] then NOTHING else Note(NoteAll(fs[..|fs| - 1]), fs[|fs| - 1])
  }

  datatype Result =
    | Message(stNum: Word, sqNum: Word, t: Utc.Time, allData: bool, ok: bool)
    | Panicked

  function ValueOr<T>(o: Option<T>, d: T): T { if o.Some? then o.value else d }

  function Report(g: Found): Result {
    Message(ValueOr(g.stNum, ZERO), ValueOr(g.sqNum, ZERO), g.t, ValueOr(g.allData, false),
            g.stNum.Some? && g.sqNum.Some? && g.allData.Some?)
  }

  function Parsed(apdu: Frame): Result {
    match Open(apdu, TAG, true)
    case Refused => Report(NOTHING)
    case Panic => Panicked
    case Inside(data) =>
      match Fields(data)
      case Crashed => Panicked
      case Visited(fs) => Report(NoteAll(fs))
  }

  method ParseGooseApdu(apdu: Frame) returns (r: Result)
    ensures r == Parsed(apdu)
  {
    var outer := OpenApdu(apdu, TAG, true);
    if outer.Refused? { return Report(NOTHING); }
    if outer.Panic? { return Panicked; }
    var rest, g := outer.data, NOTHING;
    ghost var done: seq<Field> := [];
    WalkStarts(rest);
    while rest != []
      invariant g == NoteAll(done) && Underway(outer.data, done, rest)
      decreases |rest|
    {
      var e := ParseTlv(rest);
      WalkStep(outer.data, done, rest);
      if e.Crash? { return Panicked; }
      if e.Malformed? { return Report(g); }
      var f := Field(e.tag, e.payload);
      NoteLast(done, f);
      g, rest, done := Note(g, f), e.rest, done + [f];
    }
    WalkEnds(outer.data, done);
    return Report(g);
  }

  lemma NoteLast(fs: seq<Field>, f: Field)
    ensures NoteAll(fs + [f]) == Note(NoteAll(fs), f)
  {
    assert (fs + [f])[..|fs|] == fs;
  }

  // ---------------------------------------------------------------- what the walk reports

  /** The last field the parser takes for `tag`: of the right size, and for the data a Boolean. */
  predicate WellFormed(f: Field, tag: byte) {
    && f.tag == tag && |f.payload| == (if tag == 0x84 then 8 else if tag == 0xab then 3 else 2)
    && (tag == 0xab ==> f.payload[0] == 0x01 && f.payload[1] == 0x01)
  }

  function LastOf(fs: seq<Field>, tag: byte): (r: Option<Field>)
    ensures r.Some? ==> WellFormed(r.value, tag)
  {
    if fs == [] then None
    else if WellFormed(fs[|fs| - 1], tag) then Some(fs[|fs| - 1])
    else LastOf(fs[..|fs| - 1], tag)
  }

  ghost predicate Reports(g: Found, fs: seq<Field>) {
    && (g.stNum == match LastOf(fs, 0x85) case None => None case Some(f) => Number(f.payload))
    && (g.sqNum == match LastOf(fs, 0x86) case None => None case Some(f) => Number(f.payload))
    && (g.t == match LastOf(fs, 0x84) case None => Utc.ZERO_TIME case Some(f) => Utc.Decode(f.payload))
    && (g.allData.Some? <==> LastOf(fs, 0xab).Some?)
    && (g.allData.Some? ==> g.allData.value == (LastOf(fs, 0xab).value.payload[2] != 0))
  }

  /** Each value reported is that of the last well-formed field with its tag, whatever the walk visits. */
  lemma {:induction false} LastFieldWins(fs: seq<Field>)
    ensures Reports(NoteAll(fs), fs)
  {
    if fs != [] { LastFieldWins(fs[..|fs| - 1]); }
  }

  /** `f` is where a value of the message comes from; without it the value is zero. */
  predicate Numbered(w: Word, f: Option<Field>) {
    if f.None? then w == ZERO else |f.value.payload| == 2 && w == Word(f.value.payload[0], f.value.payload[1])
  }

  /**
   * What the parser returns for any input: a value for each of the last well-formed fields,
   * zero for a missing one, and success exactly if both numbers and the data are there.
   */
  lemma GooseReports(apdu: Frame)
    ensures Open(apdu, 0x61, true).Refused? ==> Parsed(apdu) == Message(ZERO, ZERO, Utc.ZERO_TIME, false, false)
    ensures Open(apdu, 0x61, true).Panic? ==> Parsed(apdu) == Panicked
    ensures Open(apdu, 0x61, true).Inside? ==>
              match Fields(Open(apdu, 0x61, true).data)
              case Crashed => Parsed(apdu) == Panicked
              case Visited(fs) =>
                var r := Parsed(apdu);
                && r.Message? && Numbered(r.stNum, LastOf(fs, 0x85)) && Numbered(r.sqNum, LastOf(fs, 0x86))
                && r.t == (match LastOf(fs, 0x84) case None => Utc.ZERO_TIME case Some(f) => Utc.Decode(f.payload))
                && (r.ok <==> LastOf(fs, 0x85).Some? && LastOf(fs, 0x86).Some? && LastOf(fs, 0xab).Some?)
                && (r.allData <==> LastOf(fs, 0xab).Some? && LastOf(fs, 0xab).value.payload[2] != 0)
  {
    var o := Open(apdu, 0x61, true);
    if o.Inside? && Fields(o.data).Visited? { LastFieldWins(Fields(o.data).fields); }
  }

  /** An APDU cut inside its payload is refused. */
  lemma CutApduIsRefused(payload: Frame, n: nat)
    requires |payload| < INT_LIMIT && 1 + |LengthBytes(|payload|)| <= n < |Tlv(0x61, payload)| < INT_LIMIT
    ensures Parsed(Tlv(0x61, payload)[..n]) == Message(ZERO, ZERO, Utc.ZERO_TIME, false, false)
  {
    CutPayload(0x61, payload, n, true);
  }

  lemma NoteItems(stNum: Word, sqNum: Word, t: Frame, test: bool, confRev: Word,
                  gcbRef: Frame, datSet: Frame, goId: Frame)
    requires |t| == 8
    ensures NoteAll(Items(stNum, sqNum, t, test, confRev, gcbRef, datSet, goId))
            == Found(Some(stNum), Some(sqNum), Utc.Decode(t), Some(test))
  {
    var items := Items(stNum, sqNum, t, test, confRev, gcbRef, datSet, goId);
    Skips(items, 0, 4);
    NoteNext(items, 4);
    NoteNext(items, 5);
    NoteNext(items, 6);
    Skips(items, 7, 11);
    NoteNext(items, 11);
    assert items[..12] == items;
  }

  lemma NoteNext(items: seq<Field>, i: nat)
    requires i < |items|
    ensures NoteAll(items[..i + 1]) == Note(NoteAll(items[..i]), items[i])
  {
    assert items[..i + 1] == items[..i] + [items[i]];
    NoteLast(items[..i], items[i]);
  }

  /** Fields the parser does not know change nothing. */
  lemma {:induction false} Skips(items: seq<Field>, i: nat, j: nat)
    requires i <= j <= |items| && forall x :: i <= x < j ==> items[x].tag !in {0x84, 0x85, 0x86, 0xab}
    ensures NoteAll(items[..j]) == NoteAll(items[..i])
    decreases j - i
  {
    if i < j {
      Skips(items, i, j - 1);
      NoteNext(items, j - 1);
    }
  }

  /**
   * Parsing what was built recovers both numbers and the data value, and the time up
   * to its encoding, for any strings and whatever bytes follow the APDU.
   */
  lemma GooseRoundTrip(stNum: Word, sqNum: Word, t: Utc.Time, test: bool, confRev: Word,
                       gcbRef: Frame, datSet: Frame, goId: Frame, rest: Frame)
    requires t.Valid()
    requires var items := Items(stNum, sqNum, Utc.Encode(t), test, confRev, gcbRef, datSet, goId);
             Small(items) && |Flatten(items)| < INT_LIMIT && |Tlv(TAG, Flatten(items)) + rest| < INT_LIMIT
    ensures var items := Items(stNum, sqNum, Utc.Encode(t), test, confRev, gcbRef, datSet, goId);
            Parsed(Tlv(TAG, Flatten(items)) + rest)
            == Message(stNum, sqNum, Utc.Decode(Utc.Encode(t)), test, true)
  {
    var items := Items(stNum, sqNum, Utc.Encode(t), test, confRev, gcbRef, datSet, goId);
    OpenRoundTrip(TAG, items, rest, true);
    WalkVisitsAll(items);
    NoteItems(stNum, sqNum, Utc.Encode(t), test, confRev, gcbRef, datSet, goId);
  }

  /** Which argument each tag carries, and the constants of the other fields. */
  function Carried(stNum: Word, sqNum: Word, t: Frame, test: bool, confRev: Word,
                   gcbRef: Frame, datSet: Frame, goId: Frame, tag: byte): Option<Frame>
  {
    match tag
    case 0x80 => Some(gcbRef)
    case 0x82 => Some(datSet)
    case 0x83 => Some(goId)
    case 0x84 => Some(t)
    case 0x85 => Some([stNum.hi, stNum.lo])
    case 0x86 => Some([sqNum.hi, sqNum.lo])
    case 0x88 => Some([confRev.hi, confRev.lo])
    case 0x87 => Some(if test then [0x01, 0x01, 0xff] else [0x01, 0x01, 0x00])
    case 0xab => Some(if test then [0x01, 0x01, 0xff] else [0x01, 0x01, 0x00])
    case 0x89 => Some([0x01, 0x01, 0x00])
    case 0x81 => Some([0x07, 0xd0])
    case 0x8a => Some([0x01])
    case _ => None
  }

  lemma PickItems(stNum: Word, sqNum: Word, t: Frame, test: bool, confRev: Word,
                  gcbRef: Frame, datSet: Frame, goId: Frame, i: nat)
    requires i < 12
    ensures var items := Items(stNum, sqNum, t, test, confRev, gcbRef, datSet, goId);
            Pick(items, items[i].tag) == Some(items[i].payload)
            == Carried(stNum, sqNum, t, test, confRev, gcbRef, datSet, goId, items[i].tag)
  {
    PickAt(Items(stNum, sqNum, t, test, confRev, gcbRef, datSet, goId), i);
  }

  lemma PickByTag(stNum: Word, sqNum: Word, t: Frame, test: bool, confRev: Word,
                  gcbRef: Frame, datSet: Frame, goId: Frame, tag: byte)
    ensures Pick(Items(stNum, sqNum, t, test, confRev, gcbRef, datSet, goId), tag)
            == Carried(stNum, sqNum, t, test, confRev, gcbRef, datSet, goId, tag)
  {
    var items := Items(stNum, sqNum, t, test, confRev, gcbRef, datSet, goId);
    if 0x80 <= tag <= 0x8a {
      PickItems(stNum, sqNum, t, test, confRev, gcbRef, datSet, goId, tag - 0x80);
    } else if tag == 0xab {
      PickItems(stNum, sqNum, t, test, confRev, gcbRef, datSet, goId, 11);
    } else {
      PickNothing(items, tag);
    }
  }

  /** Any reader that walks the built APDU finds each argument under its own tag, and nothing under other tags. */
  lemma GooseCarries(stNum: Word, sqNum: Word, t: Utc.Time, test: bool, confRev: Word,
                     gcbRef: Frame, datSet: Frame, goId: Frame, tag: byte)
    requires t.Valid()
    requires var items := Items(stNum, sqNum, Utc.Encode(t), test, confRev, gcbRef, datSet, goId);
             Small(items) && |Flatten(items)| < INT_LIMIT && |Tlv(TAG, Flatten(items))| < INT_LIMIT
    ensures var items := Items(stNum, sqNum, Utc.Encode(t), test, confRev, gcbRef, datSet, goId);
            Lookup(Tlv(TAG, Flatten(items)), 0x61, tag)
            == Carried(stNum, sqNum, Utc.Encode(t), test, confRev, gcbRef, datSet, goId, tag)
  {
    var items := Items(stNum, sqNum, Utc.Encode(t), test, confRev, gcbRef, datSet, goId);
    OpenRoundTrip(TAG, items, [], true);
    assert Tlv(TAG, Flatten(items)) + [] == Tlv(TAG, Flatten(items));
    WalkVisitsAll(items);
    PickByTag(stNum, sqNum, Utc.Encode(t), test, confRev, gcbRef, datSet, goId, tag);
  }
}
