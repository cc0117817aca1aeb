/**
 * The GOOSE and SV APDUs of internal/iec: an outer tag and length around a list of
 * TLVs, and parsers that walk the list picking out the fields they know.
 */
module Apdu {
  import opened Bytes
  import opened Ber

  datatype Field = Field(tag: byte, payload: Frame)

  ghost predicate Small(items: seq<Field>) {
    forall i :: 0 <= i < |items| ==> |items[i].payload| < INT_LIMIT
  }

  function Flatten(items: seq<Field>): Frame
    requires Small(items)
  {
    if items == [] then [] else Tlv(items[0].tag, items[0].payload) + Flatten(items[1..])
  }

  lemma {:induction false} FlattenSnoc(items: seq<Field>, f: Field)
    requires Small(items) && |f.payload| < INT_LIMIT
    ensures Small(items + [f]) && Flatten(items + [f]) == Flatten(items) + Tlv(f.tag, f.payload)
  {
    if items == [] {
      assert items + [f] == [f] && [f][1..] == [];
    } else {
      assert (items + [f])[1..] == items[1..] + [f];
      FlattenSnoc(items[1..], f);
      Assoc(Tlv(items[0].tag, items[0].payload), Flatten(items[1..]), Tlv(f.tag, f.payload));
    }
  }

  lemma Assoc(a: Frame, b: Frame, c: Frame)
    ensures a + (b + c) == (a + b) + c
  {
  }

  /** The encoder's loops: each field becomes a TLV, and the TLVs are concatenated. */
  method Assemble(items: seq<Field>) returns (payload: Frame)
    requires Small(items)
    ensures payload == Flatten(items)
  {
    payload := [];
    for i := 0 to |items|
      invariant payload == Flatten(items[..i])
    {
      var tlv := EncodeTlv(items[i].tag, items[i].payload);
      FlattenSnoc(items[..i], items[i]);
      assert items[..i + 1] == items[..i] + [items[i]];
      payload := payload + tlv;
    }
    assert items[..|items|] == items;
  }

  method Wrap(tag: byte, items: seq<Field>) returns (apdu: Frame)
    requires Small(items) && |Flatten(items)| < INT_LIMIT
    ensures apdu == Tlv(tag, Flatten(items))
  {
    var payload := Assemble(items);
    apdu := EncodeTlv(tag, payload);
  }

  // ---------------------------------------------------------------- walking

  /** The fields a walk visits before the data ends or stops being well formed. */
  datatype Walk = Visited(fields: seq<Field>) | Crashed

  function Fields(data: Frame): Walk
    decreases |data|
  {
    if data == [] then Visited([])
    else match Parse(data)
      case Malformed => Visited([])
      case Crash => Crashed
      case Element(tag, payload, rest) =>
        match Fields(rest)
        case Crashed => Crashed
        case Visited(fs) => Visited([Field(tag, payload)] + fs)
  }

  /** A walk of `data` has visited `done` and still has `rest` before it. */
  ghost predicate Underway(data: Frame, done: seq<Field>, rest: Frame) {
    Fields(data) == match Fields(rest) case Crashed => Crashed case Visited(fs) => Visited(done + fs)
  }

  lemma WalkStep(data: Frame, done: seq<Field>, rest: Frame)
    requires Underway(data, done, rest) && rest != []
    ensures var e := Parse(rest);
            && (e.Element? ==> Underway(data, done + [Field(e.tag, e.payload)], e.rest))
            && (e.Malformed? ==> Fields(data) == Visited(done))
            && (e.Crash? ==> Fields(data) == Crashed)
  {
    var e := Parse(rest);
    assert done + [] == done;
    if e.Element? {
      var f, next := Field(e.tag, e.payload), Fields(e.rest);
      if next.Visited? { assert done + ([f] + next.fields) == (done + [f]) + next.fields; }
    }
  }

  lemma WalkEnds(data: Frame, done: seq<Field>)
    requires Underway(data, done, [])
    ensures Fields(data) == Visited(done)
  {
    assert done + [] == done;
  }

  lemma WalkStarts(data: Frame)
    ensures Underway(data, [], data)
  {
    var w := Fields(data);
    if w.Visited? { assert [] + w.fields == w.fields; }
  }

  /** Walking visits exactly the fields that were encoded, in order. */
  lemma {:induction false} WalkVisitsAll(items: seq<Field>)
    requires Small(items) && |Flatten(items)| < INT_LIMIT
    ensures Fields(Flatten(items)) == Visited(items)
  {
    if items != [] {
      var tail := Flatten(items[1..]);
      TlvRoundTrip(items[0].tag, items[0].payload, tail);
      WalkVisitsAll(items[1..]);
      assert [Field(items[0].tag, items[0].payload)] + items[1..] == items;
    }
  }

  // ---------------------------------------------------------------- the outer header

  /**
   * The payload of an APDU with the expected tag. Unlike `Parse`, the length bytes
   * are read without checking that they are there.
   */
  datatype Opened = Inside(data: Frame) | Refused | Panic

  /** `checked` says whether a payload that is cut short is refused or sliced out of range. */
  function Open(apdu: Frame, tag: byte, checked: bool): Opened {
    if |apdu| < 2 || apdu[0] != tag then Refused
    else match HeaderOf(apdu)
      case Short => Panic
      case Header(length, off) =>
        if length < 0 || off + length >= INT_LIMIT then Panic
        else if |apdu| < off + length then (if checked then Refused else Panic)
        else Inside(apdu[off..off + length])
  }

  lemma OpenRoundTrip(tag: byte, items: seq<Field>, rest: Frame, checked: bool)
    requires Small(items) && |Flatten(items)| < INT_LIMIT && |Tlv(tag, Flatten(items)) + rest| < INT_LIMIT
    ensures Open(Tlv(tag, Flatten(items)) + rest, tag, checked) == Inside(Flatten(items))
  {
    var payload := Flatten(items);
    HeaderOfTlv(tag, payload, rest);
    var w, off := Tlv(tag, payload) + rest, 1 + |LengthBytes(|payload|)|;
    assert w[0] == tag && w[off..off + |payload|] == payload;
  }

  /** An APDU cut inside its payload: refused where that is checked, a slice out of range where it is not. */
  lemma CutPayload(tag: byte, payload: Frame, n: nat, checked: bool)
    requires |payload| < INT_LIMIT && 1 + |LengthBytes(|payload|)| <= n < |Tlv(tag, payload)| < INT_LIMIT
    ensures Open(Tlv(tag, payload)[..n], tag, checked) == if checked then Refused else Panic
  {
    var w := Tlv(tag, payload);
    var cut := w[..n];
    HeaderOfTlv(tag, payload, []);
    assert w + [] == w && cut[0] == w[0] && cut[1] == w[1];
    if w[1] >= 0x80 { assert cut[2..2 + (w[1] - 0x80)] == w[2..2 + (w[1] - 0x80)]; }
  }

  /** The outer header as the parsers read it. */
  method OpenApdu(apdu: Frame, tag: byte, checked: bool) returns (r: Opened)
    ensures r == Open(apdu, tag, checked)
  {
    if |apdu| < 2 || apdu[0] != tag { return Refused; }
    var off := 2;
    var length: int := apdu[1];
    if apdu[1] >= 0x80 {
      var numBytes := apdu[1] - 0x80;
      if |apdu| < off + numBytes { return Panic; }
      length := ReadLength(apdu, numBytes);
      off := off + numBytes;
    }
    if length < 0 || off + length >= INT_LIMIT { return Panic; }
    if |apdu| < off + length { return if checked then Refused else Panic; }
    return Inside(apdu[off..off + length]);
  }

  // ---------------------------------------------------------------- looking a field up

  /** The first field with a tag. */
  function Pick(fs: seq<Field>, tag: byte): Option<Frame> {
    if fs == [] then None else if fs[0].tag == tag then Some(fs[0].payload) else Pick(fs[1..], tag)
  }

  /** What any BER reader finds under a tag inside `data`, and inside an APDU. */
  function Inner(data: Frame, tag: byte): Option<Frame> {
    var w := Fields(data);
    if w.Visited? then Pick(w.fields, tag) else None
  }

  function Lookup(apdu: Frame, outer: byte, tag: byte): Option<Frame> {
    var o := Open(apdu, outer, true);
    if o.Inside? then Inner(o.data, tag) else None
  }

  lemma {:induction false} PickAt(fs: seq<Field>, i: nat)
    requires i < |fs| && forall j :: 0 <= j < i ==> fs[j].tag != fs[i].tag
    ensures Pick(fs, fs[i].tag) == Some(fs[i].payload)
  {
    if i > 0 { PickAt(fs[1..], i - 1); }
  }

  lemma {:induction false} PickNothing(fs: seq<Field>, tag: byte)
    requires forall i :: 0 <= i < |fs| ==> fs[i].tag != tag
    ensures Pick(fs, tag) == None
  {
    if fs != [] { PickNothing(fs[1..], tag); }
  }

  function Number(payload: Frame): Option<Word> {
    if |payload| == 2 then Some(Word(payload[0], payload[1])) else None
  }

  function Boolean(b: bool): Frame { [0x01, 0x01, if b then 0xff else 0x00] }
}
