/**
 * The multicast filter pattern, parsed twice in the source: once when the
 * configuration is validated (internal/config) and once when a frame is filtered
 * (internal/prp). Text is a sequence of ASCII characters.
 */
module MulticastPattern {
  import opened Bytes

  function Lower(s: string): (r: string)
    ensures |r| == |s|
  {
    seq(|s|, i requires 0 <= i < |s| => if 'A' <= s[i] <= 'Z' then (s[i] as int + 32) as char else s[i])
  }

  function TrimPrefix(s: string, p: string): string {
    if p <= s then s[|p|..] else s
  }

  function Without(s: string, c: char): string {
    if s == "" then "" else (if s[0] == c then "" else [s[0]]) + Without(s[1..], c)
  }

  function NormalizeHex(s: string): string {
    Without(Without(TrimPrefix(Lower(s), "0x"), '-'), ':')
  }

  predicate HexDigit(c: char) {
    '0' <= c <= '9' || 'a' <= c <= 'f'
  }

  function HexValue(c: char): (v: nat)
    requires HexDigit(c)
    ensures v < 16
  {
    if '0' <= c <= '9' then c as int - '0' as int else c as int - 'a' as int + 10
  }

  function Octet(high: char, low: char): byte
    requires HexDigit(high) && HexDigit(low)
  {
    HexValue(high) * 16 + HexValue(low)
  }

  // ---------------------------------------------------------------- load time

  predicate Accepted(s: string) {
    var hex := NormalizeHex(s);
    hex != "" && |hex| <= 12 && |hex| % 2 == 0 && forall i :: 0 <= i < |hex| ==> HexDigit(hex[i])
  }

  method ValidMulticastPattern(s: string) returns (ok: bool)
    ensures ok == Accepted(s)
  {
    var hex := NormalizeHex(s);
    if hex == "" || |hex| > 12 || |hex| % 2 != 0 { return false; }
    for i := 0 to |hex|
      invariant forall j :: 0 <= j < i ==> HexDigit(hex[j])
    {
      if !HexDigit(hex[i]) { return false; }
    }
    return true;
  }

  // ---------------------------------------------------------------- run time

  /** The two-digit numbers of `hex` from position `i`, or nothing if one does not parse. */
  function Pairs(hex: string, i: nat): (r: Option<Frame>)
    requires |hex| % 2 == 0 && i % 2 == 0 && i <= |hex|
    ensures r.Some? ==> |r.value| == (|hex| - i) / 2
    decreases |hex| - i
  {
    if i == |hex| then Some([])
    else if !HexDigit(hex[i]) || !HexDigit(hex[i + 1]) then None
    else match Pairs(hex, i + 2)
      case None => None
      case Some(rest) => Some([Octet(hex[i], hex[i + 1])] + rest)
  }

  /** The destination prefix the pattern stands for; empty when it does not parse. */
  function Prefix(pattern: string): Frame {
    var hex := NormalizeHex(pattern);
    if hex == "" || |hex| % 2 != 0 || |hex| > 12 then []
    else match Pairs(hex, 0)
      case None => []
      case Some(bytes) => bytes
  }

  /** `out` are the bytes read from the digits before position `i`. */
  ghost predicate Reading(hex: string, i: nat, out: Frame) {
    && |hex| % 2 == 0 && i % 2 == 0 && i <= |hex|
    && Pairs(hex, 0) == match Pairs(hex, i) case None => None case Some(rest) => Some(out + rest)
  }

  lemma Regroup(a: Frame, b: byte, c: Frame)
    ensures a + ([b] + c) == (a + [b]) + c
  {
  }

  lemma ReadPair(hex: string, i: nat, out: Frame)
    requires Reading(hex, i, out) && i < |hex|
    ensures i + 2 <= |hex|
    ensures if HexDigit(hex[i]) && HexDigit(hex[i + 1])
            then Reading(hex, i + 2, out + [Octet(hex[i], hex[i + 1])])
            else Pairs(hex, 0).None?
  {
    if HexDigit(hex[i]) && HexDigit(hex[i + 1]) {
      var tail := Pairs(hex, i + 2);
      if tail.Some? { Regroup(out, Octet(hex[i], hex[i + 1]), tail.value); }
    }
  }

  lemma ReadBegins(hex: string)
    requires |hex| % 2 == 0
    ensures Reading(hex, 0, [])
  {
    var all := Pairs(hex, 0);
    if all.Some? { assert [] + all.value == all.value; }
  }

  method ParseMulticastPattern(pattern: string) returns (out: Frame)
    ensures out == Prefix(pattern)
  {
    var hex := NormalizeHex(pattern);
    if hex == "" || |hex| % 2 != 0 || |hex| > 12 { return []; }
    out := [];
    var i := 0;
    ReadBegins(hex);
    while i < |hex|
      invariant Reading(hex, i, out)
    {
      ReadPair(hex, i, out);
      if !HexDigit(hex[i]) || !HexDigit(hex[i + 1]) { return []; }
      out := out + [Octet(hex[i], hex[i + 1])];
      i := i + 2;
    }
    assert out + [] == out;
  }

  lemma {:induction false} PairsParseIff(hex: string, i: nat)
    requires |hex| % 2 == 0 && i % 2 == 0 && i <= |hex|
    ensures Pairs(hex, i).Some? <==> forall j :: i <= j < |hex| ==> HexDigit(hex[j])
    decreases |hex| - i
  {
    if i < |hex| { PairsParseIff(hex, i + 2); }
  }

  /** A pattern passes validation exactly when the runtime parser gets a usable prefix out of it. */
  lemma PatternAgreement(s: string)
    ensures Accepted(s) <==> 1 <= |Prefix(s)| <= 6
    ensures !Accepted(s) <==> Prefix(s) == []
  {
    var hex := NormalizeHex(s);
    if hex != "" && |hex| % 2 == 0 { PairsParseIff(hex, 0); }
  }

  // ---------------------------------------------------------------- what a pattern is written like

  datatype Gap = Nothing | Dash | Colon

  function GapText(g: Gap): string {
    match g case Nothing => "" case Dash => "-" case Colon => ":"
  }

  /** The sixteen digits, either case for the last six. */
  function Digit(n: nat, upper: bool): char
    requires n < 16
  {
    if n < 10 then '0' + n as char else (if upper then 'A' else 'a') + (n - 10) as char
  }

  function TwoDigits(b: byte, upperHigh: bool, upperLow: bool): string {
    [Digit(b / 16, upperHigh), Digit(b % 16, upperLow)]
  }

  /**
   * Bytes as text: two digits each, the most significant first and each of either case,
   * with a dash, a colon or nothing before every byte but the first.
   */
  function Printed(bytes: Frame, upper: nat -> bool, gap: nat -> Gap): string {
    if bytes == [] then ""
    else
      var n := |bytes| - 1;
      Printed(bytes[..n], upper, gap) + (if n == 0 then "" else GapText(gap(n)))
      + TwoDigits(bytes[n], upper(2 * n), upper(2 * n + 1))
  }

  /** The same in lower case without gaps. */
  function Plain(bytes: Frame): string {
    if bytes == [] then "" else Plain(bytes[..|bytes| - 1]) + TwoDigits(bytes[|bytes| - 1], false, false)
  }

  lemma LowerOfSum(a: string, b: string)
    ensures Lower(a + b) == Lower(a) + Lower(b)
  {
  }

  lemma {:induction false} WithoutOfSum(a: string, b: string, c: char)
    ensures Without(a + b, c) == Without(a, c) + Without(b, c)
  {
    if a == "" {
      assert a + b == b;
    } else {
      WithoutOfSum(a[1..], b, c);
      assert (a + b)[0] == a[0] && (a + b)[1..] == a[1..] + b;
    }
  }

  lemma LowerDigit(n: nat, upper: bool)
    requires n < 16
    ensures Lower([Digit(n, upper)]) == [Digit(n, false)]
    ensures HexDigit(Digit(n, false)) && HexValue(Digit(n, false)) == n
    ensures Digit(n, false) != '-' && Digit(n, false) != ':' && Digit(n, false) != 'x'
  {
  }

  /** Text in lower case, without dashes and colons. */
  function Bare(s: string): string { Without(Without(Lower(s), '-'), ':') }

  lemma BareOfSum(a: string, b: string)
    ensures Bare(a + b) == Bare(a) + Bare(b)
  {
    LowerOfSum(a, b);
    WithoutOfSum(Lower(a), Lower(b), '-');
    WithoutOfSum(Without(Lower(a), '-'), Without(Lower(b), '-'), ':');
  }

  lemma BareGap(g: Gap)
    ensures Bare(GapText(g)) == ""
  {
    assert Lower("-") == "-" && Lower(":") == ":" && Lower("") == "";
    WithoutOne('-', '-');
    WithoutOne(':', '-');
    WithoutOne(':', ':');
  }

  lemma WithoutOne(d: char, c: char)
    ensures Without([d], c) == if d == c then "" else [d]
  {
    assert [d][1..] == "";
  }

  lemma BareDigit(n: nat, upper: bool)
    requires n < 16
    ensures Bare([Digit(n, upper)]) == [Digit(n, false)]
  {
    LowerDigit(n, upper);
    WithoutOne(Digit(n, false), '-');
    WithoutOne(Digit(n, false), ':');
  }

  lemma BareTwoDigits(b: byte, upperHigh: bool, upperLow: bool)
    ensures Bare(TwoDigits(b, upperHigh, upperLow)) == TwoDigits(b, false, false)
  {
    BareDigit(b / 16, upperHigh);
    BareDigit(b % 16, upperLow);
    BareOfSum([Digit(b / 16, upperHigh)], [Digit(b % 16, upperLow)]);
    assert TwoDigits(b, upperHigh, upperLow) == [Digit(b / 16, upperHigh)] + [Digit(b % 16, upperLow)];
    assert TwoDigits(b, false, false) == [Digit(b / 16, false)] + [Digit(b % 16, false)];
  }

  lemma BareStep(head: string, plain: string, g: Gap, b: byte, upperHigh: bool, upperLow: bool)
    requires Bare(head) == plain
    ensures Bare(head + GapText(g) + TwoDigits(b, upperHigh, upperLow)) == plain + TwoDigits(b, false, false)
  {
    BareGap(g);
    BareTwoDigits(b, upperHigh, upperLow);
    BareOfSum(head, GapText(g));
    BareOfSum(head + GapText(g), TwoDigits(b, upperHigh, upperLow));
  }

  lemma {:induction false} BarePrinted(bytes: Frame, upper: nat -> bool, gap: nat -> Gap)
    ensures Bare(Printed(bytes, upper, gap)) == Plain(bytes)
  {
    if bytes != [] {
      var n := |bytes| - 1;
      BarePrinted(bytes[..n], upper, gap);
      BareStep(Printed(bytes[..n], upper, gap), Plain(bytes[..n]), if n == 0 then Nothing else gap(n), bytes[n],
               upper(2 * n), upper(2 * n + 1));
    }
  }

  lemma {:induction false} PlainDigits(bytes: Frame, i: nat)
    requires i < |bytes|
    ensures |Plain(bytes)| == 2 * |bytes|
    ensures Plain(bytes)[2 * i] == Digit(bytes[i] / 16, false) && Plain(bytes)[2 * i + 1] == Digit(bytes[i] % 16, false)
  {
    var n := |bytes| - 1;
    if n > 0 { PlainDigits(bytes[..n], if i < n then i else 0); }
  }

  lemma {:induction false} PairsOfPlain(bytes: Frame, i: nat)
    requires bytes != [] && i <= |bytes|
    ensures |Plain(bytes)| == 2 * |bytes| && Pairs(Plain(bytes), 2 * i) == Some(bytes[i..])
    decreases |bytes| - i
  {
    PlainDigits(bytes, if i < |bytes| then i else 0);
    if i == |bytes| {
      assert bytes[i..] == [];
    } else {
      PairsOfPlain(bytes, i + 1);
      LowerDigit(bytes[i] / 16, false);
      LowerDigit(bytes[i] % 16, false);
      assert Octet(Plain(bytes)[2 * i], Plain(bytes)[2 * i + 1]) == bytes[i];
      assert bytes[i..] == [bytes[i]] + bytes[i + 1..];
    }
  }

  /** The second character of a printed byte is a digit, so it is no "0x". */
  lemma {:induction false} PrintedHasNoMark(bytes: Frame, upper: nat -> bool, gap: nat -> Gap)
    requires bytes != []
    ensures var t := Printed(bytes, upper, gap); |t| >= 2 && Lower(t)[1] != 'x'
  {
    var n := |bytes| - 1;
    if n == 0 {
      LowerDigit(bytes[0] % 16, upper(1));
      var t := Printed(bytes, upper, gap);
      assert t == TwoDigits(bytes[0], upper(0), upper(1));
      assert Lower(t)[1] == Lower([t[1]])[0];
    } else {
      PrintedHasNoMark(bytes[..n], upper, gap);
    }
  }

  lemma NormalizePrinted(bytes: Frame, upper: nat -> bool, gap: nat -> Gap, mark: string)
    requires bytes != [] && mark in {"", "0x", "0X"}
    ensures NormalizeHex(mark + Printed(bytes, upper, gap)) == Plain(bytes)
  {
    var t := Printed(bytes, upper, gap);
    PrintedHasNoMark(bytes, upper, gap);
    BarePrinted(bytes, upper, gap);
    LowerOfSum(mark, t);
    if mark == "" {
      assert mark + t == t;
    } else {
      assert Lower(mark) == "0x" && "0x" + Lower(t) == Lower(mark + t);
      assert ("0x" + Lower(t))[2..] == Lower(t);
    }
  }

  /** However one to six bytes are written, the parser reads them back, and validation admits the pattern. */
  lemma PatternRoundTrip(bytes: Frame, upper: nat -> bool, gap: nat -> Gap, mark: string)
    requires 1 <= |bytes| <= 6 && mark in {"", "0x", "0X"}
    ensures Prefix(mark + Printed(bytes, upper, gap)) == bytes && Accepted(mark + Printed(bytes, upper, gap))
  {
    NormalizePrinted(bytes, upper, gap, mark);
    PairsOfPlain(bytes, 0);
    PatternAgreement(mark + Printed(bytes, upper, gap));
  }

  lemma {:induction false} PairsAt(hex: string, i: nat, j: nat)
    requires |hex| % 2 == 0 && i % 2 == 0 && i <= |hex| && Pairs(hex, i).Some? && j < |Pairs(hex, i).value|
    ensures i + 2 * j + 2 <= |hex| && HexDigit(hex[i + 2 * j]) && HexDigit(hex[i + 2 * j + 1])
    ensures Pairs(hex, i).value[j] == Octet(hex[i + 2 * j], hex[i + 2 * j + 1])
    decreases j
  {
    if j > 0 { PairsAt(hex, i + 2, j - 1); }
  }

  lemma DigitOfValue(high: char, low: char)
    requires HexDigit(high) && HexDigit(low)
    ensures Digit(Octet(high, low) / 16, false) == high && Digit(Octet(high, low) % 16, false) == low
  {
    var h, l := HexValue(high), HexValue(low);
    assert (h * 16 + l) / 16 == h && (h * 16 + l) % 16 == l;
  }

  lemma PlainOfPair(hex: string, bytes: Frame, p: nat)
    requires |hex| % 2 == 0 && Pairs(hex, 0) == Some(bytes) && p < |hex| && |Plain(bytes)| == |hex| == 2 * |bytes|
    ensures Plain(bytes)[p] == hex[p]
  {
    var j := p / 2;
    PairsAt(hex, 0, j);
    PlainDigits(bytes, j);
    DigitOfValue(hex[2 * j], hex[2 * j + 1]);
    assert p == 2 * j || p == 2 * j + 1;
  }

  lemma PlainOfPairs(hex: string, bytes: Frame)
    requires hex != "" && |hex| % 2 == 0 && Pairs(hex, 0) == Some(bytes)
    ensures Plain(bytes) == hex
  {
    PlainDigits(bytes, 0);
    forall p | 0 <= p < |hex| ensures Plain(bytes)[p] == hex[p] {
      PlainOfPair(hex, bytes, p);
    }
  }

  /** Conversely, the bytes read from an accepted pattern print as its digits: nothing else is accepted. */
  lemma PrefixPrints(s: string)
    requires Accepted(s)
    ensures Plain(Prefix(s)) == NormalizeHex(s)
  {
    PairsParseIff(NormalizeHex(s), 0);
    PlainOfPairs(NormalizeHex(s), Prefix(s));
  }

  // ---------------------------------------------------------------- the filter

  predicate Broadcast(f: Frame) {
    |f| >= 6 && forall i :: 0 <= i < 6 ==> f[i] == 0xff
  }

  /** Broadcast always passes; otherwise the destination must start with the configured prefix. */
  predicate Allowed(pattern: string, f: Frame) {
    Broadcast(f) || Prefix(pattern) <= f
  }

  method IsBroadcast(f: Frame) returns (ok: bool)
    ensures ok == Broadcast(f)
  {
    if |f| < 6 { return false; }
    for i := 0 to 6
      invariant forall j :: 0 <= j < i ==> f[j] == 0xff
    {
      if f[i] != 0xff { return false; }
    }
    return true;
  }

  method StartsWith(f: Frame, prefix: Frame) returns (ok: bool)
    ensures ok == (prefix <= f)
  {
    if |f| < |prefix| { return false; }
    for i := 0 to |prefix|
      invariant forall j :: 0 <= j < i ==> f[j] == prefix[j]
    {
      if f[i] != prefix[i] { return false; }
    }
    assert f[..|prefix|] == prefix;
    return true;
  }

  method MulticastAllowed(pattern: string, f: Frame) returns (ok: bool)
    ensures ok == Allowed(pattern, f)
  {
    var broadcast := IsBroadcast(f);
    if broadcast { return true; }
    var prefix := ParseMulticastPattern(pattern);
    if |prefix| == 0 { return true; }
    ok := StartsWith(f, prefix);
  }
}
