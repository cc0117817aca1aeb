/**
 * internal/tui/ringbuf.go: the bounded log buffer behind the debug panel. Text is a
 * sequence of octets, as in a Go string.
 */
module LogBuffer {
  import opened Bytes

  const NEWLINE: byte := 0x0a

  // ---------------------------------------------------------------- lines of a text

  /** What follows the last newline. */
  function Tail(s: Frame): Frame {
    if s == [] then []
    else if s[|s| - 1] == NEWLINE then []
    else Tail(s[..|s| - 1]) + [s[|s| - 1]]
  }

  /** The terminated lines of a text, without the empty ones. */
  function LinesOf(s: Frame): seq<Frame> {
    if s == [] then []
    else
      var init := s[..|s| - 1];
      if s[|s| - 1] != NEWLINE || Tail(init) == [] then LinesOf(init) else LinesOf(init) + [Tail(init)]
  }

  /** Each line followed by a newline. */
  function Joined(lines: seq<Frame>): Frame {
    if lines == [] then [] else Joined(lines[..|lines| - 1]) + lines[|lines| - 1] + [NEWLINE]
  }

  predicate HasEmptyLine(s: Frame) {
    exists i :: 0 <= i < |s| && s[i] == NEWLINE && (i == 0 || s[i - 1] == NEWLINE)
  }

  lemma {:induction false} TailIsSuffix(s: Frame)
    ensures |Tail(s)| <= |s| && s[|s| - |Tail(s)|..] == Tail(s) && NEWLINE !in Tail(s)
    ensures |Tail(s)| < |s| ==> s[|s| - |Tail(s)| - 1] == NEWLINE
  {
    if s != [] && s[|s| - 1] != NEWLINE {
      var init := s[..|s| - 1];
      TailIsSuffix(init);
      assert s == init + [s[|s| - 1]] && |Tail(s)| == |Tail(init)| + 1;
      assert s[|s| - |Tail(s)|..] == init[|init| - |Tail(init)|..] + [s[|s| - 1]];
    }
  }

  lemma NoEmptyLineBefore(s: Frame)
    requires s != [] && !HasEmptyLine(s)
    ensures !HasEmptyLine(s[..|s| - 1])
  {
    var init := s[..|s| - 1];
    forall i | 0 <= i < |init| && init[i] == NEWLINE ensures !(i == 0 || init[i - 1] == NEWLINE) {
      assert s[i] == NEWLINE;
      assert i > 0 ==> s[i - 1] == init[i - 1];
    }
  }

  /** Nothing is lost or invented: lines and tail spell out a text that has no empty line. */
  lemma {:induction false} LinesSpellText(s: Frame)
    requires !HasEmptyLine(s)
    ensures Joined(LinesOf(s)) + Tail(s) == s
  {
    if s != [] {
      var init, c := s[..|s| - 1], s[|s| - 1];
      assert s == init + [c];
      NoEmptyLineBefore(s);
      LinesSpellText(init);
      TailIsSuffix(init);
      if c == NEWLINE {
        assert s[|s| - 1] == NEWLINE;
        assert (LinesOf(init) + [Tail(init)])[..|LinesOf(init)|] == LinesOf(init);
      }
    }
  }

  /** Every stored line is non-empty and free of newlines. */
  lemma {:induction false} LinesAreLines(s: Frame)
    ensures forall i :: 0 <= i < |LinesOf(s)| ==> LinesOf(s)[i] != [] && 0x0a !in LinesOf(s)[i]
  {
    if s != [] {
      LinesAreLines(s[..|s| - 1]);
      TailIsSuffix(s[..|s| - 1]);
    }
  }

  lemma OneMore(s: Frame, c: byte)
    ensures Tail(s + [c]) == if c == NEWLINE then [] else Tail(s) + [c]
    ensures LinesOf(s + [c]) == if c != NEWLINE || Tail(s) == [] then LinesOf(s) else LinesOf(s) + [Tail(s)]
  {
    assert (s + [c])[..|s + [c]| - 1] == s;
  }

  lemma SplitStep(p: Frame, q: Frame, c: byte, before: seq<Frame>)
    requires Tail(p) == Tail(q) && LinesOf(p) == before + LinesOf(q)
    ensures Tail(p + [c]) == Tail(q + [c]) && LinesOf(p + [c]) == before + LinesOf(q + [c])
  {
    OneMore(p, c);
    OneMore(q, c);
  }

  /** Reading on from the unterminated tail is the same as reading from the start. */
  lemma {:induction false} SplitAnywhere(a: Frame, b: Frame)
    ensures Tail(a + b) == Tail(Tail(a) + b)
    ensures LinesOf(a + b) == LinesOf(a) + LinesOf(Tail(a) + b)
    decreases |b|
  {
    TailHasNoLines(a);
    if b == [] {
      assert a + b == a && Tail(a) + b == Tail(a);
    } else {
      var init, c := b[..|b| - 1], b[|b| - 1];
      SplitAnywhere(a, init);
      SplitStep(a + init, Tail(a) + init, c, LinesOf(a));
      assert a + b == a + init + [c] && Tail(a) + b == Tail(a) + init + [c];
    }
  }

  lemma TailHasNoLines(a: Frame)
    ensures Tail(Tail(a)) == Tail(a) && LinesOf(Tail(a)) == []
  {
    TailIsSuffix(a);
    NoNewlineNoLines(Tail(a));
  }

  lemma {:induction false} NoNewlineNoLines(t: Frame)
    requires NEWLINE !in t
    ensures Tail(t) == t && LinesOf(t) == []
  {
    if t != [] { NoNewlineNoLines(t[..|t| - 1]); }
  }

  // ---------------------------------------------------------------- the byte scan

  /** After `i` bytes of `s` the current line begins at `start`, and `seen` are all lines until then. */
  ghost predicate Scanned(s: Frame, start: nat, i: nat, before: seq<Frame>, seen: seq<Frame>) {
    start <= i <= |s| && s[start..i] == Tail(s[..i]) && seen == before + LinesOf(s[..i])
  }

  lemma ScanBegins(s: Frame, before: seq<Frame>)
    ensures Scanned(s, 0, 0, before, before)
  {
  }

  /** One more byte. */
  lemma Scan(s: Frame, start: nat, i: nat, before: seq<Frame>, seen: seq<Frame>)
    requires Scanned(s, start, i, before, seen) && i < |s|
    ensures s[i] != NEWLINE ==> Scanned(s, start, i + 1, before, seen)
    ensures s[i] == NEWLINE ==>
              Scanned(s, i + 1, i + 1, before, if s[start..i] == [] then seen else seen + [s[start..i]])
  {
    var t := s[..i + 1];
    assert t[..i] == s[..i] && t[i] == s[i];
    if s[i] == NEWLINE && s[start..i] != [] {
      assert before + (LinesOf(s[..i]) + [s[start..i]]) == seen + [s[start..i]];
    }
  }

  lemma ScanEnds(s: Frame, start: nat, before: seq<Frame>, seen: seq<Frame>)
    requires Scanned(s, start, |s|, before, seen)
    ensures s[start..] == Tail(s) && seen == before + LinesOf(s)
  {
    assert s[..|s|] == s;
  }

  // ---------------------------------------------------------------- the buffer

  function Last<T>(xs: seq<T>, n: nat): seq<T> {
    if |xs| <= n then xs else xs[|xs| - n..]
  }

  /** What is kept are the most recent ones, as many as there is room for. */
  lemma MostRecentKept<T>(xs: seq<T>, ys: seq<T>, n: nat)
    ensures |Last(xs, n)| == if |xs| < n then |xs| else n
    ensures |ys| <= n ==> |ys| <= |Last(xs + ys, n)| && Last(xs + ys, n)[|Last(xs + ys, n)| - |ys|..] == ys
  {
  }

  lemma LastOfLast<T>(xs: seq<T>, ys: seq<T>, n: nat)
    ensures Last(Last(xs, n) + ys, n) == Last(xs + ys, n)
  {
  }

  class RingBuffer {
    var lines: seq<Frame>
    var pending: Frame
    const capacity: nat

    /** Everything written so far. */
    ghost var history: Frame

    ghost predicate Valid()
      reads this
    {
      capacity > 0 && lines == Last(LinesOf(history), capacity) && pending == Tail(history)
    }

    constructor (capacity: int)
      ensures Valid() && history == []
      ensures this.capacity == if capacity <= 0 then 200 else capacity
    {
      this.capacity := if capacity <= 0 then 200 else capacity;
      lines, pending, history := [], [], [];
    }

    method Push(line: Frame)
      modifies this`lines
      ensures lines == Last(old(lines) + [line], capacity)
      ensures capacity > 0 ==> 0 < |lines| <= capacity && lines[|lines| - 1] == line
    {
      lines := lines + [line];
      if |lines| > capacity {
        lines := lines[|lines| - capacity..];
      }
    }

    method PushLine(line: Frame, ghost seen: seq<Frame>)
      requires lines == Last(seen, capacity)
      modifies this`lines
      ensures lines == Last(seen + [line], capacity)
    {
      LastOfLast(seen, [line], capacity);
      Push(line);
    }

    /** The byte scan: pushes the non-empty lines of `s` and returns where its tail starts. */
    method PushLines(s: Frame, ghost before: seq<Frame>) returns (start: nat)
      requires lines == Last(before, capacity)
      modifies this`lines
      ensures lines == Last(before + LinesOf(s), capacity)
      ensures start <= |s| && s[start..] == Tail(s)
    {
      start := 0;
      ghost var seen := before;
      ScanBegins(s, before);
      for i := 0 to |s|
        invariant Scanned(s, start, i, before, seen) && lines == Last(seen, capacity)
      {
        Scan(s, start, i, before, seen);
        if s[i] == NEWLINE {
          var line := s[start..i];
          if line != [] {
            PushLine(line, seen);
            seen := seen + [line];
          }
          start := i + 1;
        }
      }
      ScanEnds(s, start, before, seen);
    }

    /**
     * However the bytes are split into writes, the buffer holds the last `capacity`
     * non-empty lines of all bytes written and the unterminated rest.
     */
    method Write(p: Frame) returns (n: nat)
      requires Valid()
      modifies this
      ensures Valid() && history == old(history) + p && n == |p|
    {
      var s := pending + p;
      pending := [];
      var start := PushLines(s, LinesOf(history));
      if start < |s| { pending := s[start..]; }
      SplitAnywhere(history, p);
      history := history + p;
      n := |p|;
    }

    /** The `n` most recent lines, oldest first; all of them if there are fewer or `n` is not positive. */
    method Lines(n: int) returns (out: seq<Frame>)
      ensures out == if n <= 0 then lines else Last(lines, n)
      ensures |out| <= |lines| && lines[|lines| - |out|..] == out
    {
      var m := if n <= 0 || n > |lines| then |lines| else n;
      out := lines[|lines| - m..];
    }
  }

  /** A run of writes. */
  method WriteAll(b: RingBuffer, chunks: seq<Frame>)
    requires b.Valid()
    modifies b
    ensures b.Valid() && b.history == old(b.history) + Concat(chunks)
  {
    for i := 0 to |chunks|
      invariant b.Valid() && b.history == old(b.history) + Concat(chunks[..i])
    {
      var _ := b.Write(chunks[i]);
      assert chunks[..i + 1][..i] == chunks[..i];
    }
    assert chunks[..|chunks|] == chunks;
  }

  function Concat(chunks: seq<Frame>): Frame {
    if chunks == [] then [] else Concat(chunks[..|chunks| - 1]) + chunks[|chunks| - 1]
  }
}
