/**
 * internal/nodetable: the bounded, lazily expiring duplicate table.
 *
 * A table is a map from (source MAC, sequence number) to an entry. Instants are
 * integers in milliseconds and are passed in by the caller. The order in which
 * the source's loops visit map entries is unspecified, so the entry evicted among
 * equally old ones is a parameter (`victim`) of the specification.
 */
module NodeTable {
  import opened Bytes

  datatype Key = Key(src: Mac, seqNo: Word)
  datatype Entry = Entry(lan: nat, lastSeen: int, expiryMs: int)
  type Entries = map<Key, Entry>

  predicate Expired(e: Entry, now: int) {
    now - e.lastSeen > e.expiryMs
  }

  predicate Found(m: Entries, k: Key, now: int) {
    k in m && !Expired(m[k], now)
  }

  ghost predicate IsOldest(m: Entries, v: Key) {
    v in m && forall k :: k in m ==> m[v].lastSeen <= m[k].lastSeen
  }

  predicate Overflows(m: Entries, maxSize: int, k: Key) {
    maxSize > 0 && (if k in m then |m| else |m| + 1) > maxSize
  }

  /** If storing `k` at time `now` overflows the table, `victim` is an oldest entry of the grown table. */
  ghost predicate ValidVictim(m: Entries, maxSize: int, k: Key, now: int, victim: Key) {
    Overflows(m, maxSize, k) ==> IsOldest(m[k := Entry(0, now, 0)], victim)
  }

  function Inserted(m: Entries, maxSize: int, k: Key, e: Entry, victim: Key): Entries {
    if Overflows(m, maxSize, k) then m[k := e] - {victim} else m[k := e]
  }

  function Flushed(m: Entries, src: Mac): Entries {
    map k | k in m && k.src != src :: m[k]
  }

  function Cleaned(m: Entries, now: int): Entries {
    map k | k in m && !Expired(m[k], now) :: m[k]
  }

  class Table {
    var entries: Entries
    const maxSize: int

    constructor (maxSize: int)
      ensures entries == map[] && this.maxSize == maxSize
    {
      this.maxSize := maxSize;
      entries := map[];
    }

    method InsertWithExpiry(k: Key, lan: nat, expiryMs: int, now: int) returns (ghost victim: Key)
      modifies this
      ensures ValidVictim(old(entries), maxSize, k, now, victim)
      ensures entries == Inserted(old(entries), maxSize, k, Entry(lan, now, expiryMs), victim)
    {
      ghost var before := entries;
      entries := entries[k := Entry(lan, now, expiryMs)];
      assert entries.Keys == before.Keys + {k};
      victim := k;
      if maxSize > 0 && |entries.Keys| > maxSize {
        var rest := entries.Keys;
        var oldestKey := k;
        var oldest := now;
        var none := true;
        while rest != {}
          invariant rest <= entries.Keys
          invariant none ==> rest == entries.Keys
          invariant !none ==> oldestKey in entries && entries[oldestKey].lastSeen == oldest
          invariant !none ==> forall j :: j in entries.Keys - rest ==> oldest <= entries[j].lastSeen
          decreases rest
        {
          var j :| j in rest;
          if none || entries[j].lastSeen < oldest {
            oldestKey, oldest, none := j, entries[j].lastSeen, false;
          }
          rest := rest - {j};
        }
        assert k in entries;
        assert IsOldest(entries, oldestKey);
        entries := entries - {oldestKey};
        victim := oldestKey;
      }
    }

    method Find(k: Key, now: int) returns (found: bool)
      ensures found == Found(entries, k, now)
    {
      found := k in entries && !Expired(entries[k], now);
    }

    method FlushFor(src: Mac) returns (removed: nat)
      modifies this
      ensures entries == Flushed(old(entries), src)
      ensures removed == |old(entries).Keys| - |entries.Keys|
    {
      removed := 0;
      ghost var before := entries;
      var rest := entries.Keys;
      while rest != {}
        invariant rest <= entries.Keys <= before.Keys
        invariant forall k :: k in entries ==> entries[k] == before[k]
        invariant forall k :: k in before && (k in rest || k.src != src) ==> k in entries
        invariant forall k :: k in entries && k.src == src ==> k in rest
        invariant removed == |before.Keys| - |entries.Keys|
        decreases rest
      {
        var k :| k in rest;
        if k.src == src {
          assert (entries - {k}).Keys == entries.Keys - {k};
          entries := entries - {k};
          removed := removed + 1;
        }
        rest := rest - {k};
      }
      assert entries == Flushed(before, src);
    }

    method Cleanup(now: int) returns (removed: nat)
      modifies this
      ensures entries == Cleaned(old(entries), now)
      ensures removed == |old(entries).Keys| - |entries.Keys|
    {
      removed := 0;
      ghost var before := entries;
      var rest := entries.Keys;
      while rest != {}
        invariant rest <= entries.Keys <= before.Keys
        invariant forall k :: k in entries ==> entries[k] == before[k]
        invariant forall k :: k in before && (k in rest || !Expired(before[k], now)) ==> k in entries
        invariant forall k :: k in entries && Expired(before[k], now) ==> k in rest
        invariant removed == |before.Keys| - |entries.Keys|
        decreases rest
      {
        var k :| k in rest;
        if Expired(entries[k], now) {
          assert (entries - {k}).Keys == entries.Keys - {k};
          entries := entries - {k};
          removed := removed + 1;
        }
        rest := rest - {k};
      }
      assert entries == Cleaned(before, now);
    }
  }

  // ---------------------------------------------------------------- bounded versus unbounded

  datatype Op =
    | Insert(now: int, key: Key, lan: nat, victim: Key)
    | Cleanup(now: int)
    | Flush(now: int, src: Mac)

  function Apply(m: Entries, op: Op, maxSize: int, expiry: int): Entries {
    match op
    case Insert(now, k, lan, victim) => Inserted(m, maxSize, k, Entry(lan, now, expiry), victim)
    case Cleanup(now) => Cleaned(m, now)
    case Flush(now, src) => Flushed(m, src)
  }

  /** What the unbounded history makes of an operation: nothing is evicted or cleaned up. */
  function ApplyUnbounded(u: Entries, op: Op, expiry: int): Entries {
    if op.Cleanup? then u else Apply(u, op, 0, expiry)
  }

  ghost predicate ValidOp(m: Entries, op: Op, maxSize: int, expiry: int) {
    op.Insert? ==> ValidVictim(m, maxSize, op.key, op.now, op.victim)
  }

  /** The i-th operation takes the table from `ms[i]` and the history from `us[i]` to the next. */
  ghost predicate OpAt(ops: seq<Op>, ms: seq<Entries>, us: seq<Entries>, i: nat, maxSize: int, expiry: int)
    requires i < |ops| && |ms| == |us| == |ops| + 1
  {
    && ValidOp(ms[i], ops[i], maxSize, expiry)
    && ms[i + 1] == Apply(ms[i], ops[i], maxSize, expiry)
    && us[i + 1] == ApplyUnbounded(us[i], ops[i], expiry)
  }

  /** A run of the table beside its history, from empty, on a clock that never runs backwards. */
  ghost predicate TableRun(ops: seq<Op>, ms: seq<Entries>, us: seq<Entries>, maxSize: int, expiry: int) {
    && |ms| == |us| == |ops| + 1 && ms[0] == us[0] == map[]
    && (forall i :: 0 <= i < |ops| ==> OpAt(ops, ms, us, i, maxSize, expiry))
    && (forall i, j :: 0 <= i <= j < |ops| ==> ops[i].now <= ops[j].now)
  }

  ghost function LiveKeys(m: Entries, now: int): set<Key> {
    set k | k in m && !Expired(m[k], now)
  }

  /** Right after an insertion no more than `maxSize` keys lie inside the forget window. */
  ghost predicate FitsWindow(u: Entries, op: Op, maxSize: int) {
    op.Insert? ==> |LiveKeys(u, op.now)| <= maxSize
  }

  /** Both tables give the same answer to every question asked from `now` on. */
  ghost predicate SameAnswers(m: Entries, u: Entries, now: int) {
    forall k, t :: t >= now ==> Found(m, k, t) == Found(u, k, t)
  }

  /** What the bounded table may have dropped: entries that no longer count. */
  ghost predicate Refines(m: Entries, u: Entries, now: int) {
    && (forall k :: k in m ==> k in u && m[k] == u[k])
    && (forall k :: k in u && k !in m ==> Expired(u[k], now))
  }

  ghost predicate OneExpiry(u: Entries, expiry: int) {
    forall k :: k in u ==> u[k].expiryMs == expiry
  }

  lemma ApplySize(m: Entries, op: Op, maxSize: int, expiry: int, r: Entries)
    requires maxSize > 0 && |m.Keys| <= maxSize && ValidOp(m, op, maxSize, expiry)
    requires r == Apply(m, op, maxSize, expiry)
    ensures |r.Keys| <= maxSize
  {
    match op
    case Insert(now, k, lan, victim) =>
      var g := m[k := Entry(lan, now, expiry)];
      assert g.Keys == m.Keys + {k};
      if Overflows(m, maxSize, k) {
        assert r.Keys == g.Keys - {victim};
      }
    case _ => SubsetSize(r.Keys, m.Keys);
  }

  /** The heart of the refinement: an overfull table whose live keys fit has an expired oldest entry. */
  lemma OldestIsExpired(g: Entries, u: Entries, victim: Key, now: int, maxSize: int, expiry: int)
    requires Refines(g, u, now) && OneExpiry(u, expiry) && IsOldest(g, victim)
    requires |g.Keys| > maxSize && |LiveKeys(u, now)| <= maxSize
    ensures Expired(g[victim], now)
  {
    if !Expired(g[victim], now) {
      assert g.Keys <= LiveKeys(u, now);
      SubsetSize(g.Keys, LiveKeys(u, now));
    }
  }

  lemma InsertRefines(m: Entries, u: Entries, was: int, op: Op, maxSize: int, expiry: int)
    requires op.Insert? && was <= op.now && Refines(m, u, was) && OneExpiry(u, expiry)
    requires ValidOp(m, op, maxSize, expiry) && FitsWindow(Apply(u, op, 0, expiry), op, maxSize)
    ensures Refines(Apply(m, op, maxSize, expiry), Apply(u, op, 0, expiry), op.now)
  {
    var e := Entry(op.lan, op.now, expiry);
    var g, u' := m[op.key := e], u[op.key := e];
    assert Refines(g, u', op.now);
    if Overflows(m, maxSize, op.key) {
      assert g.Keys == m.Keys + {op.key};
      assert forall j :: j in g ==> j in m[op.key := Entry(0, op.now, 0)]
                                    && g[j].lastSeen == m[op.key := Entry(0, op.now, 0)][j].lastSeen;
      OldestIsExpired(g, u', op.victim, op.now, maxSize, expiry);
    }
  }

  lemma ApplyRefines(m: Entries, u: Entries, was: int, op: Op, maxSize: int, expiry: int)
    requires was <= op.now && Refines(m, u, was) && OneExpiry(u, expiry) && ValidOp(m, op, maxSize, expiry)
    requires FitsWindow(ApplyUnbounded(u, op, expiry), op, maxSize)
    ensures Refines(Apply(m, op, maxSize, expiry), ApplyUnbounded(u, op, expiry), op.now)
    ensures OneExpiry(ApplyUnbounded(u, op, expiry), expiry)
  {
    if op.Insert? { InsertRefines(m, u, was, op, maxSize, expiry); }
  }

  lemma {:induction false} RunSize(ops: seq<Op>, ms: seq<Entries>, us: seq<Entries>, n: nat, maxSize: int, expiry: int)
    requires TableRun(ops, ms, us, maxSize, expiry) && maxSize > 0 && n <= |ops|
    ensures |ms[n].Keys| <= maxSize
  {
    if n > 0 {
      RunSize(ops, ms, us, n - 1, maxSize, expiry);
      assert OpAt(ops, ms, us, n - 1, maxSize, expiry);
      ApplySize(ms[n - 1], ops[n - 1], maxSize, expiry, ms[n]);
    }
  }

  lemma {:induction false} FittingRunRefines(
    ops: seq<Op>, ms: seq<Entries>, us: seq<Entries>, n: nat, now: int, maxSize: int, expiry: int)
    requires TableRun(ops, ms, us, maxSize, expiry) && n <= |ops|
    requires forall i :: 0 <= i < n ==> FitsWindow(us[i + 1], ops[i], maxSize)
    requires n > 0 ==> now == ops[n - 1].now
    ensures Refines(ms[n], us[n], now) && OneExpiry(us[n], expiry)
  {
    if n > 0 {
      var was := if n > 1 then ops[n - 2].now else now;
      FittingRunRefines(ops, ms, us, n - 1, was, maxSize, expiry);
      assert OpAt(ops, ms, us, n - 1, maxSize, expiry);
      assert FitsWindow(us[n - 1 + 1], ops[n - 1], maxSize);
      ApplyRefines(ms[n - 1], us[n - 1], was, ops[n - 1], maxSize, expiry);
    }
  }

  /** Agreement forces every live key of the history to be held, so it bounds their number. */
  lemma SameAnswersFit(m: Entries, u: Entries, now: int, maxSize: int)
    requires SameAnswers(m, u, now) && |m.Keys| <= maxSize
    ensures |LiveKeys(u, now)| <= maxSize
  {
    forall k | k in LiveKeys(u, now) ensures k in m.Keys {
      assert Found(u, k, now) && Found(m, k, now);
    }
    SubsetSize(LiveKeys(u, now), m.Keys);
  }

  /**
   * The bounded table is indistinguishable from the unbounded history at every
   * point of a run exactly when no insertion leaves more than `maxSize` keys inside
   * the forget window, and its size never exceeds the bound.
   */
  lemma BoundedTableRefinesHistory(ops: seq<Op>, ms: seq<Entries>, us: seq<Entries>, maxSize: int, expiry: int)
    requires TableRun(ops, ms, us, maxSize, expiry) && maxSize > 0
    ensures forall n :: 0 <= n <= |ops| ==> |ms[n].Keys| <= maxSize
    ensures (forall n :: 0 <= n < |ops| ==> SameAnswers(ms[n + 1], us[n + 1], ops[n].now))
            <==> (forall n :: 0 <= n < |ops| ==> FitsWindow(us[n + 1], ops[n], maxSize))
  {
    forall n | 0 <= n <= |ops| ensures |ms[n].Keys| <= maxSize {
      RunSize(ops, ms, us, n, maxSize, expiry);
    }
    if forall n :: 0 <= n < |ops| ==> FitsWindow(us[n + 1], ops[n], maxSize) {
      forall n | 0 <= n < |ops| ensures SameAnswers(ms[n + 1], us[n + 1], ops[n].now) {
        FittingRunRefines(ops, ms, us, n + 1, ops[n].now, maxSize, expiry);
      }
    }
    if forall n :: 0 <= n < |ops| ==> SameAnswers(ms[n + 1], us[n + 1], ops[n].now) {
      forall n | 0 <= n < |ops| ensures FitsWindow(us[n + 1], ops[n], maxSize) {
        SameAnswersFit(ms[n + 1], us[n + 1], ops[n].now, maxSize);
      }
    }
  }
}
