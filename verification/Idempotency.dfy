/**
 The idempotency cache (rootsign/ingest/idempotency.py): an insertion-ordered
 dictionary with expiry and a FIFO size cap, refined against the log of its sets.
 */
module Idempotency {
  import opened Common
  import opened Wire

  const MAX_ENTRIES: nat := 100_000

  /** 24 hours, in seconds. */
  const TTL: int := 86_400

  datatype Cached = Cached(key: Id, response: Response, expires: int)

  /** The dictionary in insertion order. */
  type Cache = seq<Cached>

  function Evict(c: Cache, now: int): Cache {
    if c == [] then []
    else
      var front, last := c[..|c| - 1], c[|c| - 1];
      if now < last.expires then Evict(front, now) + [last] else Evict(front, now)
  }

  function Without(c: Cache, key: Id): Cache {
    if c == [] then []
    else
      var front, last := c[..|c| - 1], c[|c| - 1];
      if last.key != key then Without(front, key) + [last] else Without(front, key)
  }

  function Lookup(c: Cache, key: Id): Option<Response> {
    if c == [] then None
    else
      if c[|c| - 1].key == key then Some(c[|c| - 1].response) else Lookup(c[..|c| - 1], key)
  }

  lemma {:induction false} EvictKeeps(c: Cache, now: int)
    ensures |Evict(c, now)| <= |c|
    ensures forall e :: e in Evict(c, now) <==> e in c && now < e.expires
  {
    if c != [] {
      var front, last := c[..|c| - 1], c[|c| - 1];
      EvictKeeps(front, now);
      assert c == front + [last];
    }
  }

  lemma {:induction false} WithoutKeeps(c: Cache, key: Id)
    ensures |Without(c, key)| <= |c|
    ensures forall e :: e in Without(c, key) <==> e in c && e.key != key
  {
    if c != [] {
      var front, last := c[..|c| - 1], c[|c| - 1];
      WithoutKeeps(front, key);
      assert c == front + [last];
    }
  }

  lemma {:induction false} LookupFinds(c: Cache, key: Id)
    ensures var r := Lookup(c, key);
            && (r.Some? ==> exists e :: e in c && e.key == key && e.response == r.value)
            && (r.None? ==> forall e :: e in c ==> e.key != key)
  {
    if c != [] {
      var front, last := c[..|c| - 1], c[|c| - 1];
      LookupFinds(front, key);
      assert c == front + [last];
    }
  }

  function Expiry(emittedAt: int, now: int): int {
    Min(emittedAt + TTL, now + TTL)
  }

  /** Drop the oldest entries beyond the cap. */
  function Cap(c: Cache): (kept: Cache)
    ensures |kept| <= MAX_ENTRIES
  {
    if MAX_ENTRIES < |c| then c[|c| - MAX_ENTRIES..] else c
  }

  function Put(c: Cache, key: Id, response: Response, emittedAt: int, now: int): (after: Cache)
    ensures |after| <= MAX_ENTRIES
  {
    Cap(Without(Evict(c, now), key) + [Cached(key, response, Expiry(emittedAt, now))])
  }

  /**
   What one set leaves: the new entry last, live until a day after the event or after now,
   whichever is earlier; before it only entries of other keys that have not expired, all of
   them if that is within the cap.
   */
  lemma PutMeaning(c: Cache, key: Id, response: Response, emittedAt: int, now: int)
    ensures var after := Put(c, key, response, emittedAt, now);
            && 0 < |after| <= 100_000
            && after[|after| - 1] == Cached(key, response, if emittedAt <= now then emittedAt + 86_400 else now + 86_400)
            && (forall x :: x in after[..|after| - 1] ==> x in c && x.key != key && now < x.expires)
            && (|c| < 100_000 ==> forall x :: x in c && x.key != key && now < x.expires ==> x in after[..|after| - 1])
  {
    EvictKeeps(c, now);
    WithoutKeeps(Evict(c, now), key);
    var kept, after := Without(Evict(c, now), key), Put(c, key, response, emittedAt, now);
    var longer := kept + [Cached(key, response, Expiry(emittedAt, now))];
    forall x | x in after[..|after| - 1] ensures x in kept {
      var i :| 0 <= i < |after| - 1 && after[i] == x;
      assert longer[i + (|longer| - |after|)] == x;
    }
    if |c| < 100_000 {
      assert after[..|after| - 1] == kept;
    }
  }

  class IdempotencyStore {
    var entries: Cache

    constructor ()
      ensures entries == []
    {
      entries := [];
    }

    method EvictExpired(now: int)
      modifies this
      ensures entries == Evict(old(entries), now)
    {
      var kept: Cache := [];
      for i := 0 to |entries|
        invariant kept == Evict(entries[..i], now)
        invariant entries == old(entries)
      {
        assert entries[..i + 1][..i] == entries[..i];
        if now < entries[i].expires {
          kept := kept + [entries[i]];
        }
      }
      assert entries[..|entries|] == entries;
      entries := kept;
    }

    method Get(key: Id, now: int) returns (r: Option<Response>)
      modifies this
      ensures entries == Evict(old(entries), now) && r == Lookup(entries, key)
    {
      EvictExpired(now);
      r := Lookup(entries, key);
    }

    method Set(key: Id, response: Response, emittedAt: int, now: int)
      modifies this
      ensures entries == Put(old(entries), key, response, emittedAt, now)
    {
      EvictExpired(now);
      entries := Without(entries, key) + [Cached(key, response, Min(emittedAt + TTL, now + TTL))];
      var overflow := |entries| - MAX_ENTRIES;
      if 0 < overflow {
        entries := entries[overflow..];
      }
    }
  }

  // ---------- The log of sets ----------

  datatype SetOp = SetOp(key: Id, response: Response, expires: int)

  /** The position of the last set of a key; -1 if it was never set. */
  function LatestAt(log: seq<SetOp>, key: Id): (at: int)
    ensures -1 <= at < |log|
    ensures 0 <= at ==> log[at].key == key
  {
    if log == [] then -1
    else if log[|log| - 1].key == key then |log| - 1
    else LatestAt(log[..|log| - 1], key)
  }

  /** The other keys set since the last set of a key. */
  function OthersSince(log: seq<SetOp>, key: Id): set<Id> {
    if log == [] || log[|log| - 1].key == key then {} else OthersSince(log[..|log| - 1], key) + {log[|log| - 1].key}
  }

  ghost predicate Newer(log: seq<SetOp>, a: Cached, b: Cached) {
    LatestAt(log, a.key) < LatestAt(log, b.key)
  }

  /** Entries stand in the order their keys were last set. */
  ghost predicate InSetOrder(c: Cache, log: seq<SetOp>) {
    forall i, j :: 0 <= i < j < |c| ==> Newer(log, c[i], c[j])
  }

  /** An entry is the last set of its key. */
  ghost predicate FromLog(e: Cached, log: seq<SetOp>) {
    var at := LatestAt(log, e.key);
    0 <= at && log[at] == SetOp(e.key, e.response, e.expires)
  }

  ghost predicate Has(c: Cache, key: Id) {
    exists e :: e in c && e.key == key
  }

  /** A key that was set is cached, or expired, or crowded out by as many others as the cap. */
  ghost predicate Accounted(c: Cache, log: seq<SetOp>, now: int, key: Id) {
    var at := LatestAt(log, key);
    0 <= at ==> Has(c, key) || log[at].expires <= now || MAX_ENTRIES <= |OthersSince(log, key)|
  }

  /** The cache `c` is what remains at time `now` of the sets in `log`. */
  ghost predicate Refines(c: Cache, log: seq<SetOp>, now: int) {
    && |c| <= MAX_ENTRIES
    && InSetOrder(c, log)
    && (forall e :: e in c ==> FromLog(e, log))
    && (forall key: Id :: Accounted(c, log, now, key))
  }

  lemma {:induction false} EvictOrdered(c: Cache, log: seq<SetOp>, now: int)
    requires InSetOrder(c, log)
    ensures InSetOrder(Evict(c, now), log)
  {
    if c != [] {
      var front, last := c[..|c| - 1], c[|c| - 1];
      EvictOrdered(front, log, now);
      EvictKeeps(front, now);
      var kept := Evict(front, now);
      forall i | 0 <= i < |kept| ensures Newer(log, kept[i], last) {
        assert kept[i] in front;
      }
    }
  }

  lemma {:induction false} WithoutOrdered(c: Cache, log: seq<SetOp>, key: Id)
    requires InSetOrder(c, log)
    ensures InSetOrder(Without(c, key), log)
  {
    if c != [] {
      var front, last := c[..|c| - 1], c[|c| - 1];
      WithoutOrdered(front, log, key);
      WithoutKeeps(front, key);
      var kept := Without(front, key);
      forall i | 0 <= i < |kept| ensures Newer(log, kept[i], last) {
        assert kept[i] in front;
      }
    }
  }

  /** Time passing keeps the refinement. */
  lemma RefinesLater(c: Cache, log: seq<SetOp>, then_: int, now: int)
    requires Refines(c, log, then_) && then_ <= now
    ensures Refines(c, log, now)
  {
    forall key: Id ensures Accounted(c, log, now, key) {
      assert Accounted(c, log, then_, key);
    }
  }

  /** Expiry keeps the refinement, at any later time. */
  lemma EvictRefines(c: Cache, log: seq<SetOp>, then_: int, now: int)
    requires Refines(c, log, then_) && then_ <= now
    ensures Refines(Evict(c, now), log, now)
  {
    EvictOrdered(c, log, now);
    EvictKeeps(c, now);
    forall key: Id ensures Accounted(Evict(c, now), log, now, key) {
      assert Accounted(c, log, then_, key);
      if Has(c, key) {
        var e :| e in c && e.key == key;
        assert FromLog(e, log);
        assert now < e.expires ==> e in Evict(c, now);
      }
    }
  }

  /**
   Under a non-decreasing clock: `get` answers with the last set response of the
   key or not at all, and does answer if that has not expired and fewer than the
   cap of other keys were set since.
   */
  lemma GetMeaning(c: Cache, log: seq<SetOp>, then_: int, now: int, key: Id)
    requires Refines(c, log, then_) && then_ <= now
    ensures var r, at := Lookup(Evict(c, now), key), LatestAt(log, key);
            && (r.Some? ==> 0 <= at && r.value == log[at].response && now < log[at].expires)
            && (0 <= at && now < log[at].expires && |OthersSince(log, key)| < MAX_ENTRIES ==> r == Some(log[at].response))
  {
    EvictRefines(c, log, then_, now);
    var kept := Evict(c, now);
    var r := Lookup(kept, key);
    EvictKeeps(c, now);
    LookupFinds(kept, key);
    assert Accounted(kept, log, now, key);
    if r.Some? {
      var e :| e in kept && e.key == key && e.response == r.value;
      assert FromLog(e, log);
    }
  }

  // ---------- A set ----------

  lemma LatestAfter(log: seq<SetOp>, op: SetOp, key: Id)
    ensures LatestAt(log + [op], key) == if op.key == key then |log| else LatestAt(log, key)
    ensures OthersSince(log + [op], key) == if op.key == key then {} else OthersSince(log, key) + {op.key}
  {
    assert (log + [op])[..|log|] == log;
  }

  /** Keys last set after `key` are among the others set since. */
  lemma {:induction false} NewerIsOther(log: seq<SetOp>, key: Id, other: Id)
    requires LatestAt(log, key) < LatestAt(log, other)
    ensures other in OthersSince(log, key)
  {
    if log != [] && log[|log| - 1].key != other {
      NewerIsOther(log[..|log| - 1], key, other);
    }
  }

  function KeysOf(c: Cache): (keys: seq<Id>)
    ensures |keys| == |c| && forall i :: 0 <= i < |c| ==> keys[i] == c[i].key
  {
    seq(|c|, i requires 0 <= i < |c| => c[i].key)
  }

  /** Whoever stands before a full cache was crowded out. */
  lemma CrowdedOut(first: Cached, rest: Cache, log: seq<SetOp>)
    requires |rest| == MAX_ENTRIES && InSetOrder([first] + rest, log)
    ensures MAX_ENTRIES <= |OthersSince(log, first.key)|
  {
    var all, keys := [first] + rest, KeysOf(rest);
    forall i, j | 0 <= i < j < |keys| ensures keys[i] != keys[j] {
      assert Newer(log, all[i + 1], all[j + 1]);
    }
    DistinctIffCount(keys);
    forall k | k in Elems(keys) ensures k in OthersSince(log, first.key) {
      var i :| 0 <= i < |keys| && keys[i] == k;
      assert Newer(log, all[0], all[i + 1]);
      NewerIsOther(log, first.key, k);
    }
    SubsetSize(Elems(keys), OthersSince(log, first.key));
  }

  lemma SubsetSize(a: set<Id>, b: set<Id>)
    requires a <= b
    ensures |a| <= |b|
  {
    assert |b - a| == |b| - |a|;
  }

  /** The entries before the cap is enforced. */
  function Refreshed(c: Cache, op: SetOp, now: int): Cache {
    Without(Evict(c, now), op.key) + [Cached(op.key, op.response, op.expires)]
  }

  lemma RefreshedOrdered(c: Cache, log: seq<SetOp>, op: SetOp, now: int)
    requires InSetOrder(c, log) && forall e :: e in c ==> FromLog(e, log)
    ensures InSetOrder(Refreshed(c, op, now), log + [op])
    ensures forall e :: e in Refreshed(c, op, now) ==> FromLog(e, log + [op])
  {
    var kept := Without(Evict(c, now), op.key);
    EvictOrdered(c, log, now);
    EvictKeeps(c, now);
    WithoutKeeps(Evict(c, now), op.key);
    WithoutOrdered(Evict(c, now), log, op.key);
    forall e: Cached {:trigger LatestAt(log + [op], e.key)} ensures
      LatestAt(log + [op], e.key) == if op.key == e.key then |log| else LatestAt(log, e.key)
    {
      LatestAfter(log, op, e.key);
    }
    var all := Refreshed(c, op, now);
    forall i, j | 0 <= i < j < |all| ensures Newer(log + [op], all[i], all[j]) {
      assert kept[i] in kept && kept[i].key != op.key;
      if j < |kept| {
        assert kept[j] in kept;
        assert Newer(log, kept[i], kept[j]);
      }
    }
    forall e | e in all ensures FromLog(e, log + [op]) {
      if e in kept {
        assert FromLog(e, log);
      }
    }
  }

  lemma RefreshedAccounted(c: Cache, log: seq<SetOp>, op: SetOp, then_: int, now: int, key: Id)
    requires Refines(c, log, then_) && then_ <= now
    ensures Accounted(Refreshed(c, op, now), log + [op], now, key)
  {
    var all := Refreshed(c, op, now);
    LatestAfter(log, op, key);
    if key == op.key {
      assert all[|all| - 1] in all;
    } else {
      EvictRefines(c, log, then_, now);
      WithoutKeeps(Evict(c, now), op.key);
      assert Accounted(Evict(c, now), log, now, key);
      if Has(Evict(c, now), key) {
        var e :| e in Evict(c, now) && e.key == key;
        assert e in all;
      }
      SubsetSize(OthersSince(log, key), OthersSince(log + [op], key));
    }
  }

  /** A set keeps the refinement, with the log extended by it. */
  lemma SetRefines(c: Cache, log: seq<SetOp>, then_: int, now: int, key: Id, response: Response, emittedAt: int)
    requires Refines(c, log, then_) && then_ <= now
    ensures Refines(Put(c, key, response, emittedAt, now), log + [SetOp(key, response, Expiry(emittedAt, now))], now)
  {
    var op := SetOp(key, response, Expiry(emittedAt, now));
    var all, after := Refreshed(c, op, now), Put(c, key, response, emittedAt, now);
    RefreshedOrdered(c, log, op, now);
    EvictKeeps(c, now);
    WithoutKeeps(Evict(c, now), key);
    assert after == Cap(all) && |all| <= MAX_ENTRIES + 1;
    forall k: Id ensures Accounted(after, log + [op], now, k) {
      RefreshedAccounted(c, log, op, then_, now, k);
      CapAccounted(all, log + [op], now, k);
    }
  }

  lemma CapAccounted(all: Cache, log: seq<SetOp>, now: int, key: Id)
    requires |all| <= MAX_ENTRIES + 1 && InSetOrder(all, log) && Accounted(all, log, now, key)
    ensures Accounted(Cap(all), log, now, key)
  {
    if MAX_ENTRIES < |all| {
      assert all == [all[0]] + all[1..] && Cap(all) == all[1..];
      CrowdedOut(all[0], all[1..], log);
      if Has(all, key) {
        var e :| e in all && e.key == key;
        assert e == all[0] || e in all[1..];
      }
    }
  }

  // ---------- Runs ----------

  datatype Op = Get(key: Id, now: int) | Set(key: Id, response: Response, emittedAt: int, now: int)

  function StepCache(c: Cache, op: Op): Cache {
    match op
    case Get(_, now) => Evict(c, now)
    case Set(key, response, emittedAt, now) => Put(c, key, response, emittedAt, now)
  }

  function RunCache(c: Cache, ops: seq<Op>): Cache {
    if ops == [] then c else StepCache(RunCache(c, ops[..|ops| - 1]), ops[|ops| - 1])
  }

  function LogOf(ops: seq<Op>): seq<SetOp> {
    if ops == [] then []
    else
      var last := ops[|ops| - 1];
      LogOf(ops[..|ops| - 1]) + (if last.Set? then [SetOp(last.key, last.response, Expiry(last.emittedAt, last.now))] else [])
  }

  ghost predicate ClockRuns(ops: seq<Op>) {
    forall i, j :: 0 <= i < j < |ops| ==> ops[i].now <= ops[j].now
  }

  /** Any run from empty under a non-decreasing clock refines the log of its sets. */
  lemma {:induction false} RunRefines(ops: seq<Op>)
    requires ops != [] && ClockRuns(ops)
    ensures Refines(RunCache([], ops), LogOf(ops), ops[|ops| - 1].now)
  {
    var front, last := ops[..|ops| - 1], ops[|ops| - 1];
    var before := if front == [] then last.now else front[|front| - 1].now;
    if front == [] {
      assert Refines([], [], last.now);
    } else {
      RunRefines(front);
    }
    var log := LogOf(front);
    if last.Get? {
      EvictRefines(RunCache([], front), log, before, last.now);
      assert LogOf(ops) == log + [] == log;
    } else {
      SetRefines(RunCache([], front), log, before, last.now, last.key, last.response, last.emittedAt);
    }
  }
}
