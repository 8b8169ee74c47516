/**
 Repeats of an event at the ingest handler (rootsign/ingest/handler.py:83-120): the
 idempotency cache over a run of arrivals, what a repeat of an accepted event is
 answered, and what an envelope of another major version under its id does to that.
 */
module Repeats {
  import opened Common
  import opened Hashing
  import opened Wire
  import opened Idempotency
  import opened Ingest

  // ---------- The cache over a run ----------

  ghost predicate ClockRuns(arrivals: seq<Arrival>, now: int) {
    && (forall i, j :: 0 <= i < j < |arrivals| ==> arrivals[i].now <= arrivals[j].now)
    && forall i :: 0 <= i < |arrivals| ==> arrivals[i].now <= now
  }

  lemma RememberRefines(st: Store, c: Cache, log: seq<SetOp>, e: Envelope, r: Response, now: int)
    requires Refines(c, log, now)
    ensures Refines(Remember(st, c, e, r, now).world.cache, log + Remember(st, c, e, r, now).sets, now)
  {
    SetRefines(c, log, now, now, e.eventId, r, e.emittedAt);
    assert log + [] == log;
  }

  lemma EnvelopeRefines(w: World, log: seq<SetOp>, e: Envelope, schemaOk: bool, newId: Id, now: int)
    requires Refines(w.cache, log, now)
    ensures var h := HandleEnvelope(w, e, schemaOk, newId, now); Refines(h.world.cache, log + h.sets, now)
  {
    if e.version.major != SUPPORTED_SCHEMA_MAJOR {
      RememberRefines(w.store, w.cache, log, e, Reject(e.eventId, SchemaVersionMismatch, "", false), now);
    } else {
      EvictRefines(w.cache, log, now, now);
      var effect := Dispatch(w.store, e, schemaOk, newId);
      RememberRefines(effect.store, Evict(w.cache, now), log, e, effect.response, now);
      assert log + [] == log;
    }
  }

  lemma HandleRefines(w: World, log: seq<SetOp>, a: Arrival)
    requires Refines(w.cache, log, a.now)
    ensures Refines(Handle(w, a).world.cache, log + Handle(w, a).sets, a.now)
  {
    match a.incoming {
      case Unparsable(_) => assert log + [] == log;
      case Parsed(e, schemaOk) => EnvelopeRefines(w, log, e, schemaOk, a.newId, a.now);
    }
  }

  /** The cache of a run refines the log of what the run cached. */
  lemma {:induction false} RunRefinesLog(agents: set<Id>, arrivals: seq<Arrival>, now: int)
    requires ClockRuns(arrivals, now)
    ensures Refines(Run(Fresh(agents), arrivals).cache, LogOfRun(Fresh(agents), arrivals), now)
  {
    if arrivals != [] {
      var front, last := arrivals[..|arrivals| - 1], arrivals[|arrivals| - 1];
      RunRefinesLog(agents, front, last.now);
      var w, log := Run(Fresh(agents), front), LogOfRun(Fresh(agents), front);
      HandleRefines(w, log, last);
      RefinesLater(Handle(w, last).world.cache, log + Handle(w, last).sets, last.now, now);
    }
  }

  /** The event has a cached answer that must still be there at time `now`. */
  ghost predicate StillCached(log: seq<SetOp>, event: Id, now: int) {
    var at := LatestAt(log, event);
    0 <= at && now < log[at].expires && |OthersSince(log, event)| < MAX_ENTRIES
  }

  /** An envelope of the supported major version under this event id. */
  predicate Repeats(a: Arrival, event: Id) {
    && a.incoming.Parsed? && a.incoming.envelope.eventId == event
    && a.incoming.envelope.version.major == SUPPORTED_SCHEMA_MAJOR
  }

  /** An envelope of another major version under this event id. */
  predicate Mismatched(a: Arrival, event: Id) {
    && a.incoming.Parsed? && a.incoming.envelope.eventId == event
    && a.incoming.envelope.version.major != SUPPORTED_SCHEMA_MAJOR
  }

  /** While an event's answer is cached, a repeat of it gets that answer and changes nothing. */
  lemma RepeatIsAnswered(agents: set<Id>, arrivals: seq<Arrival>, a: Arrival, event: Id)
    requires ClockRuns(arrivals, a.now) && Repeats(a, event)
    requires StillCached(LogOfRun(Fresh(agents), arrivals), event, a.now)
    ensures var w, log := Run(Fresh(agents), arrivals), LogOfRun(Fresh(agents), arrivals);
            && Handle(w, a).world.store == w.store
            && Handle(w, a).response == log[LatestAt(log, event)].response
            && Handle(w, a).sets == []
  {
    RunRefinesLog(agents, arrivals, a.now);
    GetMeaning(Run(Fresh(agents), arrivals).cache, LogOfRun(Fresh(agents), arrivals), a.now, a.now, event);
  }

  /** A repeat either gets the latest answer cached for its event and changes nothing, or is dispatched; expiry decides. */
  lemma AnsweredOrDispatched(agents: set<Id>, arrivals: seq<Arrival>, a: Arrival, event: Id)
    requires ClockRuns(arrivals, a.now) && Repeats(a, event)
    ensures var w, log := Run(Fresh(agents), arrivals), LogOfRun(Fresh(agents), arrivals);
            var again, at := Dispatch(w.store, a.incoming.envelope, a.incoming.schemaOk, a.newId), LatestAt(log, event);
            || (0 <= at && a.now < log[at].expires && Handle(w, a).world.store == w.store && Handle(w, a).response == log[at].response)
            || (Handle(w, a).world.store == again.store && Handle(w, a).response == again.response)
  {
    RunRefinesLog(agents, arrivals, a.now);
    GetMeaning(Run(Fresh(agents), arrivals).cache, LogOfRun(Fresh(agents), arrivals), a.now, a.now, event);
  }

  // ---------- What is logged for an arrival ----------

  /** Only an accepted envelope of this schema version changes the store, and its answer is cached. */
  lemma ChangeIsCached(w: World, a: Arrival)
    requires Handle(w, a).world.store != w.store
    ensures a.incoming.Parsed? && a.incoming.envelope.version.major == SUPPORTED_SCHEMA_MAJOR
    ensures var e, r := a.incoming.envelope, Handle(w, a).response;
            r.status == Accepted && Handle(w, a).sets == [SetOp(e.eventId, r, Expiry(e.emittedAt, a.now))]
  {
    var e := a.incoming.envelope;
    RouteAccepts(w.store, e, a.incoming.schemaOk, a.newId);
    assert Lookup(Evict(w.cache, a.now), e.eventId).None?;
  }

  lemma RouteAccepts(st: Store, e: Envelope, schemaOk: bool, newId: Id)
    ensures var r := Route(st, e, schemaOk, newId);
            r.Ok? ==> r.value.response.status == Accepted && r.value.response.eventId == e.eventId
  {
  }

  /** Whatever is accepted changes the store: nothing is accepted to no effect. */
  lemma AcceptedChanges(st: Store, e: Envelope, schemaOk: bool, newId: Id)
    ensures Dispatch(st, e, schemaOk, newId).store == st ==> Dispatch(st, e, schemaOk, newId).response.status == Rejected
  {
    if Route(st, e, schemaOk, newId).Ok? {
      var after := Route(st, e, schemaOk, newId).value.store;
      match e.body {
        case SessionOpen => assert e.sessionId in after.sessions && e.sessionId !in st.sessions;
        case ActionRecord(_) =>
          assert |after.sessions[e.sessionId].rows| == |st.sessions[e.sessionId].rows| + 1;
        case DecisionRecord =>
          assert after.sessions[e.sessionId].decisions == st.sessions[e.sessionId].decisions + 1;
        case ApprovalRecord(_) => assert |after.approvals| == |st.approvals| + 1;
        case SessionClose(outcome) =>
          assert after.sessions[e.sessionId].status == outcome != st.sessions[e.sessionId].status;
      }
    }
  }

  /** What an arrival caches carries its own event id, and a repeat or a mismatch alone caches under an event's id. */
  lemma SetsUnderItsId(w: World, a: Arrival, event: Id)
    ensures Handle(w, a).sets == [] || (|Handle(w, a).sets| == 1 && a.incoming.Parsed? &&
                                        Handle(w, a).sets[0].key == a.incoming.envelope.eventId)
    ensures !Repeats(a, event) && !Mismatched(a, event) ==> Handle(w, a).sets == [] || Handle(w, a).sets[0].key != event
    ensures Mismatched(a, event) ==>
              && Handle(w, a).world.store == w.store
              && Handle(w, a).sets == [SetOp(event, Reject(event, SchemaVersionMismatch, "", false),
                                             Expiry(a.incoming.envelope.emittedAt, a.now))]
  {
  }

  lemma LogStep(w: World, arrivals: seq<Arrival>, j: nat)
    requires j < |arrivals|
    ensures LogOfRun(w, arrivals[..j + 1]) == LogOfRun(w, arrivals[..j]) + Handle(Run(w, arrivals[..j]), arrivals[j]).sets
    ensures Run(w, arrivals[..j + 1]) == Handle(Run(w, arrivals[..j]), arrivals[j]).world
  {
    assert arrivals[..j + 1][..j] == arrivals[..j];
  }

  lemma {:induction false} LogGrows(w: World, arrivals: seq<Arrival>, n: nat)
    requires n <= |arrivals|
    ensures LogOfRun(w, arrivals[..n]) <= LogOfRun(w, arrivals)
  {
    if n == |arrivals| {
      assert arrivals[..n] == arrivals;
    } else {
      var front := arrivals[..|arrivals| - 1];
      LogGrows(w, front, n);
      assert front[..n] == arrivals[..n];
    }
  }

  // ---------- The log, seen from an entry ----------

  /** The other keys set after position `k` of the log. */
  function OthersAfter(log: seq<SetOp>, k: nat, key: Id): set<Id> {
    set op | op in log[Min(k + 1, |log|)..] && op.key != key :: op.key
  }

  lemma OthersAfterGrows(log: seq<SetOp>, more: seq<SetOp>, k: nat, key: Id)
    requires log <= more
    ensures OthersAfter(log, k, key) <= OthersAfter(more, k, key)
    ensures |OthersAfter(log, k, key)| <= |OthersAfter(more, k, key)|
  {
    var after, afterMore := log[Min(k + 1, |log|)..], more[Min(k + 1, |more|)..];
    assert k < |log| ==> afterMore[..|after|] == after;
    SubsetSize(OthersAfter(log, k, key), OthersAfter(more, k, key));
  }

  lemma {:induction false} SinceWithinAfter(log: seq<SetOp>, k: nat, key: Id)
    requires k <= LatestAt(log, key)
    ensures OthersSince(log, key) <= OthersAfter(log, k, key)
    ensures |OthersSince(log, key)| <= |OthersAfter(log, k, key)|
  {
    if log[|log| - 1].key != key {
      var front := log[..|log| - 1];
      SinceWithinAfter(front, k, key);
      OthersAfterGrows(front, log, k, key);
      assert log[|log| - 1] in log[Min(k + 1, |log|)..];
    }
    SubsetSize(OthersSince(log, key), OthersAfter(log, k, key));
  }

  lemma {:induction false} LatestAfterSet(log: seq<SetOp>, i: nat)
    requires i < |log|
    ensures i <= LatestAt(log, log[i].key)
  {
    if i < |log| - 1 && log[|log| - 1].key != log[i].key {
      LatestAfterSet(log[..|log| - 1], i);
    }
  }

  // ---------- An accepted event and its own answer ----------

  /** Where an event's latest cached answer stands after `n` arrivals. */
  function Latest(agents: set<Id>, arrivals: seq<Arrival>, n: nat, event: Id): int
    requires n <= |arrivals|
  {
    LatestAt(LogOfRun(Fresh(agents), arrivals[..n]), event)
  }

  function Latests(agents: set<Id>, arrivals: seq<Arrival>, event: Id): (xs: seq<int>)
    ensures |xs| == |arrivals| + 1 && forall n :: 0 <= n <= |arrivals| ==> xs[n] == Latest(agents, arrivals, n, event)
  {
    seq(|arrivals| + 1, n requires 0 <= n <= |arrivals| => Latest(agents, arrivals, n, event))
  }

  lemma {:induction false} StaysAt(xs: seq<int>, from: nat, to: nat, k: int)
    requires from <= to < |xs| && xs[from] == k
    requires forall n :: from <= n < to && xs[n] == k ==> xs[n + 1] == k
    ensures xs[to] == k
  {
    if from < to {
      StaysAt(xs, from, to - 1, k);
    }
  }

  /** Arrival `i` of the run changed the store. */
  ghost predicate Changed(agents: set<Id>, arrivals: seq<Arrival>, i: nat)
    requires i < |arrivals|
  {
    Run(Fresh(agents), arrivals[..i + 1]).store != Run(Fresh(agents), arrivals[..i]).store
  }

  /** Where in the log an arrival's answer stands, if it was cached. */
  function EntryOf(agents: set<Id>, arrivals: seq<Arrival>, i: nat): nat
    requires i <= |arrivals|
  {
    |LogOfRun(Fresh(agents), arrivals[..i])|
  }

  function AnswerTo(agents: set<Id>, arrivals: seq<Arrival>, i: nat): Response
    requires i < |arrivals|
  {
    Handle(Run(Fresh(agents), arrivals[..i]), arrivals[i]).response
  }

  /** The answer given at arrival `i` has not expired by `now`, and fewer than the cap of other events were cached since. */
  ghost predicate AnswerLives(agents: set<Id>, arrivals: seq<Arrival>, i: nat, now: int)
    requires i < |arrivals| && arrivals[i].incoming.Parsed?
  {
    var e := arrivals[i].incoming.envelope;
    && now < Expiry(e.emittedAt, arrivals[i].now)
    && |OthersAfter(LogOfRun(Fresh(agents), arrivals), EntryOf(agents, arrivals, i), e.eventId)| < MAX_ENTRIES
  }

  /** No envelope of another major version arrived under this id after `i`. */
  ghost predicate NoMismatchAfter(arrivals: seq<Arrival>, i: nat, event: Id) {
    forall j :: i < j < |arrivals| ==> !Mismatched(arrivals[j], event)
  }

  /** The run accepted `event` at arrival `i`. */
  ghost predicate AcceptedAt(agents: set<Id>, arrivals: seq<Arrival>, i: nat, event: Id) {
    && i < |arrivals| && arrivals[i].incoming.Parsed? && arrivals[i].incoming.envelope.eventId == event
    && Changed(agents, arrivals, i)
  }

  /** Arrival `j` put this one entry into the log. */
  ghost predicate Logs(agents: set<Id>, arrivals: seq<Arrival>, j: nat, op: SetOp) {
    j < |arrivals| && LogOfRun(Fresh(agents), arrivals[..j + 1]) == LogOfRun(Fresh(agents), arrivals[..j]) + [op]
  }

  function AcceptanceOf(agents: set<Id>, arrivals: seq<Arrival>, i: nat, event: Id): SetOp
    requires i < |arrivals| && arrivals[i].incoming.Parsed?
  {
    SetOp(event, AnswerTo(agents, arrivals, i), Expiry(arrivals[i].incoming.envelope.emittedAt, arrivals[i].now))
  }

  function MismatchOf(a: Arrival, event: Id): SetOp
    requires a.incoming.Parsed?
  {
    SetOp(event, Reject(event, SchemaVersionMismatch, "", false), Expiry(a.incoming.envelope.emittedAt, a.now))
  }

  lemma AcceptedIsLogged(agents: set<Id>, arrivals: seq<Arrival>, i: nat, event: Id)
    requires AcceptedAt(agents, arrivals, i, event)
    ensures AnswerTo(agents, arrivals, i).status == Accepted
    ensures Logs(agents, arrivals, i, AcceptanceOf(agents, arrivals, i, event))
  {
    LogStep(Fresh(agents), arrivals, i);
    ChangeIsCached(Run(Fresh(agents), arrivals[..i]), arrivals[i]);
  }

  lemma MismatchIsLogged(agents: set<Id>, arrivals: seq<Arrival>, j: nat, event: Id)
    requires j < |arrivals| && Mismatched(arrivals[j], event)
    ensures Logs(agents, arrivals, j, MismatchOf(arrivals[j], event))
  {
    LogStep(Fresh(agents), arrivals, j);
    SetsUnderItsId(Run(Fresh(agents), arrivals[..j]), arrivals[j], event);
  }

  lemma LoggedStays(agents: set<Id>, arrivals: seq<Arrival>, j: nat, op: SetOp)
    requires Logs(agents, arrivals, j, op)
    ensures var log, k := LogOfRun(Fresh(agents), arrivals), EntryOf(agents, arrivals, j);
            k < |log| && log[k] == op && k <= LatestAt(log, op.key)
  {
    var log, k := LogOfRun(Fresh(agents), arrivals), EntryOf(agents, arrivals, j);
    LogGrows(Fresh(agents), arrivals, j + 1);
    assert log[k] == LogOfRun(Fresh(agents), arrivals[..j + 1])[k];
    LatestAfterSet(log, k);
  }

  lemma LoggedBefore(agents: set<Id>, arrivals: seq<Arrival>, i: nat, j: nat, op: SetOp)
    requires Logs(agents, arrivals, i, op) && i < j <= |arrivals|
    ensures EntryOf(agents, arrivals, i) < EntryOf(agents, arrivals, j)
  {
    assert arrivals[..j][..i + 1] == arrivals[..i + 1];
    LogGrows(Fresh(agents), arrivals[..j], i + 1);
  }

  /** The accepted answer stands in every later log, and its event's latest entry is that one or a later one. */
  lemma AcceptedStaysLogged(agents: set<Id>, arrivals: seq<Arrival>, i: nat, event: Id)
    requires AcceptedAt(agents, arrivals, i, event)
    ensures var log, k := LogOfRun(Fresh(agents), arrivals), EntryOf(agents, arrivals, i);
            k < |log| && k <= LatestAt(log, event) && log[k] == AcceptanceOf(agents, arrivals, i, event)
  {
    AcceptedIsLogged(agents, arrivals, i, event);
    LoggedStays(agents, arrivals, i, AcceptanceOf(agents, arrivals, i, event));
  }

  /** A prefix of the run that holds arrival `i` says the same about it. */
  lemma PrefixSame(agents: set<Id>, arrivals: seq<Arrival>, n: nat, i: nat, event: Id)
    requires i < n <= |arrivals| && AcceptedAt(agents, arrivals, i, event)
    ensures AcceptedAt(agents, arrivals[..n], i, event)
    ensures EntryOf(agents, arrivals[..n], i) == EntryOf(agents, arrivals, i)
    ensures AnswerTo(agents, arrivals[..n], i) == AnswerTo(agents, arrivals, i)
  {
    assert arrivals[..n][..i] == arrivals[..i] && arrivals[..n][..i + 1] == arrivals[..i + 1];
  }

  lemma LivedBefore(agents: set<Id>, arrivals: seq<Arrival>, n: nat, i: nat, event: Id, now: int, later: int)
    requires i < n <= |arrivals| && AcceptedAt(agents, arrivals, i, event)
    requires AnswerLives(agents, arrivals, i, later) && now <= later
    ensures AnswerLives(agents, arrivals[..n], i, now)
  {
    PrefixSame(agents, arrivals, n, i, event);
    LogGrows(Fresh(agents), arrivals, n);
    OthersAfterGrows(LogOfRun(Fresh(agents), arrivals[..n]), LogOfRun(Fresh(agents), arrivals),
                     EntryOf(agents, arrivals, i), event);
  }

  /** A live answer that is its event's latest must still be in the cache. */
  lemma LatestLives(agents: set<Id>, arrivals: seq<Arrival>, i: nat, event: Id, now: int)
    requires AcceptedAt(agents, arrivals, i, event) && AnswerLives(agents, arrivals, i, now)
    requires LatestAt(LogOfRun(Fresh(agents), arrivals), event) == EntryOf(agents, arrivals, i)
    ensures StillCached(LogOfRun(Fresh(agents), arrivals), event, now)
  {
    AcceptedStaysLogged(agents, arrivals, i, event);
    SinceWithinAfter(LogOfRun(Fresh(agents), arrivals), EntryOf(agents, arrivals, i), event);
  }

  /** One more arrival that is no mismatch leaves a live answer its event's latest. */
  lemma StaysLatest(agents: set<Id>, arrivals: seq<Arrival>, last: Arrival, i: nat, event: Id)
    requires ClockRuns(arrivals, last.now) && AcceptedAt(agents, arrivals, i, event)
    requires AnswerLives(agents, arrivals, i, last.now)
    requires LatestAt(LogOfRun(Fresh(agents), arrivals), event) == EntryOf(agents, arrivals, i)
    requires !Mismatched(last, event)
    ensures var log := LogOfRun(Fresh(agents), arrivals);
            LatestAt(log + Handle(Run(Fresh(agents), arrivals), last).sets, event) == LatestAt(log, event)
  {
    var w, log := Run(Fresh(agents), arrivals), LogOfRun(Fresh(agents), arrivals);
    SetsUnderItsId(w, last, event);
    if Repeats(last, event) {
      LatestLives(agents, arrivals, i, event, last.now);
      RepeatIsAnswered(agents, arrivals, last, event);
      assert log + [] == log;
    } else if Handle(w, last).sets == [] {
      assert log + [] == log;
    } else {
      LatestAfter(log, Handle(w, last).sets[0], event);
    }
  }

  lemma FirstIsLatest(agents: set<Id>, arrivals: seq<Arrival>, i: nat, event: Id)
    requires AcceptedAt(agents, arrivals, i, event)
    ensures Latest(agents, arrivals, i + 1, event) == EntryOf(agents, arrivals, i)
  {
    AcceptedIsLogged(agents, arrivals, i, event);
  }

  lemma LatestStep(agents: set<Id>, arrivals: seq<Arrival>, n: nat, i: nat, event: Id, now: int)
    requires i < n < |arrivals| && AcceptedAt(agents, arrivals, i, event) && AnswerLives(agents, arrivals, i, now)
    requires ClockRuns(arrivals, now) && !Mismatched(arrivals[n], event)
    requires Latest(agents, arrivals, n, event) == EntryOf(agents, arrivals, i)
    ensures Latest(agents, arrivals, n + 1, event) == EntryOf(agents, arrivals, i)
  {
    PrefixSame(agents, arrivals, n, i, event);
    LivedBefore(agents, arrivals, n, i, event, arrivals[n].now, now);
    LogStep(Fresh(agents), arrivals, n);
    StaysLatest(agents, arrivals[..n], arrivals[n], i, event);
  }

  lemma NoMismatchKeepsEntry(agents: set<Id>, arrivals: seq<Arrival>, n: nat, i: nat, event: Id, now: int)
    requires i < n <= |arrivals| && AcceptedAt(agents, arrivals, i, event) && AnswerLives(agents, arrivals, i, now)
    requires ClockRuns(arrivals, now) && NoMismatchAfter(arrivals, i, event)
    ensures Latest(agents, arrivals, n, event) == EntryOf(agents, arrivals, i)
  {
    var xs, k := Latests(agents, arrivals, event), EntryOf(agents, arrivals, i);
    FirstIsLatest(agents, arrivals, i, event);
    forall m | i + 1 <= m < n && xs[m] == k ensures xs[m + 1] == k {
      LatestStep(agents, arrivals, m, i, event, now);
    }
    StaysAt(xs, i + 1, n, k);
  }

  /**
   While an accepted event's own answer lives, it is the event's latest cached answer if
   and only if no envelope of another major version arrived under its id since.
   */
  lemma OwnAnswerIff(agents: set<Id>, arrivals: seq<Arrival>, i: nat, event: Id, now: int)
    requires ClockRuns(arrivals, now) && AcceptedAt(agents, arrivals, i, event) && AnswerLives(agents, arrivals, i, now)
    ensures LatestAt(LogOfRun(Fresh(agents), arrivals), event) == EntryOf(agents, arrivals, i)
            <==> NoMismatchAfter(arrivals, i, event)
  {
    if NoMismatchAfter(arrivals, i, event) {
      assert arrivals[..|arrivals|] == arrivals;
      NoMismatchKeepsEntry(agents, arrivals, |arrivals|, i, event, now);
    } else {
      var j :| i < j < |arrivals| && Mismatched(arrivals[j], event);
      MismatchIsNewer(agents, arrivals, i, j, event);
    }
  }

  lemma MismatchIsNewer(agents: set<Id>, arrivals: seq<Arrival>, i: nat, j: nat, event: Id)
    requires AcceptedAt(agents, arrivals, i, event) && i < j < |arrivals| && Mismatched(arrivals[j], event)
    ensures EntryOf(agents, arrivals, i) < LatestAt(LogOfRun(Fresh(agents), arrivals), event)
  {
    AcceptedIsLogged(agents, arrivals, i, event);
    LoggedBefore(agents, arrivals, i, j, AcceptanceOf(agents, arrivals, i, event));
    MismatchIsLogged(agents, arrivals, j, event);
    LoggedStays(agents, arrivals, j, MismatchOf(arrivals[j], event));
  }

  // ---------- The repeats after a mismatch ----------

  /** Nothing arrived under this event id after `j`. */
  ghost predicate QuietAfter(arrivals: seq<Arrival>, j: nat, event: Id) {
    forall m :: j < m < |arrivals| ==> !Repeats(arrivals[m], event) && !Mismatched(arrivals[m], event)
  }

  /** An arrival that is neither a repeat nor a mismatch of an event leaves its latest entry. */
  lemma QuietStep(agents: set<Id>, arrivals: seq<Arrival>, n: nat, event: Id)
    requires n < |arrivals| && !Repeats(arrivals[n], event) && !Mismatched(arrivals[n], event)
    ensures Latest(agents, arrivals, n + 1, event) == Latest(agents, arrivals, n, event)
  {
    LogStep(Fresh(agents), arrivals, n);
    var w, log := Run(Fresh(agents), arrivals[..n]), LogOfRun(Fresh(agents), arrivals[..n]);
    SetsUnderItsId(w, arrivals[n], event);
    if Handle(w, arrivals[n]).sets == [] {
      assert log + [] == log;
    } else {
      LatestAfter(log, Handle(w, arrivals[n]).sets[0], event);
    }
  }

  lemma MismatchIsLatest(agents: set<Id>, arrivals: seq<Arrival>, j: nat, event: Id)
    requires j < |arrivals| && Mismatched(arrivals[j], event)
    ensures Latest(agents, arrivals, j + 1, event) == EntryOf(agents, arrivals, j)
  {
    MismatchIsLogged(agents, arrivals, j, event);
  }

  lemma QuietKeepsEntry(agents: set<Id>, arrivals: seq<Arrival>, j: nat, event: Id)
    requires j < |arrivals| && Mismatched(arrivals[j], event) && QuietAfter(arrivals, j, event)
    ensures Latest(agents, arrivals, |arrivals|, event) == EntryOf(agents, arrivals, j)
  {
    var xs, k := Latests(agents, arrivals, event), EntryOf(agents, arrivals, j);
    MismatchIsLatest(agents, arrivals, j, event);
    forall m | j + 1 <= m < |arrivals| && xs[m] == k ensures xs[m + 1] == k {
      QuietStep(agents, arrivals, m, event);
    }
    StaysAt(xs, j + 1, |arrivals|, k);
  }

  lemma LatestIsMismatch(agents: set<Id>, arrivals: seq<Arrival>, j: nat, event: Id)
    requires j < |arrivals| && Mismatched(arrivals[j], event) && QuietAfter(arrivals, j, event)
    ensures var log, k := LogOfRun(Fresh(agents), arrivals), EntryOf(agents, arrivals, j);
            k < |log| && LatestAt(log, event) == k && log[k] == MismatchOf(arrivals[j], event)
  {
    assert arrivals[..|arrivals|] == arrivals;
    QuietKeepsEntry(agents, arrivals, j, event);
    MismatchIsLogged(agents, arrivals, j, event);
    LoggedStays(agents, arrivals, j, MismatchOf(arrivals[j], event));
  }

  /**
   The first repeat after a mismatch. While the mismatch's own answer lasts it is told of
   a version mismatch and changes nothing, though the event may have been applied; once
   that has expired, which an old emission time makes it do at once, it is dispatched as
   if it were new. Either way it is rejected unless it changes the store.
   */
  lemma RepeatAfterMismatch(agents: set<Id>, arrivals: seq<Arrival>, j: nat, a: Arrival, event: Id)
    requires ClockRuns(arrivals, a.now) && Repeats(a, event)
    requires j < |arrivals| && Mismatched(arrivals[j], event) && QuietAfter(arrivals, j, event)
    ensures var w, until := Run(Fresh(agents), arrivals), Expiry(arrivals[j].incoming.envelope.emittedAt, arrivals[j].now);
            var again := Dispatch(w.store, a.incoming.envelope, a.incoming.schemaOk, a.newId);
            && (a.now < until && |OthersAfter(LogOfRun(Fresh(agents), arrivals), EntryOf(agents, arrivals, j), event)| < MAX_ENTRIES ==>
                  && Handle(w, a).response == Reject(event, SchemaVersionMismatch, "", false)
                  && Handle(w, a).world.store == w.store)
            && (until <= a.now ==> Handle(w, a).response == again.response && Handle(w, a).world.store == again.store)
            && (Handle(w, a).world.store == w.store ==> Handle(w, a).response.status == Rejected)
  {
    var w, log := Run(Fresh(agents), arrivals), LogOfRun(Fresh(agents), arrivals);
    LatestIsMismatch(agents, arrivals, j, event);
    AnsweredOrDispatched(agents, arrivals, a, event);
    AcceptedChanges(w.store, a.incoming.envelope, a.incoming.schemaOk, a.newId);
    if StillCached(log, event, a.now) {
      RepeatIsAnswered(agents, arrivals, a, event);
    } else {
      SinceWithinAfter(log, EntryOf(agents, arrivals, j), event);
    }
  }

  /** The arrival at `j` got the answer given at `i`, and changed nothing. */
  ghost predicate Kept(agents: set<Id>, arrivals: seq<Arrival>, i: nat, j: nat)
    requires i < |arrivals| && j < |arrivals|
  {
    !Changed(agents, arrivals, j) && AnswerTo(agents, arrivals, j) == AnswerTo(agents, arrivals, i)
  }

  ghost predicate AllRepeatsKept(agents: set<Id>, arrivals: seq<Arrival>, i: nat, event: Id) {
    i < |arrivals| && forall j :: i < j < |arrivals| && Repeats(arrivals[j], event) ==> Kept(agents, arrivals, i, j)
  }

  /** From some mismatch after `i` to a repeat, there is a mismatch directly followed, under that id, by a repeat. */
  lemma {:induction false} RepeatFollowsMismatch(arrivals: seq<Arrival>, from: nat, to: nat, event: Id) returns (j: nat, m: nat)
    requires from < to < |arrivals| && Mismatched(arrivals[from], event) && Repeats(arrivals[to], event)
    ensures from <= j < m <= to && Mismatched(arrivals[j], event) && Repeats(arrivals[m], event)
    ensures QuietAfter(arrivals[..m], j, event)
    decreases if from < to then to - from else 0
  {
    if p :| from < p < to && (Mismatched(arrivals[p], event) || Repeats(arrivals[p], event)) {
      if Mismatched(arrivals[p], event) {
        j, m := RepeatFollowsMismatch(arrivals, p, to, event);
      } else {
        j, m := RepeatFollowsMismatch(arrivals, from, p, event);
      }
    } else {
      j, m := from, to;
    }
  }

  lemma RepeatIsKept(agents: set<Id>, arrivals: seq<Arrival>, i: nat, j: nat, a: Arrival, event: Id, now: int)
    requires i < j <= |arrivals| && ClockRuns(arrivals, now) && ClockRuns(arrivals[..j], a.now) && a.now <= now
    requires AcceptedAt(agents, arrivals, i, event) && AnswerLives(agents, arrivals, i, now)
    requires NoMismatchAfter(arrivals, i, event) && Repeats(a, event)
    ensures var w := Run(Fresh(agents), arrivals[..j]);
            Handle(w, a).world.store == w.store && Handle(w, a).response == AnswerTo(agents, arrivals, i)
  {
    var front := arrivals[..j];
    PrefixSame(agents, arrivals, j, i, event);
    LivedBefore(agents, arrivals, j, i, event, a.now, now);
    NoMismatchKeepsEntry(agents, arrivals, j, i, event, now);
    LatestLives(agents, front, i, event, a.now);
    RepeatIsAnswered(agents, front, a, event);
    AcceptedStaysLogged(agents, front, i, event);
  }

  lemma KeptWithoutMismatch(agents: set<Id>, arrivals: seq<Arrival>, i: nat, a: Arrival, event: Id, j: nat)
    requires ClockRuns(arrivals, a.now) && AcceptedAt(agents, arrivals, i, event) && AnswerLives(agents, arrivals, i, a.now)
    requires NoMismatchAfter(arrivals, i, event) && i < j <= |arrivals| && Repeats((arrivals + [a])[j], event)
    ensures Kept(agents, arrivals + [a], i, j)
  {
    var all := arrivals + [a];
    assert all[..j] == arrivals[..j] && all[..i] == arrivals[..i];
    RepeatIsKept(agents, arrivals, i, j, all[j], event, a.now);
    LogStep(Fresh(agents), all, j);
  }

  lemma LostAfterMismatch(agents: set<Id>, arrivals: seq<Arrival>, i: nat, j: nat, m: nat, event: Id)
    requires i < j < m < |arrivals| && AcceptedAt(agents, arrivals, i, event) && ClockRuns(arrivals[..m], arrivals[m].now)
    requires Mismatched(arrivals[j], event) && QuietAfter(arrivals[..m], j, event) && Repeats(arrivals[m], event)
    ensures !Kept(agents, arrivals, i, m)
  {
    AcceptedIsLogged(agents, arrivals, i, event);
    RepeatAfterMismatch(agents, arrivals[..m], j, arrivals[m], event);
    LogStep(Fresh(agents), arrivals, m);
  }

  /**
   The exact condition of an idempotent answer. An event was accepted at arrival `i`, the
   last arrival is a repeat of it, and by then the accepted answer has not expired and
   fewer than the cap of other events were cached. Then every repeat since got that
   answer and changed nothing if and only if no envelope of another major version arrived
   under the event's id.
   */
  lemma RepeatsKeptIff(agents: set<Id>, arrivals: seq<Arrival>, i: nat, a: Arrival, event: Id)
    requires ClockRuns(arrivals, a.now) && AcceptedAt(agents, arrivals, i, event) && AnswerLives(agents, arrivals, i, a.now)
    requires Repeats(a, event)
    ensures AllRepeatsKept(agents, arrivals + [a], i, event) <==> NoMismatchAfter(arrivals, i, event)
  {
    var all := arrivals + [a];
    if NoMismatchAfter(arrivals, i, event) {
      forall j | i < j < |all| && Repeats(all[j], event) ensures Kept(agents, all, i, j) {
        KeptWithoutMismatch(agents, arrivals, i, a, event, j);
      }
    } else {
      var p :| i < p < |arrivals| && Mismatched(arrivals[p], event);
      assert Mismatched(all[p], event);
      var j, m := RepeatFollowsMismatch(all, p, |arrivals|, event);
      assert all[..i + 1] == arrivals[..i + 1] && all[..i] == arrivals[..i];
      LostAfterMismatch(agents, all, i, j, m, event);
    }
  }

  /**
   What it takes to apply one event twice: the answer to the first application has
   expired, or as many other events as the cap were cached since, or an envelope of
   another major version arrived under its id. By then the event's latest cached answer,
   the first or a later one, has expired or been crowded out.
   */
  lemma AppliedTwiceOnlyIf(agents: set<Id>, arrivals: seq<Arrival>, i: nat, a: Arrival, event: Id)
    requires ClockRuns(arrivals, a.now) && AcceptedAt(agents, arrivals, i, event)
    requires a.incoming.Parsed? && a.incoming.envelope.eventId == event
    requires Handle(Run(Fresh(agents), arrivals), a).world.store != Run(Fresh(agents), arrivals).store
    ensures || Expiry(arrivals[i].incoming.envelope.emittedAt, arrivals[i].now) <= a.now
            || MAX_ENTRIES <= |OthersAfter(LogOfRun(Fresh(agents), arrivals), EntryOf(agents, arrivals, i), event)|
            || !NoMismatchAfter(arrivals, i, event)
    ensures var log := LogOfRun(Fresh(agents), arrivals);
            var at := LatestAt(log, event);
            && EntryOf(agents, arrivals, i) <= at
            && (log[at].expires <= a.now || MAX_ENTRIES <= |OthersSince(log, event)|)
  {
    ChangeIsCached(Run(Fresh(agents), arrivals), a);
    AcceptedStaysLogged(agents, arrivals, i, event);
    if StillCached(LogOfRun(Fresh(agents), arrivals), event, a.now) {
      RepeatIsAnswered(agents, arrivals, a, event);
    }
    if AnswerLives(agents, arrivals, i, a.now) && NoMismatchAfter(arrivals, i, event) {
      assert arrivals[..|arrivals|] == arrivals;
      RepeatIsKept(agents, arrivals, i, |arrivals|, a, event, a.now);
    }
  }

  // ---------- Runs that apply one event twice ----------

  /** What a handler makes of an opening event: a session no one has used yet. */
  predicate Opens(a: Arrival, agents: set<Id>, session: Id) {
    && a.incoming.Parsed? && a.incoming.schemaOk
    && var e := a.incoming.envelope;
       e.version.major == SUPPORTED_SCHEMA_MAJOR && e.body.SessionOpen? && e.agentId in agents && e.sessionId == session
  }

  /** An unsealed action of the session, with a valid payload. */
  predicate Records(a: Arrival, session: Id, event: Id) {
    && Repeats(a, event) && a.incoming.schemaOk
    && var e := a.incoming.envelope;
       && e.sessionId == session && e.body.ActionRecord? && PayloadValid(e.body)
       && e.body.action.selfHash.None? && e.body.action.actionId.None?
  }

  /**
   A session opens, an action is recorded, and its id comes again with another major
   version and an emission time older than the lifetime of an answer.
   */
  ghost predicate OneMismatch(agents: set<Id>, arrivals: seq<Arrival>, session: Id, event: Id) {
    && |arrivals| == 3 && Opens(arrivals[0], agents, session) && Records(arrivals[1], session, event)
    && arrivals[0].incoming.envelope.eventId != event && Mismatched(arrivals[2], event)
    && arrivals[0].now <= arrivals[1].now <= arrivals[2].now
  }

  /** A repeat of the action when the mismatch's answer has expired and the action's own has not. */
  ghost predicate ComesAgain(arrivals: seq<Arrival>, again: Arrival) {
    && |arrivals| == 3 && arrivals[1].incoming.Parsed? && arrivals[2].incoming.Parsed?
    && again.incoming == arrivals[1].incoming && arrivals[2].now <= again.now
    && Expiry(arrivals[2].incoming.envelope.emittedAt, arrivals[2].now) <= again.now
    && again.now < Expiry(arrivals[1].incoming.envelope.emittedAt, arrivals[1].now)
  }

  lemma Opened(agents: set<Id>, arrivals: seq<Arrival>, session: Id, event: Id) returns (st: Store)
    requires OneMismatch(agents, arrivals, session, event)
    ensures st == Run(Fresh(agents), arrivals[..1]).store && st == Store(agents, map[session := OPENED], [])
    ensures LatestAt(LogOfRun(Fresh(agents), arrivals[..1]), event) == -1
  {
    assert arrivals[..0] == [];
    LogStep(Fresh(agents), arrivals, 0);
    st := Run(Fresh(agents), arrivals[..1]).store;
  }

  /** What recording the action in a running session does to the store. */
  lemma Recording(st: Store, a: Arrival, session: Id, event: Id) returns (after: Store)
    requires Records(a, session, event) && session in st.sessions && st.sessions[session].status == Running
    ensures after == Dispatch(st, a.incoming.envelope, a.incoming.schemaOk, a.newId).store
    ensures after != st && session in after.sessions && after.sessions[session].status == Running
    ensures after.sessions[session].count == st.sessions[session].count + 1
  {
    after := Dispatch(st, a.incoming.envelope, a.incoming.schemaOk, a.newId).store;
  }

  lemma Recorded(agents: set<Id>, arrivals: seq<Arrival>, session: Id, event: Id) returns (st: Store)
    requires OneMismatch(agents, arrivals, session, event)
    ensures st == Run(Fresh(agents), arrivals[..2]).store && st != Run(Fresh(agents), arrivals[..1]).store
    ensures session in st.sessions && st.sessions[session].status == Running && st.sessions[session].count == 1
  {
    var before := Opened(agents, arrivals, session, event);
    AnsweredOrDispatched(agents, arrivals[..1], arrivals[1], event);
    st := Recording(before, arrivals[1], session, event);
    LogStep(Fresh(agents), arrivals, 1);
  }

  lemma Misread(agents: set<Id>, arrivals: seq<Arrival>, event: Id) returns (st: Store)
    requires |arrivals| == 3 && Mismatched(arrivals[2], event)
    ensures st == Run(Fresh(agents), arrivals).store == Run(Fresh(agents), arrivals[..2]).store
  {
    assert arrivals[..3] == arrivals;
    LogStep(Fresh(agents), arrivals, 2);
    SetsUnderItsId(Run(Fresh(agents), arrivals[..2]), arrivals[2], event);
    st := Run(Fresh(agents), arrivals).store;
  }

  /** No other event is cached after the acceptance. */
  lemma OthersNone(agents: set<Id>, arrivals: seq<Arrival>, event: Id)
    requires |arrivals| == 3 && AcceptedAt(agents, arrivals, 1, event) && Mismatched(arrivals[2], event)
    ensures OthersAfter(LogOfRun(Fresh(agents), arrivals), EntryOf(agents, arrivals, 1), event) == {}
  {
    var log, k := LogOfRun(Fresh(agents), arrivals), EntryOf(agents, arrivals, 1);
    AcceptedIsLogged(agents, arrivals, 1, event);
    MismatchIsLogged(agents, arrivals, 2, event);
    assert arrivals[..3] == arrivals;
    assert log[k + 1..] == [log[k + 1]];
  }

  lemma DispatchedAgain(agents: set<Id>, arrivals: seq<Arrival>, again: Arrival, event: Id) returns (w: World, after: Store)
    requires |arrivals| == 3 && Mismatched(arrivals[2], event) && ClockRuns(arrivals, again.now) && Repeats(again, event)
    requires Expiry(arrivals[2].incoming.envelope.emittedAt, arrivals[2].now) <= again.now
    ensures w == Run(Fresh(agents), arrivals) && after == Handle(w, again).world.store
    ensures after == Dispatch(w.store, again.incoming.envelope, again.incoming.schemaOk, again.newId).store
  {
    w := Run(Fresh(agents), arrivals);
    after := Handle(w, again).world.store;
    RepeatAfterMismatch(agents, arrivals, 2, again, event);
  }

  lemma AcceptedFirst(agents: set<Id>, arrivals: seq<Arrival>, session: Id, event: Id)
    requires OneMismatch(agents, arrivals, session, event)
    ensures AcceptedAt(agents, arrivals, 1, event)
  {
    var st := Recorded(agents, arrivals, session, event);
  }

  lemma CountsTwice(agents: set<Id>, arrivals: seq<Arrival>, session: Id, again: Arrival, event: Id) returns (w: World, after: Store)
    requires OneMismatch(agents, arrivals, session, event) && ComesAgain(arrivals, again)
    ensures w == Run(Fresh(agents), arrivals) && after == Handle(w, again).world.store
    ensures session in w.store.sessions && w.store.sessions[session].count == 1
    ensures session in after.sessions && after.sessions[session].count == 2
  {
    w, after := DispatchedAgain(agents, arrivals, again, event);
    var first := Recorded(agents, arrivals, session, event);
    var same := Misread(agents, arrivals, event);
    var second := Recording(same, again, session, event);
  }

  /**
   Every such run applies one event twice: the repeat is recorded again, though the
   action's own answer has not expired and no other event was cached in between.
   */
  lemma AppliedTwice(agents: set<Id>, arrivals: seq<Arrival>, session: Id, again: Arrival, event: Id)
    returns (w: World, after: Store)
    requires OneMismatch(agents, arrivals, session, event) && ComesAgain(arrivals, again)
    ensures AcceptedAt(agents, arrivals, 1, event) && AnswerLives(agents, arrivals, 1, again.now)
    ensures w == Run(Fresh(agents), arrivals) && after == Handle(w, again).world.store
    ensures session in w.store.sessions && w.store.sessions[session].count == 1
    ensures session in after.sessions && after.sessions[session].count == 2
  {
    AcceptedFirst(agents, arrivals, session, event);
    OthersNone(agents, arrivals, event);
    w, after := CountsTwice(agents, arrivals, session, again, event);
  }

  const RECORDED := Parsed(Envelope(Version(1, 0), 2, 1_000_000, 7, 3, ActionRecord(
    ActionPayload("t", Empty, None, 5, None, None, None, None, None, None, None))), true)

  /** Such a run, in numbers: recorded at 1_000_000, a major version 2 emitted at 0 ten seconds later, and ten more to the repeat. */
  lemma SuchARun() returns (arrivals: seq<Arrival>, again: Arrival)
    ensures OneMismatch({7}, arrivals, 3, 2) && ComesAgain(arrivals, again)
    ensures arrivals[1] == Arrival(RECORDED, 11, 1_000_000) && again == Arrival(RECORDED, 13, 1_000_020)
    ensures arrivals[2] == Arrival(Parsed(Envelope(Version(2, 0), 2, 0, 7, 3, DecisionRecord), true), 12, 1_000_010)
  {
    var opening := Parsed(Envelope(Version(1, 0), 1, 999_990, 7, 3, SessionOpen), true);
    var mismatch := Parsed(Envelope(Version(2, 0), 2, 0, 7, 3, DecisionRecord), true);
    arrivals := [Arrival(opening, 10, 999_990), Arrival(RECORDED, 11, 1_000_000), Arrival(mismatch, 12, 1_000_010)];
    again := Arrival(RECORDED, 13, 1_000_020);
  }
}
