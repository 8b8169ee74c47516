/**
 The ingest handler (rootsign/ingest/handler.py) over the store it writes:
 sessions, their action rows (`create_with_hash` in rootsign/crud/action.py),
 approvals, and the idempotency cache.
 */
module Ingest {
  import opened Common
  import opened Hashing
  import opened Wire
  import opened Verify
  import opened Ranges
  import opened Chains
  import opened Idempotency
  import Hitl

  const SUPPORTED_SCHEMA_MAJOR: nat := 1

  /** A session row with its denormalised chain fields, and the action rows that belong to it. */
  datatype Session = Session(
    status: SessionStatus,
    head: Option<Hash>,
    tail: Option<Hash>,
    count: nat,
    decisions: nat,
    rows: seq<Row>)

  datatype Store = Store(agents: set<Id>, sessions: map<Id, Session>, approvals: seq<Hitl.ApprovalRow>)

  // ---------- One event ----------

  datatype Effect = Effect(store: Store, response: Response)

  const OPENED := Session(Running, None, None, 0, 0, [])

  function PutSession(st: Store, id: Id, s: Session): Store {
    st.(sessions := st.sessions[id := s])
  }

  /** `_require_running_session`. */
  function RequireRunning(st: Store, id: Id): Result<Session, ErrorCode> {
    if id !in st.sessions then Err(SessionNotFound)
    else if st.sessions[id].status != Running then Err(SessionIsClosed)
    else Ok(st.sessions[id])
  }

  /** `create_with_hash`: the next row of the session, and the fields that follow the chain. */
  function AppendAction(s: Session, session: Id, newId: Id, p: ActionPayload): Session {
    var m := Mint(Tail(s.tail, s.count), session, newId, p);
    s.(head := if s.head.None? then m.tail.hash else s.head,
       tail := m.tail.hash,
       count := m.tail.count,
       rows := s.rows + [RowOf(session, p, m.seal)])
  }

  /** The session's actions as the approval transaction sees them. */
  function ActionsOf(rows: seq<Row>): (actions: map<Id, Hitl.ActionRow>)
    ensures forall r :: r in rows ==> r.actionId in actions
  {
    if rows == [] then map[]
    else
      var last := rows[|rows| - 1];
      ActionsOf(rows[..|rows| - 1])[last.actionId := Hitl.ActionRow(last.timestamp, last.auth)]
  }

  function SetStatus(rows: seq<Row>, action: Id, status: AuthStatus): (after: seq<Row>)
    ensures |after| == |rows|
    ensures forall i :: 0 <= i < |rows| ==>
              after[i] == if rows[i].actionId == action then rows[i].(auth := status) else rows[i]
  {
    seq(|rows|, i requires 0 <= i < |rows| => if rows[i].actionId == action then rows[i].(auth := status) else rows[i])
  }

  predicate PayloadValid(body: Body) {
    match body
    case ActionRecord(p) => p.number.Some? ==> 1 <= p.number.value
    case SessionClose(outcome) => outcome != Running
    case _ => true
  }

  function OpenSession(st: Store, e: Envelope): Result<Effect, ErrorCode> {
    if e.agentId !in st.agents then Err(UnknownAgent)
    else if e.sessionId in st.sessions then Err(SessionAlreadyExists)
    else Ok(Effect(PutSession(st, e.sessionId, OPENED), Accept(e.eventId, Some(e.sessionId), None, None)))
  }

  function RecordAction(st: Store, e: Envelope, newId: Id, p: ActionPayload): Result<Effect, ErrorCode> {
    if p.selfHash.Some? || p.actionId.Some? then Err(ValidationError)
    else
      var s := RequireRunning(st, e.sessionId);
      if s.Err? then Err(s.error)
      else
        var after := AppendAction(s.value, e.sessionId, newId, p);
        Ok(Effect(PutSession(st, e.sessionId, after), Accept(e.eventId, Some(newId), Some(after.count), after.tail)))
  }

  function RecordDecision(st: Store, e: Envelope, newId: Id): Result<Effect, ErrorCode> {
    var s := RequireRunning(st, e.sessionId);
    if s.Err? then Err(s.error)
    else
      Ok(Effect(PutSession(st, e.sessionId, s.value.(decisions := s.value.decisions + 1)),
                Accept(e.eventId, Some(newId), None, None)))
  }

  function RecordApproval(st: Store, e: Envelope, newId: Id, p: ApprovalPayload): Result<Effect, ErrorCode> {
    var s := RequireRunning(st, e.sessionId);
    if s.Err? then Err(s.error)
    else
      var db := Hitl.IngestApproval(Hitl.Db(ActionsOf(s.value.rows), st.approvals), p, newId);
      if db.Err? then Err(db.error)
      else
        var rows := SetStatus(s.value.rows, p.actionId, Hitl.StatusFor(p.decision));
        Ok(Effect(PutSession(st, e.sessionId, s.value.(rows := rows)).(approvals := db.value.approvals),
                  Accept(e.eventId, Some(newId), None, None)))
  }

  function CloseSession(st: Store, e: Envelope, outcome: SessionStatus): Result<Effect, ErrorCode> {
    var s := RequireRunning(st, e.sessionId);
    if s.Err? then Err(s.error)
    else
      Ok(Effect(PutSession(st, e.sessionId, s.value.(status := outcome)),
                Accept(e.eventId, Some(e.sessionId), None, None)))
  }

  /** The routing of `_dispatch`. `schemaOk` is the verdict on the payload fields the model does not read. */
  function Route(st: Store, e: Envelope, schemaOk: bool, newId: Id): Result<Effect, ErrorCode> {
    if !schemaOk || !PayloadValid(e.body) then Err(ValidationError)
    else
      match e.body
      case SessionOpen => OpenSession(st, e)
      case ActionRecord(p) => RecordAction(st, e, newId, p)
      case DecisionRecord => RecordDecision(st, e, newId)
      case ApprovalRecord(p) => RecordApproval(st, e, newId, p)
      case SessionClose(outcome) => CloseSession(st, e, outcome)
  }

  /** Every error the routing raises is non-retryable. */
  function Dispatch(st: Store, e: Envelope, schemaOk: bool, newId: Id): Effect {
    var r := Route(st, e, schemaOk, newId);
    if r.Ok? then r.value else Effect(st, Reject(e.eventId, r.error, "", false))
  }

  // ---------- The entry point ----------

  /** What arrives: something that is not an envelope, or an envelope with its payload's schema verdict. */
  datatype Incoming = Unparsable(eventId: Id) | Parsed(envelope: Envelope, schemaOk: bool)

  /** With the id that would be minted for it and the time it is handled. */
  datatype Arrival = Arrival(incoming: Incoming, newId: Id, now: int)

  datatype World = World(store: Store, cache: Cache)

  datatype Handled = Handled(world: World, response: Response, sets: seq<SetOp>)

  /** `_maybe_cache`: accepted answers and final rejections. */
  predicate Cacheable(r: Response) {
    r.status == Accepted || r.retryable == Some(false)
  }

  /** Ends the handling of an envelope: cache if eligible, and say what was cached. */
  function Remember(st: Store, c: Cache, e: Envelope, r: Response, now: int): Handled {
    if Cacheable(r) then
      Handled(World(st, Put(c, e.eventId, r, e.emittedAt, now)), r, [SetOp(e.eventId, r, Expiry(e.emittedAt, now))])
    else Handled(World(st, c), r, [])
  }

  function HandleEnvelope(w: World, e: Envelope, schemaOk: bool, newId: Id, now: int): Handled {
    if e.version.major != SUPPORTED_SCHEMA_MAJOR then
      Remember(w.store, w.cache, e, Reject(e.eventId, SchemaVersionMismatch, "", false), now)
    else
      var cache := Evict(w.cache, now);
      var hit := Lookup(cache, e.eventId);
      if hit.Some? then Handled(World(w.store, cache), hit.value, [])
      else
        var effect := Dispatch(w.store, e, schemaOk, newId);
        Remember(effect.store, cache, e, effect.response, now)
  }

  function Handle(w: World, a: Arrival): Handled {
    match a.incoming
    case Unparsable(eventId) => Handled(w, Reject(eventId, ValidationError, "", false), [])
    case Parsed(e, schemaOk) => HandleEnvelope(w, e, schemaOk, a.newId, a.now)
  }

  /** A store nothing was written to yet, with some agents registered. */
  function Fresh(agents: set<Id>): World {
    World(Store(agents, map[], []), [])
  }

  function Run(w: World, arrivals: seq<Arrival>): World {
    if arrivals == [] then w else Handle(Run(w, arrivals[..|arrivals| - 1]), arrivals[|arrivals| - 1]).world
  }

  /** Everything the run put into the cache, in order. */
  function LogOfRun(w: World, arrivals: seq<Arrival>): seq<SetOp> {
    if arrivals == [] then []
    else
      var front := arrivals[..|arrivals| - 1];
      LogOfRun(w, front) + Handle(Run(w, front), arrivals[|arrivals| - 1]).sets
  }

  // ---------- The store's invariant ----------

  /** The session's denormalised fields say exactly what its rows are, and the rows are linked. */
  ghost predicate SessionOk(id: Id, s: Session) {
    && Linked(s.rows)
    && Tail(s.tail, s.count) == TailOf(s.rows)
    && s.head == (if s.rows == [] then None else Some(s.rows[0].selfHash))
    && forall i :: 0 <= i < |s.rows| ==> s.rows[i].sessionId == id
  }

  ghost predicate StoreOk(st: Store) {
    forall id :: id in st.sessions ==> SessionOk(id, st.sessions[id])
  }

  lemma AppendOk(id: Id, s: Session, newId: Id, p: ActionPayload)
    requires SessionOk(id, s)
    ensures SessionOk(id, AppendAction(s, id, newId, p))
  {
    MintLinks(s.rows, id, newId, p);
  }

  /** Rewriting statuses leaves the chain as it is. */
  lemma StatusOk(id: Id, s: Session, action: Id, status: AuthStatus)
    requires SessionOk(id, s)
    ensures SessionOk(id, s.(rows := SetStatus(s.rows, action, status)))
  {
    var rows := SetStatus(s.rows, action, status);
    forall i | 0 <= i < |rows| ensures LinkedRow(rows, i) {
      assert LinkedRow(s.rows, i);
    }
  }

  lemma RouteOk(st: Store, e: Envelope, schemaOk: bool, newId: Id)
    requires StoreOk(st) && Route(st, e, schemaOk, newId).Ok?
    ensures StoreOk(Route(st, e, schemaOk, newId).value.store)
  {
    if e.sessionId in st.sessions {
      var s := st.sessions[e.sessionId];
      match e.body
      case ActionRecord(p) => AppendOk(e.sessionId, s, newId, p);
      case ApprovalRecord(p) => StatusOk(e.sessionId, s, p.actionId, Hitl.StatusFor(p.decision));
      case _ =>
    }
  }

  // ---------- What never changes ----------

  /** A row without the one column an approval may write. */
  function Canonical(rows: seq<Row>): (kept: seq<Row>)
    ensures |kept| == |rows| && forall i :: 0 <= i < |rows| ==> kept[i] == rows[i].(auth := AutoAuthorized)
  {
    seq(|rows|, i requires 0 <= i < |rows| => rows[i].(auth := AutoAuthorized))
  }

  /** Later, the session is still there; a closed one is untouched, and an open one only grew. */
  ghost predicate Grew(before: Store, after: Store, id: Id) {
    && id in before.sessions && id in after.sessions
    && (before.sessions[id].status != Running ==> after.sessions[id] == before.sessions[id])
    && Canonical(before.sessions[id].rows) <= Canonical(after.sessions[id].rows)
  }

  ghost predicate AllGrew(before: Store, after: Store) {
    before.agents == after.agents && forall id :: id in before.sessions ==> Grew(before, after, id)
  }

  lemma RouteGrows(st: Store, e: Envelope, schemaOk: bool, newId: Id)
    requires Route(st, e, schemaOk, newId).Ok?
    ensures var after := Route(st, e, schemaOk, newId).value.store;
            && AllGrew(st, after)
            && (forall id :: id in after.sessions && id != e.sessionId ==> id in st.sessions && after.sessions[id] == st.sessions[id])
            && (!e.body.ActionRecord? && e.sessionId in st.sessions ==>
                  Canonical(after.sessions[e.sessionId].rows) == Canonical(st.sessions[e.sessionId].rows))
  {
    var after := Route(st, e, schemaOk, newId).value.store;
    if e.sessionId in st.sessions {
      var rows, now := st.sessions[e.sessionId].rows, after.sessions[e.sessionId].rows;
      if e.body.ActionRecord? {
        assert Canonical(now)[..|rows|] == Canonical(rows);
      } else {
        assert Canonical(now) == Canonical(rows);
      }
    }
  }

  lemma GrewTransitive(a: Store, b: Store, c: Store)
    requires AllGrew(a, b) && AllGrew(b, c)
    ensures AllGrew(a, c)
  {
    forall id | id in a.sessions ensures Grew(a, c, id) {
      assert Grew(a, b, id) && Grew(b, c, id);
    }
  }

  lemma SelfGrew(st: Store)
    ensures AllGrew(st, st)
  {
  }

  lemma DispatchKeeps(st: Store, e: Envelope, schemaOk: bool, newId: Id)
    requires StoreOk(st)
    ensures StoreOk(Dispatch(st, e, schemaOk, newId).store) && AllGrew(st, Dispatch(st, e, schemaOk, newId).store)
  {
    SelfGrew(st);
    if Route(st, e, schemaOk, newId).Ok? {
      RouteOk(st, e, schemaOk, newId);
      RouteGrows(st, e, schemaOk, newId);
    }
  }

  /** Handling either leaves the store alone or dispatches. */
  lemma StoreAfter(w: World, a: Arrival) returns (after: Store)
    ensures after == Handle(w, a).world.store
    ensures after == w.store ||
            (a.incoming.Parsed? && after == Dispatch(w.store, a.incoming.envelope, a.incoming.schemaOk, a.newId).store)
  {
    after := Handle(w, a).world.store;
  }

  lemma KeptEitherWay(st: Store, after: Store, a: Arrival)
    requires StoreOk(st)
    requires after == st || (a.incoming.Parsed? && after == Dispatch(st, a.incoming.envelope, a.incoming.schemaOk, a.newId).store)
    ensures StoreOk(after) && AllGrew(st, after)
  {
    if after == st {
      SelfGrew(st);
    } else {
      DispatchKeeps(st, a.incoming.envelope, a.incoming.schemaOk, a.newId);
    }
  }

  /** One event keeps the store consistent and grows it. */
  lemma HandleKeeps(w: World, a: Arrival)
    requires StoreOk(w.store)
    ensures StoreOk(Handle(w, a).world.store) && AllGrew(w.store, Handle(w, a).world.store)
  {
    var after := StoreAfter(w, a);
    KeptEitherWay(w.store, after, a);
  }

  /** Every run, on whatever arrives, keeps the store consistent; what was there is kept. */
  lemma {:induction false} RunKeeps(w: World, arrivals: seq<Arrival>)
    requires StoreOk(w.store)
    ensures StoreOk(Run(w, arrivals).store) && AllGrew(w.store, Run(w, arrivals).store)
  {
    if arrivals == [] {
      SelfGrew(w.store);
    } else {
      var front, last := arrivals[..|arrivals| - 1], arrivals[|arrivals| - 1];
      RunKeeps(w, front);
      var before := Run(w, front);
      HandleKeeps(before, last);
      GrewTransitive(w.store, before.store, Handle(before, last).world.store);
    }
  }

  lemma RunStep(w: World, arrivals: seq<Arrival>)
    requires arrivals != []
    ensures Run(w, arrivals) == Handle(Run(w, arrivals[..|arrivals| - 1]), arrivals[|arrivals| - 1]).world
  {
  }

  lemma {:induction false} RunSplits(w: World, arrivals: seq<Arrival>, n: nat)
    requires n <= |arrivals|
    ensures Run(w, arrivals) == Run(Run(w, arrivals[..n]), arrivals[n..])
  {
    if n == |arrivals| {
      assert arrivals[..n] == arrivals && arrivals[n..] == [];
    } else {
      var front, rest := arrivals[..|arrivals| - 1], arrivals[n..];
      RunSplits(w, front, n);
      assert front[..n] == arrivals[..n] && front[n..] == rest[..|rest| - 1];
      RunStep(w, arrivals);
      RunStep(Run(w, arrivals[..n]), rest);
    }
  }

  /**
   Once a session is closed, its rows, counters and chain ends are final; while it
   is open, its canonical rows are only ever appended to.
   */
  lemma SessionsOnlyGrow(agents: set<Id>, arrivals: seq<Arrival>, n: nat)
    requires n <= |arrivals|
    ensures AllGrew(Run(Fresh(agents), arrivals[..n]).store, Run(Fresh(agents), arrivals).store)
  {
    RunSplits(Fresh(agents), arrivals, n);
    RunKeeps(Fresh(agents), arrivals[..n]);
    RunKeeps(Run(Fresh(agents), arrivals[..n]), arrivals[n..]);
  }

  /** How a session's counter, ends and verification report follow from its rows. */
  ghost predicate Reported(s: Session) {
    && s.count == |s.rows| && (forall i :: 0 <= i < |s.rows| ==> s.rows[i].number == i + 1)
    && s.head == (if s.rows == [] then None else Some(s.rows[0].selfHash))
    && s.tail == (if s.rows == [] then None else Some(s.rows[|s.rows| - 1].selfHash))
    && StoreResult(s.rows).missing == []
    && (StoreResult(s.rows).verdict == Valid <==> AllBound(s.rows))
    && (!AllBound(s.rows) ==> TamperedAtUnbound(s.rows, StoreResult(s.rows)))
  }

  lemma SessionReported(id: Id, s: Session)
    requires SessionOk(id, s)
    ensures Reported(s)
  {
    forall i | 0 <= i < |s.rows| ensures s.rows[i].number == i + 1 {
      assert LinkedRow(s.rows, i);
    }
    LinkedVerdict(s.rows);
  }

  /**
   After any run, every session's rows are numbered 1 to its count, its head and
   tail hashes are those of its first and last row, nothing is missing, and the
   store's verifier says VALID if and only if every stored payload matches its hash;
   otherwise TAMPERED, at the first row whose payload does not.
   */
  lemma RunVerdict(agents: set<Id>, arrivals: seq<Arrival>, id: Id)
    requires id in Run(Fresh(agents), arrivals).store.sessions
    ensures Reported(Run(Fresh(agents), arrivals).store.sessions[id])
  {
    RunKeeps(Fresh(agents), arrivals);
    SessionReported(id, Run(Fresh(agents), arrivals).store.sessions[id]);
  }

  ghost predicate TamperedAtUnbound(rows: seq<Row>, r: VerifyResult) {
    && r.verdict == Tampered && r.firstInvalid.Some? && 1 <= r.firstInvalid.value <= |rows|
    && !Bound(rows[r.firstInvalid.value - 1]) && AllBound(rows[..r.firstInvalid.value - 1])
  }

  const UNBOUND := ActionPayload("t", Empty, None, 5, Some("{}"), None, None, None, None, None, None)

  /** A session opens and an action comes whose stored payload does not hash to its input hash. */
  ghost predicate UnboundArrives(agents: set<Id>, arrivals: seq<Arrival>) {
    && 7 in agents && |arrivals| == 2
    && arrivals[0].incoming == Parsed(Envelope(Version(1, 0), 1, 0, 7, 3, SessionOpen), true)
    && arrivals[1].incoming == Parsed(Envelope(Version(1, 0), 2, 0, 7, 3, ActionRecord(UNBOUND)), true)
  }

  lemma OpenedFirst(agents: set<Id>, a: Arrival) returns (w: World)
    requires 7 in agents && a.incoming == Parsed(Envelope(Version(1, 0), 1, 0, 7, 3, SessionOpen), true)
    ensures w == Handle(Fresh(agents), a).world && w.store == Store(agents, map[3 := OPENED], [])
    ensures |w.cache| == 1 && w.cache[0].key == 1
  {
    w := Handle(Fresh(agents), a).world;
  }

  lemma UnboundAppended(st: Store, e: Envelope, newId: Id) returns (rows: seq<Row>)
    requires st.sessions == map[3 := OPENED] && e.sessionId == 3 && e.body == ActionRecord(UNBOUND)
    ensures 3 in Dispatch(st, e, true, newId).store.sessions && rows == Dispatch(st, e, true, newId).store.sessions[3].rows
    ensures |rows| == 1 && !Bound(rows[0])
  {
    rows := Dispatch(st, e, true, newId).store.sessions[3].rows;
  }

  lemma UnboundStored(w: World, a: Arrival) returns (rows: seq<Row>)
    requires w.store.sessions == map[3 := OPENED] && |w.cache| == 1 && w.cache[0].key == 1
    requires a.incoming == Parsed(Envelope(Version(1, 0), 2, 0, 7, 3, ActionRecord(UNBOUND)), true)
    ensures 3 in Handle(w, a).world.store.sessions && rows == Handle(w, a).world.store.sessions[3].rows
    ensures |rows| == 1 && !Bound(rows[0])
  {
    EvictKeeps(w.cache, a.now);
    LookupFinds(Evict(w.cache, a.now), 2);
    rows := UnboundAppended(w.store, a.incoming.envelope, a.newId);
  }

  /** Ingest accepts it, and the session it was stored in verifies TAMPERED at it. */
  lemma UnboundIsTampered(agents: set<Id>, arrivals: seq<Arrival>)
    requires UnboundArrives(agents, arrivals)
    ensures var st := Run(Fresh(agents), arrivals).store;
            && 3 in st.sessions && |st.sessions[3].rows| == 1
            && StoreResult(st.sessions[3].rows).verdict == Tampered && StoreResult(st.sessions[3].rows).firstInvalid == Some(1)
  {
    assert arrivals[..1][..0] == [] && arrivals[..1][0] == arrivals[0];
    var w := OpenedFirst(agents, arrivals[0]);
    RunStep(Fresh(agents), arrivals[..1]);
    RunStep(Fresh(agents), arrivals);
    var rows := UnboundStored(w, arrivals[1]);
    assert !AllBound(rows);
    RunVerdict(agents, arrivals, 3);
  }

  // ---------- Bound payloads ----------

  ghost predicate BoundArrival(a: Arrival) {
    a.incoming.Parsed? && a.incoming.envelope.body.ActionRecord? ==> BoundPayload(a.incoming.envelope.body.action)
  }

  ghost predicate StoreBound(st: Store) {
    forall id :: id in st.sessions ==> AllBound(st.sessions[id].rows)
  }

  lemma RouteBound(st: Store, e: Envelope, schemaOk: bool, newId: Id)
    requires StoreBound(st) && Route(st, e, schemaOk, newId).Ok?
    requires e.body.ActionRecord? ==> BoundPayload(e.body.action)
    ensures StoreBound(Route(st, e, schemaOk, newId).value.store)
  {
    var after := Route(st, e, schemaOk, newId).value.store;
    if e.sessionId in st.sessions {
      var rows, now := st.sessions[e.sessionId].rows, after.sessions[e.sessionId].rows;
      assert AllBound(rows);
      forall i | 0 <= i < |now| ensures Bound(now[i]) {
        assert i < |rows| ==> Bound(rows[i]);
      }
    }
  }

  /** With bound payloads, as the tracing decorator emits them, every session verifies VALID after every run. */
  lemma {:induction false} BoundRunIsValid(agents: set<Id>, arrivals: seq<Arrival>)
    requires forall i :: 0 <= i < |arrivals| ==> BoundArrival(arrivals[i])
    ensures StoreBound(Run(Fresh(agents), arrivals).store)
    ensures forall id :: id in Run(Fresh(agents), arrivals).store.sessions ==>
              StoreResult(Run(Fresh(agents), arrivals).store.sessions[id].rows).verdict == Valid
  {
    if arrivals != [] {
      var front, last := arrivals[..|arrivals| - 1], arrivals[|arrivals| - 1];
      BoundRunIsValid(agents, front);
      BoundStep(Run(Fresh(agents), front), last);
    }
    forall id | id in Run(Fresh(agents), arrivals).store.sessions
      ensures StoreResult(Run(Fresh(agents), arrivals).store.sessions[id].rows).verdict == Valid
    {
      RunVerdict(agents, arrivals, id);
    }
  }

  lemma BoundStep(w: World, a: Arrival)
    requires StoreBound(w.store) && BoundArrival(a)
    ensures StoreBound(Handle(w, a).world.store)
  {
    var after := StoreAfter(w, a);
    if after != w.store {
      RouteBound(w.store, a.incoming.envelope, a.incoming.schemaOk, a.newId);
    }
  }

  // ---------- Approvals and the verifier ----------

  /** The verifier reads nothing but the canonical columns. */
  lemma {:induction false} WalkReadsCanonical(s: seq<Line>, t: seq<Line>, gaps: seq<Range>, i: nat)
    requires |s| == |t| && i <= |s|
    requires forall k :: 0 <= k < |s| ==> s[k].Full? && t[k].Full? && SameButStatus(s[k].row, t[k].row)
    ensures StoreWalk(s, gaps, i) == StoreWalk(t, gaps, i)
    decreases |s| - i
  {
    if i < |s| {
      assert 0 < i ==> SameButStatus(s[i - 1].row, t[i - 1].row);
      assert SameButStatus(s[i].row, t[i].row);
      WalkReadsCanonical(s, t, gaps, i + 1);
    }
  }

  ghost predicate SameButStatus(a: Row, b: Row) {
    a.(auth := b.auth) == b
  }

  lemma SameCanonicalSameVerdict(a: seq<Row>, b: seq<Row>)
    requires Canonical(a) == Canonical(b)
    ensures StoreResult(a) == StoreResult(b)
  {
    forall k | 0 <= k < |a| ensures SameButStatus(a[k], b[k]) {
      assert Canonical(a)[k] == Canonical(b)[k];
    }
    var s, t := Lines(a), Lines(b);
    assert Seqs(s) == Seqs(t) by {
      assert forall k :: 0 <= k < |a| ==> SameButStatus(a[k], b[k]);
    }
    WalkReadsCanonical(s, t, Missing(Seqs(s)), 0);
  }

  lemma DispatchVerifiesSame(st: Store, e: Envelope, schemaOk: bool, newId: Id, id: Id)
    requires id in st.sessions && !e.body.ActionRecord?
    ensures id in Dispatch(st, e, schemaOk, newId).store.sessions
    ensures StoreResult(Dispatch(st, e, schemaOk, newId).store.sessions[id].rows) == StoreResult(st.sessions[id].rows)
  {
    if Route(st, e, schemaOk, newId).Ok? {
      RouteGrows(st, e, schemaOk, newId);
      var after := Route(st, e, schemaOk, newId).value.store;
      assert Grew(st, after, id);
      SameCanonicalSameVerdict(after.sessions[id].rows, st.sessions[id].rows);
    }
  }

  /** An event other than an action record changes no session's verification report. */
  lemma OnlyActionsAreVerified(w: World, a: Arrival, id: Id)
    requires id in w.store.sessions
    requires a.incoming.Parsed? ==> !a.incoming.envelope.body.ActionRecord?
    ensures id in Handle(w, a).world.store.sessions
    ensures StoreResult(Handle(w, a).world.store.sessions[id].rows) == StoreResult(w.store.sessions[id].rows)
  {
    var after := StoreAfter(w, a);
    if after != w.store {
      DispatchVerifiesSame(w.store, a.incoming.envelope, a.incoming.schemaOk, a.newId, id);
    }
  }

  // ---------- Resolved actions ----------

  ghost predicate UniqueIds(rows: seq<Row>) {
    forall i, j :: 0 <= i < j < |rows| ==> rows[i].actionId != rows[j].actionId
  }

  lemma {:induction false} ActionsOfAt(rows: seq<Row>, k: nat)
    requires UniqueIds(rows) && k < |rows|
    ensures ActionsOf(rows)[rows[k].actionId] == Hitl.ActionRow(rows[k].timestamp, rows[k].auth)
  {
    if k < |rows| - 1 {
      ActionsOfAt(rows[..|rows| - 1], k);
    }
  }

  /** Every row's id is one of `ids`, and no session repeats one. */
  ghost predicate IdsFrom(st: Store, ids: set<Id>) {
    forall id :: id in st.sessions ==> UniqueIds(st.sessions[id].rows) && ActionIds(st.sessions[id].rows) <= ids
  }

  function ActionIds(rows: seq<Row>): set<Id> {
    set r | r in rows :: r.actionId
  }

  function MintedIds(arrivals: seq<Arrival>): set<Id> {
    set a | a in arrivals :: a.newId
  }

  /** No id is minted twice. */
  ghost predicate DistinctIds(arrivals: seq<Arrival>) {
    forall i, j :: 0 <= i < j < |arrivals| ==> arrivals[i].newId != arrivals[j].newId
  }

  lemma AppendIds(rows: seq<Row>, row: Row)
    requires UniqueIds(rows) && row.actionId !in ActionIds(rows)
    ensures UniqueIds(rows + [row]) && ActionIds(rows + [row]) == ActionIds(rows) + {row.actionId}
  {
    forall i | 0 <= i < |rows| ensures rows[i].actionId != row.actionId {
      assert rows[i] in rows;
    }
    forall x | x in ActionIds(rows) + {row.actionId} ensures x in ActionIds(rows + [row]) {
      if x == row.actionId {
        assert (rows + [row])[|rows|] == row;
      } else {
        var r :| r in rows && r.actionId == x;
        assert r in rows + [row];
      }
    }
  }

  lemma StatusIds(rows: seq<Row>, action: Id, status: AuthStatus)
    requires UniqueIds(rows)
    ensures UniqueIds(SetStatus(rows, action, status)) && ActionIds(SetStatus(rows, action, status)) <= ActionIds(rows)
  {
    var after := SetStatus(rows, action, status);
    forall r | r in after ensures r.actionId in ActionIds(rows) {
      var i :| 0 <= i < |after| && after[i] == r;
      assert rows[i] in rows;
    }
  }

  lemma RouteIds(st: Store, e: Envelope, schemaOk: bool, newId: Id, ids: set<Id>)
    requires IdsFrom(st, ids) && newId !in ids && Route(st, e, schemaOk, newId).Ok?
    ensures IdsFrom(Route(st, e, schemaOk, newId).value.store, ids + {newId})
  {
    if e.sessionId in st.sessions {
      var s := st.sessions[e.sessionId];
      match e.body
      case ActionRecord(p) => AppendIds(s.rows, RowOf(e.sessionId, p, Mint(Tail(s.tail, s.count), e.sessionId, newId, p).seal));
      case ApprovalRecord(p) => StatusIds(s.rows, p.actionId, Hitl.StatusFor(p.decision));
      case _ =>
    }
  }

  /** As long as no id is minted twice, every run keeps the action ids of a session apart. */
  lemma {:induction false} RunKeepsIds(agents: set<Id>, arrivals: seq<Arrival>)
    requires DistinctIds(arrivals)
    ensures IdsFrom(Run(Fresh(agents), arrivals).store, MintedIds(arrivals))
  {
    if arrivals != [] {
      var front, last := arrivals[..|arrivals| - 1], arrivals[|arrivals| - 1];
      RunKeepsIds(agents, front);
      LastIdIsNew(arrivals);
      var w := Run(Fresh(agents), front);
      var after := StoreAfter(w, last);
      if after != w.store && Route(w.store, last.incoming.envelope, last.incoming.schemaOk, last.newId).Ok? {
        RouteIds(w.store, last.incoming.envelope, last.incoming.schemaOk, last.newId, MintedIds(front));
      }
    }
  }

  lemma LastIdIsNew(arrivals: seq<Arrival>)
    requires arrivals != [] && DistinctIds(arrivals)
    ensures var front, last := arrivals[..|arrivals| - 1], arrivals[|arrivals| - 1];
            last.newId !in MintedIds(front) && MintedIds(arrivals) == MintedIds(front) + {last.newId}
  {
    var front, last := arrivals[..|arrivals| - 1], arrivals[|arrivals| - 1];
    assert arrivals == front + [last];
    forall a | a in front ensures a in arrivals && a.newId != last.newId {
      var i :| 0 <= i < |front| && front[i] == a;
      assert arrivals[i] == a;
    }
    assert last in arrivals;
  }

  /** The arrival is an approval of this action, whose decision stands for `status`. */
  ghost predicate Decides(a: Arrival, action: Id, status: AuthStatus) {
    && a.incoming.Parsed? && a.incoming.envelope.body.ApprovalRecord?
    && a.incoming.envelope.body.approval.actionId == action
    && status == Hitl.StatusFor(a.incoming.envelope.body.approval.decision)
  }

  /** The same action later: once resolved nothing changes it, and before only an approval naming it. */
  ghost predicate Resolves(before: Row, now: Row, arrivals: seq<Arrival>) {
    && now == before.(auth := now.auth)
    && (Hitl.Terminal(before.auth) ==> now == before)
    && (now != before ==> exists a :: a in arrivals && Decides(a, before.actionId, now.auth))
  }

  lemma ResolvedStep(w: World, a: Arrival, id: Id, k: nat)
    requires id in w.store.sessions && k < |w.store.sessions[id].rows| && UniqueIds(w.store.sessions[id].rows)
    ensures var rows := w.store.sessions[id].rows;
            && id in Handle(w, a).world.store.sessions
            && k < |Handle(w, a).world.store.sessions[id].rows|
            && Resolves(rows[k], Handle(w, a).world.store.sessions[id].rows[k], [a])
  {
    var after := StoreAfter(w, a);
    if after != w.store {
      ResolvedInDispatch(w.store, a.incoming.envelope, a.incoming.schemaOk, a.newId, id, k);
    }
    assert a in [a];
  }

  /** The rows of a session after a run, none if there is no such session. */
  function RowsAfter(agents: set<Id>, arrivals: seq<Arrival>, id: Id): seq<Row> {
    var st := Run(Fresh(agents), arrivals).store;
    if id in st.sessions then st.sessions[id].rows else []
  }

  /**
   From any point of a run to its end: a resolved action is the same row, and an action
   whose status changed was named by an approval that arrived in between, whose decision
   its new status is.
   */
  lemma {:induction false} ResolvedStays(agents: set<Id>, arrivals: seq<Arrival>, n: nat, id: Id, k: nat)
    requires n <= |arrivals| && DistinctIds(arrivals) && k < |RowsAfter(agents, arrivals[..n], id)|
    ensures k < |RowsAfter(agents, arrivals, id)|
    ensures Resolves(RowsAfter(agents, arrivals[..n], id)[k], RowsAfter(agents, arrivals, id)[k], arrivals[n..])
  {
    if n == |arrivals| {
      assert arrivals[..n] == arrivals;
    } else {
      var m := |arrivals| - 1;
      assert arrivals[..m][..n] == arrivals[..n];
      ResolvedStays(agents, arrivals[..m], n, id, k);
      RunKeepsIds(agents, arrivals[..m]);
      ResolvedStep(Run(Fresh(agents), arrivals[..m]), arrivals[m], id, k);
      assert arrivals[n..] == arrivals[..m][n..] + [arrivals[m]];
      ResolvesOn(RowsAfter(agents, arrivals[..n], id)[k], RowsAfter(agents, arrivals[..m], id)[k],
                 RowsAfter(agents, arrivals, id)[k], arrivals[..m][n..], arrivals[m]);
    }
  }

  lemma ResolvesOn(before: Row, middle: Row, now: Row, arrivals: seq<Arrival>, a: Arrival)
    requires Resolves(before, middle, arrivals) && Resolves(middle, now, [a])
    ensures Resolves(before, now, arrivals + [a])
  {
    if now != before {
      if now != middle {
        assert a in arrivals + [a] && Decides(a, before.actionId, now.auth);
      } else {
        var b :| b in arrivals && Decides(b, before.actionId, now.auth);
        assert b in arrivals + [a];
      }
    }
  }

  lemma ResolvedInDispatch(st: Store, e: Envelope, schemaOk: bool, newId: Id, id: Id, k: nat)
    requires id in st.sessions && k < |st.sessions[id].rows| && UniqueIds(st.sessions[id].rows)
    ensures var rows, after := st.sessions[id].rows, Dispatch(st, e, schemaOk, newId).store;
            && id in after.sessions && k < |after.sessions[id].rows|
            && var now := after.sessions[id].rows[k];
               && (Hitl.Terminal(rows[k].auth) ==> now == rows[k])
               && (now != rows[k] ==>
                     && e.body.ApprovalRecord? && e.body.approval.actionId == rows[k].actionId
                     && now.auth == Hitl.StatusFor(e.body.approval.decision))
  {
    if Route(st, e, schemaOk, newId).Ok? {
      ActionsOfAt(st.sessions[id].rows, k);
    }
  }
}
