/**
 `IngestHandler` as an object: the database tables are fields its methods
 update, and the idempotency store is an object of its own.
 */
module IngestHandlers {
  import opened Common
  import opened Hashing
  import opened Wire
  import opened Chains
  import opened Idempotency
  import opened Ingest
  import Hitl
  import HitlCheckpoint

  class IngestHandler {
    var agents: set<Id>
    var sessions: map<Id, Session>
    var approvals: seq<Hitl.ApprovalRow>
    const idempotency: IdempotencyStore

    constructor (agents: set<Id>)
      ensures fresh(idempotency) && View() == Ingest.Fresh(agents)
    {
      this.agents, sessions, approvals := agents, map[], [];
      idempotency := new IdempotencyStore();
    }

    function Tables(): Store
      reads this
    {
      Store(agents, sessions, approvals)
    }

    function View(): World
      reads this, idempotency
    {
      World(Tables(), idempotency.entries)
    }

    /** What a per-event handler promises: the effect, or an error raised with nothing written. */
    ghost predicate Carries(before: Store, spec: Result<Effect, ErrorCode>, r: Result<Response, ErrorCode>)
      reads this
    {
      if spec.Ok? then r == Ok(spec.value.response) && Tables() == spec.value.store
      else r == Err(spec.error) && Tables() == before
    }

    method HandleSessionOpen(e: Envelope) returns (r: Result<Response, ErrorCode>)
      modifies this
      ensures Carries(old(Tables()), OpenSession(old(Tables()), e), r)
    {
      if e.agentId !in agents {
        return Err(UnknownAgent);
      }
      if e.sessionId in sessions {
        return Err(SessionAlreadyExists);
      }
      sessions := sessions[e.sessionId := OPENED];
      r := Ok(Accept(e.eventId, Some(e.sessionId), None, None));
    }

    method RequireRunningSession(id: Id) returns (r: Result<Session, ErrorCode>)
      ensures r == RequireRunning(Tables(), id)
    {
      if id !in sessions {
        return Err(SessionNotFound);
      }
      if sessions[id].status != Running {
        return Err(SessionIsClosed);
      }
      r := Ok(sessions[id]);
    }

    /** `create_with_hash`, under the session's row lock. */
    method CreateWithHash(session: Id, newId: Id, p: ActionPayload) returns (action: Row)
      requires session in sessions
      modifies this
      ensures agents == old(agents) && approvals == old(approvals)
      ensures sessions == old(sessions)[session := AppendAction(old(sessions)[session], session, newId, p)]
      ensures action == sessions[session].rows[|sessions[session].rows| - 1]
      ensures action.actionId == newId && action.number == sessions[session].count
      ensures Some(action.selfHash) == sessions[session].tail
    {
      var row := sessions[session];
      var prevHash, number := row.tail, row.count + 1;
      var blank := SealedAction(newId, number, prevHash, Empty);
      var selfHash := SelfHash(RowOf(session, p, blank));
      action := RowOf(session, p, blank.(selfHash := selfHash));
      var head := if row.head.None? then Some(selfHash) else row.head;
      row := row.(rows := row.rows + [action], head := head, tail := Some(selfHash), count := number);
      sessions := sessions[session := row];
    }

    method HandleActionRecord(e: Envelope, newId: Id, p: ActionPayload) returns (r: Result<Response, ErrorCode>)
      modifies this
      ensures Carries(old(Tables()), RecordAction(old(Tables()), e, newId, p), r)
    {
      if p.selfHash.Some? || p.actionId.Some? {
        return Err(ValidationError);
      }
      var s := RequireRunningSession(e.sessionId);
      if s.Err? {
        return Err(s.error);
      }
      var action := CreateWithHash(e.sessionId, newId, p);
      r := Ok(Accept(e.eventId, Some(action.actionId), Some(action.number), Some(action.selfHash)));
    }

    method HandleDecisionRecord(e: Envelope, newId: Id) returns (r: Result<Response, ErrorCode>)
      modifies this
      ensures Carries(old(Tables()), RecordDecision(old(Tables()), e, newId), r)
    {
      var s := RequireRunningSession(e.sessionId);
      if s.Err? {
        return Err(s.error);
      }
      sessions := sessions[e.sessionId := s.value.(decisions := s.value.decisions + 1)];
      r := Ok(Accept(e.eventId, Some(newId), None, None));
    }

    method HandleApprovalRecord(e: Envelope, newId: Id, p: ApprovalPayload) returns (r: Result<Response, ErrorCode>)
      modifies this
      ensures Carries(old(Tables()), RecordApproval(old(Tables()), e, newId, p), r)
    {
      var s := RequireRunningSession(e.sessionId);
      if s.Err? {
        return Err(s.error);
      }
      var error := HitlCheckpoint.CheckApproval(ActionsOf(s.value.rows), approvals, p, newId);
      if error.Some? {
        return Err(error.value);
      }
      approvals := approvals + [Hitl.ApprovalRow(newId, p.actionId, p.approverType, p.decision, p.parent, p.timestamp)];
      var rows := SetStatus(s.value.rows, p.actionId, Hitl.StatusFor(p.decision));
      sessions := sessions[e.sessionId := s.value.(rows := rows)];
      r := Ok(Accept(e.eventId, Some(newId), None, None));
    }

    method HandleSessionClose(e: Envelope, outcome: SessionStatus) returns (r: Result<Response, ErrorCode>)
      modifies this
      ensures Carries(old(Tables()), CloseSession(old(Tables()), e, outcome), r)
    {
      var s := RequireRunningSession(e.sessionId);
      if s.Err? {
        return Err(s.error);
      }
      sessions := sessions[e.sessionId := s.value.(status := outcome)];
      r := Ok(Accept(e.eventId, Some(e.sessionId), None, None));
    }

    method Dispatch(e: Envelope, schemaOk: bool, newId: Id) returns (r: Result<Response, ErrorCode>)
      modifies this
      ensures Carries(old(Tables()), Route(old(Tables()), e, schemaOk, newId), r)
    {
      if !schemaOk || !PayloadValid(e.body) {
        return Err(ValidationError);
      }
      match e.body {
        case SessionOpen => r := HandleSessionOpen(e);
        case ActionRecord(p) => r := HandleActionRecord(e, newId, p);
        case DecisionRecord => r := HandleDecisionRecord(e, newId);
        case ApprovalRecord(p) => r := HandleApprovalRecord(e, newId, p);
        case SessionClose(outcome) => r := HandleSessionClose(e, outcome);
      }
    }

    method MaybeCache(e: Envelope, response: Response, now: int)
      modifies idempotency
      ensures idempotency.entries ==
              Remember(Tables(), old(idempotency.entries), e, response, now).world.cache
    {
      if response.status == Accepted {
        idempotency.Set(e.eventId, response, e.emittedAt, now);
        return;
      }
      if response.retryable == Some(false) {
        idempotency.Set(e.eventId, response, e.emittedAt, now);
      }
    }

    method Handle(a: Arrival) returns (response: Response)
      modifies this, idempotency
      ensures var spec := Ingest.Handle(old(View()), a); response == spec.response && View() == spec.world
    {
      if a.incoming.Unparsable? {
        return Reject(a.incoming.eventId, ValidationError, "", false);
      }
      var e := a.incoming.envelope;
      if e.version.major != SUPPORTED_SCHEMA_MAJOR {
        response := Reject(e.eventId, SchemaVersionMismatch, "", false);
        MaybeCache(e, response, a.now);
        return;
      }
      var cached := idempotency.Get(e.eventId, a.now);
      if cached.Some? {
        return cached.value;
      }
      var r := Dispatch(e, a.incoming.schemaOk, a.newId);
      response := if r.Ok? then r.value else Reject(e.eventId, r.error, "", false);
      MaybeCache(e, response, a.now);
    }
  }
}
