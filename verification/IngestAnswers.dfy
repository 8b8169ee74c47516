/**
 Which events the store accepts, what an accepted one does to the tables, and what a
 refused one is told (rootsign/ingest/handler.py:67-303), in the fields of the envelope
 and the tables.
 */
module IngestAnswers {
  import opened Common
  import opened Hashing
  import opened Wire
  import opened Chains
  import opened Idempotency
  import opened Ingest
  import Hitl
  import HitlWrites

  /** No answer to the event is cached at this time. */
  ghost predicate Uncached(c: Cache, event: Id, now: int) {
    forall x :: x in c && x.key == event ==> x.expires <= now
  }

  /** An envelope of major version 1 arrives whose event has no cached answer. */
  ghost predicate Arrives(w: World, a: Arrival, e: Envelope) {
    && a.incoming.Parsed? && a.incoming.envelope == e && e.version.major == 1
    && Uncached(w.cache, e.eventId, a.now)
  }

  lemma Dispatched(w: World, a: Arrival, e: Envelope)
    requires Arrives(w, a, e)
    ensures var effect := Dispatch(w.store, e, a.incoming.schemaOk, a.newId);
            Handle(w, a).response == effect.response && Handle(w, a).world.store == effect.store
  {
    EvictKeeps(w.cache, a.now);
    LookupFinds(Evict(w.cache, a.now), e.eventId);
  }

  ghost predicate IsRunning(st: Store, session: Id) {
    session in st.sessions && st.sessions[session].status == Running
  }

  /** Only this session changed, into `s`. */
  ghost predicate SessionBecomes(before: Store, after: Store, session: Id, s: Session) {
    after.agents == before.agents && after.sessions == before.sessions[session := s]
  }

  /** What every refusal says and does. */
  ghost predicate Refuses(before: Store, after: Store, event: Id, r: Response, code: ErrorCode) {
    && after == before
    && r.status == Rejected && r.eventId == event && r.code == Some(code) && r.retryable == Some(false)
    && r.entityId == None && r.number == None && r.selfHash == None
  }

  ghost predicate Accepts(event: Id, r: Response, entity: Id) {
    r.status == Accepted && r.eventId == event && r.entityId == Some(entity) && r.code == None
  }

  /** What is no envelope, or one of another major version, is refused whatever is cached. */
  lemma NotUnderstood(w: World, a: Arrival)
    requires a.incoming.Parsed? ==> a.incoming.envelope.version.major != 1
    ensures Refuses(w.store, Handle(w, a).world.store,
                    if a.incoming.Parsed? then a.incoming.envelope.eventId else a.incoming.eventId,
                    Handle(w, a).response, if a.incoming.Parsed? then SchemaVersionMismatch else ValidationError)
  {
  }

  /** What is remembered of an arrival: a final answer just given, until a day after the event or now, whichever is earlier. */
  lemma Logged(w: World, a: Arrival)
    ensures a.incoming.Unparsable? ==> Handle(w, a).sets == []
    ensures a.incoming.Parsed? && (a.incoming.envelope.version.major != 1 || Uncached(w.cache, a.incoming.envelope.eventId, a.now)) ==>
              var e, r := a.incoming.envelope, Handle(w, a).response;
              Handle(w, a).sets ==
              if r.status == Accepted || r.retryable == Some(false)
              then [SetOp(e.eventId, r, if e.emittedAt <= a.now then e.emittedAt + 86_400 else a.now + 86_400)] else []
    ensures a.incoming.Parsed? && a.incoming.envelope.version.major == 1 && !Uncached(w.cache, a.incoming.envelope.eventId, a.now) ==>
              Handle(w, a).sets == [] && Handle(w, a).world.store == w.store
  {
    if a.incoming.Parsed? {
      EvictKeeps(w.cache, a.now);
      LookupFinds(Evict(w.cache, a.now), a.incoming.envelope.eventId);
      if a.incoming.envelope.version.major == 1 && Uncached(w.cache, a.incoming.envelope.eventId, a.now) {
        Dispatched(w, a, a.incoming.envelope);
      }
    }
  }

  /** A session opens exactly if its agent is registered and it is new. */
  lemma OpeningAccepted(w: World, a: Arrival, e: Envelope)
    requires Arrives(w, a, e) && e.body.SessionOpen?
    ensures var h, st := Handle(w, a), w.store;
            if a.incoming.schemaOk && e.agentId in st.agents && e.sessionId !in st.sessions
            then
              && Accepts(e.eventId, h.response, e.sessionId)
              && SessionBecomes(st, h.world.store, e.sessionId, Session(Running, None, None, 0, 0, []))
              && h.world.store.approvals == st.approvals
            else
              Refuses(st, h.world.store, e.eventId, h.response,
                      if !a.incoming.schemaOk then ValidationError
                      else if e.agentId !in st.agents then UnknownAgent else SessionAlreadyExists)
  {
    Dispatched(w, a, e);
  }

  /** The row of an action under the id minted for it. */
  ghost predicate RowOfAction(row: Row, e: Envelope, newId: Id, tail: Option<Hash>, count: nat)
    requires e.body.ActionRecord?
  {
    var p := e.body.action;
    && row.actionId == newId && row.sessionId == e.sessionId && row.number == count + 1 && row.prevHash == tail
    && row.toolName == p.toolName && row.timestamp == p.timestamp
    && row.inputHash == p.inputHash && row.outputHash == p.outputHash
    && row.inputRedacted == p.inputRedacted && row.outputRedacted == p.outputRedacted
    && row.auth == (if p.auth.Some? then p.auth.value else AutoAuthorized)
    && row.selfHash == OfAction(CanonicalForm(newId, e.sessionId, p.toolName, p.inputHash, Coerce(p.outputHash), Coerce(tail),
                                              p.timestamp, count + 1))
  }

  /** One row more in the action's session, which the answer quotes; counter and ends follow it. */
  ghost predicate ActionAppended(before: Store, after: Store, e: Envelope, newId: Id, r: Response)
    requires e.body.ActionRecord? && e.sessionId in before.sessions && e.sessionId in after.sessions
  {
    var s, now := before.sessions[e.sessionId], after.sessions[e.sessionId];
    && |now.rows| == |s.rows| + 1
    && var row := now.rows[|s.rows|];
       && RowOfAction(row, e, newId, s.tail, s.count)
       && r.number == Some(row.number) && r.selfHash == Some(row.selfHash)
       && SessionBecomes(before, after, e.sessionId,
                         Session(Running, if s.head.Some? then s.head else Some(row.selfHash), Some(row.selfHash),
                                 s.count + 1, s.decisions, s.rows + [row]))
  }

  /**
   An action is accepted exactly if its schema verdict is good, it carries neither
   self-hash nor action id, its number is absent or positive, and its session exists and
   is running. Then one row is appended under the id minted for it, and the answer quotes
   that id, the row's number and its self-hash.
   */
  lemma ActionAccepted(w: World, a: Arrival, e: Envelope)
    requires Arrives(w, a, e) && e.body.ActionRecord?
    ensures var h, st, p := Handle(w, a), w.store, e.body.action;
            if a.incoming.schemaOk && p.selfHash.None? && p.actionId.None? && (p.number.Some? ==> 1 <= p.number.value)
               && IsRunning(st, e.sessionId)
            then
              && Accepts(e.eventId, h.response, a.newId)
              && e.sessionId in h.world.store.sessions
              && h.world.store.approvals == st.approvals
              && ActionAppended(st, h.world.store, e, a.newId, h.response)
            else
              Refuses(st, h.world.store, e.eventId, h.response,
                      if !a.incoming.schemaOk || p.selfHash.Some? || p.actionId.Some? || (p.number.Some? && p.number.value < 1)
                      then ValidationError
                      else if e.sessionId !in st.sessions then SessionNotFound else SessionIsClosed)
  {
    Dispatched(w, a, e);
  }

  /** After any run, the number answered is the count of the session's rows, the last of which the answer names. */
  lemma AcceptedIsLast(agents: set<Id>, arrivals: seq<Arrival>, a: Arrival, e: Envelope)
    requires Arrives(Run(Fresh(agents), arrivals), a, e) && e.body.ActionRecord?
    requires Handle(Run(Fresh(agents), arrivals), a).response.status == Accepted
    ensures var h := Handle(Run(Fresh(agents), arrivals), a);
            && e.sessionId in h.world.store.sessions
            && var rows := h.world.store.sessions[e.sessionId].rows;
               && rows != [] && h.response.number == Some(|rows|)
               && h.response.entityId == Some(rows[|rows| - 1].actionId) && h.response.selfHash == Some(rows[|rows| - 1].selfHash)
  {
    RunKeeps(Fresh(agents), arrivals);
    LastOfOk(Run(Fresh(agents), arrivals), a, e);
  }

  lemma LastOfOk(w: World, a: Arrival, e: Envelope)
    requires StoreOk(w.store) && Arrives(w, a, e) && e.body.ActionRecord? && Handle(w, a).response.status == Accepted
    ensures var h := Handle(w, a);
            && e.sessionId in h.world.store.sessions
            && var rows := h.world.store.sessions[e.sessionId].rows;
               && rows != [] && h.response.number == Some(|rows|)
               && h.response.entityId == Some(rows[|rows| - 1].actionId) && h.response.selfHash == Some(rows[|rows| - 1].selfHash)
  {
    ActionAccepted(w, a, e);
    assert IsRunning(w.store, e.sessionId);
    assert SessionOk(e.sessionId, w.store.sessions[e.sessionId]);
  }

  /** A decision is accepted exactly in a running session, and counted there. */
  lemma DecisionAccepted(w: World, a: Arrival, e: Envelope)
    requires Arrives(w, a, e) && e.body.DecisionRecord?
    ensures var h, st := Handle(w, a), w.store;
            if a.incoming.schemaOk && IsRunning(st, e.sessionId)
            then
              && Accepts(e.eventId, h.response, a.newId)
              && h.world.store.approvals == st.approvals
              && var s := st.sessions[e.sessionId];
                 SessionBecomes(st, h.world.store, e.sessionId, Session(Running, s.head, s.tail, s.count, s.decisions + 1, s.rows))
            else
              Refuses(st, h.world.store, e.eventId, h.response,
                      if !a.incoming.schemaOk then ValidationError
                      else if e.sessionId !in st.sessions then SessionNotFound else SessionIsClosed)
  {
    Dispatched(w, a, e);
  }

  /** A running session closes with any other status; nothing else of it changes. */
  lemma ClosingAccepted(w: World, a: Arrival, e: Envelope)
    requires Arrives(w, a, e) && e.body.SessionClose?
    ensures var h, st := Handle(w, a), w.store;
            if a.incoming.schemaOk && e.body.outcome != Running && IsRunning(st, e.sessionId)
            then
              && Accepts(e.eventId, h.response, e.sessionId)
              && h.world.store.approvals == st.approvals
              && var s := st.sessions[e.sessionId];
                 SessionBecomes(st, h.world.store, e.sessionId, Session(e.body.outcome, s.head, s.tail, s.count, s.decisions, s.rows))
            else
              Refuses(st, h.world.store, e.eventId, h.response,
                      if !a.incoming.schemaOk || e.body.outcome == Running then ValidationError
                      else if e.sessionId !in st.sessions then SessionNotFound else SessionIsClosed)
  {
    Dispatched(w, a, e);
  }

  // ---------- Approvals ----------

  /** Row `k` is the session's latest under this action id. */
  ghost predicate ActionAt(rows: seq<Row>, action: Id, k: nat) {
    k < |rows| && rows[k].actionId == action && forall j :: k < j < |rows| ==> rows[j].actionId != action
  }

  ghost predicate HasAction(rows: seq<Row>, action: Id) {
    exists k: nat :: ActionAt(rows, action, k)
  }

  /** The session holds the action, and neither a human nor a timeout has settled it. */
  ghost predicate ActionWaits(rows: seq<Row>, action: Id) {
    exists k: nat :: ActionAt(rows, action, k) && rows[k].auth !in {HumanApproved, HumanRejected, TimedOut}
  }

  lemma {:induction false} ActionsAt(rows: seq<Row>, action: Id)
    ensures action in ActionsOf(rows) <==> HasAction(rows, action)
    ensures forall k: nat :: ActionAt(rows, action, k) ==>
              action in ActionsOf(rows) && ActionsOf(rows)[action] == Hitl.ActionRow(rows[k].timestamp, rows[k].auth)
  {
    if rows != [] {
      var front, last := rows[..|rows| - 1], rows[|rows| - 1];
      ActionsAt(front, action);
      if last.actionId == action {
        assert ActionAt(rows, action, |front|);
      } else {
        forall k: nat ensures ActionAt(rows, action, k) <==> ActionAt(front, action, k) {
        }
      }
    }
  }

  lemma WaitsInTables(rows: seq<Row>, approvals: seq<Hitl.ApprovalRow>, action: Id)
    ensures HitlWrites.Waits(Hitl.Db(ActionsOf(rows), approvals), action) <==> ActionWaits(rows, action)
    ensures action in ActionsOf(rows) <==> HasAction(rows, action)
  {
    ActionsAt(rows, action);
  }

  /** The approval's row with its six columns, and the action's status by its decision; no other column changes. */
  ghost predicate ApprovalStored(before: Store, after: Store, e: Envelope, newId: Id)
    requires e.body.ApprovalRecord? && e.sessionId in before.sessions && e.sessionId in after.sessions
  {
    var p, s, now := e.body.approval, before.sessions[e.sessionId], after.sessions[e.sessionId];
    && after.approvals == before.approvals + [Hitl.ApprovalRow(newId, p.actionId, p.approverType, p.decision, p.parent, p.timestamp)]
    && |now.rows| == |s.rows|
    && SessionBecomes(before, after, e.sessionId, Session(Running, s.head, s.tail, s.count, s.decisions, now.rows))
    && forall i :: 0 <= i < |s.rows| ==>
         && (s.rows[i].actionId != p.actionId ==> now.rows[i] == s.rows[i])
         && (s.rows[i].actionId == p.actionId ==>
               HitlWrites.StatusOf(p.decision, now.rows[i].auth) && now.rows[i] == s.rows[i].(auth := now.rows[i].auth))
  }

  /**
   An approval is accepted exactly in a running session that holds the action it names,
   unresolved, if an escalation names no parent and a parent named is a stored escalation
   of that action. Then it is stored, and the action's status follows its decision.
   */
  lemma ApprovalAccepted(w: World, a: Arrival, e: Envelope)
    requires Arrives(w, a, e) && e.body.ApprovalRecord?
    ensures var h, st, p := Handle(w, a), w.store, e.body.approval;
            if a.incoming.schemaOk && IsRunning(st, e.sessionId) && ActionWaits(st.sessions[e.sessionId].rows, p.actionId)
               && !(p.decision == Escalate && p.parent.Some?)
               && (p.parent.Some? ==> HitlWrites.ParentEscalated(st.approvals, p.parent.value, p.actionId))
            then
              && Accepts(e.eventId, h.response, a.newId)
              && e.sessionId in h.world.store.sessions && ApprovalStored(st, h.world.store, e, a.newId)
            else
              Refuses(st, h.world.store, e.eventId, h.response,
                      if !a.incoming.schemaOk then ValidationError
                      else if e.sessionId !in st.sessions then SessionNotFound
                      else if !IsRunning(st, e.sessionId) then SessionIsClosed
                      else if !HasAction(st.sessions[e.sessionId].rows, p.actionId) then ActionNotFound
                      else if !ActionWaits(st.sessions[e.sessionId].rows, p.actionId) then ActionAlreadyResolved
                      else if p.decision == Escalate && p.parent.Some? then ValidationError
                      else if p.parent.Some? && !HitlWrites.ParentKnown(st.approvals, p.parent.value, p.actionId)
                      then ApprovalParentNotFound
                      else ValidationError)
  {
    Dispatched(w, a, e);
    if IsRunning(w.store, e.sessionId) {
      var rows, p := w.store.sessions[e.sessionId].rows, e.body.approval;
      WaitsInTables(rows, w.store.approvals, p.actionId);
      HitlWrites.IngestWrites(Hitl.Db(ActionsOf(rows), w.store.approvals), p, a.newId);
      ApprovalRecorded(w.store, e, a.newId);
    }
  }

  lemma ApprovalRecorded(st: Store, e: Envelope, newId: Id)
    requires e.body.ApprovalRecord? && IsRunning(st, e.sessionId)
    ensures var p, rows := e.body.approval, st.sessions[e.sessionId].rows;
            var db := Hitl.IngestApproval(Hitl.Db(ActionsOf(rows), st.approvals), p, newId);
            if db.Err? then RecordApproval(st, e, newId, p) == Err(db.error)
            else
              && RecordApproval(st, e, newId, p).Ok?
              && var r := RecordApproval(st, e, newId, p).value;
                 && Accepts(e.eventId, r.response, newId)
                 && e.sessionId in r.store.sessions && ApprovalStored(st, r.store, e, newId)
  {
  }
}
