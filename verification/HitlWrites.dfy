/**
 The two writes of an approval column by column (rootsign/crud/approval.py:63-311), when
 each goes through, what is in the table after a whole run, and what a look at the
 newest approval makes of it.
 */
module HitlWrites {
  import opened Common
  import opened Hashing
  import opened Wire
  import opened Hitl

  /** Row `k` is the approval stored under this id. */
  ghost predicate StoredAt(rows: seq<ApprovalRow>, id: Id, k: nat) {
    k < |rows| && rows[k].approvalId == id && forall j :: k < j < |rows| ==> rows[j].approvalId != id
  }

  lemma {:induction false} FoundAt(rows: seq<ApprovalRow>, id: Id, k: nat)
    requires StoredAt(rows, id, k)
    ensures FindApproval(rows, id) == Some(rows[k])
  {
    if k < |rows| - 1 {
      FoundAt(rows[..|rows| - 1], id, k);
    }
  }

  lemma {:induction false} FindsOne(rows: seq<ApprovalRow>, id: Id) returns (k: nat)
    requires FindApproval(rows, id).Some?
    ensures StoredAt(rows, id, k)
  {
    if rows[|rows| - 1].approvalId == id {
      k := |rows| - 1;
    } else {
      k := FindsOne(rows[..|rows| - 1], id);
    }
  }

  /** The action is there and waits: no human and no timeout has settled it. */
  ghost predicate Waits(db: Db, action: Id) {
    action in db.actions && db.actions[action].status !in {HumanApproved, HumanRejected, TimedOut}
  }

  ghost predicate ParentKnown(rows: seq<ApprovalRow>, parent: Id, action: Id) {
    exists k: nat :: StoredAt(rows, parent, k) && rows[k].actionId == action
  }

  ghost predicate ParentEscalated(rows: seq<ApprovalRow>, parent: Id, action: Id) {
    exists k: nat :: StoredAt(rows, parent, k) && rows[k].actionId == action && rows[k].decision == Escalate
  }

  /** One row at the end of the table with these columns, and one action's status; nothing else. */
  ghost predicate Writes(before: Db, after: Db, id: Id, action: Id, approver: ApproverType, decision: Decision,
                         parent: Option<Id>, t: int, status: AuthStatus) {
    && |after.approvals| == |before.approvals| + 1 && after.approvals[..|before.approvals|] == before.approvals
    && var row := after.approvals[|before.approvals|];
       && row.approvalId == id && row.actionId == action && row.approverType == approver && row.decision == decision
       && row.parent == parent && row.timestamp == t
       && action in before.actions && after.actions.Keys == before.actions.Keys
       && forall a :: a in before.actions ==>
            && after.actions[a].timestamp == before.actions[a].timestamp
            && after.actions[a].status == if a == action then status else before.actions[a].status
  }

  ghost predicate StatusOf(decision: Decision, status: AuthStatus) {
    && (decision == Approve <==> status == HumanApproved)
    && (decision == Decline <==> status == HumanRejected)
    && (decision == Escalate <==> status == Pending)
  }

  lemma ParentGuards(db: Db, p: ApprovalPayload)
    ensures ParentError(db, p) ==
            if p.parent.None? then None
            else if !ParentKnown(db.approvals, p.parent.value, p.actionId) then Some(ApprovalParentNotFound)
            else if !ParentEscalated(db.approvals, p.parent.value, p.actionId) then Some(ValidationError)
            else None
  {
    if p.parent.Some? {
      var found := FindApproval(db.approvals, p.parent.value);
      if found.Some? {
        var k := FindsOne(db.approvals, p.parent.value);
        FoundAt(db.approvals, p.parent.value, k);
      }
      forall k: nat | StoredAt(db.approvals, p.parent.value, k) ensures found == Some(db.approvals[k]) {
        FoundAt(db.approvals, p.parent.value, k);
      }
    }
  }

  /**
   The ingest write goes through if and only if the action is there and unresolved, an
   escalation names no parent, and a parent named is a stored escalation of the same
   action. Then it appends the request's columns under the id given and sets that one
   action's status; otherwise it names the first guard that failed.
   */
  lemma IngestWrites(db: Db, p: ApprovalPayload, newId: Id)
    ensures IngestApproval(db, p, newId).Ok? <==>
              && Waits(db, p.actionId) && !(p.decision == Escalate && p.parent.Some?)
              && (p.parent.Some? ==> ParentEscalated(db.approvals, p.parent.value, p.actionId))
    ensures IngestApproval(db, p, newId).Ok? ==>
              exists status :: StatusOf(p.decision, status) &&
                Writes(db, IngestApproval(db, p, newId).value, newId, p.actionId, p.approverType, p.decision, p.parent, p.timestamp,
                       status)
    ensures IngestApproval(db, p, newId).Err? ==>
              IngestApproval(db, p, newId).error ==
              if p.actionId !in db.actions then ActionNotFound
              else if !Waits(db, p.actionId) then ActionAlreadyResolved
              else if p.decision == Escalate && p.parent.Some? then ValidationError
              else if !ParentKnown(db.approvals, p.parent.value, p.actionId) then ApprovalParentNotFound
              else ValidationError
  {
    ParentGuards(db, p);
    if IngestApproval(db, p, newId).Ok? {
      assert StatusOf(p.decision, StatusFor(p.decision));
      assert Writes(db, IngestApproval(db, p, newId).value, newId, p.actionId, p.approverType, p.decision, p.parent, p.timestamp,
                    StatusFor(p.decision));
    }
  }

  /**
   The checkpoint's write goes through if and only if an action with this id and this
   timestamp is there and unresolved. Then it appends the request's columns, stamped with
   the time of the write; the timeout type sets `timed_out` whatever the decision.
   */
  lemma LinkWrites(db: Db, l: Link, newId: Id, now: int)
    ensures LinkApproval(db, l, newId, now).Ok? <==> Waits(db, l.actionId) && db.actions[l.actionId].timestamp == l.actionTimestamp
    ensures LinkApproval(db, l, newId, now).Ok? ==>
              exists status ::
                && (if l.approverType == TimeoutAutoRejected then status == TimedOut else StatusOf(l.decision, status))
                && Writes(db, LinkApproval(db, l, newId, now).value, newId, l.actionId, l.approverType, l.decision, l.parent, now, status)
    ensures LinkApproval(db, l, newId, now).Err? ==>
              LinkApproval(db, l, newId, now).error ==
              if l.actionId !in db.actions || db.actions[l.actionId].timestamp != l.actionTimestamp then ActionNotFound
              else ActionAlreadyResolved
  {
    if LinkApproval(db, l, newId, now).Ok? {
      assert StatusOf(l.decision, StatusFor(l.decision));
      assert Writes(db, LinkApproval(db, l, newId, now).value, newId, l.actionId, l.approverType, l.decision, l.parent, now,
                    LinkStatus(l));
    }
  }

  // ---------- Over whole runs ----------

  lemma RowsOnlyAppended(s: State, w: Watch, step: Step)
    ensures s.db.approvals <= Next(s, w, step).db.approvals
  {
  }

  lemma {:induction false} RowsStay(s: State, w: Watch, steps: seq<Step>, n: nat)
    requires n <= |steps|
    ensures RunSteps(s, w, steps[..n]).db.approvals <= RunSteps(s, w, steps).db.approvals
  {
    if n == |steps| {
      assert steps[..n] == steps;
    } else {
      var front := steps[..|steps| - 1];
      assert front[..n] == steps[..n];
      RowsStay(s, w, front, n);
      RowsOnlyAppended(RunSteps(s, w, front), w, steps[|steps| - 1]);
    }
  }

  /** The row has the columns of this request. */
  ghost predicate RequestedAs(row: ApprovalRow, p: ApprovalPayload, newId: Id) {
    && row.parent == p.parent && row.approvalId == newId && row.actionId == p.actionId
    && row.approverType == p.approverType && row.decision == p.decision && row.timestamp == p.timestamp
  }

  /**
   In every run: a non-escalating approval that ingest commits for a waiting action, and
   that names a stored escalation of that action as its parent, is in the table at the end
   of the run with that parent and the columns of its request.
   */
  lemma ChildStored(s: State, w: Watch, steps: seq<Step>, i: nat, p: ApprovalPayload, newId: Id)
    requires i < |steps| && steps[i] == Other(IngestTxn(p, newId))
    requires var db := RunSteps(s, w, steps[..i]).db;
             && Waits(db, p.actionId) && p.decision != Escalate
             && p.parent.Some? && ParentEscalated(db.approvals, p.parent.value, p.actionId)
    ensures exists row :: row in RunSteps(s, w, steps).db.approvals && RequestedAs(row, p, newId)
  {
    var before, after := RunSteps(s, w, steps[..i]), RunSteps(s, w, steps[..i + 1]);
    assert steps[..i + 1][..i] == steps[..i];
    IngestWrites(before.db, p, newId);
    var row := after.db.approvals[|before.db.approvals|];
    RowsStay(s, w, steps, i + 1);
    assert row in after.db.approvals;
    assert row in RunSteps(s, w, steps).db.approvals;
  }

  /** And from submission, in every legal run, the parent it names is an escalated root of its action. */
  lemma ChildOfRoot(s: State, w: Watch, steps: seq<Step>, i: nat, p: ApprovalPayload, newId: Id)
    returns (row: ApprovalRow, parent: ApprovalRow)
    requires Submitted(s, w) && LegalRun(s, w, steps)
    requires i < |steps| && steps[i] == Other(IngestTxn(p, newId))
    requires var db := RunSteps(s, w, steps[..i]).db;
             && Waits(db, p.actionId) && p.decision != Escalate
             && p.parent.Some? && ParentEscalated(db.approvals, p.parent.value, p.actionId)
    ensures var rows := RunSteps(s, w, steps).db.approvals;
            && row in rows && RequestedAs(row, p, newId)
            && parent in rows && row.parent == Some(parent.approvalId) && parent.actionId == p.actionId
            && parent.decision == Escalate && parent.parent.None?
  {
    ChildStored(s, w, steps, i, p, newId);
    HitlSafety(s, w, steps);
    var rows := RunSteps(s, w, steps).db.approvals;
    row :| row in rows && RequestedAs(row, p, newId);
    assert Rooted(rows, row);
    parent :| parent in rows && parent.approvalId == row.parent.value && parent.actionId == row.actionId
              && parent.decision == Escalate && parent.parent.None?;
  }

  // ---------- What a look makes of the newest approval ----------

  /** The row the wait goes by: an approval of the action that none is stamped later than. */
  ghost predicate GoneBy(db: Db, action: Id, row: ApprovalRow) {
    && row in db.approvals && row.actionId == action
    && forall r :: r in db.approvals && r.actionId == action ==> r.timestamp <= row.timestamp
  }

  /** How the wait ends on a row: the timeout type first, then the decision. */
  ghost predicate EndsOn(row: ApprovalRow, o: Outcome) {
    if row.approverType == TimeoutAutoRejected then o == RaisedTimeout
    else if row.decision == Decline then o == RaisedRejected
    else o == Returned(row.approvalId)
  }

  /** A poll goes on without approvals or on an escalation, and otherwise ends on a newest approval. */
  lemma PollEnds(s: State, w: Watch, pick: nat)
    requires s.waiter.Polling?
    ensures (forall r :: r in s.db.approvals ==> r.actionId != w.actionId) ==> Next(s, w, Poll(pick)) == s
    ensures (exists r :: r in s.db.approvals && r.actionId == w.actionId) ==>
              exists row :: GoneBy(s.db, w.actionId, row) &&
                var end := Next(s, w, Poll(pick));
                if row.decision == Escalate then end == s
                else end.db == s.db && end.waiter.Done? && EndsOn(row, end.waiter.outcome)
  {
    var rows := RowsOf(s.db.approvals, w.actionId);
    if r :| r in s.db.approvals && r.actionId == w.actionId {
      assert r in rows;
      assert GoneBy(s.db, w.actionId, NewestOf(rows, pick).value);
    }
    if rows != [] {
      assert rows[0] in rows;
    }
  }

  /** The last look after a refused timeout ends on a newest approval, or in a timeout if there is none. */
  lemma LookEnds(s: State, w: Watch, pick: nat)
    requires s.waiter.Refused?
    ensures var end := Next(s, w, Repoll(pick)); end.db == s.db && end.waiter.Done?
    ensures (forall r :: r in s.db.approvals ==> r.actionId != w.actionId) ==>
              Next(s, w, Repoll(pick)).waiter.outcome == RaisedTimeout
    ensures (exists r :: r in s.db.approvals && r.actionId == w.actionId) ==>
              exists row :: GoneBy(s.db, w.actionId, row) && EndsOn(row, Next(s, w, Repoll(pick)).waiter.outcome)
  {
    var rows := RowsOf(s.db.approvals, w.actionId);
    if r :| r in s.db.approvals && r.actionId == w.actionId {
      assert r in rows;
      assert GoneBy(s.db, w.actionId, NewestOf(rows, pick).value);
    }
    if rows != [] {
      assert rows[0] in rows;
    }
  }

  /**
   At the deadline a waiting action gets a timeout row without a parent and is timed out;
   a resolved one is looked at once more; one that is gone raises.
   */
  lemma DeadlineEnds(s: State, w: Watch, newId: Id, now: int)
    requires s.waiter.Polling?
    ensures var end := Next(s, w, Expire(newId, now));
            if w.actionId !in s.db.actions || s.db.actions[w.actionId].timestamp != w.actionTimestamp
            then end == State(s.db, Done(RaisedNotFound))
            else if !Waits(s.db, w.actionId) then end == State(s.db, Refused)
            else end.waiter == Done(RaisedTimeout)
                 && Writes(s.db, end.db, newId, w.actionId, TimeoutAutoRejected, Decline, None, now, TimedOut)
  {
  }
}
