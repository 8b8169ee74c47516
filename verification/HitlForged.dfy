/**
 The checkpoint when ingest may write the timeout type, which its schema admits
 (rootsign/schemas/approval.py:8-12): what the wait makes of such an approval, with no
 assumption on types, timestamps, ties or parents.
 */
module HitlForged {
  import opened Common
  import opened Hashing
  import opened Wire
  import opened Hitl

  /** An ingested approval that carries the timeout type. Ingest sets the status by its decision alone. */
  predicate IsForgery(step: Step) {
    step.Other? && step.txn.IngestTxn? && step.txn.payload.approverType == TimeoutAutoRejected
  }

  /** The step commits an approval of the watched action. */
  ghost predicate WritesTo(s: State, w: Watch, step: Step) {
    RowsOf(Next(s, w, step).db.approvals, w.actionId) != RowsOf(s.db.approvals, w.actionId)
  }

  /** The last approval of the action was ingested with the timeout type. */
  ghost predicate LastForged(s: State, w: Watch, steps: seq<Step>) {
    steps != [] &&
    var before, last := RunSteps(s, w, steps[..|steps| - 1]), steps[|steps| - 1];
    if WritesTo(before, w, last) then IsForgery(last) else LastForged(s, w, steps[..|steps| - 1])
  }

  /** All approvals but the last are escalations; the last sets the status, by its type unless that was forged. */
  ghost predicate EndsAs(rows: seq<ApprovalRow>, status: AuthStatus, forged: bool) {
    && (forall i :: 0 <= i < |rows| - 1 ==> rows[i].decision == Escalate)
    && if rows == [] then status == Pending && !forged
       else
         var last := rows[|rows| - 1];
         && (forged ==> last.approverType == TimeoutAutoRejected)
         && status == (if forged then StatusFor(last.decision) else Resolves(last))
  }

  ghost predicate Anyhow(s: State, w: Watch, forged: bool) {
    && w.actionId in s.db.actions && s.db.actions[w.actionId].timestamp == w.actionTimestamp
    && EndsAs(RowsOf(s.db.approvals, w.actionId), s.db.actions[w.actionId].status, forged)
    && (s.waiter.Refused? ==> Terminal(s.db.actions[w.actionId].status))
  }

  function SetBy(row: ApprovalRow, forged: bool): AuthStatus {
    if forged then StatusFor(row.decision) else Resolves(row)
  }

  lemma OneMoreEnds(rows: seq<ApprovalRow>, status: AuthStatus, forged: bool, row: ApprovalRow, forgery: bool)
    requires EndsAs(rows, status, forged) && !Terminal(status)
    requires forgery ==> row.approverType == TimeoutAutoRejected
    ensures EndsAs(rows + [row], SetBy(row, forgery), forgery)
  {
    assert rows != [] ==> rows[|rows| - 1].decision == Escalate;
  }

  /** A transaction that goes through inserts one row on an unresolved action, and sets the status by it. */
  lemma CommitSets(db: Db, t: Txn) returns (row: ApprovalRow)
    requires Attempt(db, t).Ok?
    ensures row.actionId in db.actions && !Terminal(db.actions[row.actionId].status)
    ensures IsForgery(Other(t)) ==> row.approverType == TimeoutAutoRejected
    ensures Attempt(db, t).value == Insert(db, row, SetBy(row, IsForgery(Other(t))))
  {
    row := match t
      case IngestTxn(p, newId) => ApprovalRow(newId, p.actionId, p.approverType, p.decision, p.parent, p.timestamp)
      case LinkTxn(l, newId, now) => ApprovalRow(newId, l.actionId, l.approverType, l.decision, l.parent, now);
  }

  lemma InsertAnyhow(s: State, w: Watch, forged: bool, row: ApprovalRow, forgery: bool) returns (after: State)
    requires Anyhow(s, w, forged) && row.actionId in s.db.actions && !Terminal(s.db.actions[row.actionId].status)
    requires forgery ==> row.approverType == TimeoutAutoRejected
    ensures after == s.(db := Insert(s.db, row, SetBy(row, forgery)))
    ensures Anyhow(after, w, if row.actionId == w.actionId then forgery else forged)
    ensures RowsOf(after.db.approvals, w.actionId) != RowsOf(s.db.approvals, w.actionId) <==> row.actionId == w.actionId
  {
    after := s.(db := Insert(s.db, row, SetBy(row, forgery)));
    var rows := RowsOf(s.db.approvals, w.actionId);
    InsertRows(s.db, row, SetBy(row, forgery), w.actionId);
    if row.actionId == w.actionId {
      OneMoreEnds(rows, s.db.actions[w.actionId].status, forged, row, forgery);
      assert |rows + [row]| == |rows| + 1;
    }
  }

  lemma CommitAnyhow(s: State, w: Watch, forged: bool, t: Txn) returns (after: State)
    requires Anyhow(s, w, forged)
    ensures after == s.(db := Commit(s.db, t))
    ensures Anyhow(after, w, if RowsOf(after.db.approvals, w.actionId) != RowsOf(s.db.approvals, w.actionId)
                             then IsForgery(Other(t)) else forged)
  {
    after := s;
    if Attempt(s.db, t).Ok? {
      var row := CommitSets(s.db, t);
      after := InsertAnyhow(s, w, forged, row, IsForgery(Other(t)));
    }
  }

  lemma ExpireAnyhow(s: State, w: Watch, forged: bool, newId: Id, now: int) returns (after: State)
    requires Anyhow(s, w, forged)
    ensures after == Next(s, w, Expire(newId, now))
    ensures Anyhow(after, w, RowsOf(after.db.approvals, w.actionId) == RowsOf(s.db.approvals, w.actionId) && forged)
  {
    after := Next(s, w, Expire(newId, now));
    if s.waiter.Polling? {
      var committed := CommitAnyhow(s, w, forged, LinkTxn(TimeoutLink(w), newId, now));
    }
  }

  lemma StepAnyhow(s: State, w: Watch, forged: bool, step: Step)
    requires Anyhow(s, w, forged)
    ensures Anyhow(Next(s, w, step), w, if WritesTo(s, w, step) then IsForgery(step) else forged)
  {
    match step {
      case Other(t) => var after := CommitAnyhow(s, w, forged, t);
      case Expire(newId, now) => var after := ExpireAnyhow(s, w, forged, newId, now);
      case Poll(_) =>
      case Repoll(_) =>
    }
  }

  lemma {:induction false} RunAnyhow(s: State, w: Watch, steps: seq<Step>)
    requires Submitted(s, w)
    ensures Anyhow(RunSteps(s, w, steps), w, LastForged(s, w, steps))
  {
    if steps != [] {
      var front := steps[..|steps| - 1];
      RunAnyhow(s, w, front);
      StepAnyhow(RunSteps(s, w, front), w, LastForged(s, w, front), steps[|steps| - 1]);
    }
  }

  // ---------- What the wait then reports ----------

  /** A poll is wrong exactly when it ends the wait on a forged approval; the timeout write never is. */
  lemma PollAnyhow(s: State, w: Watch, forged: bool, pick: nat, newId: Id, now: int)
    requires Anyhow(s, w, forged) && s.waiter.Polling?
    ensures PolledRight(s, w, pick) <==> !(forged && Next(s, w, Poll(pick)).waiter.Done?)
    ensures ExpiredRight(Next(s, w, Expire(newId, now)), w)
  {
    var rows := RowsOf(s.db.approvals, w.actionId);
    var newest := NewestOf(rows, pick);
    if newest.Some? {
      var i :| 0 <= i < |rows| && rows[i] == newest.value;
      assert newest.value.decision != Escalate ==> i == |rows| - 1;
    }
  }

  /** Row `i`, if it can be the newest, reads as the status: the resolving row by its type, an escalation as an approval or a timeout. */
  ghost predicate TopReads(rows: seq<ApprovalRow>, status: AuthStatus, forged: bool, i: nat) {
    HasGreatestStamp(rows, i) ==>
      if i == |rows| - 1 then !forged
      else status == (if rows[i].approverType == TimeoutAutoRejected then TimedOut else HumanApproved)
  }

  ghost predicate AllTopRead(rows: seq<ApprovalRow>, status: AuthStatus, forged: bool) {
    forall i: nat :: TopReads(rows, status, forged, i)
  }

  lemma RowReads(rows: seq<ApprovalRow>, status: AuthStatus, forged: bool, i: nat)
    requires EndsAs(rows, status, forged) && Terminal(status) && HasGreatestStamp(rows, i)
    ensures Agrees(RaiseOrReturn(rows[i]), status) <==> TopReads(rows, status, forged, i)
  {
  }

  lemma NewestPlace(rows: seq<ApprovalRow>, pick: nat) returns (i: nat)
    requires rows != []
    ensures HasGreatestStamp(rows, i) && NewestOf(rows, pick) == Some(rows[i])
  {
    var newest := NewestOf(rows, pick).value;
    i :| 0 <= i < |rows| && rows[i] == newest;
    assert forall k :: 0 <= k < |rows| ==> rows[k] in rows;
  }

  /** The last look at a resolved action is right under every tie-break exactly when every row that can be the newest reads right. */
  lemma LookAnyhow(rows: seq<ApprovalRow>, status: AuthStatus, forged: bool)
    requires EndsAs(rows, status, forged) && Terminal(status)
    ensures rows != []
    ensures (forall pick: nat :: SeenRight(rows, status, pick)) <==> AllTopRead(rows, status, forged)
  {
    if forall pick: nat :: SeenRight(rows, status, pick) {
      forall i: nat ensures TopReads(rows, status, forged, i) {
        if HasGreatestStamp(rows, i) {
          assert SeenRight(rows, status, i);
          RowReads(rows, status, forged, i);
        }
      }
    }
    if AllTopRead(rows, status, forged) {
      forall pick: nat ensures SeenRight(rows, status, pick) {
        var i := NewestPlace(rows, pick);
        RowReads(rows, status, forged, i);
      }
    }
  }

  ghost predicate PollsRight(s: State, w: Watch, forged: bool)
    requires w.actionId in s.db.actions
  {
    && (forall pick: nat :: PolledRight(s, w, pick) <==> !(forged && Next(s, w, Poll(pick)).waiter.Done?))
    && (forall newId: Id, now: int :: ExpiredRight(Next(s, w, Expire(newId, now)), w))
  }

  ghost predicate LooksRight(s: State, w: Watch)
    requires w.actionId in s.db.actions
  {
    forall pick: nat :: LookedRight(s, w, pick)
  }

  lemma PollsAnyhow(s: State, w: Watch, forged: bool)
    requires Anyhow(s, w, forged) && s.waiter.Polling?
    ensures PollsRight(s, w, forged)
  {
    forall pick: nat ensures PolledRight(s, w, pick) <==> !(forged && Next(s, w, Poll(pick)).waiter.Done?) {
      PollAnyhow(s, w, forged, pick, 0, 0);
    }
    forall newId: Id, now: int ensures ExpiredRight(Next(s, w, Expire(newId, now)), w) {
      PollAnyhow(s, w, forged, 0, newId, now);
    }
  }

  lemma LooksAnyhow(s: State, w: Watch, forged: bool)
    requires Anyhow(s, w, forged) && s.waiter.Refused?
    ensures LooksRight(s, w) <==> AllTopRead(RowsOf(s.db.approvals, w.actionId), s.db.actions[w.actionId].status, forged)
  {
    var rows, status := RowsOf(s.db.approvals, w.actionId), s.db.actions[w.actionId].status;
    LookAnyhow(rows, status, forged);
    forall pick: nat ensures LookedRight(s, w, pick) <==> SeenRight(rows, status, pick) {
    }
  }

  /**
   Every run from submission, without any assumption: the timeout write is right; a poll
   that ends the wait is right if and only if the approval that resolved the action was not
   ingested with the timeout type; and the last look is right under every tie-break if and
   only if no row with a greatest timestamp is such an approval, or an escalation that reads
   otherwise than the status.
   */
  lemma ReportedIff(s: State, w: Watch, steps: seq<Step>)
    requires Submitted(s, w)
    ensures var end, forged := RunSteps(s, w, steps), LastForged(s, w, steps);
            && w.actionId in end.db.actions && OnlyLastResolves(RowsOf(end.db.approvals, w.actionId))
            && (end.waiter.Polling? ==> PollsRight(end, w, forged))
            && (end.waiter.Refused? ==>
                  (LooksRight(end, w) <==>
                   AllTopRead(RowsOf(end.db.approvals, w.actionId), end.db.actions[w.actionId].status, forged)))
  {
    RunAnyhow(s, w, steps);
    var end, forged := RunSteps(s, w, steps), LastForged(s, w, steps);
    if end.waiter.Polling? {
      PollsAnyhow(end, w, forged);
    }
    if end.waiter.Refused? {
      LooksAnyhow(end, w, forged);
    }
  }

  function ForgedApproval(action: Id, t: int): Step {
    Other(IngestTxn(ApprovalPayload(action, TimeoutAutoRejected, Approve, t + 1, None), 1))
  }

  lemma OneRow(row: ApprovalRow)
    ensures RowsOf([row], row.actionId) == [row]
  {
    assert [row][..0] == [];
    assert RowsOf([], row.actionId) == [];
  }

  lemma ForgedStored(action: Id, t: int, row: ApprovalRow)
    requires row == ApprovalRow(1, action, TimeoutAutoRejected, Approve, None, t + 1)
    ensures Next(StampedStart(action, t), Watch(action, t), ForgedApproval(action, t))
            == State(Db(map[action := ActionRow(t, HumanApproved)], [row]), Polling)
    ensures WritesTo(StampedStart(action, t), Watch(action, t), ForgedApproval(action, t))
  {
    var end := Next(StampedStart(action, t), Watch(action, t), ForgedApproval(action, t));
    assert end.db.approvals == [row];
  }

  lemma ForgedCommits(action: Id, t: int) returns (one: State)
    ensures one == Next(StampedStart(action, t), Watch(action, t), ForgedApproval(action, t))
    ensures one.waiter.Polling? && one.db.actions == map[action := ActionRow(t, HumanApproved)]
    ensures RowsOf(one.db.approvals, action) == [ApprovalRow(1, action, TimeoutAutoRejected, Approve, None, t + 1)]
    ensures WritesTo(StampedStart(action, t), Watch(action, t), ForgedApproval(action, t))
  {
    var row := ApprovalRow(1, action, TimeoutAutoRejected, Approve, None, t + 1);
    ForgedStored(action, t, row);
    OneRow(row);
    one := State(Db(map[action := ActionRow(t, HumanApproved)], [row]), Polling);
  }

  /** Approved through ingest under the timeout type: the action is human-approved and the wait raises a timeout. */
  lemma ForgedApprovalTimesOut(action: Id, t: int) returns (end: State)
    ensures Submitted(StampedStart(action, t), Watch(action, t))
    ensures end == RunSteps(StampedStart(action, t), Watch(action, t), [ForgedApproval(action, t), Poll(0)])
    ensures LastForged(StampedStart(action, t), Watch(action, t), [ForgedApproval(action, t)])
    ensures end.waiter == Done(RaisedTimeout)
    ensures action in end.db.actions && end.db.actions[action].status == HumanApproved
  {
    var forged := ForgedApproval(action, t);
    assert [forged, Poll(0)][..1] == [forged] && [forged][..0] == [];
    var one := ForgedCommits(action, t);
    assert one == RunSteps(StampedStart(action, t), Watch(action, t), [forged]);
    end := Next(one, Watch(action, t), Poll(0));
  }
}
