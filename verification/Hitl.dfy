/**
 Human-in-the-loop approval: the two guarded writes of rootsign/crud/approval.py,
 racing with the poll loop of rootsign/sdk/hitl.py on one action row. Every
 transaction holds the row lock, so it is one atomic step.
 */
module Hitl {
  import opened Common
  import opened Hashing
  import opened Wire

  datatype ActionRow = ActionRow(timestamp: int, status: AuthStatus)

  datatype ApprovalRow = ApprovalRow(
    approvalId: Id,
    actionId: Id,
    approverType: ApproverType,
    decision: Decision,
    parent: Option<Id>,
    timestamp: int)

  /** The actions by id, and the approvals in commit order. */
  datatype Db = Db(actions: map<Id, ActionRow>, approvals: seq<ApprovalRow>)

  predicate Terminal(s: AuthStatus) {
    s == HumanApproved || s == HumanRejected || s == TimedOut
  }

  function StatusFor(d: Decision): AuthStatus {
    match d
    case Approve => HumanApproved
    case Decline => HumanRejected
    case Escalate => Pending
  }

  // ---------- The two writes ----------

  function FindApproval(rows: seq<ApprovalRow>, id: Id): (r: Option<ApprovalRow>)
    ensures r.Some? ==> r.value in rows && r.value.approvalId == id
  {
    if rows == [] then None
    else if rows[|rows| - 1].approvalId == id then Some(rows[|rows| - 1])
    else FindApproval(rows[..|rows| - 1], id)
  }

  function Insert(db: Db, row: ApprovalRow, status: AuthStatus): Db
    requires row.actionId in db.actions
  {
    Db(db.actions[row.actionId := db.actions[row.actionId].(status := status)], db.approvals + [row])
  }

  /** What is wrong with the parent an ingested approval names, if anything. */
  function ParentError(db: Db, p: ApprovalPayload): Option<ErrorCode> {
    if p.parent.None? then None
    else
      var parent := FindApproval(db.approvals, p.parent.value);
      if parent.None? || parent.value.actionId != p.actionId then Some(ApprovalParentNotFound)
      else if parent.value.decision != Escalate then Some(ValidationError)
      else None
  }

  /** `create_with_action_status_update`: the ingest path. */
  function IngestApproval(db: Db, p: ApprovalPayload, newId: Id): Result<Db, ErrorCode> {
    if p.actionId !in db.actions then Err(ActionNotFound)
    else if Terminal(db.actions[p.actionId].status) then Err(ActionAlreadyResolved)
    else if p.decision == Escalate && p.parent.Some? then Err(ValidationError)
    else if ParentError(db, p).Some? then Err(ParentError(db, p).value)
    else Ok(Insert(db, ApprovalRow(newId, p.actionId, p.approverType, p.decision, p.parent, p.timestamp), StatusFor(p.decision)))
  }

  /** A request to `create_with_chain_link`, from the CLI or a poll loop. */
  datatype Link = Link(actionId: Id, actionTimestamp: int, approverType: ApproverType, decision: Decision, parent: Option<Id>)

  function LinkStatus(l: Link): AuthStatus {
    if l.approverType == TimeoutAutoRejected then TimedOut else StatusFor(l.decision)
  }

  /** `create_with_chain_link`. The parent is stored as given. */
  function LinkApproval(db: Db, l: Link, newId: Id, now: int): Result<Db, ErrorCode> {
    if l.actionId !in db.actions || db.actions[l.actionId].timestamp != l.actionTimestamp then Err(ActionNotFound)
    else if Terminal(db.actions[l.actionId].status) then Err(ActionAlreadyResolved)
    else Ok(Insert(db, ApprovalRow(newId, l.actionId, l.approverType, l.decision, l.parent, now), LinkStatus(l)))
  }

  /** A committed transaction of anyone but the waiting poll loop. */
  datatype Txn = IngestTxn(payload: ApprovalPayload, newId: Id) | LinkTxn(link: Link, newId: Id, now: int)

  function Attempt(db: Db, t: Txn): Result<Db, ErrorCode> {
    match t
    case IngestTxn(p, newId) => IngestApproval(db, p, newId)
    case LinkTxn(l, newId, now) => LinkApproval(db, l, newId, now)
  }

  function Commit(db: Db, t: Txn): Db {
    var r := Attempt(db, t);
    if r.Ok? then r.value else db
  }

  // ---------- The poll loop ----------

  function RowsOf(rows: seq<ApprovalRow>, action: Id): (own: seq<ApprovalRow>)
    ensures forall r :: r in own <==> r in rows && r.actionId == action
  {
    if rows == [] then []
    else
      var before := RowsOf(rows[..|rows| - 1], action);
      var last := rows[|rows| - 1];
      if last.actionId == action then before + [last] else before
  }

  /** Of the rows with the greatest timestamp, the last committed. */
  function LastNewest(rows: seq<ApprovalRow>): (r: Option<ApprovalRow>)
    ensures r.None? <==> rows == []
    ensures r.Some? ==> r.value in rows && forall x :: x in rows ==> x.timestamp <= r.value.timestamp
  {
    if rows == [] then None
    else
      var before := LastNewest(rows[..|rows| - 1]);
      var last := rows[|rows| - 1];
      assert rows == rows[..|rows| - 1] + [last];
      if before.None? || before.value.timestamp <= last.timestamp then Some(last) else before
  }

  predicate HasGreatestStamp(rows: seq<ApprovalRow>, i: nat) {
    i < |rows| && forall k :: 0 <= k < |rows| ==> rows[k].timestamp <= rows[i].timestamp
  }

  /** `ORDER BY timestamp DESC LIMIT 1`. Which of several rows with one timestamp comes first is up to the database: `pick` says. */
  function NewestOf(rows: seq<ApprovalRow>, pick: nat): (r: Option<ApprovalRow>)
    ensures r.None? <==> rows == []
    ensures r.Some? ==> r.value in rows && forall x :: x in rows ==> x.timestamp <= r.value.timestamp
  {
    if HasGreatestStamp(rows, pick) then Some(rows[pick]) else LastNewest(rows)
  }

  datatype Outcome = Returned(approvalId: Id) | RaisedRejected | RaisedTimeout | RaisedNotFound

  /** `_raise_or_return`: the timeout sentinel is looked at before the decision. */
  function RaiseOrReturn(row: ApprovalRow): Outcome {
    if row.approverType == TimeoutAutoRejected then RaisedTimeout
    else if row.decision == Decline then RaisedRejected
    else Returned(row.approvalId)
  }

  /** Where the poll loop is: polling, refused its timeout row and about to look again, or done. */
  datatype Waiter = Polling | Refused | Done(outcome: Outcome)

  datatype State = State(db: Db, waiter: Waiter)

  datatype Step =
    | Other(txn: Txn)
    | Poll(pick: nat)
    | Expire(newId: Id, now: int)
    | Repoll(pick: nat)

  /** The waiter watches one action, looked up by id and timestamp. */
  datatype Watch = Watch(actionId: Id, actionTimestamp: int)

  function TimeoutLink(w: Watch): Link {
    Link(w.actionId, w.actionTimestamp, TimeoutAutoRejected, Decline, None)
  }

  function PollStep(db: Db, w: Watch, pick: nat): Waiter {
    var newest := NewestOf(RowsOf(db.approvals, w.actionId), pick);
    if newest.Some? && newest.value.decision != Escalate then Done(RaiseOrReturn(newest.value)) else Polling
  }

  function RepollStep(db: Db, w: Watch, pick: nat): Waiter {
    var newest := NewestOf(RowsOf(db.approvals, w.actionId), pick);
    Done(if newest.Some? then RaiseOrReturn(newest.value) else RaisedTimeout)
  }

  /** One atomic step. A step of the waiter that its state does not allow changes nothing. */
  function Next(s: State, w: Watch, step: Step): State {
    match step
    case Other(t) => s.(db := Commit(s.db, t))
    case Poll(pick) => if s.waiter.Polling? then s.(waiter := PollStep(s.db, w, pick)) else s
    case Expire(newId, now) =>
      if !s.waiter.Polling? then s
      else
        var r := LinkApproval(s.db, TimeoutLink(w), newId, now);
        if r.Ok? then State(r.value, Done(RaisedTimeout))
        else if r.error == ActionAlreadyResolved then s.(waiter := Refused)
        else s.(waiter := Done(RaisedNotFound))
    case Repoll(pick) => if s.waiter.Refused? then s.(waiter := RepollStep(s.db, w, pick)) else s
  }

  function RunSteps(s: State, w: Watch, steps: seq<Step>): State {
    if steps == [] then s else Next(RunSteps(s, w, steps[..|steps| - 1]), w, steps[|steps| - 1])
  }

  // ---------- What every write keeps ----------

  /** No transaction changes a terminal status. */
  lemma TerminalStays(db: Db, t: Txn, action: Id)
    requires action in db.actions && Terminal(db.actions[action].status)
    ensures action in Commit(db, t).actions && Commit(db, t).actions[action] == db.actions[action]
    ensures RowsOf(Commit(db, t).approvals, action) == RowsOf(db.approvals, action)
  {
    var after := Commit(db, t);
    if after != db {
      assert after.approvals[..|after.approvals| - 1] == db.approvals;
    }
  }

  lemma {:induction false} TerminalForever(s: State, w: Watch, steps: seq<Step>, action: Id)
    requires action in s.db.actions && Terminal(s.db.actions[action].status)
    ensures action in RunSteps(s, w, steps).db.actions
    ensures RunSteps(s, w, steps).db.actions[action] == s.db.actions[action]
    ensures RowsOf(RunSteps(s, w, steps).db.approvals, action) == RowsOf(s.db.approvals, action)
  {
    if steps != [] {
      TerminalForever(s, w, steps[..|steps| - 1], action);
      var before, last := RunSteps(s, w, steps[..|steps| - 1]), steps[|steps| - 1];
      if last.Other? {
        TerminalStays(before.db, last.txn, action);
      }
      if last.Expire? {
        TerminalStays(before.db, LinkTxn(TimeoutLink(w), last.newId, last.now), action);
      }
    }
  }

  // ---------- The invariant of one pending action ----------

  /** An escalation that leaves the action open. */
  predicate Open(r: ApprovalRow) {
    r.decision == Escalate && r.approverType != TimeoutAutoRejected
  }

  function Resolves(r: ApprovalRow): AuthStatus {
    if r.approverType == TimeoutAutoRejected then TimedOut else StatusFor(r.decision)
  }

  /** Only the last approval of the action can have resolved it, and the status says how. */
  ghost predicate Consistent(rows: seq<ApprovalRow>, status: AuthStatus) {
    && (forall i :: 0 <= i < |rows| - 1 ==> Open(rows[i]))
    && status == (if rows == [] then Pending else Resolves(rows[|rows| - 1]))
  }

  ghost predicate Rising(rows: seq<ApprovalRow>) {
    forall i, j :: 0 <= i < j < |rows| ==> rows[i].timestamp < rows[j].timestamp
  }

  /** `r` names as parent an escalated root approval of its own action. */
  ghost predicate Rooted(rows: seq<ApprovalRow>, r: ApprovalRow) {
    r.parent.Some? ==>
      exists p :: p in rows && p.approvalId == r.parent.value && p.actionId == r.actionId
                  && p.decision == Escalate && p.parent.None?
  }

  ghost predicate AllRooted(rows: seq<ApprovalRow>) {
    && (forall r :: r in rows ==> Rooted(rows, r))
    && (forall r :: r in rows && r.decision == Escalate ==> r.parent.None?)
  }

  ghost predicate Agrees(o: Outcome, status: AuthStatus) {
    match o
    case Returned(_) => status == HumanApproved
    case RaisedRejected => status == HumanRejected
    case RaisedTimeout => status == TimedOut
    case RaisedNotFound => false
  }

  ghost predicate WaiterOk(waiter: Waiter, status: AuthStatus) {
    match waiter
    case Polling => true
    case Refused => Terminal(status)
    case Done(o) => Agrees(o, status)
  }

  ghost predicate Inv(s: State, w: Watch) {
    && w.actionId in s.db.actions && s.db.actions[w.actionId].timestamp == w.actionTimestamp
    && Consistent(RowsOf(s.db.approvals, w.actionId), s.db.actions[w.actionId].status)
    && Rising(RowsOf(s.db.approvals, w.actionId))
    && AllRooted(s.db.approvals)
    && WaiterOk(s.waiter, s.db.actions[w.actionId].status)
  }

  /**
   What the code relies on from outside: approvals of the watched action are
   stamped later than those committed before, the timeout type is only written by
   `create_with_chain_link`, and only ingest sets parents.
   */
  ghost predicate Legal(s: State, w: Watch, step: Step) {
    match step
    case Other(IngestTxn(p, _)) =>
      p.approverType != TimeoutAutoRejected && (p.actionId == w.actionId ==> Later(s.db, w, p.timestamp))
    case Other(LinkTxn(l, _, now)) =>
      l.parent.None? && (l.actionId == w.actionId ==> Later(s.db, w, now))
    case Expire(_, now) => Later(s.db, w, now)
    case _ => true
  }

  ghost predicate Later(db: Db, w: Watch, t: int) {
    forall r :: r in RowsOf(db.approvals, w.actionId) ==> r.timestamp < t
  }

  ghost predicate LegalRun(s: State, w: Watch, steps: seq<Step>) {
    steps != [] ==>
      && LegalRun(s, w, steps[..|steps| - 1])
      && Legal(RunSteps(s, w, steps[..|steps| - 1]), w, steps[|steps| - 1])
  }

  lemma InsertRows(db: Db, row: ApprovalRow, status: AuthStatus, action: Id)
    requires row.actionId in db.actions
    ensures RowsOf(Insert(db, row, status).approvals, action) ==
            RowsOf(db.approvals, action) + (if row.actionId == action then [row] else [])
  {
    var after := Insert(db, row, status);
    assert after.approvals[..|after.approvals| - 1] == db.approvals;
  }

  lemma InsertRooted(db: Db, row: ApprovalRow, status: AuthStatus)
    requires row.actionId in db.actions && AllRooted(db.approvals)
    requires row.decision == Escalate ==> row.parent.None?
    requires Rooted(db.approvals, row)
    ensures AllRooted(Insert(db, row, status).approvals)
  {
    var rows, longer := db.approvals, db.approvals + [row];
    forall r | r in longer ensures Rooted(longer, r) {
      assert Rooted(rows, r);
      if r.parent.Some? {
        var p :| p in rows && p.approvalId == r.parent.value && p.actionId == r.actionId
                 && p.decision == Escalate && p.parent.None?;
        assert p in longer;
      }
    }
  }

  /** One more row on an open action resolves it or leaves it open, as the row says. */
  lemma OneMoreConsistent(rows: seq<ApprovalRow>, status: AuthStatus, row: ApprovalRow)
    requires Consistent(rows, status) && !Terminal(status)
    ensures Consistent(rows + [row], Resolves(row))
  {
    assert rows != [] ==> Open(rows[|rows| - 1]);
  }

  lemma OneMoreRising(rows: seq<ApprovalRow>, row: ApprovalRow)
    requires Rising(rows) && forall r :: r in rows ==> r.timestamp < row.timestamp
    ensures Rising(rows + [row])
  {
    assert forall i :: 0 <= i < |rows| ==> rows[i] in rows;
  }

  /** Inserting a later row into the open action keeps the invariant of its rows. */
  lemma InsertKeeps(db: Db, w: Watch, row: ApprovalRow)
    requires w.actionId in db.actions && row.actionId == w.actionId
    requires !Terminal(db.actions[w.actionId].status)
    requires Consistent(RowsOf(db.approvals, w.actionId), db.actions[w.actionId].status)
    requires Rising(RowsOf(db.approvals, w.actionId)) && Later(db, w, row.timestamp)
    ensures var after := Insert(db, row, Resolves(row));
            && Consistent(RowsOf(after.approvals, w.actionId), after.actions[w.actionId].status)
            && Rising(RowsOf(after.approvals, w.actionId))
  {
    InsertRows(db, row, Resolves(row), w.actionId);
    OneMoreConsistent(RowsOf(db.approvals, w.actionId), db.actions[w.actionId].status, row);
    OneMoreRising(RowsOf(db.approvals, w.actionId), row);
  }

  /** A transaction that goes through inserts one row on an unresolved action, and the row says the status. */
  lemma CommitInserts(db: Db, w: Watch, waiter: Waiter, t: Txn) returns (row: ApprovalRow)
    requires Attempt(db, t).Ok? && AllRooted(db.approvals) && Legal(State(db, waiter), w, Other(t))
    ensures row.actionId in db.actions && !Terminal(db.actions[row.actionId].status)
    ensures Attempt(db, t).value == Insert(db, row, Resolves(row))
    ensures Rooted(db.approvals, row) && (row.decision == Escalate ==> row.parent.None?)
    ensures row.actionId == w.actionId ==> Later(db, w, row.timestamp)
  {
    match t {
      case IngestTxn(p, newId) =>
        row := ApprovalRow(newId, p.actionId, p.approverType, p.decision, p.parent, p.timestamp);
        if p.parent.Some? {
          var parent := FindApproval(db.approvals, p.parent.value).value;
          assert parent in db.approvals && parent.parent.None?;
        }
      case LinkTxn(l, newId, now) =>
        row := ApprovalRow(newId, l.actionId, l.approverType, l.decision, l.parent, now);
    }
  }

  lemma InsertKeepsAll(s: State, w: Watch, row: ApprovalRow)
    requires Inv(s, w) && row.actionId in s.db.actions && !Terminal(s.db.actions[row.actionId].status)
    requires Rooted(s.db.approvals, row) && (row.decision == Escalate ==> row.parent.None?)
    requires row.actionId == w.actionId ==> Later(s.db, w, row.timestamp)
    ensures Inv(s.(db := Insert(s.db, row, Resolves(row))), w)
  {
    InsertRooted(s.db, row, Resolves(row));
    InsertRows(s.db, row, Resolves(row), w.actionId);
    if row.actionId == w.actionId {
      InsertKeeps(s.db, w, row);
    }
  }

  lemma CommitKeeps(s: State, w: Watch, t: Txn)
    requires Inv(s, w) && Legal(s, w, Other(t))
    ensures Inv(s.(db := Commit(s.db, t)), w)
  {
    if Attempt(s.db, t).Ok? {
      var row := CommitInserts(s.db, w, s.waiter, t);
      InsertKeepsAll(s, w, row);
    }
  }

  /** With rising timestamps, the newest approval is the last one committed. */
  lemma NewestIsLast(rows: seq<ApprovalRow>, pick: nat)
    requires Rising(rows) && rows != []
    ensures NewestOf(rows, pick) == Some(rows[|rows| - 1])
  {
    var newest := NewestOf(rows, pick).value;
    var i :| 0 <= i < |rows| && rows[i] == newest;
    assert rows[|rows| - 1] in rows;
  }

  lemma LookAgrees(s: State, w: Watch, pick: nat)
    requires Inv(s, w) && RowsOf(s.db.approvals, w.actionId) != []
    ensures var newest := NewestOf(RowsOf(s.db.approvals, w.actionId), pick);
            && newest.Some? && Resolves(newest.value) == s.db.actions[w.actionId].status
            && (newest.value.decision != Escalate || Terminal(s.db.actions[w.actionId].status) ==>
                  Agrees(RaiseOrReturn(newest.value), s.db.actions[w.actionId].status))
  {
    NewestIsLast(RowsOf(s.db.approvals, w.actionId), pick);
  }

  lemma PollKeeps(s: State, w: Watch, pick: nat)
    requires Inv(s, w)
    ensures Inv(Next(s, w, Poll(pick)), w)
  {
    if RowsOf(s.db.approvals, w.actionId) != [] {
      LookAgrees(s, w, pick);
    }
  }

  lemma RepollKeeps(s: State, w: Watch, pick: nat)
    requires Inv(s, w)
    ensures Inv(Next(s, w, Repoll(pick)), w)
  {
    if RowsOf(s.db.approvals, w.actionId) != [] {
      LookAgrees(s, w, pick);
    }
  }

  lemma ExpireKeeps(s: State, w: Watch, newId: Id, now: int)
    requires Inv(s, w) && Legal(s, w, Expire(newId, now))
    ensures Inv(Next(s, w, Expire(newId, now)), w)
  {
    if s.waiter.Polling? {
      CommitKeeps(s, w, LinkTxn(TimeoutLink(w), newId, now));
    }
  }

  lemma WaiterKeeps(s: State, w: Watch, step: Step)
    requires Inv(s, w) && Legal(s, w, step) && !step.Other?
    ensures Inv(Next(s, w, step), w)
  {
    match step {
      case Poll(pick) => PollKeeps(s, w, pick);
      case Repoll(pick) => RepollKeeps(s, w, pick);
      case Expire(newId, now) => ExpireKeeps(s, w, newId, now);
    }
  }

  /** Every interleaving of poll loop, CLI and ingest keeps the invariant. */
  lemma {:induction false} InterleavingKeeps(s: State, w: Watch, steps: seq<Step>)
    requires Inv(s, w) && LegalRun(s, w, steps)
    ensures Inv(RunSteps(s, w, steps), w)
  {
    if steps != [] {
      InterleavingKeeps(s, w, steps[..|steps| - 1]);
      var before, last := RunSteps(s, w, steps[..|steps| - 1]), steps[|steps| - 1];
      if last.Other? {
        CommitKeeps(before, w, last.txn);
      } else {
        WaiterKeeps(before, w, last);
      }
    }
  }

  /** An action just submitted for approval, with no approvals yet. */
  ghost predicate Submitted(s: State, w: Watch) {
    && w.actionId in s.db.actions && s.db.actions[w.actionId] == ActionRow(w.actionTimestamp, Pending)
    && RowsOf(s.db.approvals, w.actionId) == [] && AllRooted(s.db.approvals) && s.waiter == Polling
  }

  ghost predicate OnlyLastResolves(rows: seq<ApprovalRow>) {
    forall i :: 0 <= i < |rows| - 1 ==> rows[i].decision == Escalate
  }

  /**
   From submission, in every interleaving: at most one approval of the action is
   not an escalation, it is the last one, and parents are escalated roots on the
   same action. When the waiter is done, it returned, raised rejection or raised
   timeout exactly as the status says.
   */
  lemma HitlSafety(s: State, w: Watch, steps: seq<Step>)
    requires Submitted(s, w) && LegalRun(s, w, steps)
    ensures var end := RunSteps(s, w, steps);
            && w.actionId in end.db.actions
            && OnlyLastResolves(RowsOf(end.db.approvals, w.actionId))
            && AllRooted(end.db.approvals)
            && (end.waiter.Done? ==>
                  var status := end.db.actions[w.actionId].status;
                  && (end.waiter.outcome.Returned? <==> status == HumanApproved)
                  && (end.waiter.outcome.RaisedRejected? <==> status == HumanRejected)
                  && (end.waiter.outcome.RaisedTimeout? <==> status == TimedOut))
  {
    InterleavingKeeps(s, w, steps);
    var rows := RowsOf(RunSteps(s, w, steps).db.approvals, w.actionId);
    assert forall i :: 0 <= i < |rows| - 1 ==> Open(rows[i]);
  }

  /** Once the action is resolved, a waiter whose deadline passes finishes within two of its own steps. */
  lemma ResolvedIsReported(s: State, w: Watch, newId: Id, now: int, pick: nat)
    requires Inv(s, w) && Terminal(s.db.actions[w.actionId].status) && !s.waiter.Done?
    ensures var end := Next(Next(s, w, Expire(newId, now)), w, Repoll(pick));
            end.waiter.Done? && end.db == s.db && Agrees(end.waiter.outcome, s.db.actions[w.actionId].status)
  {
    var rows := RowsOf(s.db.approvals, w.actionId);
    NewestIsLast(rows, pick);
  }

  // ---------- Without the clock ----------

  /** The one assumption left: ingest does not write the timeout type. */
  ghost predicate NoForgedTimeout(steps: seq<Step>) {
    forall i :: 0 <= i < |steps| ==> HonestType(steps[i])
  }

  predicate HonestType(step: Step) {
    step.Other? && step.txn.IngestTxn? ==> step.txn.payload.approverType != TimeoutAutoRejected
  }

  /** What is left of the invariant when timestamps and parents are arbitrary. */
  ghost predicate Unclocked(s: State, w: Watch) {
    && w.actionId in s.db.actions && s.db.actions[w.actionId].timestamp == w.actionTimestamp
    && Consistent(RowsOf(s.db.approvals, w.actionId), s.db.actions[w.actionId].status)
    && (s.waiter.Refused? ==> Terminal(s.db.actions[w.actionId].status))
  }

  /** A transaction that goes through inserts one row on an unresolved action, and the row says the status. */
  lemma CommitResolves(db: Db, t: Txn) returns (row: ApprovalRow)
    requires Attempt(db, t).Ok? && HonestType(Other(t))
    ensures row.actionId in db.actions && !Terminal(db.actions[row.actionId].status)
    ensures Attempt(db, t).value == Insert(db, row, Resolves(row))
  {
    row := match t
      case IngestTxn(p, newId) => ApprovalRow(newId, p.actionId, p.approverType, p.decision, p.parent, p.timestamp)
      case LinkTxn(l, newId, now) => ApprovalRow(newId, l.actionId, l.approverType, l.decision, l.parent, now);
  }

  lemma InsertUnclocked(s: State, w: Watch, row: ApprovalRow)
    requires Unclocked(s, w) && row.actionId in s.db.actions && !Terminal(s.db.actions[row.actionId].status)
    ensures Unclocked(s.(db := Insert(s.db, row, Resolves(row))), w)
  {
    InsertRows(s.db, row, Resolves(row), w.actionId);
    if row.actionId == w.actionId {
      OneMoreConsistent(RowsOf(s.db.approvals, w.actionId), s.db.actions[w.actionId].status, row);
    }
  }

  lemma CommitUnclocked(s: State, w: Watch, t: Txn)
    requires Unclocked(s, w) && HonestType(Other(t))
    ensures Unclocked(s.(db := Commit(s.db, t)), w)
  {
    if Attempt(s.db, t).Ok? {
      var row := CommitResolves(s.db, t);
      InsertUnclocked(s, w, row);
    }
  }

  lemma StepUnclocked(s: State, w: Watch, step: Step)
    requires Unclocked(s, w) && HonestType(step)
    ensures Unclocked(Next(s, w, step), w)
  {
    match step {
      case Other(t) => CommitUnclocked(s, w, t);
      case Expire(newId, now) => CommitUnclocked(s, w, LinkTxn(TimeoutLink(w), newId, now));
      case Poll(_) =>
      case Repoll(_) =>
    }
  }

  lemma {:induction false} RunsUnclocked(s: State, w: Watch, steps: seq<Step>)
    requires Unclocked(s, w) && NoForgedTimeout(steps)
    ensures Unclocked(RunSteps(s, w, steps), w)
  {
    if steps != [] {
      RunsUnclocked(s, w, steps[..|steps| - 1]);
      assert HonestType(steps[|steps| - 1]);
      StepUnclocked(RunSteps(s, w, steps[..|steps| - 1]), w, steps[|steps| - 1]);
    }
  }

  /** A poll that ends the wait, and the timeout write, are right whatever the timestamps are. */
  lemma PollIsRight(s: State, w: Watch, pick: nat, newId: Id, now: int)
    requires Unclocked(s, w) && s.waiter.Polling?
    ensures var polled := Next(s, w, Poll(pick));
            polled.waiter.Done? ==> Agrees(polled.waiter.outcome, s.db.actions[w.actionId].status)
    ensures var expired := Next(s, w, Expire(newId, now));
            && w.actionId in expired.db.actions
            && (expired.waiter.Done? ==> Agrees(expired.waiter.outcome, expired.db.actions[w.actionId].status))
            && (expired.waiter.Refused? <==> Terminal(s.db.actions[w.actionId].status))
  {
    var rows := RowsOf(s.db.approvals, w.actionId);
    assert forall i :: 0 <= i < |rows| && rows[i].decision != Escalate ==> i == |rows| - 1;
  }

  /** No row committed before the last carries a later timestamp; `strictly` also rules out an equal one. */
  predicate LastIsNewest(rows: seq<ApprovalRow>, strictly: bool)
    requires rows != []
  {
    forall i :: 0 <= i < |rows| - 1 ==>
      rows[i].timestamp < rows[|rows| - 1].timestamp || (!strictly && rows[i].timestamp == rows[|rows| - 1].timestamp)
  }

  /** An escalation reads as an approval, so only the resolving row, or an approval, is reported right. */
  lemma SeenAgrees(rows: seq<ApprovalRow>, status: AuthStatus, seen: ApprovalRow)
    requires Consistent(rows, status) && Terminal(status) && seen in rows
    ensures Agrees(RaiseOrReturn(seen), status) <==> status == HumanApproved || seen == rows[|rows| - 1]
  {
    var i :| 0 <= i < |rows| && rows[i] == seen;
  }

  /** Unless the resolving row is stamped strictly later than every other, some tie-break shows another row. */
  lemma AnotherIsSeen(rows: seq<ApprovalRow>, status: AuthStatus) returns (pick: nat)
    requires Consistent(rows, status) && Terminal(status) && !LastIsNewest(rows, true)
    ensures NewestOf(rows, pick).value != rows[|rows| - 1]
  {
    var i :| 0 <= i < |rows| - 1 && rows[|rows| - 1].timestamp <= rows[i].timestamp;
    assert Open(rows[i]) && rows[i] in rows;
    pick := i;
  }

  ghost predicate SeenRight(rows: seq<ApprovalRow>, status: AuthStatus, pick: nat)
    requires rows != []
  {
    Agrees(RaiseOrReturn(NewestOf(rows, pick).value), status)
  }

  /**
   The look at a resolved action agrees with its status, however the database breaks
   ties, if and only if the action was approved or the row that resolved it has the
   strictly greatest timestamp; under some tie-break it agrees if and only if the action
   was approved or that row has a greatest timestamp.
   */
  lemma LookIsRightIff(rows: seq<ApprovalRow>, status: AuthStatus)
    requires Consistent(rows, status) && Terminal(status)
    ensures rows != []
    ensures (forall pick: nat :: SeenRight(rows, status, pick)) <==> status == HumanApproved || LastIsNewest(rows, true)
    ensures (exists pick: nat :: SeenRight(rows, status, pick)) <==> status == HumanApproved || LastIsNewest(rows, false)
  {
    var last: nat := |rows| - 1;
    forall pick: nat ensures SeenRight(rows, status, pick) <==> status == HumanApproved || NewestOf(rows, pick).value == rows[last] {
      SeenAgrees(rows, status, NewestOf(rows, pick).value);
    }
    if LastIsNewest(rows, false) || status == HumanApproved {
      assert SeenRight(rows, status, last);
    } else {
      forall pick: nat ensures NewestOf(rows, pick).value != rows[last] {
        assert forall i :: 0 <= i < last ==> rows[i] in rows;
      }
    }
    if LastIsNewest(rows, true) {
      forall pick: nat ensures NewestOf(rows, pick).value == rows[last] {
        assert rows[last] in rows;
      }
    } else {
      var pick := AnotherIsSeen(rows, status);
      assert SeenRight(rows, status, pick) ==> status == HumanApproved;
    }
  }

  ghost predicate ExpiredRight(expired: State, w: Watch) {
    && w.actionId in expired.db.actions
    && (expired.waiter.Done? ==> Agrees(expired.waiter.outcome, expired.db.actions[w.actionId].status))
  }

  ghost predicate PolledRight(s: State, w: Watch, pick: nat)
    requires w.actionId in s.db.actions
  {
    var polled := Next(s, w, Poll(pick)).waiter;
    polled.Done? ==> Agrees(polled.outcome, s.db.actions[w.actionId].status)
  }

  /** The last look ends the wait, and with the outcome the action's status calls for. */
  ghost predicate LookedRight(s: State, w: Watch, pick: nat)
    requires w.actionId in s.db.actions
  {
    var looked := Next(s, w, Repoll(pick)).waiter;
    looked.Done? && Agrees(looked.outcome, s.db.actions[w.actionId].status)
  }

  /**
   From submission, in every interleaving and whatever the timestamps, ties and parents,
   as long as ingest does not write the timeout type: one approval at most resolves the
   action, the last; a poll that ends the wait and the timeout write report the status;
   and the look after a refusal reports it, under every tie-break, if and only if the
   action was approved or its resolving approval is stamped later than every other.
   */
  lemma RepollIsRightIff(s: State, w: Watch, steps: seq<Step>)
    requires Submitted(s, w) && NoForgedTimeout(steps)
    ensures var end := RunSteps(s, w, steps);
            && w.actionId in end.db.actions
            && var rows, status := RowsOf(end.db.approvals, w.actionId), end.db.actions[w.actionId].status;
            && OnlyLastResolves(rows)
            && (end.waiter.Polling? ==>
                  && (forall pick: nat :: PolledRight(end, w, pick))
                  && (forall newId: Id, now: int :: ExpiredRight(Next(end, w, Expire(newId, now)), w)))
            && (end.waiter.Refused? ==>
                  && rows != []
                  && ((forall pick: nat :: LookedRight(end, w, pick)) <==> status == HumanApproved || LastIsNewest(rows, true))
                  && ((exists pick: nat :: LookedRight(end, w, pick)) <==> status == HumanApproved || LastIsNewest(rows, false)))
  {
    RunsUnclocked(s, w, steps);
    var end := RunSteps(s, w, steps);
    var rows, status := RowsOf(end.db.approvals, w.actionId), end.db.actions[w.actionId].status;
    assert forall i :: 0 <= i < |rows| - 1 ==> Open(rows[i]);
    if end.waiter.Polling? {
      forall pick: nat ensures PolledRight(end, w, pick) {
        PollIsRight(end, w, pick, 0, 0);
      }
      forall newId: Id, now: int ensures ExpiredRight(Next(end, w, Expire(newId, now)), w) {
        PollIsRight(end, w, 0, newId, now);
      }
    }
    if end.waiter.Refused? {
      LookIsRightIff(rows, status);
      forall pick: nat ensures LookedRight(end, w, pick) <==> SeenRight(rows, status, pick) {
      }
    }
  }

  // ---------- Why the timestamps must rise ----------

  function StampedStart(action: Id, t: int): State {
    State(Db(map[action := ActionRow(t, Pending)], []), Polling)
  }

  function StampedEscalation(action: Id, t: int): Step {
    Other(IngestTxn(ApprovalPayload(action, Human, Escalate, t + 9, None), 1))
  }

  function StampedRejection(action: Id, t: int): Step {
    Other(IngestTxn(ApprovalPayload(action, Human, Decline, t + 1, None), 2))
  }

  /** An escalation stamped late, a rejection, and then the deadline. */
  function StampedSteps(action: Id, t: int): seq<Step> {
    [StampedEscalation(action, t), StampedRejection(action, t), Expire(3, t + 10), Repoll(0)]
  }

  /** Rejected by a human, yet the wait returns as if approved: an escalation carried a later timestamp. */
  lemma StampedEscalationReadsAsApproval(action: Id, t: int) returns (end: State)
    ensures Submitted(StampedStart(action, t), Watch(action, t))
    ensures end == RunSteps(StampedStart(action, t), Watch(action, t), StampedSteps(action, t))
    ensures end.waiter == Done(Returned(1))
    ensures action in end.db.actions && end.db.actions[action].status == HumanRejected
  {
    var s, w := StampedStart(action, t), Watch(action, t);
    var both := StampedWrites(action, t);
    end := StampedReads(action, t, both);
    RunFour(s, w, StampedEscalation(action, t), StampedRejection(action, t), Expire(3, t + 10), Repoll(0));
  }

  function StampedRows(action: Id, t: int): seq<ApprovalRow> {
    [ApprovalRow(1, action, Human, Escalate, None, t + 9), ApprovalRow(2, action, Human, Decline, None, t + 1)]
  }

  lemma StampedWrites(action: Id, t: int) returns (both: State)
    ensures var w := Watch(action, t);
            both == Next(Next(StampedStart(action, t), w, StampedEscalation(action, t)), w, StampedRejection(action, t))
    ensures both == State(Db(map[action := ActionRow(t, HumanRejected)], StampedRows(action, t)), Polling)
  {
    var w := Watch(action, t);
    var first := Next(StampedStart(action, t), w, StampedEscalation(action, t));
    assert first == State(Db(map[action := ActionRow(t, Pending)], [StampedRows(action, t)[0]]), Polling);
    both := Next(first, w, StampedRejection(action, t));
  }

  lemma StampedReads(action: Id, t: int, both: State) returns (end: State)
    requires both == State(Db(map[action := ActionRow(t, HumanRejected)], StampedRows(action, t)), Polling)
    ensures var w := Watch(action, t); end == Next(Next(both, w, Expire(3, t + 10)), w, Repoll(0))
    ensures end.waiter == Done(Returned(1)) && end.db == both.db
  {
    var w, rows := Watch(action, t), StampedRows(action, t);
    var refused := Next(both, w, Expire(3, t + 10));
    assert refused == both.(waiter := Refused);
    LaterStampIsNewest(rows[0], rows[1]);
    end := Next(refused, w, Repoll(0));
  }

  lemma LaterStampIsNewest(r1: ApprovalRow, r2: ApprovalRow)
    requires r1.actionId == r2.actionId && r2.timestamp < r1.timestamp
    ensures NewestOf(RowsOf([r1, r2], r1.actionId), 0) == Some(r1)
  {
    assert [r1][..0] == [] && [r1, r2][..1] == [r1];
    assert RowsOf([r1], r1.actionId) == [r1];
    assert RowsOf([r1, r2], r1.actionId) == [r1, r2];
  }

  lemma RunFour(s: State, w: Watch, a: Step, b: Step, c: Step, d: Step)
    ensures RunSteps(s, w, [a, b, c, d]) == Next(Next(Next(Next(s, w, a), w, b), w, c), w, d)
  {
    assert [a, b, c, d][..3] == [a, b, c] && [a, b, c][..2] == [a, b] && [a, b][..1] == [a] && [a][..0] == [];
    assert RunSteps(s, w, [a]) == Next(s, w, a);
    assert RunSteps(s, w, [a, b]) == Next(Next(s, w, a), w, b);
    assert RunSteps(s, w, [a, b, c]) == Next(Next(Next(s, w, a), w, b), w, c);
  }
}
