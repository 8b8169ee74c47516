/**
 The approvals table and the checkpoint as objects, and the gate in front of the
 tool (rootsign/sdk/decorator.py). Other parties' transactions arrive in the gaps
 the poll loop leaves: before each poll, before the timeout write, after a refusal.
 */
module HitlCheckpoint {
  import opened Common
  import opened Hashing
  import opened Wire
  import opened Hitl

  /** The guards of `create_with_action_status_update`, in their order, under the action's row lock. */
  method CheckApproval(actions: map<Id, ActionRow>, approvals: seq<ApprovalRow>, p: ApprovalPayload, newId: Id)
    returns (error: Option<ErrorCode>)
    ensures var r := IngestApproval(Db(actions, approvals), p, newId);
            if r.Ok? then error == None else error == Some(r.error)
  {
    if p.actionId !in actions {
      return Some(ActionNotFound);
    }
    if Terminal(actions[p.actionId].status) {
      return Some(ActionAlreadyResolved);
    }
    if p.decision == Escalate && p.parent.Some? {
      return Some(ValidationError);
    }
    if p.parent.Some? {
      var parent := FindApproval(approvals, p.parent.value);
      if parent.None? || parent.value.actionId != p.actionId {
        return Some(ApprovalParentNotFound);
      }
      if parent.value.decision != Escalate {
        return Some(ValidationError);
      }
    }
    error := None;
  }

  class ApprovalStore {
    var actions: map<Id, ActionRow>
    var approvals: seq<ApprovalRow>

    constructor ()
      ensures View() == Db(map[], [])
    {
      actions, approvals := map[], [];
    }

    function View(): Db
      reads this
    {
      Db(actions, approvals)
    }

    method CreateWithActionStatusUpdate(p: ApprovalPayload, newId: Id) returns (error: Option<ErrorCode>)
      modifies this
      ensures var r := IngestApproval(old(View()), p, newId);
              if r.Ok? then error == None && View() == r.value else error == Some(r.error) && View() == old(View())
    {
      error := CheckApproval(actions, approvals, p, newId);
      if error.Some? {
        return;
      }
      var action := actions[p.actionId];
      approvals := approvals + [ApprovalRow(newId, p.actionId, p.approverType, p.decision, p.parent, p.timestamp)];
      actions := actions[p.actionId := action.(status := StatusFor(p.decision))];
    }

    method CreateWithChainLink(l: Link, newId: Id, now: int) returns (error: Option<ErrorCode>)
      modifies this
      ensures var r := LinkApproval(old(View()), l, newId, now);
              if r.Ok? then error == None && View() == r.value else error == Some(r.error) && View() == old(View())
    {
      if l.actionId !in actions || actions[l.actionId].timestamp != l.actionTimestamp {
        return Some(ActionNotFound);
      }
      var action := actions[l.actionId];
      if Terminal(action.status) {
        return Some(ActionAlreadyResolved);
      }
      var status := if l.approverType == TimeoutAutoRejected then TimedOut else StatusFor(l.decision);
      approvals := approvals + [ApprovalRow(newId, l.actionId, l.approverType, l.decision, l.parent, now)];
      actions := actions[l.actionId := action.(status := status)];
      error := None;
    }

    method CommitOthers(txns: seq<Txn>, ghost s: State, ghost w: Watch)
      requires s.db == View()
      modifies this
      ensures RunSteps(s, w, OtherSteps(txns)) == s.(db := View())
    {
      for i := 0 to |txns|
        invariant RunSteps(s, w, OtherSteps(txns[..i])) == s.(db := View())
      {
        assert txns[..i + 1][..i] == txns[..i];
        OtherStepsStep(txns[..i + 1]);
        match txns[i] {
          case IngestTxn(p, newId) => var _ := CreateWithActionStatusUpdate(p, newId);
          case LinkTxn(l, newId, now) => var _ := CreateWithChainLink(l, newId, now);
        }
      }
      assert txns[..|txns|] == txns;
    }
  }

  ghost function OtherSteps(txns: seq<Txn>): (steps: seq<Step>)
    ensures |steps| == |txns|
  {
    seq(|txns|, i requires 0 <= i < |txns| => Other(txns[i]))
  }

  lemma OtherStepsStep(txns: seq<Txn>)
    requires txns != []
    ensures OtherSteps(txns) == OtherSteps(txns[..|txns| - 1]) + [Other(txns[|txns| - 1])]
    ensures OtherSteps(txns)[..|txns| - 1] == OtherSteps(txns[..|txns| - 1])
  {
  }

  lemma {:induction false} RunConcat(s: State, w: Watch, a: seq<Step>, b: seq<Step>)
    ensures RunSteps(s, w, a + b) == RunSteps(RunSteps(s, w, a), w, b)
  {
    if b == [] {
      assert a + b == a;
    } else {
      var front := b[..|b| - 1];
      assert (a + b)[..|a + b| - 1] == a + front;
      RunConcat(s, w, a, front);
    }
  }

  /** What others commit before a look at the approvals, and how the database breaks ties in it. */
  datatype Gap = Gap(txns: seq<Txn>, pick: nat)

  /** The steps of the first `n` cycles: what others commit, then a poll. */
  ghost function CycleSteps(cycles: seq<Gap>, n: nat): seq<Step>
    requires n <= |cycles|
  {
    if n == 0 then [] else CycleSteps(cycles, n - 1) + (OtherSteps(cycles[n - 1].txns) + [Poll(cycles[n - 1].pick)])
  }

  lemma ThenOne(s: State, w: Watch, a: seq<Step>, txns: seq<Txn>, last: Step)
    ensures RunSteps(s, w, a + (OtherSteps(txns) + [last])) ==
            Next(RunSteps(RunSteps(s, w, a), w, OtherSteps(txns)), w, last)
  {
    RunConcat(s, w, a, OtherSteps(txns) + [last]);
    RunConcat(RunSteps(s, w, a), w, OtherSteps(txns), [last]);
    assert [last][..0] == [];
  }

  class HiTLCheckpoint {
    const watch: Watch

    constructor (watch: Watch)
      ensures this.watch == watch
    {
      this.watch := watch;
    }

    method PollOnce(store: ApprovalStore, pick: nat) returns (newest: Option<ApprovalRow>)
      ensures newest == NewestOf(RowsOf(store.approvals, watch.actionId), pick)
    {
      newest := NewestOf(RowsOf(store.approvals, watch.actionId), pick);
    }

    /** One turn of the loop: others commit, then the newest approval is looked at. */
    method Cycle(store: ApprovalStore, gap: Gap, ghost start: State, ghost steps: seq<Step>) returns (done: Option<Outcome>)
      requires RunSteps(start, watch, steps) == State(store.View(), Polling)
      modifies store
      ensures RunSteps(start, watch, steps + (OtherSteps(gap.txns) + [Poll(gap.pick)])) ==
              State(store.View(), if done.Some? then Done(done.value) else Polling)
    {
      ghost var before := State(store.View(), Polling);
      store.CommitOthers(gap.txns, before, watch);
      ThenOne(start, watch, steps, gap.txns, Poll(gap.pick));
      var approval := PollOnce(store, gap.pick);
      done := if approval.Some? && approval.value.decision != Escalate then Some(RaiseOrReturn(approval.value)) else None;
    }

    /** The timeout write; without an outcome it was refused. */
    method RecordTimeout(store: ApprovalStore, txns: seq<Txn>, newId: Id, now: int, ghost start: State, ghost steps: seq<Step>)
      returns (done: Option<Outcome>)
      requires RunSteps(start, watch, steps) == State(store.View(), Polling)
      modifies store
      ensures RunSteps(start, watch, steps + (OtherSteps(txns) + [Expire(newId, now)])) ==
              State(store.View(), if done.Some? then Done(done.value) else Refused)
    {
      ghost var before := State(store.View(), Polling);
      store.CommitOthers(txns, before, watch);
      ThenOne(start, watch, steps, txns, Expire(newId, now));
      var error := store.CreateWithChainLink(TimeoutLink(watch), newId, now);
      done := if error.None? then Some(RaisedTimeout)
              else if error.value == ActionAlreadyResolved then None
              else Some(RaisedNotFound);
    }

    method LookAgain(store: ApprovalStore, gap: Gap, ghost start: State, ghost steps: seq<Step>) returns (outcome: Outcome)
      requires RunSteps(start, watch, steps) == State(store.View(), Refused)
      modifies store
      ensures RunSteps(start, watch, steps + (OtherSteps(gap.txns) + [Repoll(gap.pick)])) == State(store.View(), Done(outcome))
    {
      ghost var before := State(store.View(), Refused);
      store.CommitOthers(gap.txns, before, watch);
      ThenOne(start, watch, steps, gap.txns, Repoll(gap.pick));
      var racing := PollOnce(store, gap.pick);
      outcome := if racing.Some? then RaiseOrReturn(racing.value) else RaisedTimeout;
    }

    /**
     Poll once per cycle until the deadline, then write the timeout row; if that is
     refused, look once more. `steps` is the interleaving that happened, `polls` the
     number of cycles in it.
     */
    method WaitForApproval(store: ApprovalStore, cycles: seq<Gap>, atDeadline: seq<Txn>, afterRefusal: Gap,
                           newId: Id, now: int)
      returns (outcome: Outcome, ghost steps: seq<Step>, ghost polls: nat)
      modifies store
      ensures RunSteps(State(old(store.View()), Polling), watch, steps) == State(store.View(), Done(outcome))
      ensures polls <= |cycles|
      ensures steps == CycleSteps(cycles, polls)
              || (polls == |cycles|
                  && (steps == CycleSteps(cycles, polls) + (OtherSteps(atDeadline) + [Expire(newId, now)])
                      || steps == CycleSteps(cycles, polls) + (OtherSteps(atDeadline) + [Expire(newId, now)])
                                                            + (OtherSteps(afterRefusal.txns) + [Repoll(afterRefusal.pick)])))
    {
      ghost var start := State(store.View(), Polling);
      steps, polls := [], 0;
      for i := 0 to |cycles|
        invariant polls == i && steps == CycleSteps(cycles, i)
        invariant RunSteps(start, watch, steps) == State(store.View(), Polling)
      {
        var done := Cycle(store, cycles[i], start, steps);
        steps, polls := steps + (OtherSteps(cycles[i].txns) + [Poll(cycles[i].pick)]), i + 1;
        if done.Some? {
          return done.value, steps, polls;
        }
      }
      var done := RecordTimeout(store, atDeadline, newId, now, start, steps);
      steps := steps + (OtherSteps(atDeadline) + [Expire(newId, now)]);
      if done.Some? {
        return done.value, steps, polls;
      }
      outcome := LookAgain(store, afterRefusal, start, steps);
      steps := steps + (OtherSteps(afterRefusal.txns) + [Repoll(afterRefusal.pick)]);
    }
  }

  /**
   The gate: without a stored pending action nothing waits and nothing runs, and
   the tool runs exactly when the wait returns. Under the checkpoint's assumptions
   that is only after a human approved.
   */
  method EmitHitlAction(store: ApprovalStore, submitted: Option<Watch>, cycles: seq<Gap>, atDeadline: seq<Txn>,
                        afterRefusal: Gap, newId: Id, now: int)
    returns (toolRan: bool, ghost steps: seq<Step>)
    modifies store
    ensures submitted.None? ==> !toolRan && store.View() == old(store.View())
    ensures submitted.Some? ==>
              var start := State(old(store.View()), Polling);
              Submitted(start, submitted.value) && LegalRun(start, submitted.value, steps) ==>
                submitted.value.actionId in store.actions
                && (toolRan <==> store.actions[submitted.value.actionId].status == HumanApproved)
  {
    toolRan, steps := false, [];
    if submitted.None? {
      return;
    }
    ghost var start := State(store.View(), Polling);
    var checkpoint := new HiTLCheckpoint(submitted.value);
    var outcome;
    ghost var polls;
    outcome, steps, polls := checkpoint.WaitForApproval(store, cycles, atDeadline, afterRefusal, newId, now);
    if Submitted(start, submitted.value) && LegalRun(start, submitted.value, steps) {
      HitlSafety(start, submitted.value, steps);
    }
    toolRan := outcome.Returned?;
  }
}
