/**
 What becomes of one envelope handed to the spool, when a whole call raises, and where
 its answers come from: all in the fields of the envelope, the client and what the disk
 and the network did.
 */
module CloudWrites {
  import opened Common
  import opened Hashing
  import opened Wire
  import opened Chains
  import opened Cloud
  import opened CloudCalls
  import CloudSafety

  // ---------- One write ----------

  /** The writer still remembers the event. */
  ghost predicate Remembered(seen: set<Id>, e: Envelope, disk: Disk) {
    e.eventId in seen && e.eventId !in disk.evicted
  }

  /** An action carries its seal whole, or no part of it. */
  ghost predicate SealWhole(e: Envelope) {
    e.body.ActionRecord? ==>
      var p := e.body.action;
      if p.selfHash.Some? then p.actionId.Some? && p.number.Some?
      else p.actionId.None? && p.number.None? && p.prevHash.None?
  }

  /** The write reaches the disk, and the disk does not take it. */
  ghost predicate Refused(seen: set<Id>, e: Envelope, disk: Disk) {
    !Remembered(seen, e, disk) && SealWhole(e) && !disk.writable
  }

  /** One loss more in the ledger of the envelope's session, and no other ledger touched. */
  ghost predicate LossEntered(before: map<Id, Ledger>, after: map<Id, Ledger>, e: Envelope, reason: string) {
    var number := if e.body.ActionRecord? then e.body.action.number else None;
    && after.Keys == before.Keys + {e.sessionId}
    && (forall s :: s in before && s != e.sessionId ==> after[s] == before[s])
    && var was, now := (if e.sessionId in before then before[e.sessionId] else NO_LOSS), after[e.sessionId];
       && now.count == was.count + 1 && now.reasons == was.reasons + multiset{reason}
       && now.first == (if was.first.Some? then was.first else number)
       && now.last == (if number.Some? then number else was.last)
  }

  /**
   A write the disk refuses. An approval, or an action that waits for one, raises, and
   leaves ledgers and files as they were; of anything else one loss is entered, and it
   is answered as dropped, or raises if losses are to fail. The event is not remembered.
   */
  lemma RefusedWrite(c: Client, cfg: Config, e: Envelope, disk: Disk) returns (one: Written)
    requires Refused(c.seen, e, disk)
    ensures one == WriteOne(c, cfg, e, disk) && one.client.seen == c.seen - disk.evicted
    ensures one.outcome == Err(HitlPersistence) && one.client.ledgers == c.ledgers && one.client.files == c.files <==>
              e.body.ApprovalRecord? || (e.body.ActionRecord? && e.body.action.auth == Some(Pending))
    ensures !(e.body.ApprovalRecord? || (e.body.ActionRecord? && e.body.action.auth == Some(Pending))) ==>
              && LossEntered(c.ledgers, one.client.ledgers, e, disk.reason)
              && one.outcome == if cfg.failOnLoss then Err(RecordPersistence)
                                else Ok(Reject(e.eventId, InternalError, "record dropped", false))
  {
    one := WriteOne(c, cfg, e, disk);
    assert SpoolEnvelope(c, e, disk).answer == DiskError;
  }

  /** Any write: what it raises, and when. */
  lemma WriteRaises(c: Client, cfg: Config, e: Envelope, disk: Disk)
    ensures WriteOne(c, cfg, e, disk).outcome == Err(HitlPersistence) <==>
              && Refused(c.seen, e, disk)
              && (e.body.ApprovalRecord? || (e.body.ActionRecord? && e.body.action.auth == Some(Pending)))
    ensures WriteOne(c, cfg, e, disk).outcome == Err(RecordPersistence) <==>
              && Refused(c.seen, e, disk) && cfg.failOnLoss
              && !(e.body.ApprovalRecord? || (e.body.ActionRecord? && e.body.action.auth == Some(Pending)))
    ensures (WriteOne(c, cfg, e, disk).outcome.Err? && WriteOne(c, cfg, e, disk).outcome.error.BadSeal?) <==>
              !Remembered(c.seen, e, disk) && !SealWhole(e)
  {
    var answer := SpoolEnvelope(c, e, disk).answer;
    assert answer.SealFault? <==> !Remembered(c.seen, e, disk) && !SealWhole(e);
    assert answer == DiskError <==> Refused(c.seen, e, disk);
    if Refused(c.seen, e, disk) {
      var one := RefusedWrite(c, cfg, e, disk);
    }
  }

  /** An event the writer remembers is answered as a duplicate; no line of it is written and no chain moves. */
  lemma KnownWrite(c: Client, cfg: Config, e: Envelope, disk: Disk) returns (one: Written)
    requires Remembered(c.seen, e, disk)
    ensures one == WriteOne(c, cfg, e, disk)
    ensures one.outcome.Ok? && one.outcome.value.status == Rejected && one.outcome.value.code == Some(DuplicateEvent)
    ensures one.outcome.value.eventId == e.eventId && one.outcome.value.retryable == Some(false)
    ensures one.client.chains == c.chains && one.client.ledgers == c.ledgers
    ensures !e.body.SessionClose? ==> one.client.files == c.files
  {
    one := WriteOne(c, cfg, e, disk);
  }

  /** The file of `session` got these lines at its end, and no other file changed. */
  ghost predicate Appended(before: map<Id, seq<Entry>>, after: map<Id, seq<Entry>>, session: Id, lines: seq<Entry>) {
    && after.Keys == before.Keys + {session}
    && (forall s :: s in before && s != session ==> after[s] == before[s])
    && after[session] == (if session in before then before[session] else []) + lines
  }

  /** The line of a sealed action: its payload's fields under its seal. */
  ghost predicate LineOfAction(row: Row, e: Envelope)
    requires e.body.ActionRecord?
  {
    var p := e.body.action;
    && row.sessionId == e.sessionId && row.toolName == p.toolName && row.timestamp == p.timestamp
    && row.inputHash == p.inputHash && row.outputHash == p.outputHash
    && row.inputRedacted == p.inputRedacted && row.outputRedacted == p.outputRedacted
    && row.auth == (if p.auth.Some? then p.auth.value else AutoAuthorized)
    && Some(row.actionId) == p.actionId && Some(row.number) == p.number
    && Some(row.selfHash) == p.selfHash && row.prevHash == p.prevHash
  }

  /** The tally of a session's losses, left in its file when it closes. */
  ghost function Tally(c: Client, e: Envelope, disk: Disk): seq<Entry> {
    if e.body.SessionClose? && disk.annotatable && e.sessionId in c.ledgers && c.ledgers[e.sessionId].count != 0
    then [LossEntry(c.ledgers[e.sessionId])] else []
  }

  /**
   A write the disk takes: one line at the end of the session's file, the seal's row for
   an action, and after a closing the tally of losses if there are any; accepted, and
   remembered from then on.
   */
  lemma TakenWrite(c: Client, cfg: Config, e: Envelope, disk: Disk) returns (one: Written, line: Entry)
    requires !Remembered(c.seen, e, disk) && SealWhole(e) && disk.writable
    requires e.body.ActionRecord? ==> e.body.action.selfHash.Some?
    ensures one == WriteOne(c, cfg, e, disk)
    ensures one.outcome.Ok? && one.outcome.value.status == Accepted && one.outcome.value.eventId == e.eventId
    ensures Appended(c.files, one.client.files, e.sessionId, [line] + Tally(c, e, disk))
    ensures !line.LossEntry? && line.eventId == e.eventId && (line.ActionEntry? <==> e.body.ActionRecord?)
    ensures line.ActionEntry? ==>
              && LineOfAction(line.row, e)
              && one.outcome.value.entityId == e.body.action.actionId && one.outcome.value.number == e.body.action.number
              && one.outcome.value.selfHash == e.body.action.selfHash
    ensures !e.body.ActionRecord? ==>
              && one.outcome.value.entityId == (if e.body.DecisionRecord? || e.body.ApprovalRecord? then Some(c.minted) else None)
              && one.outcome.value.number == None && one.outcome.value.selfHash == None
    ensures e.body.DecisionRecord? || e.body.ApprovalRecord? ==> one.client.minted == c.minted + 1
    ensures one.client.ledgers == c.ledgers && one.client.seen == c.seen - disk.evicted + {e.eventId}
  {
    one := WriteOne(c, cfg, e, disk);
    var s := SpoolEnvelope(c, e, disk);
    var lines := FileFor(s.client.files, e.sessionId);
    line := lines[|lines| - 1];
    var before := FileFor(c.files, e.sessionId);
    assert before + [line] + Tally(c, e, disk) == before + ([line] + Tally(c, e, disk));
    assert before + [line] + [] == before + [line];
  }

  /** A dropped closing record leaves the tally too, with its own loss in it. */
  lemma DroppedClose(c: Client, cfg: Config, e: Envelope, disk: Disk) returns (one: Written)
    requires Refused(c.seen, e, disk) && e.body.SessionClose? && disk.annotatable && !cfg.failOnLoss
    ensures one == WriteOne(c, cfg, e, disk)
    ensures e.sessionId in one.client.ledgers
    ensures Appended(c.files, one.client.files, e.sessionId, [LossEntry(one.client.ledgers[e.sessionId])])
  {
    one := RefusedWrite(c, cfg, e, disk);
  }

  // ---------- When a call raises ----------

  /** Write `j` of the spooled part is reached, and meets this client. */
  ghost predicate Reaches(c: Client, cfg: Config, spooled: seq<Envelope>, disk: seq<Disk>, j: nat, met: Client) {
    j < |spooled| && WriteUpTo(c, cfg, spooled, disk, j).failure.None? && met == WriteUpTo(c, cfg, spooled, disk, j).client
  }

  ghost predicate RaisesAt(c: Client, cfg: Config, spooled: seq<Envelope>, disk: seq<Disk>, j: nat, failure: Failure) {
    && j < |spooled| && WriteUpTo(c, cfg, spooled, disk, j).failure.None?
    && WriteOne(WriteUpTo(c, cfg, spooled, disk, j).client, cfg, spooled[j], DiskAt(disk, j)).outcome == Err(failure)
  }

  /** The first write that raises ends the writing, with its failure and its client. */
  lemma {:induction false} WritingRaises(c: Client, cfg: Config, spooled: seq<Envelope>, disk: seq<Disk>, n: nat) returns (j: nat)
    requires n <= |spooled| && WriteUpTo(c, cfg, spooled, disk, n).failure.Some?
    ensures j < n && RaisesAt(c, cfg, spooled, disk, j, WriteUpTo(c, cfg, spooled, disk, n).failure.value)
  {
    if WriteUpTo(c, cfg, spooled, disk, n - 1).failure.Some? {
      j := WritingRaises(c, cfg, spooled, disk, n - 1);
    } else {
      j := n - 1;
    }
  }

  lemma RaisingEnds(c: Client, cfg: Config, spooled: seq<Envelope>, disk: seq<Disk>, j: nat, failure: Failure)
    requires RaisesAt(c, cfg, spooled, disk, j, failure)
    ensures var w, before := WriteUpTo(c, cfg, spooled, disk, |spooled|), WriteUpTo(c, cfg, spooled, disk, j).client;
            w.failure == Some(failure) && w.client == WriteOne(before, cfg, spooled[j], DiskAt(disk, j)).client
  {
    var before := WriteUpTo(c, cfg, spooled, disk, j);
    assert WriteUpTo(c, cfg, spooled, disk, j + 1) == WriteNext(before, cfg, spooled[j], DiskAt(disk, j));
    WriteStaysFailed(c, cfg, spooled, disk, j + 1, |spooled|);
  }

  /** The disk refuses a control record at some write of the call. */
  ghost predicate ControlRefusedAt(c: Client, cfg: Config, spooled: seq<Envelope>, disk: seq<Disk>, j: nat, met: Client) {
    && Reaches(c, cfg, spooled, disk, j, met) && Refused(met.seen, spooled[j], DiskAt(disk, j))
    && (spooled[j].body.ApprovalRecord? || (spooled[j].body.ActionRecord? && spooled[j].body.action.auth == Some(Pending)))
  }

  /** The disk refuses anything else. */
  ghost predicate RecordRefusedAt(c: Client, cfg: Config, spooled: seq<Envelope>, disk: seq<Disk>, j: nat, met: Client) {
    && Reaches(c, cfg, spooled, disk, j, met) && Refused(met.seen, spooled[j], DiskAt(disk, j))
    && !(spooled[j].body.ApprovalRecord? || (spooled[j].body.ActionRecord? && spooled[j].body.action.auth == Some(Pending)))
  }

  lemma WritingRaisesIff(c: Client, cfg: Config, spooled: seq<Envelope>, disk: seq<Disk>)
    ensures WriteUpTo(c, cfg, spooled, disk, |spooled|).failure == Some(HitlPersistence) <==>
              exists j: nat, met :: ControlRefusedAt(c, cfg, spooled, disk, j, met)
    ensures WriteUpTo(c, cfg, spooled, disk, |spooled|).failure == Some(RecordPersistence) <==>
              cfg.failOnLoss && exists j: nat, met :: RecordRefusedAt(c, cfg, spooled, disk, j, met)
  {
    var w := WriteUpTo(c, cfg, spooled, disk, |spooled|);
    if w.failure.Some? {
      var j := WritingRaises(c, cfg, spooled, disk, |spooled|);
      var met := WriteUpTo(c, cfg, spooled, disk, j).client;
      WriteRaises(met, cfg, spooled[j], DiskAt(disk, j));
      assert w.failure == Some(HitlPersistence) ==> ControlRefusedAt(c, cfg, spooled, disk, j, met);
      assert w.failure == Some(RecordPersistence) ==> RecordRefusedAt(c, cfg, spooled, disk, j, met);
    }
    if j: nat, met :| ControlRefusedAt(c, cfg, spooled, disk, j, met) {
      WriteRaises(met, cfg, spooled[j], DiskAt(disk, j));
      RaisingEnds(c, cfg, spooled, disk, j, HitlPersistence);
    }
    if j: nat, met :| cfg.failOnLoss && RecordRefusedAt(c, cfg, spooled, disk, j, met) {
      WriteRaises(met, cfg, spooled[j], DiskAt(disk, j));
      RaisingEnds(c, cfg, spooled, disk, j, RecordPersistence);
    }
  }

  /**
   For every client, configuration and batch that seals: the call ends in the persistence
   error of a gated action if and only if some write it reaches is refused by the disk for
   an approval or an action waiting for one, and in the error of a lost record if and only
   if losses are to fail and some write it reaches is refused for anything else.
   */
  lemma CallRaisesIff(c: Client, cfg: Config, envelopes: seq<Envelope>, wire: seq<HttpOutcome>, disk: seq<Disk>)
    requires SealUpTo(c, envelopes, |envelopes|).error.None?
    ensures var b := SealUpTo(c, envelopes, |envelopes|);
            var from, spooled := PlanBatch(b, cfg, wire).client, SpooledPart(b, cfg, wire);
            var result := HandleBatch(c, cfg, envelopes, wire, disk).result;
            && (result == Err(HitlPersistence) <==> exists j: nat, met :: ControlRefusedAt(from, cfg, spooled, disk, j, met))
            && (result == Err(RecordPersistence) <==>
                  cfg.failOnLoss && exists j: nat, met :: RecordRefusedAt(from, cfg, spooled, disk, j, met))
  {
    var b := SealUpTo(c, envelopes, |envelopes|);
    WritingRaisesIff(PlanBatch(b, cfg, wire).client, cfg, SpooledPart(b, cfg, wire), disk);
  }

  /**
   A spooled envelope whose write is reached and meets an unwritable disk, whose event is
   unseen, and whose seal is whole or absent: the call ends in the persistence error with
   ledgers and files as that write found them, if and only if the envelope is an approval
   or an action waiting for one. Otherwise that write enters one loss.
   */
  lemma ControlIff(c: Client, cfg: Config, envelopes: seq<Envelope>, wire: seq<HttpOutcome>, disk: seq<Disk>, j: nat)
    returns (before: Writing, after: Writing)
    requires SealUpTo(c, envelopes, |envelopes|).error.None?
    requires var spooled := SpooledPart(SealUpTo(c, envelopes, |envelopes|), cfg, wire);
             && j < |spooled| && !DiskAt(disk, j).writable && SealWhole(spooled[j])
             && spooled[j].eventId !in c.seen && forall k :: 0 <= k < j ==> spooled[k].eventId != spooled[j].eventId
    requires var b := SealUpTo(c, envelopes, |envelopes|);
             WriteUpTo(PlanBatch(b, cfg, wire).client, cfg, SpooledPart(b, cfg, wire), disk, j).failure.None?
    ensures var b := SealUpTo(c, envelopes, |envelopes|);
            && before == WriteUpTo(PlanBatch(b, cfg, wire).client, cfg, SpooledPart(b, cfg, wire), disk, j)
            && after == WriteUpTo(PlanBatch(b, cfg, wire).client, cfg, SpooledPart(b, cfg, wire), disk, j + 1)
    ensures var e := SpooledPart(SealUpTo(c, envelopes, |envelopes|), cfg, wire)[j];
            var o := HandleBatch(c, cfg, envelopes, wire, disk);
            (after.failure == Some(HitlPersistence) && o.result == Err(HitlPersistence)
             && o.client.ledgers == before.client.ledgers && o.client.files == before.client.files) <==>
              (e.body.ApprovalRecord? || (e.body.ActionRecord? && e.body.action.auth == Some(Pending)))
    ensures var e := SpooledPart(SealUpTo(c, envelopes, |envelopes|), cfg, wire)[j];
            !(e.body.ApprovalRecord? || (e.body.ActionRecord? && e.body.action.auth == Some(Pending))) ==>
              && LossEntered(before.client.ledgers, after.client.ledgers, e, DiskAt(disk, j).reason)
              && (after.failure == if cfg.failOnLoss then Some(RecordPersistence) else None)
              && (cfg.failOnLoss ==> HandleBatch(c, cfg, envelopes, wire, disk).result == Err(RecordPersistence))
  {
    var b := SealUpTo(c, envelopes, |envelopes|);
    var from, spooled := PlanBatch(b, cfg, wire).client, SpooledPart(b, cfg, wire);
    SealKeepsSeen(c, envelopes, |envelopes|);
    SeenGrows(from, cfg, spooled, disk, j);
    before, after := WriteUpTo(from, cfg, spooled, disk, j), WriteUpTo(from, cfg, spooled, disk, j + 1);
    var one := RefusedStep(before, after, cfg, spooled[j], DiskAt(disk, j));
    if one.outcome.Err? {
      assert RaisesAt(from, cfg, spooled, disk, j, one.outcome.error);
      RaisingEnds(from, cfg, spooled, disk, j, one.outcome.error);
    }
  }

  lemma RefusedStep(before: Writing, after: Writing, cfg: Config, e: Envelope, disk: Disk) returns (one: Written)
    requires before.failure.None? && after == WriteNext(before, cfg, e, disk) && Refused(before.client.seen, e, disk)
    ensures one == WriteOne(before.client, cfg, e, disk) && after.client == one.client
    ensures after.failure == if one.outcome.Err? then Some(one.outcome.error) else None
    ensures if e.body.ApprovalRecord? || (e.body.ActionRecord? && e.body.action.auth == Some(Pending))
            then one.outcome == Err(HitlPersistence)
                 && one.client.ledgers == before.client.ledgers && one.client.files == before.client.files
            else LossEntered(before.client.ledgers, one.client.ledgers, e, disk.reason)
                 && (one.outcome.Err? <==> cfg.failOnLoss) && (one.outcome.Err? ==> one.outcome.error == RecordPersistence)
  {
    one := RefusedWrite(before.client, cfg, e, disk);
  }

  /** The action carries part of a seal, but no self-hash. */
  ghost predicate HalfSealed(e: Envelope) {
    e.body.ActionRecord? && e.body.action.selfHash.None?
    && (e.body.action.actionId.Some? || e.body.action.number.Some? || e.body.action.prevHash.Some?)
  }

  lemma {:induction false} SealFailsIff(c: Client, envelopes: seq<Envelope>, n: nat)
    requires n <= |envelopes|
    ensures SealUpTo(c, envelopes, n).error == if exists i :: 0 <= i < n && HalfSealed(envelopes[i]) then Some(PartiallySealed) else None
  {
    if n != 0 {
      SealFailsIff(c, envelopes, n - 1);
      SealsKept(c, envelopes, n - 1);
    }
  }

  /** A batch with a half-sealed action raises before any request or write; any other is sealed. */
  lemma HalfSealedRaises(c: Client, cfg: Config, envelopes: seq<Envelope>, wire: seq<HttpOutcome>, disk: seq<Disk>)
    requires exists i :: 0 <= i < |envelopes| && HalfSealed(envelopes[i])
    ensures var o := HandleBatch(c, cfg, envelopes, wire, disk);
            && o.result == Err(BadSeal(PartiallySealed)) && o.sent == []
            && o.client.files == c.files && o.client.ledgers == c.ledgers
  {
    SealFailsIff(c, envelopes, |envelopes|);
    SealKeepsFiles(c, envelopes, |envelopes|);
    SealKeepsLedgers(c, envelopes, |envelopes|);
  }

  lemma {:induction false} SealKeepsLedgers(c: Client, envelopes: seq<Envelope>, n: nat)
    requires n <= |envelopes|
    ensures SealUpTo(c, envelopes, n).client.ledgers == c.ledgers
  {
    if n != 0 {
      SealKeepsLedgers(c, envelopes, n - 1);
    }
  }

  /** The batch's action `i` has no self-hash, so it is sealed in this call. */
  ghost predicate SealedHere(envelopes: seq<Envelope>, i: nat) {
    i < |envelopes| && envelopes[i].body.ActionRecord? && envelopes[i].body.action.selfHash.None?
  }

  /** The actions a batch seals get ids that this client never gave out, each its own. */
  ghost predicate FreshIds(c: Client, envelopes: seq<Envelope>, b: SealedBatch, n: nat) {
    && |b.envelopes| == |envelopes| && c.minted <= b.client.minted
    && (forall i: nat :: i < n && SealedHere(envelopes, i) ==> HasId(b, i) && c.minted <= IdAt(b, i) < b.client.minted)
    && (forall i: nat, j: nat :: i < j < n && SealedHere(envelopes, i) && SealedHere(envelopes, j) ==> IdAt(b, i) < IdAt(b, j))
  }

  ghost predicate HasId(b: SealedBatch, i: nat) {
    i < |b.envelopes| && b.envelopes[i].body.ActionRecord? && b.envelopes[i].body.action.actionId.Some?
  }

  ghost function IdAt(b: SealedBatch, i: nat): Id {
    if HasId(b, i) then b.envelopes[i].body.action.actionId.value else 0
  }

  lemma {:induction false} SealsFresh(c: Client, envelopes: seq<Envelope>, n: nat) returns (b: SealedBatch)
    requires n <= |envelopes| && SealUpTo(c, envelopes, n).error.None?
    ensures b == SealUpTo(c, envelopes, n) && FreshIds(c, envelopes, b, n)
  {
    if n == 0 {
      b := SealedBatch(c, envelopes, None);
    } else {
      var before := SealsFresh(c, envelopes, n - 1);
      SealsKept(c, envelopes, n - 1);
      b := SealNext(before, n - 1);
      FreshStep(c, envelopes, before, n - 1, b);
    }
  }

  lemma FreshStep(c: Client, envelopes: seq<Envelope>, before: SealedBatch, n: nat, b: SealedBatch)
    requires n < |envelopes| && FreshIds(c, envelopes, before, n) && before.envelopes[n] == envelopes[n]
    requires b == SealNext(before, n) && before.error.None? && b.error.None?
    ensures FreshIds(c, envelopes, b, n + 1)
  {
    forall i: nat | i < n ensures HasId(b, i) == HasId(before, i) && IdAt(b, i) == IdAt(before, i) {
    }
    assert SealedHere(envelopes, n) ==> HasId(b, n) && IdAt(b, n) == before.client.minted == b.client.minted - 1;
  }

  // ---------- Where the answers come from ----------

  /**
   The call that returns: an element keeps the network's last answer if that asks for no
   retry, or if there is no spool; every other element, and every element once the client
   has given up on the network, has the spool's answer to it.
   */
  lemma AnswersMeaning(c: Client, cfg: Config, envelopes: seq<Envelope>, wire: seq<HttpOutcome>, disk: seq<Disk>, i: nat)
    requires i < |envelopes| && HandleBatch(c, cfg, envelopes, wire, disk).result.Ok?
    ensures var o := HandleBatch(c, cfg, envelopes, wire, disk);
            var b := SealUpTo(c, envelopes, |envelopes|);
            var rs, spooled := PostUpTo(b.envelopes, wire, cfg.Attempts()).results, SpooledPart(b, cfg, wire);
            var w := WriteUpTo(PlanBatch(b, cfg, wire).client, cfg, spooled, disk, |spooled|);
            && |o.result.value| == |envelopes| && |w.responses| == |spooled|
            && (if !c.spooling && (!cfg.spoolEnabled || !(rs[i].status == Rejected && rs[i].retryable == Some(true)))
                then o.result.value[i] == rs[i]
                else exists k :: 0 <= k < |spooled| && spooled[k] == b.envelopes[i] && o.result.value[i] == w.responses[k])
  {
    var b := SealUpTo(c, envelopes, |envelopes|);
    SealingSpools(c, envelopes, |envelopes|);
    var plan := PlanBatch(b, cfg, wire);
    var spooled := SpooledPart(b, cfg, wire);
    var w := WriteUpTo(plan.client, cfg, spooled, disk, |spooled|);
    FillAt(plan.results, plan.spool, w.responses);
    assert c.spooling ==> plan.spool[i] == i;
    if i in plan.spool {
      var k :| 0 <= k < |plan.spool| && plan.spool[k] == i;
      assert spooled[k] == b.envelopes[i];
    }
  }

  /**
   The budget of requests is the configured one, and one if that is smaller. A client that
   does not spool makes them all, unless some earlier one leaves no answer that asks for a
   retry.
   */
  lemma BudgetUsed(c: Client, cfg: Config, envelopes: seq<Envelope>, wire: seq<HttpOutcome>, disk: seq<Disk>)
    requires SealUpTo(c, envelopes, |envelopes|).error.None? && !c.spooling && envelopes != []
    ensures var sent, budget := HandleBatch(c, cfg, envelopes, wire, disk).sent, if cfg.maxRetries < 1 then 1 else cfg.maxRetries;
            var rs := PostUpTo(SealUpTo(c, envelopes, |envelopes|).envelopes, wire, budget).results;
            && 1 <= |sent| <= budget
            && (|sent| < budget ==> forall i :: 0 <= i < |rs| ==> !(rs[i].status == Rejected && rs[i].retryable == Some(true)))
  {
    var b := SealUpTo(c, envelopes, |envelopes|);
    SealingSpools(c, envelopes, |envelopes|);
    RequestsMade(b.envelopes, wire, cfg.Attempts());
    PendingIsRetryable(b.envelopes, wire, cfg.Attempts());
    if PostUpTo(b.envelopes, wire, cfg.Attempts()).pending != [] {
      AllRequestsMade(b.envelopes, wire, cfg.Attempts());
    }
  }

  lemma {:induction false} RequestsMade(envelopes: seq<Envelope>, wire: seq<HttpOutcome>, m: nat)
    requires envelopes != [] && 0 < m
    ensures 1 <= |PostUpTo(envelopes, wire, m).sent| <= m
  {
    if m == 1 {
      assert PostUpTo(envelopes, wire, 0).pending == Indices(|envelopes|) && PostUpTo(envelopes, wire, 0).sent == [];
    } else {
      RequestsMade(envelopes, wire, m - 1);
    }
  }

  /** The first answer that asks for a retry, as the caller reads it. */
  ghost predicate FirstToRetry(rs: seq<Response>, i: nat) {
    && i < |rs| && rs[i].status == Rejected && rs[i].retryable == Some(true)
    && forall k :: 0 <= k < i ==> !(rs[k].status == Rejected && rs[k].retryable == Some(true))
  }

  ghost predicate SomeToRetry(rs: seq<Response>) {
    exists i :: 0 <= i < |rs| && rs[i].status == Rejected && rs[i].retryable == Some(true)
  }

  ghost predicate NamesFirst(rs: seq<Response>, reason: Option<ErrorCode>) {
    exists i: nat :: FirstToRetry(rs, i) && reason == rs[i].code
  }

  lemma GaveUpNaming(rs: seq<Response>, i: nat, reason: Option<ErrorCode>)
    requires FirstToRetry(rs, i) && reason == rs[i].code
    ensures SomeToRetry(rs) && NamesFirst(rs, reason)
  {
  }

  lemma FirstIsLeast(slots: seq<nat>, n: nat, k: nat)
    requires Slots(slots, n) && k in slots
    ensures slots[0] <= k
  {
    var j :| 0 <= j < |slots| && slots[j] == k;
    assert Less(slots, 0, j);
  }

  lemma FirstUnsent(rs: seq<Response>)
    ensures if Unsent(rs) == [] then !SomeToRetry(rs) else SomeToRetry(rs) && FirstToRetry(rs, Unsent(rs)[0])
  {
    var unsent := Unsent(rs);
    if unsent != [] {
      assert unsent[0] in unsent;
      forall k | 0 <= k < unsent[0] ensures !NeedsRetry(rs[k]) {
        if k in unsent {
          FirstIsLeast(unsent, |rs|, k);
        }
      }
    }
  }

  /** Where the network leaves a client, before anything is written. */
  lemma PlanGivesUp(b: SealedBatch, cfg: Config, wire: seq<HttpOutcome>)
    ensures var plan, rs := PlanBatch(b, cfg, wire), PostUpTo(b.envelopes, wire, cfg.Attempts()).results;
            if b.client.spooling then plan.client == b.client && plan.sent == []
            else
              && (plan.client.spooling <==> cfg.spoolEnabled && SomeToRetry(rs))
              && (plan.client.spooling ==> NamesFirst(rs, plan.client.reason))
              && (!plan.client.spooling ==> plan.client.reason == b.client.reason)
  {
    var plan, rs := PlanBatch(b, cfg, wire), PostUpTo(b.envelopes, wire, cfg.Attempts()).results;
    FirstUnsent(rs);
    if Unsent(rs) != [] {
      assert FirstToRetry(rs, Unsent(rs)[0]);
    }
    if !b.client.spooling && Unsent(rs) != [] && cfg.spoolEnabled {
      GaveUpNaming(rs, Unsent(rs)[0], plan.client.reason);
    } else {
      assert plan.client == b.client;
    }
  }

  /**
   A client that spools makes no request and goes on spooling. Any other starts to, in a
   call, if and only if it has a spool and some answer still asks for a retry after the
   last attempt; it keeps the code of the first such answer.
   */
  lemma GivesUpIff(c: Client, cfg: Config, envelopes: seq<Envelope>, wire: seq<HttpOutcome>, disk: seq<Disk>)
    requires SealUpTo(c, envelopes, |envelopes|).error.None?
    ensures var o := HandleBatch(c, cfg, envelopes, wire, disk);
            var rs := PostUpTo(SealUpTo(c, envelopes, |envelopes|).envelopes, wire, cfg.Attempts()).results;
            if c.spooling then o.client.spooling && o.sent == [] && o.client.reason == c.reason
            else
              && (o.client.spooling <==> cfg.spoolEnabled && SomeToRetry(rs))
              && (o.client.spooling ==> NamesFirst(rs, o.client.reason))
              && (!o.client.spooling ==> o.client.reason == c.reason)
  {
    var b := SealUpTo(c, envelopes, |envelopes|);
    SealingSpools(c, envelopes, |envelopes|);
    SealKeepsReason(c, envelopes, |envelopes|);
    var plan := PlanBatch(b, cfg, wire);
    SeenGrows(plan.client, cfg, SpooledPart(b, cfg, wire), disk, |plan.spool|);
    ReasonStays(plan.client, cfg, SpooledPart(b, cfg, wire), disk, |plan.spool|);
    PlanGivesUp(b, cfg, wire);
  }

  lemma ReasonStep(w: Writing, cfg: Config, e: Envelope, disk: Disk)
    ensures WriteNext(w, cfg, e, disk).client.reason == w.client.reason
  {
    var s := SpoolEnvelope(w.client, e, disk);
    assert s.client.reason == w.client.reason;
    var noted := OnWriteFailure(s.client, cfg, e, disk.reason).client;
    assert noted.reason == s.client.reason;
    CloudSafety.WriteOneIs(w, cfg, e, disk, s, noted);
  }

  lemma {:induction false} ReasonStays(c: Client, cfg: Config, envelopes: seq<Envelope>, disk: seq<Disk>, n: nat)
    requires n <= |envelopes|
    ensures WriteUpTo(c, cfg, envelopes, disk, n).client.reason == c.reason
  {
    if n != 0 {
      ReasonStays(c, cfg, envelopes, disk, n - 1);
      ReasonStep(WriteUpTo(c, cfg, envelopes, disk, n - 1), cfg, envelopes[n - 1], DiskAt(disk, n - 1));
    }
  }

  lemma {:induction false} SealKeepsReason(c: Client, envelopes: seq<Envelope>, n: nat)
    requires n <= |envelopes|
    ensures SealUpTo(c, envelopes, n).client.reason == c.reason
  {
    if n != 0 {
      SealKeepsReason(c, envelopes, n - 1);
    }
  }
}
