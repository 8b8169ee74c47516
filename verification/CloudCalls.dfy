/** What one `handle_batch` call promises, for every batch, network and disk. */
module CloudCalls {
  import opened Common
  import opened Hashing
  import opened Wire
  import opened Chains
  import opened Cloud
  import opened CloudSafety

  // ---------- Seals are minted once ----------

  /** `now` is `before`, possibly with a seal added to an unsealed action. */
  ghost predicate OnlySealAdded(before: Envelope, now: Envelope) {
    now == before || (WantsSeal(before) && exists seal :: now == SealEnvelope(before, seal))
  }

  /** No call changes a seal an envelope already carries, nor anything else about it. */
  lemma {:induction false} SealsKept(c: Client, envelopes: seq<Envelope>, n: nat)
    requires n <= |envelopes|
    ensures forall i :: 0 <= i < |envelopes| ==> OnlySealAdded(envelopes[i], SealUpTo(c, envelopes, n).envelopes[i])
    ensures forall i :: n <= i < |envelopes| ==> SealUpTo(c, envelopes, n).envelopes[i] == envelopes[i]
  {
    if n != 0 {
      SealsKept(c, envelopes, n - 1);
    }
  }

  lemma BatchSealsKept(c: Client, cfg: Config, envelopes: seq<Envelope>, wire: seq<HttpOutcome>, disk: seq<Disk>)
    ensures var o := HandleBatch(c, cfg, envelopes, wire, disk);
            |o.envelopes| == |envelopes| && forall i :: 0 <= i < |envelopes| ==> OnlySealAdded(envelopes[i], o.envelopes[i])
  {
    SealsKept(c, envelopes, |envelopes|);
  }

  // ---------- Nothing retryable comes back from the spool ----------

  lemma {:induction false} SpoolNeverRetryable(c: Client, cfg: Config, envelopes: seq<Envelope>, disk: seq<Disk>, n: nat)
    requires n <= |envelopes|
    ensures forall r :: r in WriteUpTo(c, cfg, envelopes, disk, n).responses ==> !NeedsRetry(r)
  {
    if n != 0 {
      SpoolNeverRetryable(c, cfg, envelopes, disk, n - 1);
    }
  }

  /**
   The answer list is index-aligned with the batch, and with the spool enabled
   nothing in it asks for a retry: there is nothing left for a caller to re-queue.
   */
  lemma AlignedAndFinal(c: Client, cfg: Config, envelopes: seq<Envelope>, wire: seq<HttpOutcome>, disk: seq<Disk>)
    requires HandleBatch(c, cfg, envelopes, wire, disk).result.Ok?
    ensures var rs := HandleBatch(c, cfg, envelopes, wire, disk).result.value;
            |rs| == |envelopes| && (cfg.spoolEnabled ==> forall i :: 0 <= i < |rs| ==> !NeedsRetry(rs[i]))
  {
    var b := SealUpTo(c, envelopes, |envelopes|);
    var plan := PlanBatch(b, cfg, wire);
    var spooled := Select(b.envelopes, plan.spool);
    var w := WriteUpTo(plan.client, cfg, spooled, disk, |plan.spool|);
    SpoolNeverRetryable(plan.client, cfg, spooled, disk, |plan.spool|);
    FillAt(plan.results, plan.spool, w.responses);
    var rs := Fill(plan.results, plan.spool, w.responses);
    if cfg.spoolEnabled {
      forall i | 0 <= i < |rs| ensures !NeedsRetry(rs[i]) {
        if i in plan.spool {
          var j :| 0 <= j < |plan.spool| && plan.spool[j] == i;
          assert rs[i] == w.responses[j] && w.responses[j] in w.responses;
        } else {
          NotSpooledIsFinal(b, cfg, wire, i);
        }
      }
    }
  }

  lemma NotSpooledIsFinal(b: SealedBatch, cfg: Config, wire: seq<HttpOutcome>, i: nat)
    requires cfg.spoolEnabled && i < |b.envelopes| && i !in PlanBatch(b, cfg, wire).spool
    ensures !NeedsRetry(PlanBatch(b, cfg, wire).results[i])
  {
    assert Indices(|b.envelopes|)[i] == i;
  }

  /** One call sends each element at most `max_retries` times, and not at all once the client spools. */
  lemma SentWithinBudget(c: Client, cfg: Config, envelopes: seq<Envelope>, wire: seq<HttpOutcome>, disk: seq<Disk>, i: nat)
    ensures TimesSent(HandleBatch(c, cfg, envelopes, wire, disk).sent, i) <= if c.spooling then 0 else cfg.Attempts()
  {
    var b := SealUpTo(c, envelopes, |envelopes|);
    var sent := SendsBounded(b.envelopes, wire, cfg.Attempts(), i);
    SealingSpools(c, envelopes, |envelopes|);
  }

  lemma {:induction false} SealingSpools(c: Client, envelopes: seq<Envelope>, n: nat)
    requires n <= |envelopes|
    ensures SealUpTo(c, envelopes, n).client.spooling == c.spooling
  {
    if n != 0 {
      SealingSpools(c, envelopes, n - 1);
    }
  }

  // ---------- Telemetry never raises under `warn` ----------

  /** An ordinary action as the decorator emits it or as it comes back under its seal, and everything that is not an approval. */
  predicate Telemetry(e: Envelope) {
    && !e.body.ApprovalRecord?
    && (e.body.ActionRecord? ==> e.body.action.auth != Some(Pending) && (Unsealed(e.body.action) || HasSeal(e)))
  }

  lemma {:induction false} TelemetrySeals(c: Client, envelopes: seq<Envelope>, n: nat)
    requires n <= |envelopes| && forall e :: e in envelopes ==> Telemetry(e)
    ensures var b := SealUpTo(c, envelopes, n);
            && b.error.None?
            && (forall i :: 0 <= i < n ==> Writable(b.envelopes[i]))
            && (forall i :: n <= i < |envelopes| ==> b.envelopes[i] == envelopes[i])
  {
    if n != 0 {
      TelemetrySeals(c, envelopes, n - 1);
      assert Telemetry(envelopes[n - 1]);
    }
  }

  /** Nothing about this envelope can make the spool raise under `warn`. */
  predicate Writable(e: Envelope) {
    !e.body.ApprovalRecord? && (e.body.ActionRecord? ==> e.body.action.auth != Some(Pending) && HasSeal(e))
  }

  lemma {:induction false} WritableNeverRaises(c: Client, cfg: Config, envelopes: seq<Envelope>, disk: seq<Disk>, n: nat)
    requires n <= |envelopes| && !cfg.failOnLoss && forall i :: 0 <= i < |envelopes| ==> Writable(envelopes[i])
    ensures WriteUpTo(c, cfg, envelopes, disk, n).failure.None?
  {
    if n != 0 {
      WritableNeverRaises(c, cfg, envelopes, disk, n - 1);
    }
  }

  /** Under `ON_RECORD_LOSS=warn`, a batch of telemetry always returns, whatever fails. */
  lemma TelemetryReturns(c: Client, cfg: Config, envelopes: seq<Envelope>, wire: seq<HttpOutcome>, disk: seq<Disk>)
    requires !cfg.failOnLoss && forall e :: e in envelopes ==> Telemetry(e)
    ensures HandleBatch(c, cfg, envelopes, wire, disk).result.Ok?
  {
    TelemetrySeals(c, envelopes, |envelopes|);
    var b := SealUpTo(c, envelopes, |envelopes|);
    var plan := PlanBatch(b, cfg, wire);
    WritableNeverRaises(plan.client, cfg, Select(b.envelopes, plan.spool), disk, |plan.spool|);
  }

  /** The spool remembers no event but those it knew and those it was handed. */
  lemma {:induction false} SeenGrows(c: Client, cfg: Config, envelopes: seq<Envelope>, disk: seq<Disk>, n: nat)
    requires n <= |envelopes|
    ensures forall x :: x in WriteUpTo(c, cfg, envelopes, disk, n).client.seen ==>
              x in c.seen || exists i :: 0 <= i < n && envelopes[i].eventId == x
    ensures WriteUpTo(c, cfg, envelopes, disk, n).client.spooling == c.spooling
  {
    if n != 0 {
      SeenGrows(c, cfg, envelopes, disk, n - 1);
      SeenStep(WriteUpTo(c, cfg, envelopes, disk, n - 1), cfg, envelopes[n - 1], DiskAt(disk, n - 1));
    }
  }

  lemma SeenStep(w: Writing, cfg: Config, e: Envelope, disk: Disk)
    ensures WriteNext(w, cfg, e, disk).client.seen <= w.client.seen + {e.eventId}
    ensures WriteNext(w, cfg, e, disk).client.spooling == w.client.spooling
  {
    var s := SpoolEnvelope(w.client, e, disk);
    assert s.client.seen <= w.client.seen + {e.eventId} && s.client.spooling == w.client.spooling;
    var noted := OnWriteFailure(s.client, cfg, e, disk.reason).client;
    assert noted.seen == s.client.seen && noted.spooling == s.client.spooling;
    WriteOneIs(w, cfg, e, disk, s, noted);
  }

  /** A control record that cannot be spooled raises and leaves no trace in files or ledgers. */
  lemma ControlRaises(c: Client, cfg: Config, e: Envelope, disk: Disk)
    requires IsControlRecord(e) && !disk.writable && e.eventId !in c.seen
    ensures WriteOne(c, cfg, e, disk).outcome.Err?
    ensures WriteOne(c, cfg, e, disk).client.files == c.files && WriteOne(c, cfg, e, disk).client.ledgers == c.ledgers
  {
  }

  /** An unwritable, unseen control record ends the writing: neither it nor anything after it reaches a file. */
  lemma ControlStops(c: Client, cfg: Config, envelopes: seq<Envelope>, disk: seq<Disk>, j: nat)
    requires j < |envelopes| && IsControlRecord(envelopes[j]) && !DiskAt(disk, j).writable
    requires envelopes[j].eventId !in c.seen && forall k :: 0 <= k < j ==> envelopes[k].eventId != envelopes[j].eventId
    ensures var w, before := WriteUpTo(c, cfg, envelopes, disk, |envelopes|), WriteUpTo(c, cfg, envelopes, disk, j);
            w.failure.Some? && w.tried <= j + 1 && w.client.files == before.client.files && w.client.ledgers == before.client.ledgers
  {
    SeenGrows(c, cfg, envelopes, disk, j);
    ControlRaises(WriteUpTo(c, cfg, envelopes, disk, j).client, cfg, envelopes[j], DiskAt(disk, j));
    WriteStaysFailed(c, cfg, envelopes, disk, j + 1, |envelopes|);
  }

  lemma {:induction false} SealKeepsSeen(c: Client, envelopes: seq<Envelope>, n: nat)
    requires n <= |envelopes|
    ensures SealUpTo(c, envelopes, n).client.seen == c.seen
  {
    if n != 0 {
      SealKeepsSeen(c, envelopes, n - 1);
    }
  }

  /** The part of a sealed batch that one call hands to the spool. */
  function SpooledPart(b: SealedBatch, cfg: Config, wire: seq<HttpOutcome>): seq<Envelope> {
    Select(b.envelopes, PlanBatch(b, cfg, wire).spool)
  }

  /**
   The whole call fails closed: a batch whose spooled part holds an approval, or an
   action waiting for one, that the disk does not take raises, so the gated action does
   not run; and the files hold what was written before that record and nothing more.
   */
  lemma ControlFailsClosed(c: Client, cfg: Config, envelopes: seq<Envelope>, wire: seq<HttpOutcome>, disk: seq<Disk>, j: nat)
    requires SealUpTo(c, envelopes, |envelopes|).error.None?
    requires var spooled := SpooledPart(SealUpTo(c, envelopes, |envelopes|), cfg, wire);
             && j < |spooled| && !DiskAt(disk, j).writable
             && (spooled[j].body.ApprovalRecord? || (spooled[j].body.ActionRecord? && spooled[j].body.action.auth == Some(Pending)))
             && spooled[j].eventId !in c.seen && forall k :: 0 <= k < j ==> spooled[k].eventId != spooled[j].eventId
    ensures var b := SealUpTo(c, envelopes, |envelopes|);
            var o := HandleBatch(c, cfg, envelopes, wire, disk);
            var before := WriteUpTo(PlanBatch(b, cfg, wire).client, cfg, SpooledPart(b, cfg, wire), disk, j);
            o.result.Err? && o.client.files == before.client.files && o.client.ledgers == before.client.ledgers
  {
    var b := SealUpTo(c, envelopes, |envelopes|);
    SealKeepsSeen(c, envelopes, |envelopes|);
    ControlStops(PlanBatch(b, cfg, wire).client, cfg, SpooledPart(b, cfg, wire), disk, j);
  }

  // ---------- An accepted answer means the record is held ----------

  /** Every recorded result was given by the server, or synthesized, for some request. */
  ghost predicate AnsweredAt(envelopes: seq<Envelope>, wire: seq<HttpOutcome>, p: Posting, i: nat, k: nat, j: nat) {
    && PostingOk(p, |envelopes|) && i < |envelopes|
    && k < |p.sent| && j < |p.sent[k]| && p.sent[k][j] == i
    && p.results[i] == Interpret(Select(envelopes, p.sent[k]), WireAt(wire, k))[j]
  }

  lemma AllPendingFirst(envelopes: seq<Envelope>, wire: seq<HttpOutcome>, i: nat)
    requires i < |envelopes|
    ensures i in PostUpTo(envelopes, wire, 0).pending
  {
    assert PostUpTo(envelopes, wire, 0).pending[i] == i;
  }

  lemma AnsweredNow(envelopes: seq<Envelope>, wire: seq<HttpOutcome>, p: Posting, i: nat) returns (q: Posting, j: nat)
    requires PostingOk(p, |envelopes|) && i < |envelopes| && i in p.pending
    ensures q == PostAgain(envelopes, p, WireAt(wire, |p.sent|))
    ensures AnsweredAt(envelopes, wire, q, i, |p.sent|, j)
  {
    AttemptStep(envelopes, p, WireAt(wire, |p.sent|));
    q := PostAgain(envelopes, p, WireAt(wire, |p.sent|));
    j :| 0 <= j < |p.pending| && p.pending[j] == i;
  }

  lemma AnsweredStill(envelopes: seq<Envelope>, wire: seq<HttpOutcome>, p: Posting, outcome: HttpOutcome, i: nat, k: nat, j: nat)
    requires AnsweredAt(envelopes, wire, p, i, k, j) && i !in p.pending
    ensures AnsweredAt(envelopes, wire, PostAgain(envelopes, p, outcome), i, k, j)
  {
    AttemptStep(envelopes, p, outcome);
  }

  lemma {:induction false} ResultWasAnswered(envelopes: seq<Envelope>, wire: seq<HttpOutcome>, i: nat, m: nat) returns (k: nat, j: nat)
    requires i < |envelopes| && 0 < m
    ensures AnsweredAt(envelopes, wire, PostUpTo(envelopes, wire, m), i, k, j)
    ensures k < m
  {
    var p := PostUpTo(envelopes, wire, m - 1);
    AllPendingFirst(envelopes, wire, i);
    if i in p.pending {
      AllRequestsMade(envelopes, wire, m - 1);
      var q;
      q, j := AnsweredNow(envelopes, wire, p, i);
      k := |p.sent|;
    } else {
      k, j := ResultWasAnswered(envelopes, wire, i, m - 1);
      if p.pending != [] {
        AnsweredStill(envelopes, wire, p, WireAt(wire, m - 1), i, k, j);
      }
    }
  }

  /** While something is pending, every attempt made a request. */
  lemma {:induction false} AllRequestsMade(envelopes: seq<Envelope>, wire: seq<HttpOutcome>, m: nat)
    requires PostUpTo(envelopes, wire, m).pending != []
    ensures |PostUpTo(envelopes, wire, m).sent| == m
  {
    if m != 0 {
      AllRequestsMade(envelopes, wire, m - 1);
    }
  }

  predicate OnFile(files: map<Id, seq<Entry>>, e: Envelope) {
    exists x :: x in FileFor(files, e.sessionId) && x.ActionEntry? && x.eventId == e.eventId
  }

  /** Files only ever gain lines at the end. */
  ghost predicate FilesGrow(before: map<Id, seq<Entry>>, after: map<Id, seq<Entry>>) {
    forall s: Id :: FileFor(before, s) <= FileFor(after, s)
  }

  lemma GrowTransitive(a: map<Id, seq<Entry>>, b: map<Id, seq<Entry>>, c: map<Id, seq<Entry>>)
    requires FilesGrow(a, b) && FilesGrow(b, c)
    ensures FilesGrow(a, c)
  {
    forall s: Id ensures FileFor(a, s) <= FileFor(c, s) {
      assert FileFor(a, s) <= FileFor(b, s) <= FileFor(c, s);
    }
  }

  lemma StillOnFile(before: map<Id, seq<Entry>>, after: map<Id, seq<Entry>>, e: Envelope)
    requires FilesGrow(before, after) && OnFile(before, e)
    ensures OnFile(after, e)
  {
    var x :| x in FileFor(before, e.sessionId) && x.ActionEntry? && x.eventId == e.eventId;
    assert FileFor(before, e.sessionId) <= FileFor(after, e.sessionId);
    assert x in FileFor(after, e.sessionId);
  }

  lemma SpoolOneGrows(c: Client, e: Envelope, disk: Disk)
    ensures var s := SpoolEnvelope(c, e, disk);
            && FilesGrow(c.files, s.client.files)
            && (e.body.ActionRecord? && s.answer.Answered? && s.answer.response.status == Accepted ==> OnFile(s.client.files, e))
  {
    var s := SpoolEnvelope(c, e, disk);
    if e.body.ActionRecord? && s.answer.Answered? && s.answer.response.status == Accepted {
      var lines := FileFor(s.client.files, e.sessionId);
      assert lines[|lines| - 1] in lines;
    }
  }

  lemma FlushGrows(c: Client, e: Envelope, disk: Disk)
    ensures FilesGrow(c.files, FlushLedger(c, e, disk).files)
  {
  }

  lemma AnswerGrows(before: Client, after: Client, e: Envelope, disk: Disk)
    requires FilesGrow(before.files, after.files)
    ensures FilesGrow(before.files, FlushLedger(after, e, disk).files)
    ensures OnFile(after.files, e) ==> OnFile(FlushLedger(after, e, disk).files, e)
  {
    FlushGrows(after, e, disk);
    GrowTransitive(before.files, after.files, FlushLedger(after, e, disk).files);
    if OnFile(after.files, e) {
      StillOnFile(after.files, FlushLedger(after, e, disk).files, e);
    }
  }

  lemma WriteOneGrows(w: Writing, cfg: Config, e: Envelope, disk: Disk)
    ensures var one := WriteOne(w.client, cfg, e, disk);
            && FilesGrow(w.client.files, one.client.files)
            && FilesGrow(w.client.files, WriteNext(w, cfg, e, disk).client.files)
            && (e.body.ActionRecord? && one.outcome.Ok? && one.outcome.value.status == Accepted ==> OnFile(one.client.files, e))
  {
    var s := SpoolEnvelope(w.client, e, disk);
    SpoolOneGrows(w.client, e, disk);
    FailureGrows(s.client, cfg, e, disk);
    var noted := OnWriteFailure(s.client, cfg, e, disk.reason).client;
    AnswerGrows(w.client, s.client, e, disk);
    AnswerGrows(w.client, noted, e, disk);
    WriteOneIs(w, cfg, e, disk, s, noted);
  }

  /** What the spool accepted is on file, and stays there while the rest is written. */
  lemma {:induction false} SpoolAccepted(c: Client, cfg: Config, envelopes: seq<Envelope>, disk: seq<Disk>, n: nat)
    requires n <= |envelopes|
    ensures FilesGrow(c.files, WriteUpTo(c, cfg, envelopes, disk, n).client.files)
    ensures var w := WriteUpTo(c, cfg, envelopes, disk, n);
            w.failure.None? ==> forall j :: 0 <= j < n ==> AcceptedOnFile(envelopes[j], w.responses[j], w.client.files)
  {
    if n != 0 {
      SpoolAccepted(c, cfg, envelopes, disk, n - 1);
      var w := WriteUpTo(c, cfg, envelopes, disk, n - 1);
      var e := envelopes[n - 1];
      WriteOneGrows(w, cfg, e, DiskAt(disk, n - 1));
      var after := WriteNext(w, cfg, e, DiskAt(disk, n - 1));
      GrowTransitive(c.files, w.client.files, after.client.files);
      if after.failure.None? {
        forall j | 0 <= j < n ensures AcceptedOnFile(envelopes[j], after.responses[j], after.client.files) {
          if j < n - 1 && OnFile(w.client.files, envelopes[j]) {
            StillOnFile(w.client.files, after.client.files, envelopes[j]);
          }
          assert j < n - 1 ==> AcceptedOnFile(envelopes[j], w.responses[j], w.client.files);
        }
      }
    }
  }

  predicate AcceptedOnFile(e: Envelope, r: Response, files: map<Id, seq<Entry>>) {
    e.body.ActionRecord? && r.status == Accepted ==> OnFile(files, e)
  }

  lemma {:induction false} DeliverGrows(server: map<Id, Row>, envelopes: seq<Envelope>, sent: seq<seq<nat>>, kept: set<Id>, n: nat)
    requires n <= |envelopes|
    ensures server.Keys <= DeliverUpTo(server, envelopes, sent, kept, n).Keys
    ensures forall i :: 0 <= i < n && HasSeal(envelopes[i]) && Posted(sent, i) && envelopes[i].eventId in kept ==>
              envelopes[i].eventId in DeliverUpTo(server, envelopes, sent, kept, n)
  {
    if n != 0 {
      DeliverGrows(server, envelopes, sent, kept, n - 1);
    }
  }

  /** The server stores what it tells the client it accepted. */
  ghost predicate Honest(o: BatchOutcome, wire: seq<HttpOutcome>, kept: set<Id>) {
    forall k, j :: 0 <= k < |o.sent| && 0 <= j < |o.sent[k]| && Slots(o.sent[k], |o.envelopes|) ==>
      var answer := Interpret(Select(o.envelopes, o.sent[k]), WireAt(wire, k))[j];
      answer.status == Accepted ==> o.envelopes[o.sent[k][j]].eventId in kept
  }

  ghost predicate HeldEvent(sys: System, e: Envelope) {
    e.eventId in sys.server || OnFile(sys.client.files, e)
  }

  /** An action the client reports accepted is held by the server or the spool. */
  lemma AcceptedIsHeld(sys: System, cfg: Config, call: Call, i: nat)
    requires i < |call.envelopes| && OutcomeOf(sys, cfg, call).result.Ok?
    requires Honest(OutcomeOf(sys, cfg, call), call.wire, call.kept)
    requires HasSeal(OutcomeOf(sys, cfg, call).envelopes[i])
    requires i < |OutcomeOf(sys, cfg, call).result.value|
    requires OutcomeOf(sys, cfg, call).result.value[i].status == Accepted
    ensures HeldEvent(StepSystem(sys, cfg, call), OutcomeOf(sys, cfg, call).envelopes[i])
  {
    var o := OutcomeOf(sys, cfg, call);
    var b := SealUpTo(sys.client, call.envelopes, |call.envelopes|);
    var plan := PlanBatch(b, cfg, call.wire);
    var spooled := Select(b.envelopes, plan.spool);
    var w := WriteUpTo(plan.client, cfg, spooled, call.disk, |spooled|);
    SpoolAccepted(plan.client, cfg, spooled, call.disk, |spooled|);
    FillAt(plan.results, plan.spool, w.responses);
    if i in plan.spool {
      var j :| 0 <= j < |plan.spool| && plan.spool[j] == i;
      assert AcceptedOnFile(spooled[j], w.responses[j], w.client.files);
    } else {
      WireAccepted(b, cfg, call.wire, i, o, call.kept);
      DeliverGrows(sys.server, b.envelopes, plan.sent, call.kept, |b.envelopes|);
    }
  }

  lemma WireAccepted(b: SealedBatch, cfg: Config, wire: seq<HttpOutcome>, i: nat, o: BatchOutcome, kept: set<Id>)
    requires i < |b.envelopes| && i !in PlanBatch(b, cfg, wire).spool
    requires PlanBatch(b, cfg, wire).results[i].status == Accepted
    requires o.envelopes == b.envelopes && o.sent == PlanBatch(b, cfg, wire).sent && Honest(o, wire, kept)
    ensures Posted(o.sent, i) && b.envelopes[i].eventId in kept
  {
    assert Indices(|b.envelopes|)[i] == i;
    var k, j := ResultWasAnswered(b.envelopes, wire, i, cfg.Attempts());
    var p := PostUpTo(b.envelopes, wire, cfg.Attempts());
    assert AnsweredAt(b.envelopes, wire, p, i, k, j);
    assert o.sent == p.sent && i in o.sent[k];
  }

  /** And it stays held, whatever later calls meet. */
  lemma {:induction false} HeldForever(sys: System, cfg: Config, calls: seq<Call>, e: Envelope)
    requires HeldEvent(sys, e)
    ensures HeldEvent(RunSystem(sys, cfg, calls), e)
    decreases |calls|
  {
    if calls != [] {
      StepHolds(sys, cfg, calls[0], e);
      HeldForever(StepSystem(sys, cfg, calls[0]), cfg, calls[1..], e);
    }
  }

  lemma {:induction false} SealKeepsFiles(c: Client, envelopes: seq<Envelope>, n: nat)
    requires n <= |envelopes|
    ensures SealUpTo(c, envelopes, n).client.files == c.files
  {
    if n != 0 {
      SealKeepsFiles(c, envelopes, n - 1);
    }
  }

  lemma StepHolds(sys: System, cfg: Config, call: Call, e: Envelope)
    requires HeldEvent(sys, e)
    ensures HeldEvent(StepSystem(sys, cfg, call), e)
  {
    var o := OutcomeOf(sys, cfg, call);
    DeliverGrows(sys.server, o.envelopes, o.sent, call.kept, |o.envelopes|);
    if OnFile(sys.client.files, e) {
      SealKeepsFiles(sys.client, call.envelopes, |call.envelopes|);
      var b := SealUpTo(sys.client, call.envelopes, |call.envelopes|);
      if b.error.None? {
        var plan := PlanBatch(b, cfg, call.wire);
        SpoolAccepted(plan.client, cfg, Select(b.envelopes, plan.spool), call.disk, |plan.spool|);
        StillOnFile(sys.client.files, o.client.files, e);
      }
    }
  }

  // ---------- Losses are accounted for ----------

  predicate IsDrop(r: Response) {
    r.status == Rejected && r.code == Some(InternalError)
  }

  /** The sequence numbers, as far as they have one, of the first `n` envelopes of `session` that were answered as dropped. */
  function Lost(envelopes: seq<Envelope>, responses: seq<Response>, session: Id, n: nat): seq<Option<int>>
    requires n <= |envelopes| && n <= |responses|
  {
    if n == 0 then []
    else
      Lost(envelopes, responses, session, n - 1)
      + (if envelopes[n - 1].sessionId == session && IsDrop(responses[n - 1]) then [SequenceOf(envelopes[n - 1])] else [])
  }

  function FirstKnown(xs: seq<Option<int>>): Option<int> {
    if xs == [] then None
    else
      var before := FirstKnown(xs[..|xs| - 1]);
      if before.Some? then before else xs[|xs| - 1]
  }

  function LastKnown(xs: seq<Option<int>>): Option<int> {
    if xs == [] then None
    else if xs[|xs| - 1].Some? then xs[|xs| - 1]
    else LastKnown(xs[..|xs| - 1])
  }

  /** `after` is `before` with these losses counted, and the numbers of the first and last known one kept. */
  ghost predicate Tallied(before: Ledger, after: Ledger, lost: seq<Option<int>>) {
    && after.count == before.count + |lost|
    && after.first == (if before.first.Some? then before.first else FirstKnown(lost))
    && after.last == (if LastKnown(lost).Some? then LastKnown(lost) else before.last)
    && |after.reasons| == |before.reasons| + |lost|
  }

  lemma TallyOne(before: Ledger, mid: Ledger, lost: seq<Option<int>>, counts: bool, number: Option<int>, reason: string)
    requires Tallied(before, mid, lost)
    ensures Tallied(before, if counts then RecordLoss(mid, number, reason) else mid, lost + (if counts then [number] else []))
  {
    assert (lost + [number])[..|lost|] == lost && lost + [] == lost;
  }

  lemma {:induction false} LostPrefix(envelopes: seq<Envelope>, before: seq<Response>, r: Response, session: Id, n: nat)
    requires n <= |envelopes| && n <= |before|
    ensures Lost(envelopes, before + [r], session, n) == Lost(envelopes, before, session, n)
  {
    if n != 0 {
      LostPrefix(envelopes, before, r, session, n - 1);
    }
  }

  lemma LostStep(envelopes: seq<Envelope>, before: seq<Response>, r: Response, session: Id, n: nat)
    requires 0 < n <= |envelopes| && |before| == n - 1
    ensures Lost(envelopes, before + [r], session, n) ==
            Lost(envelopes, before, session, n - 1)
            + (if envelopes[n - 1].sessionId == session && IsDrop(r) then [SequenceOf(envelopes[n - 1])] else [])
  {
    LostPrefix(envelopes, before, r, session, n - 1);
  }

  lemma SpoolKeepsLedgers(c: Client, e: Envelope, disk: Disk)
    ensures var s := SpoolEnvelope(c, e, disk);
            s.client.ledgers == c.ledgers && (s.answer.Answered? ==> !IsDrop(s.answer.response))
  {
  }

  /** One write enters a loss into its session's ledger exactly when it answers that the record was dropped. */
  lemma WriteOneCounts(c: Client, cfg: Config, e: Envelope, disk: Disk, session: Id) returns (one: Written)
    requires WriteOne(c, cfg, e, disk).outcome.Ok?
    ensures one == WriteOne(c, cfg, e, disk)
    ensures var before, after := LedgerFor(c.ledgers, session), LedgerFor(one.client.ledgers, session);
            after == if e.sessionId == session && IsDrop(one.outcome.value)
                     then RecordLoss(before, SequenceOf(e), disk.reason) else before
  {
    SpoolKeepsLedgers(c, e, disk);
    one := WriteOne(c, cfg, e, disk);
  }

  lemma WriteUnfolds(c: Client, cfg: Config, envelopes: seq<Envelope>, disk: seq<Disk>, n: nat) returns (w: Writing, after: Writing)
    requires 0 < n <= |envelopes| && WriteUpTo(c, cfg, envelopes, disk, n).failure.None?
    ensures w == WriteUpTo(c, cfg, envelopes, disk, n - 1) && after == WriteUpTo(c, cfg, envelopes, disk, n)
    ensures w.failure.None? && |w.responses| == n - 1
    ensures var one := WriteOne(w.client, cfg, envelopes[n - 1], DiskAt(disk, n - 1));
            one.outcome.Ok? && after.client == one.client && after.responses == w.responses + [one.outcome.value]
  {
    w, after := WriteUpTo(c, cfg, envelopes, disk, n - 1), WriteUpTo(c, cfg, envelopes, disk, n);
  }

  /**
   Every record the spool could not take, and only those, is answered as dropped and
   entered in its session's loss ledger: the count, one reason each, and the sequence
   numbers of the first and the last loss that has one.
   */
  lemma {:induction false} LossesCounted(c: Client, cfg: Config, envelopes: seq<Envelope>, disk: seq<Disk>, n: nat, session: Id)
    requires n <= |envelopes| && WriteUpTo(c, cfg, envelopes, disk, n).failure.None?
    ensures var w := WriteUpTo(c, cfg, envelopes, disk, n);
            Tallied(LedgerFor(c.ledgers, session), LedgerFor(w.client.ledgers, session), Lost(envelopes, w.responses, session, n))
  {
    if n != 0 {
      var w, after := WriteUnfolds(c, cfg, envelopes, disk, n);
      LossesCounted(c, cfg, envelopes, disk, n - 1, session);
      var e, lost := envelopes[n - 1], Lost(envelopes, w.responses, session, n - 1);
      var one := WriteOneCounts(w.client, cfg, e, DiskAt(disk, n - 1), session);
      LostStep(envelopes, w.responses, one.outcome.value, session, n);
      TallyOne(LedgerFor(c.ledgers, session), LedgerFor(w.client.ledgers, session), lost,
               e.sessionId == session && IsDrop(one.outcome.value), SequenceOf(e), DiskAt(disk, n - 1).reason);
    }
  }
}
