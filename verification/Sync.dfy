/**
 `rootsign-admin sync` on one spool file (`_sync_one` in rootsign/cli.py): any
 number of upload attempts, each a run of batches posted with retries
 (rootsign/sdk/client.py), against a store that deduplicates by event id.
 */
module Sync {
  import opened Common
  import opened Ranges
  import opened Wire
  import opened Cloud
  import opened Replay
  import opened Receipt

  const DEFAULT_BATCH_SIZE: nat := 100

  // ---------- The store ----------

  datatype Ruling = Take | Refuse(code: ErrorCode, message: string, retryable: bool)

  /**
   One POST: whether it reached the store, how the store rules on the events in it that
   it does not hold (it takes those past the end of the list), and whether its answer
   came back.
   */
  datatype Request = Request(reached: bool, rulings: seq<Ruling>, heard: bool)

  /** The events the store holds, in the order it took them. */
  type Held = seq<Id>

  function RulingAt(rulings: seq<Ruling>, j: nat): Ruling {
    if j < |rulings| then rulings[j] else Take
  }

  function StoreAfter(held: Held, event: Id, ruling: Ruling): Held {
    if event !in held && ruling.Take? then held + [event] else held
  }

  function Answer(held: Held, event: Id, ruling: Ruling): Response {
    if event in held then Reject(event, DuplicateEvent, "", false)
    else if ruling.Take? then Accept(event, None, None, None)
    else Reject(event, ruling.code, ruling.message, ruling.retryable)
  }

  datatype Ruled = Ruled(held: Held, responses: seq<Response>)

  /** The store works through the first `n` elements of a batch, in order. */
  function RuleUpTo(held: Held, batch: seq<Envelope>, rulings: seq<Ruling>, n: nat): (r: Ruled)
    requires n <= |batch|
    ensures |r.responses| == n
  {
    if n == 0 then Ruled(held, [])
    else
      var before := RuleUpTo(held, batch, rulings, n - 1);
      var event, ruling := batch[n - 1].eventId, RulingAt(rulings, n - 1);
      Ruled(StoreAfter(before.held, event, ruling), before.responses + [Answer(before.held, event, ruling)])
  }

  function HeldAfter(held: Held, batch: seq<Envelope>, q: Request): Held {
    if q.reached then RuleUpTo(held, batch, q.rulings, |batch|).held else held
  }

  function HttpOf(held: Held, batch: seq<Envelope>, q: Request): HttpOutcome {
    if !q.reached then HttpOutcome.TransportFailed
    else if !q.heard then RequestTimedOut
    else HttpAnswer(200, Some(RuleUpTo(held, batch, q.rulings, |batch|).responses))
  }

  // ---------- Delivering one batch ----------

  datatype Uploading = Uploading(held: Held, posting: Posting)

  /** One more request for what is pending, if anything is. */
  function RequestNext(batch: seq<Envelope>, u: Uploading, q: Request): (after: Uploading)
    requires PostingOk(u.posting, |batch|)
    ensures PostingOk(after.posting, |batch|)
  {
    if u.posting.pending == [] then u
    else
      var sent := Select(batch, u.posting.pending);
      Uploading(HeldAfter(u.held, sent, q), PostAgain(batch, u.posting, HttpOf(u.held, sent, q)))
  }

  /** `handle_batch` after at most `k` requests: elements whose answer asks for a retry go out again together. */
  function RequestUpTo(held: Held, batch: seq<Envelope>, requests: seq<Request>, k: nat): (u: Uploading)
    requires k <= |requests|
    ensures PostingOk(u.posting, |batch|)
  {
    if k == 0 then Uploading(held, PostUpTo(batch, [], 0))
    else RequestNext(batch, RequestUpTo(held, batch, requests, k - 1), requests[k - 1])
  }

  function Deliver(held: Held, batch: seq<Envelope>, requests: seq<Request>): (r: Ruled)
    ensures |r.responses| == |batch|
  {
    var u := RequestUpTo(held, batch, requests, |requests|);
    Ruled(u.held, u.posting.results)
  }

  // ---------- One attempt ----------

  /** The requests made for batch `k`; without any, every element keeps its placeholder. */
  function RequestsAt(script: seq<seq<Request>>, k: nat): seq<Request> {
    if k < |script| then script[k] else []
  }

  /** A replay in progress: the store, the report so far, and where the next batch starts. */
  datatype Upload = Upload(held: Held, report: ReplayReport, start: nat)

  function UploadNext(u: Upload, envelopes: seq<Envelope>, requests: seq<Request>): (after: Upload)
    requires u.start <= |envelopes|
    ensures after.start <= |envelopes|
  {
    if u.report.failedIndex.Some? || u.start == |envelopes| then u
    else
      var end := BatchEnd(|envelopes|, DEFAULT_BATCH_SIZE, u.start);
      var d := Deliver(u.held, envelopes[u.start..end], requests);
      Upload(d.held, RecordAll(u.report, u.start, d.responses), end)
  }

  /** `replay_envelopes` against the store, after at most `k` batches. */
  function UploadUpTo(held: Held, envelopes: seq<Envelope>, script: seq<seq<Request>>, k: nat): (u: Upload)
    ensures u.start <= |envelopes|
  {
    if k == 0 then Upload(held, Blank(|envelopes|), 0)
    else UploadNext(UploadUpTo(held, envelopes, script, k - 1), envelopes, RequestsAt(script, k - 1))
  }

  /** How an attempt goes: to its end, or cut off by an exception after some batches. */
  datatype Attempting = Finishes(script: seq<seq<Request>>) | Raises(script: seq<seq<Request>>, batches: nat, text: string)

  /** The store, the receipt's attempts, and whether the file was moved to `synced/`. */
  datatype SyncState = SyncState(held: Held, attempts: seq<Attempt>, retired: bool)

  /** What an attempt leaves in the store and observed: a replay report, or an exception's text. */
  datatype Observed = Observed(held: Held, report: ReplayReport, transportError: Option<string>)

  function Observe(held: Held, envelopes: seq<Envelope>, run: Attempting): Observed {
    match run
    case Finishes(script) =>
      var u := UploadUpTo(held, envelopes, script, |envelopes|);
      Observed(u.held, u.report, None)
    case Raises(script, batches, text) =>
      Observed(UploadUpTo(held, envelopes, script, batches).held, Blank(|envelopes|), Some(text))
  }

  /** Append the attempt; retire the file if the replay was complete. An attempt that cannot be built ends the command. */
  function Conclude(s: SyncState, envelopes: seq<Envelope>, o: Observed): SyncState {
    var attempt := Build(envelopes, o.report, o.transportError);
    if attempt.Err? then s.(held := o.held)
    else SyncState(o.held, s.attempts + [attempt.value], o.transportError.None? && o.report.failedIndex.None?)
  }

  /** A retired file is no longer found by the command. */
  function SyncOne(s: SyncState, envelopes: seq<Envelope>, run: Attempting): SyncState {
    if s.retired then s else Conclude(s, envelopes, Observe(s.held, envelopes, run))
  }

  function SyncAll(s: SyncState, envelopes: seq<Envelope>, runs: seq<Attempting>): SyncState {
    if runs == [] then s else SyncOne(SyncAll(s, envelopes, runs[..|runs| - 1]), envelopes, runs[|runs| - 1])
  }

  /**
   An attempt cut off by an exception is received as one: its text, a transport failure, and
   every record of the file not attempted; the file stays.
   */
  lemma RaisedAttempt(s: SyncState, envelopes: seq<Envelope>, script: seq<seq<Request>>, batches: nat, text: string)
    returns (a: Attempt)
    requires !s.retired
    ensures var after := SyncOne(s, envelopes, Raises(script, batches, text));
            && after.attempts == s.attempts + [a] && !after.retired
            && after.held == UploadUpTo(s.held, envelopes, script, batches).held
    ensures a.recordCount == |envelopes| && a.trouble == Some(Trouble.Raised(text)) && a.disposition == Disposition.TransportFailed
    ensures a.accepted == [] && a.duplicate == [] && a.rejected == [] && a.haltedAtSequence == None
    ensures forall p :: Covers(a.notAttempted, p) <==> 1 <= p <= |envelopes|
  {
    a := Build(envelopes, Blank(|envelopes|), Some(text)).value;
    forall p ensures Covers(a.notAttempted, p) <==> 1 <= p <= |envelopes| {
      PackCovers(Upwards(1, |envelopes|), p);
    }
    assert SortedDistinct([]) == [];
  }

  /** Until a refusal, the file goes up in batches of a hundred. */
  lemma {:induction false} BatchesOfHundred(held: Held, envelopes: seq<Envelope>, script: seq<seq<Request>>, k: nat)
    ensures var u := UploadUpTo(held, envelopes, script, k);
            u.report.failedIndex.None? ==> u.start == if 100 * k < |envelopes| then 100 * k else |envelopes|
  {
    if k != 0 {
      BatchesOfHundred(held, envelopes, script, k - 1);
    }
  }

  // ---------- What a batch does to the store ----------

  /** The store reports a duplicate only for an event it holds. */
  ghost predicate HonestRuling(r: Ruling) {
    r.Refuse? ==> r.code != DuplicateEvent
  }

  ghost predicate HonestRequest(q: Request) {
    forall j :: 0 <= j < |q.rulings| ==> HonestRuling(q.rulings[j])
  }

  ghost predicate Honest(script: seq<seq<Request>>) {
    forall i, j :: 0 <= i < |script| && 0 <= j < |script[i]| ==> HonestRequest(script[i][j])
  }

  ghost predicate HonestBatch(requests: seq<Request>) {
    forall j :: 0 <= j < |requests| ==> HonestRequest(requests[j])
  }

  /** The store keeps what it holds, each event once. */
  ghost predicate Extends(before: Held, after: Held) {
    Distinct(after) && before <= after
  }

  /** An answer in good order: accepted events were not held before, and what was taken is held. */
  ghost predicate Delivered(before: Held, after: Held, event: Id, r: Response) {
    (r.status == Accepted ==> event !in before) && (Taken(r) ==> event in after)
  }

  lemma DeliveredWider(first: Held, before: Held, after: Held, last: Held, event: Id, r: Response)
    requires Delivered(before, after, event, r) && first <= before && after <= last
    ensures Delivered(first, last, event, r)
  {
  }

  lemma RuleOne(held: Held, event: Id, ruling: Ruling)
    requires Distinct(held) && HonestRuling(ruling)
    ensures Extends(held, StoreAfter(held, event, ruling))
    ensures Delivered(held, StoreAfter(held, event, ruling), event, Answer(held, event, ruling))
  {
  }

  lemma {:induction false} RuleMeaning(held: Held, batch: seq<Envelope>, rulings: seq<Ruling>, n: nat)
    requires n <= |batch| && Distinct(held) && forall j :: 0 <= j < |rulings| ==> HonestRuling(rulings[j])
    ensures var r := RuleUpTo(held, batch, rulings, n);
            && Extends(held, r.held)
            && forall i :: 0 <= i < n ==> Delivered(held, r.held, batch[i].eventId, r.responses[i])
  {
    if n != 0 {
      RuleMeaning(held, batch, rulings, n - 1);
      var before := RuleUpTo(held, batch, rulings, n - 1);
      RuleOne(before.held, batch[n - 1].eventId, RulingAt(rulings, n - 1));
      var r := RuleUpTo(held, batch, rulings, n);
      forall i | 0 <= i < n ensures Delivered(held, r.held, batch[i].eventId, r.responses[i]) {
        if i < n - 1 {
          DeliveredWider(held, held, before.held, r.held, batch[i].eventId, r.responses[i]);
        }
      }
    }
  }

  /** One request: the client's reading of its outcome is in good order for each element, heard or not. */
  lemma RequestMeaning(held: Held, batch: seq<Envelope>, q: Request)
    requires Distinct(held) && HonestRequest(q)
    ensures Extends(held, HeldAfter(held, batch, q))
    ensures forall i :: 0 <= i < |batch| ==>
              Delivered(held, HeldAfter(held, batch, q), batch[i].eventId, Interpret(batch, HttpOf(held, batch, q))[i])
  {
    RuleMeaning(held, batch, q.rulings, |batch|);
    var rs := Interpret(batch, HttpOf(held, batch, q));
    if !q.reached || !q.heard {
      forall i | 0 <= i < |batch| ensures !Taken(rs[i]) {
        assert rs[i] in rs;
      }
    }
  }

  ghost predicate BatchDelivered(before: Held, batch: seq<Envelope>, after: Held, rs: seq<Response>) {
    && |rs| == |batch| && Extends(before, after)
    && forall i :: 0 <= i < |batch| ==> Delivered(before, after, batch[i].eventId, rs[i])
  }

  lemma OneMoreRequest(held: Held, batch: seq<Envelope>, u: Uploading, q: Request)
    requires PostingOk(u.posting, |batch|) && HonestRequest(q) && BatchDelivered(held, batch, u.held, u.posting.results)
    ensures var after := RequestNext(batch, u, q); BatchDelivered(held, batch, after.held, after.posting.results)
  {
    if u.posting.pending != [] {
      var sent := Select(batch, u.posting.pending);
      var after := RequestNext(batch, u, q);
      RequestMeaning(u.held, sent, q);
      AttemptStep(batch, u.posting, HttpOf(u.held, sent, q));
      forall i | 0 <= i < |batch| ensures Delivered(held, after.held, batch[i].eventId, after.posting.results[i]) {
        if i in u.posting.pending {
          var j :| 0 <= j < |u.posting.pending| && u.posting.pending[j] == i;
          DeliveredWider(held, u.held, after.held, after.held, sent[j].eventId, after.posting.results[i]);
        } else {
          DeliveredWider(held, held, u.held, after.held, batch[i].eventId, u.posting.results[i]);
        }
      }
    }
  }

  lemma NothingDelivered(held: Held, batch: seq<Envelope>)
    requires Distinct(held)
    ensures BatchDelivered(held, batch, held, PostUpTo(batch, [], 0).results)
  {
  }

  lemma RequestUnfolds(held: Held, batch: seq<Envelope>, requests: seq<Request>, k: nat) returns (u: Uploading)
    requires 0 < k <= |requests|
    ensures PostingOk(u.posting, |batch|) && u == RequestUpTo(held, batch, requests, k - 1)
    ensures RequestUpTo(held, batch, requests, k) == RequestNext(batch, u, requests[k - 1])
  {
    u := RequestUpTo(held, batch, requests, k - 1);
  }

  lemma {:induction false} RequestsMeaning(held: Held, batch: seq<Envelope>, requests: seq<Request>, k: nat)
    requires k <= |requests| && Distinct(held) && HonestBatch(requests)
    ensures var u := RequestUpTo(held, batch, requests, k); BatchDelivered(held, batch, u.held, u.posting.results)
  {
    if k == 0 {
      NothingDelivered(held, batch);
    } else {
      RequestsMeaning(held, batch, requests, k - 1);
      var u := RequestUnfolds(held, batch, requests, k);
      OneMoreRequest(held, batch, u, requests[k - 1]);
    }
  }

  // ---------- What an attempt observed ----------

  /** The report's answers are those the store gave to the envelopes that were sent. */
  ghost predicate UploadOk(before: Held, envelopes: seq<Envelope>, u: Upload) {
    && u.start == |u.report.responses| <= |envelopes| && u.report.total == |envelopes| && Tallied(u.report)
    && BatchDelivered(before, envelopes[..u.start], u.held, u.report.responses)
  }

  lemma Joined(before: Held, envelopes: seq<Envelope>, start: nat, end: nat, mid: Held, rs: seq<Response>, after: Held, more: seq<Response>)
    requires start <= end <= |envelopes|
    requires BatchDelivered(before, envelopes[..start], mid, rs) && BatchDelivered(mid, envelopes[start..end], after, more)
    ensures BatchDelivered(before, envelopes[..end], after, rs + more)
  {
    forall i | 0 <= i < end ensures Delivered(before, after, envelopes[i].eventId, (rs + more)[i]) {
      if i < start {
        assert envelopes[..start][i] == envelopes[i];
        DeliveredWider(before, before, mid, after, envelopes[i].eventId, rs[i]);
      } else {
        assert envelopes[start..end][i - start] == envelopes[i];
        DeliveredWider(before, mid, after, after, envelopes[i].eventId, more[i - start]);
      }
    }
  }

  lemma OneMoreBatch(before: Held, envelopes: seq<Envelope>, u: Upload, requests: seq<Request>)
    requires Distinct(before) && UploadOk(before, envelopes, u) && HonestBatch(requests)
    ensures UploadOk(before, envelopes, UploadNext(u, envelopes, requests))
  {
    if u.report.failedIndex.None? && u.start < |envelopes| {
      var end := BatchEnd(|envelopes|, DEFAULT_BATCH_SIZE, u.start);
      var batch := envelopes[u.start..end];
      RequestsMeaning(u.held, batch, requests, |requests|);
      var d := Deliver(u.held, batch, requests);
      var after := RecordAllTallies(u.report, u.start, d.responses);
      Joined(before, envelopes, u.start, end, u.held, u.report.responses, d.held, d.responses);
    }
  }

  lemma {:induction false} UploadMeaning(before: Held, envelopes: seq<Envelope>, script: seq<seq<Request>>, k: nat)
    requires Distinct(before) && Honest(script)
    ensures UploadOk(before, envelopes, UploadUpTo(before, envelopes, script, k))
  {
    if k != 0 {
      UploadMeaning(before, envelopes, script, k - 1);
      OneMoreBatch(before, envelopes, UploadUpTo(before, envelopes, script, k - 1), RequestsAt(script, k - 1));
    }
  }

  /** Every batch gets on by at least one envelope, so `n` batches suffice. */
  lemma {:induction false} UploadEnds(before: Held, envelopes: seq<Envelope>, script: seq<seq<Request>>, k: nat)
    ensures var u := UploadUpTo(before, envelopes, script, k);
            u.report.failedIndex.Some? || u.start == |envelopes| || k <= u.start
  {
    if k != 0 {
      UploadEnds(before, envelopes, script, k - 1);
    }
  }

  /** What batch `k` is answered, if it is sent. */
  function BatchAnswer(held: Held, envelopes: seq<Envelope>, script: seq<seq<Request>>, k: nat): seq<Response> {
    var u := UploadUpTo(held, envelopes, script, k);
    Deliver(u.held, envelopes[u.start..BatchEnd(|envelopes|, DEFAULT_BATCH_SIZE, u.start)], RequestsAt(script, k)).responses
  }

  function Answers(held: Held, envelopes: seq<Envelope>, script: seq<seq<Request>>, n: nat): (answers: seq<seq<Response>>)
    ensures |answers| == n && forall k :: 0 <= k < n ==> answers[k] == BatchAnswer(held, envelopes, script, k)
  {
    seq(n, k requires 0 <= k < n => BatchAnswer(held, envelopes, script, k))
  }

  /** One batch of an upload, aligned as its answers are. */
  lemma UploadStep(held: Held, envelopes: seq<Envelope>, script: seq<seq<Request>>, k: nat, u: Upload)
    returns (after: Upload, answer: seq<Response>)
    requires u == UploadUpTo(held, envelopes, script, k) && u.report.failedIndex.None? && u.start < |envelopes|
    ensures after == UploadUpTo(held, envelopes, script, k + 1) && answer == BatchAnswer(held, envelopes, script, k)
    ensures after.start == BatchEnd(|envelopes|, DEFAULT_BATCH_SIZE, u.start) && |answer| == after.start - u.start
    ensures after.report == RecordAll(u.report, u.start, answer)
  {
    after, answer := UploadUpTo(held, envelopes, script, k + 1), BatchAnswer(held, envelopes, script, k);
  }

  /** A replay with this report before batch `k`. */
  function Onwards(report: ReplayReport, n: nat, answers: seq<seq<Response>>, start: nat, k: nat): Replayed
    requires start <= n
  {
    if report.failedIndex.Some? then Replayed(report, start)
    else ReplayFrom(report, n, DEFAULT_BATCH_SIZE, answers, start, k)
  }

  /** A replay step on an aligned answer. */
  lemma AlignedReplay(u: Upload, n: nat, answers: seq<seq<Response>>, k: nat, answer: seq<Response>, after: Upload)
    requires u.report.failedIndex.None? && u.start < n && k < |answers| && answers[k] == answer
    requires after.start == BatchEnd(n, DEFAULT_BATCH_SIZE, u.start) && |answer| == after.start - u.start
    requires after.report == RecordAll(u.report, u.start, answer)
    ensures Onwards(u.report, n, answers, u.start, k) == Onwards(after.report, n, answers, after.start, k + 1)
  {
    var now, end := ReplayUnfolds(u.report, n, DEFAULT_BATCH_SIZE, answers, u.start, k);
  }

  lemma UploadOver(held: Held, envelopes: seq<Envelope>, script: seq<seq<Request>>, k: nat, u: Upload, answers: seq<seq<Response>>)
    requires u == UploadUpTo(held, envelopes, script, k) && (u.report.failedIndex.Some? || u.start == |envelopes|)
    ensures UploadUpTo(held, envelopes, script, k + 1) == u
    ensures Onwards(u.report, |envelopes|, answers, u.start, k) == Onwards(u.report, |envelopes|, answers, u.start, k + 1)
  {
  }

  /** The replay of `answers`, taken up where an upload stands after `k` batches. */
  function ReplayAfter(held: Held, envelopes: seq<Envelope>, script: seq<seq<Request>>, answers: seq<seq<Response>>, k: nat): Replayed {
    var u := UploadUpTo(held, envelopes, script, k);
    Onwards(u.report, |envelopes|, answers, u.start, k)
  }

  lemma ReplayStep(held: Held, envelopes: seq<Envelope>, script: seq<seq<Request>>, answers: seq<seq<Response>>, k: nat)
    requires k < |answers| && answers[k] == BatchAnswer(held, envelopes, script, k)
    ensures ReplayAfter(held, envelopes, script, answers, k) == ReplayAfter(held, envelopes, script, answers, k + 1)
  {
    var u := UploadUpTo(held, envelopes, script, k);
    if u.report.failedIndex.None? && u.start < |envelopes| {
      var after, answer := UploadStep(held, envelopes, script, k, u);
      AlignedReplay(u, |envelopes|, answers, k, answer, after);
    } else {
      UploadOver(held, envelopes, script, k, u, answers);
    }
  }

  lemma {:induction false} AllAlike<T>(xs: seq<T>)
    requires xs != [] && forall k :: 0 < k < |xs| ==> xs[k - 1] == xs[k]
    ensures xs[0] == xs[|xs| - 1]
  {
    if 1 < |xs| {
      AllAlike(xs[..|xs| - 1]);
    }
  }

  /** An upload is `replay_envelopes` on the answers the store gave. */
  lemma UploadIsReplay(held: Held, envelopes: seq<Envelope>, script: seq<seq<Request>>)
    ensures var n, u := |envelopes|, UploadUpTo(held, envelopes, script, |envelopes|);
            ReplayFrom(Blank(n), n, Size(DEFAULT_BATCH_SIZE), Answers(held, envelopes, script, n), 0, 0) == Replayed(u.report, u.start)
  {
    var n := |envelopes|;
    var answers := Answers(held, envelopes, script, n);
    var views := seq(n + 1, k requires 0 <= k <= n => ReplayAfter(held, envelopes, script, answers, k));
    forall k | 0 < k < |views| ensures views[k - 1] == views[k] {
      ReplayStep(held, envelopes, script, answers, k - 1);
    }
    AllAlike(views);
    UploadEnds(held, envelopes, script, n);
  }

  lemma Observation(held: Held, envelopes: seq<Envelope>, run: Attempting) returns (o: Observed)
    requires Distinct(held) && Honest(run.script)
    ensures o == Observe(held, envelopes, run) && Extends(held, o.held)
    ensures o.report.total == |envelopes|
    ensures o.transportError.None? ==>
              && ReportOk(o.report) && o.report.failedIndex == FirstRefusal(o.report.responses)
              && |o.report.responses| <= |envelopes|
              && BatchDelivered(held, envelopes[..|o.report.responses|], o.held, o.report.responses)
    ensures o.transportError.Some? ==> o.report == Blank(|envelopes|)
  {
    o := Observe(held, envelopes, run);
    var k := if run.Finishes? then |envelopes| else run.batches;
    UploadMeaning(held, envelopes, run.script, k);
    UploadEnds(held, envelopes, run.script, k);
  }

  lemma AttemptBuilt(envelopes: seq<Envelope>, o: Observed) returns (a: Attempt)
    requires o.report.total == |envelopes|
    requires o.transportError.None? ==> ReportOk(o.report) && o.report.failedIndex == FirstRefusal(o.report.responses)
    requires o.transportError.Some? ==> o.report == Blank(|envelopes|)
    ensures Build(envelopes, o.report, o.transportError) == Ok(a)
    ensures PartitionIsTotal(a) && a.recordCount == |envelopes|
    ensures a.disposition == FullyAccepted <==> o.transportError.None? && o.report.failedIndex.None?
    ensures forall p :: Covers(a.accepted, p) ==>
              1 <= p <= |o.report.responses| <= |envelopes| && o.report.responses[p - 1].status == Accepted
  {
    var built := Build(envelopes, o.report, o.transportError);
    FirstRefusalIsFirst(o.report.responses);
    a := built.value;
    BuiltPartition(envelopes, o.report, o.transportError);
    if o.transportError.None? {
      AttemptMeaning(envelopes, o.report, o.transportError);
    }
    forall p | Covers(a.accepted, p)
      ensures 1 <= p <= |o.report.responses| && o.report.responses[p - 1].status == Accepted
    {
      BuiltBuckets(envelopes, o.report, o.transportError, p);
    }
  }

  // ---------- The invariant over all attempts ----------

  /** What an attempt says it delivered, the store holds. */
  ghost predicate ClaimsHeld(a: Attempt, envelopes: seq<Envelope>, held: Held) {
    forall p :: Covers(a.accepted, p) ==> 1 <= p <= |envelopes| && envelopes[p - 1].eventId in held
  }

  /** No position accepted in one attempt is accepted in the other. */
  ghost predicate DisjointClaims(a: Attempt, b: Attempt) {
    forall p :: Covers(a.accepted, p) ==> !Covers(b.accepted, p)
  }

  ghost predicate Pairwise(attempts: seq<Attempt>) {
    forall i, j :: 0 <= i < j < |attempts| ==> DisjointClaims(attempts[i], attempts[j])
  }

  ghost predicate AllHeld(envelopes: seq<Envelope>, held: Held) {
    forall i :: 0 <= i < |envelopes| ==> envelopes[i].eventId in held
  }

  ghost predicate AllClaimsHeld(attempts: seq<Attempt>, envelopes: seq<Envelope>, held: Held) {
    forall i :: 0 <= i < |attempts| ==> ClaimsHeld(attempts[i], envelopes, held)
  }

  ghost predicate AllPartition(attempts: seq<Attempt>, n: nat) {
    forall i :: 0 <= i < |attempts| ==> PartitionIsTotal(attempts[i]) && attempts[i].recordCount == n
  }

  /** Only the last attempt can be `fully_accepted`. */
  ghost predicate OnlyLastComplete(attempts: seq<Attempt>) {
    forall i :: 0 <= i < |attempts| - 1 ==> attempts[i].disposition != FullyAccepted
  }

  ghost predicate SyncOk(s: SyncState, envelopes: seq<Envelope>) {
    && Distinct(s.held)
    && AllPartition(s.attempts, |envelopes|)
    && AllClaimsHeld(s.attempts, envelopes, s.held)
    && Pairwise(s.attempts)
    && OnlyLastComplete(s.attempts)
    && (s.retired <==> s.attempts != [] && s.attempts[|s.attempts| - 1].disposition == FullyAccepted)
    && (s.retired ==> AllHeld(envelopes, s.held))
  }

  ghost predicate NewClaims(a: Attempt, envelopes: seq<Envelope>, before: Held) {
    forall p :: Covers(a.accepted, p) ==> 1 <= p <= |envelopes| && envelopes[p - 1].eventId !in before
  }

  lemma ClaimsDisjoint(old_: Attempt, a: Attempt, envelopes: seq<Envelope>, before: Held)
    requires ClaimsHeld(old_, envelopes, before) && NewClaims(a, envelopes, before)
    ensures DisjointClaims(old_, a)
  {
  }

  lemma PairwiseExtended(attempts: seq<Attempt>, a: Attempt, envelopes: seq<Envelope>, before: Held)
    requires Pairwise(attempts) && AllClaimsHeld(attempts, envelopes, before) && NewClaims(a, envelopes, before)
    ensures Pairwise(attempts + [a])
  {
    forall i | 0 <= i < |attempts| ensures DisjointClaims(attempts[i], a) {
      ClaimsDisjoint(attempts[i], a, envelopes, before);
    }
  }

  lemma ClaimsExtended(attempts: seq<Attempt>, a: Attempt, envelopes: seq<Envelope>, before: Held, held: Held)
    requires AllClaimsHeld(attempts, envelopes, before) && before <= held && ClaimsHeld(a, envelopes, held)
    ensures AllClaimsHeld(attempts + [a], envelopes, held)
  {
    forall i | 0 <= i < |attempts| ensures ClaimsHeld(attempts[i], envelopes, held) {
      assert ClaimsHeld(attempts[i], envelopes, before);
    }
  }

  lemma PartitionExtended(attempts: seq<Attempt>, a: Attempt, n: nat)
    requires AllPartition(attempts, n) && PartitionIsTotal(a) && a.recordCount == n
    ensures AllPartition(attempts + [a], n)
  {
  }

  lemma LastExtended(s: SyncState, a: Attempt)
    requires OnlyLastComplete(s.attempts) && !s.retired
    requires s.retired <==> s.attempts != [] && s.attempts[|s.attempts| - 1].disposition == FullyAccepted
    ensures OnlyLastComplete(s.attempts + [a])
  {
  }

  lemma Assembled(held: Held, longer: seq<Attempt>, attempts: seq<Attempt>, a: Attempt, envelopes: seq<Envelope>)
    requires longer == attempts + [a] && Distinct(held)
    requires AllPartition(longer, |envelopes|) && AllClaimsHeld(longer, envelopes, held)
    requires Pairwise(longer) && OnlyLastComplete(longer)
    requires a.disposition == FullyAccepted ==> AllHeld(envelopes, held)
    ensures SyncOk(SyncState(held, longer, a.disposition == FullyAccepted), envelopes)
  {
    assert longer[|longer| - 1] == a;
  }

  /** One more attempt, whose accepted events are new to the store. */
  lemma Extended(s: SyncState, held: Held, envelopes: seq<Envelope>, a: Attempt)
    requires SyncOk(s, envelopes) && !s.retired && s.held <= held && Distinct(held)
    requires PartitionIsTotal(a) && a.recordCount == |envelopes|
    requires ClaimsHeld(a, envelopes, held) && NewClaims(a, envelopes, s.held)
    requires a.disposition == FullyAccepted ==> AllHeld(envelopes, held)
    ensures SyncOk(SyncState(held, s.attempts + [a], a.disposition == FullyAccepted), envelopes)
  {
    PairwiseExtended(s.attempts, a, envelopes, s.held);
    ClaimsExtended(s.attempts, a, envelopes, s.held, held);
    PartitionExtended(s.attempts, a, |envelopes|);
    LastExtended(s, a);
    Assembled(held, s.attempts + [a], s.attempts, a, envelopes);
  }

  /** The attempt a run adds: what it claims was not in the store before and is now. */
  lemma AttemptAdded(s: SyncState, envelopes: seq<Envelope>, run: Attempting) returns (held: Held, a: Attempt)
    requires !s.retired && Distinct(s.held) && Honest(run.script)
    ensures SyncOne(s, envelopes, run) == SyncState(held, s.attempts + [a], a.disposition == FullyAccepted)
    ensures Extends(s.held, held)
    ensures PartitionIsTotal(a) && a.recordCount == |envelopes|
    ensures ClaimsHeld(a, envelopes, held) && NewClaims(a, envelopes, s.held)
    ensures a.disposition == FullyAccepted ==> AllHeld(envelopes, held)
  {
    var o := Observation(s.held, envelopes, run);
    a := AttemptBuilt(envelopes, o);
    held := o.held;
    var rs := o.report.responses;
    forall p | Covers(a.accepted, p)
      ensures 1 <= p <= |envelopes| && envelopes[p - 1].eventId in held && envelopes[p - 1].eventId !in s.held
    {
      assert Delivered(s.held, held, envelopes[..|rs|][p - 1].eventId, rs[p - 1]);
    }
    if a.disposition == FullyAccepted {
      FirstRefusalIsFirst(rs);
      forall i | 0 <= i < |envelopes| ensures envelopes[i].eventId in held {
        assert Delivered(s.held, held, envelopes[..|rs|][i].eventId, rs[i]);
      }
    }
  }

  lemma SyncOneKeeps(s: SyncState, envelopes: seq<Envelope>, run: Attempting)
    requires SyncOk(s, envelopes) && Honest(run.script)
    ensures SyncOk(SyncOne(s, envelopes, run), envelopes)
    ensures s.attempts <= SyncOne(s, envelopes, run).attempts && s.held <= SyncOne(s, envelopes, run).held
  {
    if !s.retired {
      var held, a := AttemptAdded(s, envelopes, run);
      Extended(s, held, envelopes, a);
    }
  }

  /**
   Over any number of attempts, from any store: the store holds no event twice and
   never lets go of one, the receipt only grows, each attempt partitions the file, a
   position is accepted in at most one attempt, and the file is retired exactly when
   the latest attempt is `fully_accepted`, which only happens once the store holds
   every envelope in it.
   */
  lemma {:induction false} SyncSafety(held: Held, envelopes: seq<Envelope>, runs: seq<Attempting>)
    requires Distinct(held) && forall i :: 0 <= i < |runs| ==> Honest(runs[i].script)
    ensures SyncOk(SyncAll(SyncState(held, [], false), envelopes, runs), envelopes)
    ensures held <= SyncAll(SyncState(held, [], false), envelopes, runs).held
  {
    if runs != [] {
      SyncSafety(held, envelopes, runs[..|runs| - 1]);
      SyncOneKeeps(SyncAll(SyncState(held, [], false), envelopes, runs[..|runs| - 1]), envelopes, runs[|runs| - 1]);
    }
  }

  /** Earlier attempts are never rewritten. */
  lemma {:induction false} ReceiptsAppendOnly(s: SyncState, envelopes: seq<Envelope>, runs: seq<Attempting>, n: nat)
    requires n <= |runs| && SyncOk(s, envelopes) && forall i :: 0 <= i < |runs| ==> Honest(runs[i].script)
    ensures SyncOk(SyncAll(s, envelopes, runs), envelopes)
    ensures SyncAll(s, envelopes, runs[..n]).attempts <= SyncAll(s, envelopes, runs).attempts
  {
    if n == |runs| {
      assert runs[..n] == runs;
      if runs != [] {
        ReceiptsAppendOnly(s, envelopes, runs[..|runs| - 1], |runs| - 1);
        SyncOneKeeps(SyncAll(s, envelopes, runs[..|runs| - 1]), envelopes, runs[|runs| - 1]);
      }
    } else {
      ReceiptsAppendOnly(s, envelopes, runs[..|runs| - 1], n);
      assert runs[..|runs| - 1][..n] == runs[..n];
      SyncOneKeeps(SyncAll(s, envelopes, runs[..|runs| - 1]), envelopes, runs[|runs| - 1]);
    }
  }

  // ---------- Progress ----------

  predicate GotThrough(q: Request) {
    q.reached && q.heard
  }

  ghost predicate TakesAll(q: Request) {
    forall j :: 0 <= j < |q.rulings| ==> q.rulings[j].Take?
  }

  /** The store refuses nothing; requests or answers may be lost, but not all of them. */
  ghost predicate Outlasted(requests: seq<Request>) {
    && (forall j :: 0 <= j < |requests| ==> TakesAll(requests[j]))
    && exists j :: 0 <= j < |requests| && GotThrough(requests[j])
  }

  ghost predicate NoneThrough(requests: seq<Request>, k: nat)
    requires k <= |requests|
  {
    forall j :: 0 <= j < k ==> !GotThrough(requests[j])
  }

  lemma {:induction false} TakingRules(held: Held, batch: seq<Envelope>, q: Request, n: nat)
    requires n <= |batch| && TakesAll(q)
    ensures AllTaken(RuleUpTo(held, batch, q.rulings, n).responses)
    ensures forall i :: 0 <= i < n ==> !NeedsRetry(RuleUpTo(held, batch, q.rulings, n).responses[i])
  {
    if n != 0 {
      TakingRules(held, batch, q, n - 1);
    }
  }

  /** Nothing went through yet and everything is pending, or something did and everything is taken. */
  ghost predicate AllOrNothing(through: bool, u: Uploading, n: nat) {
    && PostingOk(u.posting, n)
    && if through then u.posting.pending == [] && AllTaken(u.posting.results)
       else forall i :: 0 <= i < n ==> i in u.posting.pending
  }

  lemma SomePending(slots: seq<nat>, n: nat)
    requires slots != [] && Slots(slots, n)
    ensures exists i: nat :: i < n && i in slots
  {
    assert slots[0] in slots;
  }

  lemma OneGoesThrough(batch: seq<Envelope>, u: Uploading, q: Request)
    requires TakesAll(q) && AllOrNothing(false, u, |batch|) && u.posting.pending != []
    ensures AllOrNothing(GotThrough(q), RequestNext(batch, u, q), |batch|)
  {
    var sent := Select(batch, u.posting.pending);
    var outcome := HttpOf(u.held, sent, q);
    var rs, after := Interpret(sent, outcome), RequestNext(batch, u, q).posting;
    TakingRules(u.held, sent, q, |sent|);
    AttemptStep(batch, u.posting, outcome);
    forall i | 0 <= i < |batch|
      ensures GotThrough(q) ==> Taken(after.results[i]) && i !in after.pending
      ensures !GotThrough(q) ==> i in after.pending
    {
      assert i in u.posting.pending;
      var j :| 0 <= j < |u.posting.pending| && u.posting.pending[j] == i;
      assert after.results[i] == rs[j] && rs[j] in rs;
    }
    if after.pending != [] {
      SomePending(after.pending, |batch|);
    }
  }

  lemma {:induction false} ThroughOrPending(held: Held, batch: seq<Envelope>, requests: seq<Request>, k: nat)
    requires k <= |requests| && batch != [] && forall j :: 0 <= j < |requests| ==> TakesAll(requests[j])
    ensures AllOrNothing(!NoneThrough(requests, k), RequestUpTo(held, batch, requests, k), |batch|)
  {
    if k == 0 {
      forall i | 0 <= i < |batch| ensures i in RequestUpTo(held, batch, requests, 0).posting.pending {
        AllPending(batch, i);
      }
    } else {
      ThroughOrPending(held, batch, requests, k - 1);
      var u := RequestUpTo(held, batch, requests, k - 1);
      if NoneThrough(requests, k - 1) {
        assert 0 in u.posting.pending;
        OneGoesThrough(batch, u, requests[k - 1]);
      }
    }
  }

  lemma AllPending(batch: seq<Envelope>, i: nat)
    requires i < |batch|
    ensures i in PostUpTo(batch, [], 0).pending
  {
    assert PostUpTo(batch, [], 0).pending[i] == i;
  }

  lemma OutlastedIsTaken(held: Held, batch: seq<Envelope>, requests: seq<Request>)
    requires batch != [] && Outlasted(requests)
    ensures AllTaken(Deliver(held, batch, requests).responses)
  {
    ThroughOrPending(held, batch, requests, |requests|);
  }

  ghost predicate AllOutlasted(script: seq<seq<Request>>, batches: nat) {
    batches <= |script| && forall k :: 0 <= k < batches ==> Outlasted(script[k])
  }

  /** How many batches a file of `n` envelopes takes. */
  function Batches(n: nat): nat {
    (n + DEFAULT_BATCH_SIZE - 1) / DEFAULT_BATCH_SIZE
  }

  /** All so far was answered and taken. */
  ghost predicate AllThrough(u: Upload, n: nat) {
    u.start <= n && Tallied(u.report) && u.report.failedIndex.None? && |u.report.responses| == u.start
  }

  lemma BatchThrough(u: Upload, envelopes: seq<Envelope>, requests: seq<Request>)
    requires AllThrough(u, |envelopes|) && u.start < |envelopes| && Outlasted(requests)
    ensures var after := UploadNext(u, envelopes, requests);
            AllThrough(after, |envelopes|) && after.start == BatchEnd(|envelopes|, DEFAULT_BATCH_SIZE, u.start)
  {
    var end := BatchEnd(|envelopes|, DEFAULT_BATCH_SIZE, u.start);
    OutlastedIsTaken(u.held, envelopes[u.start..end], requests);
    var d := Deliver(u.held, envelopes[u.start..end], requests);
    var after := RecordAllTallies(u.report, u.start, d.responses);
    FirstRefusalIsFirst(u.report.responses);
    FirstRefusalIsFirst(after.responses);
  }

  lemma {:induction false} OutlastedUpload(held: Held, envelopes: seq<Envelope>, script: seq<seq<Request>>, k: nat)
    requires AllOutlasted(script, Batches(|envelopes|))
    ensures var u := UploadUpTo(held, envelopes, script, k);
            AllThrough(u, |envelopes|) && u.start == Min(|envelopes|, k * DEFAULT_BATCH_SIZE)
  {
    if k != 0 {
      OutlastedUpload(held, envelopes, script, k - 1);
      var u := UploadUpTo(held, envelopes, script, k - 1);
      if u.start < |envelopes| {
        assert Outlasted(RequestsAt(script, k - 1));
        BatchThrough(u, envelopes, RequestsAt(script, k - 1));
      }
    }
  }

  /**
   An attempt in which the store refuses nothing, and in every batch some request goes
   through and is answered, retires the file, whatever was lost before and whatever
   earlier attempts left behind.
   */
  lemma OutlastedOutagesRetire(s: SyncState, envelopes: seq<Envelope>, script: seq<seq<Request>>)
    requires !s.retired && AllOutlasted(script, Batches(|envelopes|))
    ensures SyncOne(s, envelopes, Finishes(script)).retired
  {
    OutlastedUpload(s.held, envelopes, script, |envelopes|);
    assert |envelopes| <= |envelopes| * DEFAULT_BATCH_SIZE;
  }
}
