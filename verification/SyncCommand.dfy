/**
 `_sync_one` as it runs: the store and the spool file are objects it updates, batch by
 batch and request by request.
 */
module SyncCommand {
  import opened Common
  import opened Wire
  import opened Cloud
  import opened Replay
  import opened Receipt
  import opened Sync

  /** A store that holds each event once. */
  class EventStore {
    var held: Held

    constructor (held: Held)
      ensures this.held == held
    {
      this.held := held;
    }

    method RuleOn(batch: seq<Envelope>, rulings: seq<Ruling>) returns (responses: seq<Response>)
      modifies this
      ensures Ruled(held, responses) == RuleUpTo(old(held), batch, rulings, |batch|)
    {
      responses := [];
      for i := 0 to |batch|
        invariant Ruled(held, responses) == RuleUpTo(old(held), batch, rulings, i)
      {
        var event, ruling := batch[i].eventId, RulingAt(rulings, i);
        if event in held {
          responses := responses + [Reject(event, DuplicateEvent, "", false)];
        } else if ruling.Take? {
          held := held + [event];
          responses := responses + [Accept(event, None, None, None)];
        } else {
          responses := responses + [Reject(event, ruling.code, ruling.message, ruling.retryable)];
        }
      }
    }

    method Receive(batch: seq<Envelope>, q: Request) returns (outcome: HttpOutcome)
      modifies this
      ensures held == HeldAfter(old(held), batch, q) && outcome == HttpOf(old(held), batch, q)
    {
      if !q.reached {
        return HttpOutcome.TransportFailed;
      }
      var responses := RuleOn(batch, q.rulings);
      outcome := if q.heard then HttpAnswer(200, Some(responses)) else RequestTimedOut;
    }
  }

  lemma {:induction false} NothingPendingStays(held: Held, batch: seq<Envelope>, requests: seq<Request>, k: nat, m: nat)
    requires k <= m <= |requests| && RequestUpTo(held, batch, requests, k).posting.pending == []
    ensures RequestUpTo(held, batch, requests, m) == RequestUpTo(held, batch, requests, k)
  {
    if k < m {
      NothingPendingStays(held, batch, requests, k, m - 1);
    }
  }

  lemma RequestStep(held: Held, batch: seq<Envelope>, requests: seq<Request>, k: nat, u: Uploading) returns (after: Uploading)
    requires k < |requests| && u == RequestUpTo(held, batch, requests, k) && u.posting.pending != []
    ensures after == RequestUpTo(held, batch, requests, k + 1)
    ensures var elements := Select(batch, u.posting.pending);
            var rs := Interpret(elements, HttpOf(u.held, elements, requests[k]));
            && after.held == HeldAfter(u.held, elements, requests[k])
            && after.posting == Posting(Fill(u.posting.results, u.posting.pending, rs),
                                        RetryUpTo(u.posting.pending, rs, |rs|), u.posting.sent + [u.posting.pending])
  {
    after := RequestUpTo(held, batch, requests, k + 1);
  }

  /** One batch: what is answered retryably goes out again, all of it together. */
  method DeliverBatch(store: EventStore, batch: seq<Envelope>, requests: seq<Request>) returns (results: seq<Response>)
    modifies store
    ensures Ruled(store.held, results) == Deliver(old(store.held), batch, requests)
  {
    results := seq(|batch|, _ => PLACEHOLDER);
    var pending := Indices(|batch|);
    ghost var sent: seq<seq<nat>> := [];
    for attempt := 0 to |requests|
      invariant |results| == |batch| && PostingOk(Posting(results, pending, sent), |batch|)
      invariant RequestUpTo(old(store.held), batch, requests, attempt) == Uploading(store.held, Posting(results, pending, sent))
    {
      if pending == [] {
        NothingPendingStays(old(store.held), batch, requests, attempt, |requests|);
        return;
      }
      ghost var after := RequestStep(old(store.held), batch, requests, attempt, Uploading(store.held, Posting(results, pending, sent)));
      var elements := Select(batch, pending);
      var outcome := store.Receive(elements, requests[attempt]);
      var responses := Interpret(elements, outcome);
      results := Fill(results, pending, responses);
      sent := sent + [pending];
      pending := RetryUpTo(pending, responses, |responses|);
    }
  }

  lemma {:induction false} UploadStays(held: Held, envelopes: seq<Envelope>, script: seq<seq<Request>>, k: nat, m: nat)
    requires k <= m
    requires var u := UploadUpTo(held, envelopes, script, k); u.report.failedIndex.Some? || u.start == |envelopes|
    ensures UploadUpTo(held, envelopes, script, m) == UploadUpTo(held, envelopes, script, k)
  {
    if k < m {
      UploadStays(held, envelopes, script, k, m - 1);
    }
  }

  /** One session's spool file: its envelopes, its receipt, and whether it was moved to `synced/`. */
  class SpoolFile {
    const envelopes: seq<Envelope>
    var attempts: seq<Attempt>
    var retired: bool

    constructor (envelopes: seq<Envelope>)
      ensures this.envelopes == envelopes && attempts == [] && !retired
    {
      this.envelopes, attempts, retired := envelopes, [], false;
    }

    ghost function View(store: EventStore): SyncState
      reads this, store
    {
      SyncState(store.held, attempts, retired)
    }

    /** Send up to `limit` batches, halting after the first that holds a refusal. */
    method Upload(store: EventStore, script: seq<seq<Request>>, limit: nat) returns (report: ReplayReport)
      modifies store
      ensures store.held == UploadUpTo(old(store.held), envelopes, script, limit).held
      ensures report == UploadUpTo(old(store.held), envelopes, script, limit).report
    {
      report := Blank(|envelopes|);
      var start := 0;
      for k := 0 to limit
        invariant start <= |envelopes|
        invariant UploadUpTo(old(store.held), envelopes, script, k) == Sync.Upload(store.held, report, start)
      {
        if report.failedIndex.Some? || start == |envelopes| {
          UploadStays(old(store.held), envelopes, script, k, limit);
          return;
        }
        var end := BatchEnd(|envelopes|, DEFAULT_BATCH_SIZE, start);
        var responses := DeliverBatch(store, envelopes[start..end], RequestsAt(script, k));
        report := SendBatch(report, envelopes[start..end], start, responses);
        start := end;
      }
    }

    /** Returns 1 if the file is unfinished. */
    method SyncOne(store: EventStore, run: Attempting) returns (r: Result<nat, BuildError>)
      requires !retired
      modifies this, store
      ensures View(store) == Sync.SyncOne(old(View(store)), envelopes, run)
      ensures r.Ok? ==> (r.value == 0 <==> retired) && r.value <= 1 && |attempts| == |old(attempts)| + 1
      ensures r.Err? ==> !retired && attempts == old(attempts)
    {
      var report := Upload(store, run.script, if run.Finishes? then |envelopes| else run.batches);
      var error: Option<string> := None;
      if run.Raises? {
        report, error := Blank(|envelopes|), Some(run.text);
      }
      var attempt := BuildAttempt(envelopes, report, error);
      if attempt.Err? {
        return Err(attempt.error);
      }
      attempts := attempts + [attempt.value];
      if error.Some? {
        return Ok(1);
      }
      if report.failedIndex.None? {
        retired := true;
        return Ok(0);
      }
      r := Ok(1);
    }
  }
}
