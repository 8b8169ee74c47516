/**
 `HttpIngestClient` as an object: fields updated by its methods, envelopes
 sealed in place in the caller's array; and what one call promises its caller.
 */
module CloudClient {
  import opened Common
  import opened Hashing
  import opened Wire
  import opened Chains
  import opened Cloud

  class HttpIngestClient {
    const cfg: Config
    var chains: map<Id, Tail>
    var minted: nat
    var spooling: bool
    var spoolReason: Option<ErrorCode>
    var ledgers: map<Id, Ledger>
    var files: map<Id, seq<Entry>>
    var seen: set<Id>

    constructor (cfg: Config)
      ensures this.cfg == cfg && View() == Client(map[], 0, false, None, map[], map[], {})
    {
      this.cfg := cfg;
      chains, minted, spooling, spoolReason := map[], 0, false, None;
      ledgers, files, seen := map[], map[], {};
    }

    function View(): Client
      reads this
    {
      Client(chains, minted, spooling, spoolReason, ledgers, files, seen)
    }

    /** Seal every unsealed action in place, stopping at a payload that is only partly sealed. */
    method SealAll(envelopes: array<Envelope>) returns (error: Option<SealError>)
      modifies this`chains, this`minted, envelopes
      ensures SealedBatch(View(), envelopes[..], error) == SealUpTo(old(View()), old(envelopes[..]), envelopes.Length)
    {
      ghost var c, original := View(), envelopes[..];
      for i := 0 to envelopes.Length
        invariant SealedBatch(View(), envelopes[..], None) == SealUpTo(c, original, i)
        invariant forall j :: i <= j < envelopes.Length ==> envelopes[j] == original[j]
      {
        var e := envelopes[i];
        if WantsSeal(e) {
          var state := new ChainState(TailFor(chains, e.sessionId));
          var seal := state.Seal(e.sessionId, minted, e.body.action);
          if seal.Err? {
            SealStaysFailed(c, original, i + 1, envelopes.Length);
            return Some(seal.error);
          }
          chains := chains[e.sessionId := state.View()];
          minted := minted + 1;
          envelopes[i] := SealEnvelope(e, seal.value);
        }
      }
      error := None;
    }

    method Spool(e: Envelope, disk: Disk) returns (answer: SpoolAnswer)
      modifies this`chains, this`minted, this`files, this`seen
      ensures Spooled(View(), answer) == SpoolEnvelope(old(View()), e, disk)
    {
      seen := seen - disk.evicted;
      if e.eventId in seen {
        return Answered(Reject(e.eventId, DuplicateEvent, "already handled", false));
      }
      var entry: Entry;
      if e.body.ActionRecord? {
        var state := new ChainState(TailFor(chains, e.sessionId));
        var seal := state.Seal(e.sessionId, minted, e.body.action);
        if seal.Err? {
          return SealFault(seal.error);
        }
        if !IsSealed(e.body.action) {
          minted := minted + 1;
        }
        chains := chains[e.sessionId := state.View()];
        var row := RowOf(e.sessionId, e.body.action, seal.value);
        entry := ActionEntry(e.eventId, row);
        answer := Answered(Accept(e.eventId, Some(row.actionId), Some(row.number), Some(row.selfHash)));
      } else {
        var entity: Option<Id> := None;
        if e.body.DecisionRecord? || e.body.ApprovalRecord? {
          entity := Some(minted);
          minted := minted + 1;
        }
        entry := OtherEntry(e.eventId);
        answer := Answered(Accept(e.eventId, entity, None, None));
      }
      if !disk.writable {
        return DiskError;
      }
      files := Append(files, e.sessionId, entry);
      seen := seen + {e.eventId};
    }

    /** A control record fails closed; anything else is accounted for, then dropped or raised. */
    method AccountForLoss(e: Envelope, reason: string) returns (r: Result<Response, Failure>)
      modifies this`ledgers
      ensures Written(View(), r) == OnWriteFailure(old(View()), cfg, e, reason)
    {
      if IsControlRecord(e) {
        return Err(HitlPersistence);
      }
      ledgers := ledgers[e.sessionId := RecordLoss(LedgerFor(ledgers, e.sessionId), SequenceOf(e), reason)];
      if cfg.failOnLoss {
        return Err(RecordPersistence);
      }
      r := Ok(Reject(e.eventId, InternalError, "record dropped", false));
    }

    method WriteEnvelope(e: Envelope, disk: Disk) returns (r: Result<Response, Failure>)
      modifies this`chains, this`minted, this`files, this`seen, this`ledgers
      ensures Written(View(), r) == WriteOne(old(View()), cfg, e, disk)
    {
      var answer := Spool(e, disk);
      match answer {
        case SealFault(error) =>
          return Err(BadSeal(error));
        case Answered(response) =>
          r := Ok(response);
        case DiskError =>
          r := AccountForLoss(e, disk.reason);
          if r.Err? {
            return;
          }
      }
      var ledger := LedgerFor(ledgers, e.sessionId);
      if e.body.SessionClose? && ledger.count != 0 && disk.annotatable {
        files := Append(files, e.sessionId, LossEntry(ledger));
      }
    }

    method WriteToSpool(envelopes: seq<Envelope>, disk: seq<Disk>) returns (r: Result<seq<Response>, Failure>)
      modifies this`chains, this`minted, this`files, this`seen, this`ledgers
      ensures var w := WriteUpTo(old(View()), cfg, envelopes, disk, |envelopes|);
              View() == w.client && r == if w.failure.Some? then Err(w.failure.value) else Ok(w.responses)
    {
      ghost var c := View();
      var responses: seq<Response> := [];
      for i := 0 to |envelopes|
        invariant Writing(View(), responses, i, None) == WriteUpTo(c, cfg, envelopes, disk, i)
      {
        var written := WriteEnvelope(envelopes[i], DiskAt(disk, i));
        if written.Err? {
          WriteStaysFailed(c, cfg, envelopes, disk, i + 1, |envelopes|);
          return Err(written.error);
        }
        responses := responses + [written.value];
      }
      r := Ok(responses);
    }

    /** The bounded retry loop over whatever is still pending. */
    method Post(envelopes: seq<Envelope>, wire: seq<HttpOutcome>) returns (results: seq<Response>, ghost sent: seq<seq<nat>>)
      requires envelopes != []
      ensures results == PostUpTo(envelopes, wire, cfg.Attempts()).results
      ensures sent == PostUpTo(envelopes, wire, cfg.Attempts()).sent
    {
      results := seq(|envelopes|, _ => PLACEHOLDER);
      var pending: seq<nat> := Indices(|envelopes|);
      sent := [];
      var attempt := 0;
      while attempt < cfg.Attempts()
        invariant attempt <= cfg.Attempts()
        invariant Posting(results, pending, sent) == PostUpTo(envelopes, wire, attempt)
        invariant pending != [] || attempt == cfg.Attempts()
      {
        PostUnfolds(envelopes, wire, attempt);
        var responses := Interpret(Select(envelopes, pending), WireAt(wire, attempt));
        sent := sent + [pending];
        results := Fill(results, pending, responses);
        pending := RetryUpTo(pending, responses, |responses|);
        if pending == [] {
          ghost var last := NothingPending(envelopes, wire, attempt + 1, cfg.Attempts());
          return;
        }
        attempt := attempt + 1;
      }
    }

    method HandleBatch(envelopes: array<Envelope>, wire: seq<HttpOutcome>, disk: seq<Disk>)
      returns (r: Result<seq<Response>, Failure>, ghost sent: seq<seq<nat>>)
      modifies this, envelopes
      ensures BatchOutcome(View(), envelopes[..], sent, r) == Cloud.HandleBatch(old(View()), cfg, old(envelopes[..]), wire, disk)
    {
      sent := [];
      if envelopes.Length == 0 {
        EmptyBatch(View(), cfg, envelopes[..], wire, disk);
        return Ok([]), sent;
      }
      var error := SealAll(envelopes);
      if error.Some? {
        return Err(BadSeal(error.value)), sent;
      }
      ghost var b := SealedBatch(View(), envelopes[..], None);
      if spooling {
        SelectAll(envelopes[..]);
        r := WriteToSpool(envelopes[..], disk);
        if r.Ok? {
          FillAll(PlanBatch(b, cfg, wire).results, r.value);
        }
        return;
      }
      var results;
      results, sent := Post(envelopes[..], wire);
      var unsent := Unsent(results);
      if unsent == [] || !cfg.spoolEnabled {
        return Ok(results), sent;
      }
      spooling, spoolReason := true, results[unsent[0]].code;
      var spooled := WriteToSpool(Select(envelopes[..], unsent), disk);
      r := if spooled.Err? then Err(spooled.error) else Ok(Fill(results, unsent, spooled.value));
    }
  }

  // ---------- Early exits agree with the loops run to the end ----------

  lemma {:induction false} SealStaysFailed(c: Client, envelopes: seq<Envelope>, k: nat, n: nat)
    requires k <= n <= |envelopes| && SealUpTo(c, envelopes, k).error.Some?
    ensures SealUpTo(c, envelopes, n) == SealUpTo(c, envelopes, k)
  {
    if k < n {
      SealStaysFailed(c, envelopes, k, n - 1);
    }
  }

  lemma PostUnfolds(envelopes: seq<Envelope>, wire: seq<HttpOutcome>, k: nat)
    requires |PostUpTo(envelopes, wire, k).pending| != 0
    ensures PostUpTo(envelopes, wire, k + 1) == PostAgain(envelopes, PostUpTo(envelopes, wire, k), WireAt(wire, k))
  {
  }

  lemma OnceEmpty(envelopes: seq<Envelope>, wire: seq<HttpOutcome>, n: nat)
    requires |PostUpTo(envelopes, wire, n).pending| == 0
    ensures PostUpTo(envelopes, wire, n + 1) == PostUpTo(envelopes, wire, n)
  {
  }

  lemma {:induction false} NothingPending(envelopes: seq<Envelope>, wire: seq<HttpOutcome>, k: nat, n: nat) returns (p: Posting)
    requires k <= n && |PostUpTo(envelopes, wire, k).pending| == 0
    ensures p == PostUpTo(envelopes, wire, n) && p == PostUpTo(envelopes, wire, k)
    decreases n - k
  {
    if k == n {
      p := PostUpTo(envelopes, wire, k);
    } else {
      OnceEmpty(envelopes, wire, k);
      p := NothingPending(envelopes, wire, k + 1, n);
    }
  }

  lemma SelectAll(envelopes: seq<Envelope>)
    ensures Select(envelopes, Indices(|envelopes|)) == envelopes
  {
  }

  lemma FillAll(before: seq<Response>, after: seq<Response>)
    requires |before| == |after|
    ensures Fill(before, Indices(|before|), after) == after
  {
    FillAt(before, Indices(|before|), after);
    forall i | 0 <= i < |before| ensures Fill(before, Indices(|before|), after)[i] == after[i] {
      assert Indices(|before|)[i] == i;
    }
  }

  lemma EmptyBatch(c: Client, cfg: Config, envelopes: seq<Envelope>, wire: seq<HttpOutcome>, disk: seq<Disk>)
    requires envelopes == []
    ensures Cloud.HandleBatch(c, cfg, envelopes, wire, disk) == BatchOutcome(c, [], [], Ok([]))
  {
    var p := NothingPending(envelopes, wire, 0, cfg.Attempts());
  }
}
