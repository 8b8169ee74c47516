/**
 The cloud transport with its offline spool (rootsign/sdk/client.py,
 rootsign/sdk/loss_ledger.py, and the writer of rootsign/sdk/jsonl_client.py).

 The network and the disk are parameters: `wire[k]` is what attempt `k` meets,
 `disk[i]` what the i-th spool write meets. Past the end of these scripts
 requests time out and the disk is full.
 */
module Cloud {
  import opened Common
  import opened Hashing
  import opened Wire
  import opened Chains

  datatype Config = Config(spoolEnabled: bool, maxRetries: int, failOnLoss: bool) {
    function Attempts(): nat {
      Max(1, maxRetries)
    }
  }

  // ---------- One request ----------

  /** What a POST meets; `body` is the parsed response array, if there was one. */
  datatype HttpOutcome =
    | RequestTimedOut
    | TransportFailed
    | HttpAnswer(status: int, body: Option<seq<Response>>)

  function WireAt(wire: seq<HttpOutcome>, k: nat): HttpOutcome {
    if k < |wire| then wire[k] else RequestTimedOut
  }

  function RejectAll(batch: seq<Envelope>, code: ErrorCode, retryable: bool): (rs: seq<Response>)
    ensures |rs| == |batch|
    ensures forall r :: r in rs ==> r.status == Rejected && r.code == Some(code) && r.retryable == Some(retryable)
  {
    seq(|batch|, i requires 0 <= i < |batch| => Reject(batch[i].eventId, code, "", retryable))
  }

  /** Every element gets a response: the server's when its array is aligned, else a synthesized one. */
  function Interpret(batch: seq<Envelope>, outcome: HttpOutcome): (rs: seq<Response>)
    ensures |rs| == |batch|
  {
    match outcome
    case RequestTimedOut => RejectAll(batch, WriteTimeout, true)
    case TransportFailed => RejectAll(batch, StoreUnavailable, true)
    case HttpAnswer(status, body) =>
      if body.Some? && |body.value| == |batch| then body.value
      else if status == 200 then RejectAll(batch, InternalError, true)
      else if status == 401 || status == 403 then RejectAll(batch, ValidationError, false)
      else if status == 429 then RejectAll(batch, RateLimited, true)
      else if status == 500 then RejectAll(batch, InternalError, true)
      else if status > 500 then RejectAll(batch, StoreUnavailable, true)
      else RejectAll(batch, ValidationError, false)
  }

  predicate AnsweredByServer(batch: seq<Envelope>, outcome: HttpOutcome) {
    outcome.HttpAnswer? && outcome.body.Some? && |outcome.body.value| == |batch|
  }

  /**
   A response array of the batch's length is passed through whatever the status;
   otherwise nothing is ever accepted, a retry is asked for exactly after a timeout, a
   transport failure, a 200 without an answer, a 429 or a 5xx, and the code says which.
   */
  lemma InterpretMeaning(batch: seq<Envelope>, outcome: HttpOutcome, i: nat)
    requires i < |batch|
    ensures var r := Interpret(batch, outcome)[i];
            if AnsweredByServer(batch, outcome) then r == outcome.body.value[i]
            else
              && r.status == Rejected && r.eventId == batch[i].eventId
              && r.retryable == Some(!outcome.HttpAnswer? || outcome.status == 200 || outcome.status == 429 || 500 <= outcome.status)
              && (r.code == Some(WriteTimeout) <==> outcome.RequestTimedOut?)
              && (r.code == Some(StoreUnavailable) <==> outcome.TransportFailed? || (outcome.HttpAnswer? && 500 < outcome.status))
              && (r.code == Some(RateLimited) <==> outcome.HttpAnswer? && outcome.status == 429)
              && (r.code == Some(InternalError) <==> outcome.HttpAnswer? && (outcome.status == 200 || outcome.status == 500))
              && (r.code == Some(ValidationError) <==> outcome.HttpAnswer? && outcome.status < 500 && outcome.status !in {200, 429})
  {
    assert Interpret(batch, outcome)[i] in Interpret(batch, outcome);
  }

  // ---------- The retry loop ----------

  ghost predicate Less(slots: seq<nat>, j: int, k: int) {
    0 <= j < k < |slots| ==> slots[j] < slots[k]
  }

  /** `slots` index into a sequence of length `n`, in ascending order. */
  ghost predicate Slots(slots: seq<nat>, n: nat) {
    (forall j :: 0 <= j < |slots| ==> slots[j] < n) && forall j, k :: Less(slots, j, k)
  }

  function Select<T>(xs: seq<T>, slots: seq<nat>): (ys: seq<T>)
    requires forall j :: 0 <= j < |slots| ==> slots[j] < |xs|
    ensures |ys| == |slots| && forall j :: 0 <= j < |slots| ==> ys[j] == xs[slots[j]]
  {
    seq(|slots|, j requires 0 <= j < |slots| => xs[slots[j]])
  }

  /** `for slot, value in zip(slots, ys): xs[slot] = value`, after `n` turns. */
  function FillUpTo<T>(xs: seq<T>, slots: seq<nat>, ys: seq<T>, n: nat): (zs: seq<T>)
    requires n <= |slots| && |slots| == |ys| && forall j :: 0 <= j < |slots| ==> slots[j] < |xs|
    ensures |zs| == |xs|
  {
    if n == 0 then xs else FillUpTo(xs, slots, ys, n - 1)[slots[n - 1] := ys[n - 1]]
  }

  function Fill<T>(xs: seq<T>, slots: seq<nat>, ys: seq<T>): (zs: seq<T>)
    requires |slots| == |ys| && forall j :: 0 <= j < |slots| ==> slots[j] < |xs|
    ensures |zs| == |xs|
  {
    FillUpTo(xs, slots, ys, |slots|)
  }

  lemma {:induction false} FillUpToAt<T>(xs: seq<T>, slots: seq<nat>, ys: seq<T>, n: nat)
    requires Slots(slots, |xs|) && |slots| == |ys| && n <= |slots|
    ensures forall j :: 0 <= j < n ==> FillUpTo(xs, slots, ys, n)[slots[j]] == ys[j]
    ensures forall i :: 0 <= i < |xs| && i !in slots[..n] ==> FillUpTo(xs, slots, ys, n)[i] == xs[i]
  {
    if n != 0 {
      FillUpToAt(xs, slots, ys, n - 1);
      assert slots[..n] == slots[..n - 1] + [slots[n - 1]];
      forall j | 0 <= j < n ensures FillUpTo(xs, slots, ys, n)[slots[j]] == ys[j] {
        assert Less(slots, j, n - 1);
      }
    }
  }

  lemma FillAt<T>(xs: seq<T>, slots: seq<nat>, ys: seq<T>)
    requires Slots(slots, |xs|) && |slots| == |ys|
    ensures forall j :: 0 <= j < |slots| ==> Fill(xs, slots, ys)[slots[j]] == ys[j]
    ensures forall i :: 0 <= i < |xs| && i !in slots ==> Fill(xs, slots, ys)[i] == xs[i]
  {
    FillUpToAt(xs, slots, ys, |slots|);
    assert slots[..|slots|] == slots;
  }

  /** The slots among the first `n` whose response asks for a retry. */
  function RetryUpTo(slots: seq<nat>, rs: seq<Response>, n: nat): (kept: seq<nat>)
    requires n <= |slots| == |rs|
    ensures forall s :: s in kept <==> exists j :: 0 <= j < n && slots[j] == s && NeedsRetry(rs[j])
  {
    if n == 0 then []
    else
      var before := RetryUpTo(slots, rs, n - 1);
      if NeedsRetry(rs[n - 1]) then before + [slots[n - 1]] else before
  }

  lemma {:induction false} RetryAscends(slots: seq<nat>, rs: seq<Response>, n: nat, bound: nat)
    requires n <= |slots| == |rs| && Slots(slots, bound)
    ensures Slots(RetryUpTo(slots, rs, n), bound)
    ensures forall s :: s in RetryUpTo(slots, rs, n) ==> s in slots[..n]
  {
    if n != 0 {
      RetryAscends(slots, rs, n - 1, bound);
      var before := RetryUpTo(slots, rs, n - 1);
      forall j | 0 <= j < |before| ensures before[j] < slots[n - 1] {
        assert before[j] in slots[..n - 1];
        var i :| 0 <= i < n - 1 && slots[i] == before[j];
        assert Less(slots, i, n - 1);
      }
      assert slots[..n] == slots[..n - 1] + [slots[n - 1]];
      assert forall j, k :: Less(before, j, k) ==> Less(RetryUpTo(slots, rs, n), j, k);
    }
  }

  function Indices(n: nat): (slots: seq<nat>)
    ensures |slots| == n && forall j :: 0 <= j < n ==> slots[j] == j
  {
    seq(n, j requires 0 <= j < n => j)
  }

  const PLACEHOLDER := Reject(0, InternalError, "no response recorded", true)

  /** The loop's variables, with the slots of every request so far. */
  datatype Posting = Posting(results: seq<Response>, pending: seq<nat>, sent: seq<seq<nat>>)

  ghost predicate PostingOk(p: Posting, n: nat) {
    |p.results| == n && Slots(p.pending, n) && forall k :: 0 <= k < |p.sent| ==> Slots(p.sent[k], n)
  }

  function PostAgain(envelopes: seq<Envelope>, p: Posting, outcome: HttpOutcome): (q: Posting)
    requires PostingOk(p, |envelopes|)
    ensures PostingOk(q, |envelopes|)
  {
    var rs := Interpret(Select(envelopes, p.pending), outcome);
    RetryAscends(p.pending, rs, |rs|, |envelopes|);
    Posting(Fill(p.results, p.pending, rs), RetryUpTo(p.pending, rs, |rs|), p.sent + [p.pending])
  }

  /** The loop after at most `k` attempts: it stops early once nothing is pending. */
  function PostUpTo(envelopes: seq<Envelope>, wire: seq<HttpOutcome>, k: nat): (p: Posting)
    ensures PostingOk(p, |envelopes|)
  {
    if k == 0 then Posting(seq(|envelopes|, _ => PLACEHOLDER), Indices(|envelopes|), [])
    else
      var p := PostUpTo(envelopes, wire, k - 1);
      if |p.pending| == 0 then p else PostAgain(envelopes, p, WireAt(wire, k - 1))
  }

  /** One more attempt: pending elements get their new answer, the others keep theirs. */
  lemma AttemptStep(envelopes: seq<Envelope>, p: Posting, outcome: HttpOutcome)
    requires PostingOk(p, |envelopes|)
    ensures var q := PostAgain(envelopes, p, outcome);
            var rs := Interpret(Select(envelopes, p.pending), outcome);
            && q.sent == p.sent + [p.pending]
            && (forall j :: 0 <= j < |rs| ==> q.results[p.pending[j]] == rs[j])
            && (forall i :: 0 <= i < |envelopes| && i !in p.pending ==> q.results[i] == p.results[i] && i !in q.pending)
            && (forall i :: 0 <= i < |envelopes| && i in p.pending ==> (i in q.pending <==> NeedsRetry(q.results[i])))
  {
    var rs := Interpret(Select(envelopes, p.pending), outcome);
    FillAt(p.results, p.pending, rs);
    var q := PostAgain(envelopes, p, outcome);
    forall i | 0 <= i < |envelopes| && i in p.pending ensures i in q.pending <==> NeedsRetry(q.results[i]) {
      var j :| 0 <= j < |p.pending| && p.pending[j] == i;
    }
  }

  /** After the first attempt, what is pending is exactly what was answered retryably. */
  lemma {:induction false} PendingIsRetryable(envelopes: seq<Envelope>, wire: seq<HttpOutcome>, k: nat)
    requires 0 < k
    ensures forall i :: 0 <= i < |envelopes| ==>
              (i in PostUpTo(envelopes, wire, k).pending <==> NeedsRetry(PostUpTo(envelopes, wire, k).results[i]))
  {
    var p := PostUpTo(envelopes, wire, k - 1);
    if k == 1 {
      forall i | 0 <= i < |envelopes| ensures i in p.pending {
        assert p.pending[i] == i;
      }
    } else {
      PendingIsRetryable(envelopes, wire, k - 1);
    }
    if p.pending != [] {
      AttemptStep(envelopes, p, WireAt(wire, k - 1));
    }
  }

  /** How often element `i` was sent. */
  function TimesSent(sent: seq<seq<nat>>, i: nat): nat {
    if sent == [] then 0 else TimesSent(sent[..|sent| - 1], i) + multiset(sent[|sent| - 1])[i]
  }

  /** Ascending slots name each element at most once. */
  lemma {:induction false} NamedOnce(slots: seq<nat>, n: nat, i: nat)
    requires Slots(slots, n)
    ensures multiset(slots)[i] <= 1
  {
    if slots != [] {
      var front, last := slots[..|slots| - 1], slots[|slots| - 1];
      assert forall j, k :: Less(slots, j, k) ==> Less(front, j, k);
      NamedOnce(front, n, i);
      assert slots == front + [last];
      forall j | 0 <= j < |front| ensures front[j] != last {
        assert Less(slots, j, |slots| - 1);
      }
    }
  }

  /** In at most `k` attempts, no element is sent more than `k` times. */
  lemma {:induction false} SendsBounded(envelopes: seq<Envelope>, wire: seq<HttpOutcome>, k: nat, i: nat) returns (sent: seq<seq<nat>>)
    ensures sent == PostUpTo(envelopes, wire, k).sent
    ensures TimesSent(sent, i) <= k
  {
    if k == 0 {
      sent := [];
    } else {
      var before := SendsBounded(envelopes, wire, k - 1, i);
      var pending := StillPending(envelopes, wire, k, before);
      NamedOnce(pending, |envelopes|, i);
      OneRequestMore(before, pending, i);
      sent := if pending == [] then before else before + [pending];
    }
  }

  lemma StillPending(envelopes: seq<Envelope>, wire: seq<HttpOutcome>, k: nat, before: seq<seq<nat>>) returns (pending: seq<nat>)
    requires 0 < k && before == PostUpTo(envelopes, wire, k - 1).sent
    ensures Slots(pending, |envelopes|)
    ensures PostUpTo(envelopes, wire, k).sent == if pending == [] then before else before + [pending]
  {
    pending := PostUpTo(envelopes, wire, k - 1).pending;
  }

  lemma OneRequestMore(sent: seq<seq<nat>>, slots: seq<nat>, i: nat)
    ensures TimesSent(sent + [slots], i) == TimesSent(sent, i) + multiset(slots)[i]
  {
    assert (sent + [slots])[..|sent|] == sent;
  }

  /** `after` continues `before` with requests that leave element `i` out. */
  ghost predicate LeftAlone(before: seq<seq<nat>>, after: seq<seq<nat>>, i: nat) {
    before <= after && forall t :: |before| <= t < |after| ==> i !in after[t]
  }

  lemma LeftAloneTransitive(a: seq<seq<nat>>, b: seq<seq<nat>>, c: seq<seq<nat>>, i: nat)
    requires LeftAlone(a, b, i) && LeftAlone(b, c, i)
    ensures LeftAlone(a, c, i)
  {
    forall t | |a| <= t < |c| ensures i !in c[t] {
      assert t < |b| ==> c[t] == b[t];
    }
  }

  /** From `p` to `q`, element `i` keeps its answer and is not sent. */
  ghost predicate Settled(p: Posting, q: Posting, i: nat) {
    |p.results| == |q.results| && (i < |p.results| ==> q.results[i] == p.results[i]) && LeftAlone(p.sent, q.sent, i)
  }

  lemma SettledTransitive(p: Posting, q: Posting, r: Posting, i: nat)
    requires Settled(p, q, i) && Settled(q, r, i)
    ensures Settled(p, r, i)
  {
    LeftAloneTransitive(p.sent, q.sent, r.sent, i);
  }

  lemma SettledStep(envelopes: seq<Envelope>, wire: seq<HttpOutcome>, i: nat, m: nat)
    requires i < |envelopes| && 0 < m
    requires !NeedsRetry(PostUpTo(envelopes, wire, m).results[i])
    ensures Settled(PostUpTo(envelopes, wire, m), PostUpTo(envelopes, wire, m + 1), i)
  {
    PendingIsRetryable(envelopes, wire, m);
    var p := PostUpTo(envelopes, wire, m);
    if p.pending != [] {
      AttemptStep(envelopes, p, WireAt(wire, m));
    }
  }

  /**
   Once an element has an answer that does not ask for a retry, that answer is
   final: later attempts neither change it nor send the element again.
   */
  lemma {:induction false} NeverResent(envelopes: seq<Envelope>, wire: seq<HttpOutcome>, i: nat, k: nat, m: nat)
    requires i < |envelopes| && 0 < k <= m
    requires !NeedsRetry(PostUpTo(envelopes, wire, k).results[i])
    ensures Settled(PostUpTo(envelopes, wire, k), PostUpTo(envelopes, wire, m), i)
    decreases m - k
  {
    if k < m {
      SettledStep(envelopes, wire, i, k);
      NeverResent(envelopes, wire, i, k + 1, m);
      SettledTransitive(PostUpTo(envelopes, wire, k), PostUpTo(envelopes, wire, k + 1), PostUpTo(envelopes, wire, m), i);
    }
  }

  // ---------- Losses ----------

  /** `reasons` is the reason histogram. */
  datatype Ledger = Ledger(count: nat, first: Option<int>, last: Option<int>, reasons: multiset<string>)

  const NO_LOSS := Ledger(0, None, None, multiset{})

  function RecordLoss(l: Ledger, number: Option<int>, reason: string): Ledger {
    Ledger(l.count + 1,
           if l.first.None? then number else l.first,
           if number.Some? then number else l.last,
           l.reasons + multiset{reason})
  }

  /** An approval, or the pending action it will be voted on: these fail closed. */
  predicate IsControlRecord(e: Envelope) {
    e.body.ApprovalRecord? || (e.body.ActionRecord? && e.body.action.auth == Some(Pending))
  }

  // ---------- Client state ----------

  /** A line of a spooled session file. */
  datatype Entry =
    | ActionEntry(eventId: Id, row: Row)
    | OtherEntry(eventId: Id)
    | LossEntry(ledger: Ledger)

  datatype Client = Client(
    chains: map<Id, Tail>,
    minted: nat,
    spooling: bool,
    reason: Option<ErrorCode>,
    ledgers: map<Id, Ledger>,
    files: map<Id, seq<Entry>>,
    seen: set<Id>)

  function TailFor(chains: map<Id, Tail>, session: Id): Tail {
    if session in chains then chains[session] else FRESH
  }

  function FileFor(files: map<Id, seq<Entry>>, session: Id): seq<Entry> {
    if session in files then files[session] else []
  }

  function LedgerFor(ledgers: map<Id, Ledger>, session: Id): Ledger {
    if session in ledgers then ledgers[session] else NO_LOSS
  }

  datatype Failure = BadSeal(error: SealError) | HitlPersistence | RecordPersistence

  // ---------- Sealing ----------

  datatype SealedBatch = SealedBatch(client: Client, envelopes: seq<Envelope>, error: Option<SealError>)

  predicate WantsSeal(e: Envelope) {
    e.body.ActionRecord? && !IsSealed(e.body.action)
  }

  function SealEnvelope(e: Envelope, seal: SealedAction): Envelope
    requires e.body.ActionRecord?
  {
    e.(body := ActionRecord(WithSeal(e.body.action, seal)))
  }

  /** One turn of `_seal`: an unsealed action is sealed in place. */
  function SealNext(b: SealedBatch, i: nat): (b': SealedBatch)
    requires i < |b.envelopes|
    ensures |b'.envelopes| == |b.envelopes|
  {
    var e := b.envelopes[i];
    if b.error.Some? || !WantsSeal(e) then b
    else
      match SealPayload(TailFor(b.client.chains, e.sessionId), e.sessionId, b.client.minted, e.body.action)
      case Err(error) => b.(error := Some(error))
      case Ok(sealing) =>
        SealedBatch(b.client.(chains := b.client.chains[e.sessionId := sealing.tail], minted := b.client.minted + 1),
                    b.envelopes[i := SealEnvelope(e, sealing.seal)], None)
  }

  /** `_seal` after `n` envelopes. */
  function SealUpTo(c: Client, envelopes: seq<Envelope>, n: nat): (b: SealedBatch)
    requires n <= |envelopes|
    ensures |b.envelopes| == |envelopes|
  {
    if n == 0 then SealedBatch(c, envelopes, None) else SealNext(SealUpTo(c, envelopes, n - 1), n - 1)
  }

  // ---------- The spool ----------

  /** What one spool write meets: cache entries evicted before it, and whether the disk takes the lines. */
  datatype Disk = Disk(evicted: set<Id>, writable: bool, annotatable: bool, reason: string)

  function DiskAt(disk: seq<Disk>, i: nat): Disk {
    if i < |disk| then disk[i] else Disk({}, false, false, "no space left on device")
  }

  datatype SpoolAnswer = Answered(response: Response) | DiskError | SealFault(error: SealError)

  datatype Spooled = Spooled(client: Client, answer: SpoolAnswer)

  function Append(files: map<Id, seq<Entry>>, session: Id, entry: Entry): map<Id, seq<Entry>> {
    files[session := FileFor(files, session) + [entry]]
  }

  /** The JSONL writer: drop a known event, advance the chain, append the line, remember the event. */
  function SpoolEnvelope(c: Client, e: Envelope, disk: Disk): Spooled {
    var seen := c.seen - disk.evicted;
    if e.eventId in seen then
      Spooled(c.(seen := seen), Answered(Reject(e.eventId, DuplicateEvent, "already handled", false)))
    else if e.body.ActionRecord? then
      match SealPayload(TailFor(c.chains, e.sessionId), e.sessionId, c.minted, e.body.action)
      case Err(error) => Spooled(c.(seen := seen), SealFault(error))
      case Ok(sealing) =>
        var advanced := c.(chains := c.chains[e.sessionId := sealing.tail], seen := seen,
                           minted := if IsSealed(e.body.action) then c.minted else c.minted + 1);
        if !disk.writable then Spooled(advanced, DiskError)
        else
          var row := RowOf(e.sessionId, e.body.action, sealing.seal);
          Spooled(advanced.(files := Append(c.files, e.sessionId, ActionEntry(e.eventId, row)), seen := seen + {e.eventId}),
                  Answered(Accept(e.eventId, Some(row.actionId), Some(row.number), Some(row.selfHash))))
    else
      var mints := e.body.DecisionRecord? || e.body.ApprovalRecord?;
      var advanced := c.(minted := if mints then c.minted + 1 else c.minted, seen := seen);
      if !disk.writable then Spooled(advanced, DiskError)
      else Spooled(advanced.(files := Append(c.files, e.sessionId, OtherEntry(e.eventId)), seen := seen + {e.eventId}),
                   Answered(Accept(e.eventId, if mints then Some(c.minted) else None, None, None)))
  }

  datatype Written = Written(client: Client, outcome: Result<Response, Failure>)

  function OnWriteFailure(c: Client, cfg: Config, e: Envelope, reason: string): Written {
    if IsControlRecord(e) then Written(c, Err(HitlPersistence))
    else
      var ledger := RecordLoss(LedgerFor(c.ledgers, e.sessionId), SequenceOf(e), reason);
      var noted := c.(ledgers := c.ledgers[e.sessionId := ledger]);
      if cfg.failOnLoss then Written(noted, Err(RecordPersistence))
      else Written(noted, Ok(Reject(e.eventId, InternalError, "record dropped", false)))
  }

  /** Closing a session that lost records tries to leave the tally in its file. */
  function FlushLedger(c: Client, e: Envelope, disk: Disk): Client {
    var ledger := LedgerFor(c.ledgers, e.sessionId);
    if e.body.SessionClose? && ledger.count != 0 && disk.annotatable
    then c.(files := Append(c.files, e.sessionId, LossEntry(ledger)))
    else c
  }

  function WriteOne(c: Client, cfg: Config, e: Envelope, disk: Disk): Written {
    var s := SpoolEnvelope(c, e, disk);
    match s.answer
    case SealFault(error) => Written(s.client, Err(BadSeal(error)))
    case Answered(response) => Written(FlushLedger(s.client, e, disk), Ok(response))
    case DiskError =>
      var w := OnWriteFailure(s.client, cfg, e, disk.reason);
      if w.outcome.Ok? then Written(FlushLedger(w.client, e, disk), w.outcome) else w
  }

  /** `_write_to_spool` after `n` envelopes; `tried` counts those it reached before raising. */
  datatype Writing = Writing(client: Client, responses: seq<Response>, tried: nat, failure: Option<Failure>)

  function WriteNext(w: Writing, cfg: Config, e: Envelope, disk: Disk): Writing {
    if w.failure.Some? then w
    else
      var one := WriteOne(w.client, cfg, e, disk);
      match one.outcome
      case Ok(response) => Writing(one.client, w.responses + [response], w.tried + 1, None)
      case Err(failure) => Writing(one.client, w.responses, w.tried + 1, Some(failure))
  }

  function WriteUpTo(c: Client, cfg: Config, envelopes: seq<Envelope>, disk: seq<Disk>, n: nat): (w: Writing)
    requires n <= |envelopes|
    ensures w.tried <= n
    ensures w.failure.None? ==> |w.responses| == n == w.tried
  {
    if n == 0 then Writing(c, [], 0, None)
    else WriteNext(WriteUpTo(c, cfg, envelopes, disk, n - 1), cfg, envelopes[n - 1], DiskAt(disk, n - 1))
  }

  /** Once a write raised, nothing more is written. */
  lemma {:induction false} WriteStaysFailed(c: Client, cfg: Config, envelopes: seq<Envelope>, disk: seq<Disk>, k: nat, n: nat)
    requires k <= n <= |envelopes| && WriteUpTo(c, cfg, envelopes, disk, k).failure.Some?
    ensures WriteUpTo(c, cfg, envelopes, disk, n) == WriteUpTo(c, cfg, envelopes, disk, k)
  {
    if k < n {
      WriteStaysFailed(c, cfg, envelopes, disk, k, n - 1);
    }
  }

  // ---------- handle_batch ----------

  /** The client and the caller's envelopes afterwards, the requests made, and what the call returns or raises. */
  datatype BatchOutcome = BatchOutcome(
    client: Client,
    envelopes: seq<Envelope>,
    sent: seq<seq<nat>>,
    result: Result<seq<Response>, Failure>)

  function Unsent(results: seq<Response>): (slots: seq<nat>)
    ensures Slots(slots, |results|)
    ensures forall i :: 0 <= i < |results| ==> (i in slots <==> NeedsRetry(results[i]))
  {
    RetryAscends(Indices(|results|), results, |results|, |results|);
    RetryUpTo(Indices(|results|), results, |results|)
  }

  /** What the network did with a sealed batch, and which slots are left for the spool. */
  datatype Plan = Plan(client: Client, results: seq<Response>, sent: seq<seq<nat>>, spool: seq<nat>)

  function PlanBatch(b: SealedBatch, cfg: Config, wire: seq<HttpOutcome>): (plan: Plan)
    ensures |plan.results| == |b.envelopes| && Slots(plan.spool, |b.envelopes|)
  {
    var n := |b.envelopes|;
    if b.client.spooling then Plan(b.client, seq(n, _ => PLACEHOLDER), [], Indices(n))
    else
      var p := PostUpTo(b.envelopes, wire, cfg.Attempts());
      var unsent := Unsent(p.results);
      if unsent == [] || !cfg.spoolEnabled then Plan(b.client, p.results, p.sent, [])
      else Plan(b.client.(spooling := true, reason := p.results[unsent[0]].code), p.results, p.sent, unsent)
  }

  function HandleBatch(c: Client, cfg: Config, envelopes: seq<Envelope>, wire: seq<HttpOutcome>, disk: seq<Disk>): BatchOutcome {
    var b := SealUpTo(c, envelopes, |envelopes|);
    if b.error.Some? then BatchOutcome(b.client, b.envelopes, [], Err(BadSeal(b.error.value)))
    else
      var plan := PlanBatch(b, cfg, wire);
      var w := WriteUpTo(plan.client, cfg, Select(b.envelopes, plan.spool), disk, |plan.spool|);
      BatchOutcome(w.client, b.envelopes, plan.sent,
                   if w.failure.Some? then Err(w.failure.value) else Ok(Fill(plan.results, plan.spool, w.responses)))
  }
}
