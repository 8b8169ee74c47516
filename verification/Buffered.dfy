/**
 The micro-batching client (rootsign/sdk/buffered_client.py): actions are queued,
 flushed in order, and whatever was not taken goes back to the front.
 */
module Buffered {
  import opened Common
  import opened Hashing
  import opened Wire
  import opened Chains
  import opened Cloud
  import CloudCalls
  import CloudSafety

  /** Only auto-authorized actions are buffered. */
  predicate ShouldBuffer(e: Envelope) {
    e.body.ActionRecord? && e.body.action.auth == Some(AutoAuthorized)
  }

  // ---------- Sending a drained batch ----------

  /**
   What the inner client does with one flush: per attempt a response array (`None`
   when it raises), or per envelope and attempt whether `handle` returns.
   */
  datatype Script = Script(batches: seq<Option<seq<Response>>>, singles: seq<seq<bool>>)

  function BatchAt(script: Script, k: nat): seq<Response> {
    if k < |script.batches| && script.batches[k].Some? then script.batches[k].value else []
  }

  function SingleAt(script: Script, i: nat, k: nat): bool {
    i < |script.singles| && k < |script.singles[i]| && script.singles[i][k]
  }

  /** The pending slots that must be sent again: answered retryably, or not answered at all. */
  function StillUnsent(pending: seq<nat>, responses: seq<Response>): seq<nat> {
    var m := if |responses| < |pending| then |responses| else |pending|;
    RetryUpTo(pending[..m], responses[..m], m) + pending[m..]
  }

  lemma StillUnsentAscends(pending: seq<nat>, responses: seq<Response>, bound: nat)
    requires Slots(pending, bound)
    ensures Slots(StillUnsent(pending, responses), bound)
    ensures forall s :: s in StillUnsent(pending, responses) ==> s in pending
  {
    var m := if |responses| < |pending| then |responses| else |pending|;
    var head, tail := pending[..m], pending[m..];
    assert forall j, k :: Less(pending, j, k) ==> Less(head, j, k);
    RetryAscends(head, responses[..m], m, bound);
    var retry := RetryUpTo(head, responses[..m], m);
    assert head[..m] == head;
    var all := retry + tail;
    forall j, k ensures Less(all, j, k) {
      if 0 <= j < k < |all| {
        if k < |retry| {
          assert Less(retry, j, k);
        } else if |retry| <= j {
          assert Less(pending, m + j - |retry|, m + k - |retry|);
        } else {
          assert retry[j] in head;
          var i :| 0 <= i < m && head[i] == retry[j];
          assert Less(pending, i, m + k - |retry|);
        }
      }
    }
  }

  /** A pending slot is sent again exactly when its answer asks for it, or the answers ended before it. */
  lemma StillUnsentIff(pending: seq<nat>, responses: seq<Response>, bound: nat, j: nat)
    requires Slots(pending, bound) && j < |pending|
    ensures pending[j] in StillUnsent(pending, responses) <==> |responses| <= j || NeedsRetry(responses[j])
  {
    var m := if |responses| < |pending| then |responses| else |pending|;
    var head, tail := pending[..m], pending[m..];
    forall i | 0 <= i < |pending| && i != j ensures pending[i] != pending[j] {
      assert Less(pending, i, j) && Less(pending, j, i);
    }
    if j < m {
      assert head[j] == pending[j];
      forall i | 0 <= i < |tail| ensures tail[i] != pending[j] {
        assert tail[i] == pending[m + i];
      }
    } else {
      assert tail[j - m] == pending[j];
    }
  }

  /** `_send_batch_with_retry` after at most `k` attempts: the slots still to be sent. */
  function SendBatchUpTo(n: nat, script: Script, k: nat): (pending: seq<nat>)
    ensures Slots(pending, n)
  {
    if k == 0 then
      assert forall i, j :: Less(Indices(n), i, j);
      Indices(n)
    else
      var before := SendBatchUpTo(n, script, k - 1);
      StillUnsentAscends(before, BatchAt(script, k - 1), n);
      if |before| == 0 then [] else StillUnsent(before, BatchAt(script, k - 1))
  }

  /** Attempt `t` gave slot `i`, then still pending, an answer that does not ask for a retry. */
  ghost predicate AnsweredIn(n: nat, script: Script, t: nat, i: nat) {
    var pending, rs := SendBatchUpTo(n, script, t), BatchAt(script, t);
    exists j :: 0 <= j < |pending| && pending[j] == i && j < |rs| && !NeedsRetry(rs[j])
  }

  lemma OnePlace(slots: seq<nat>, n: nat, j: nat, k: nat)
    requires Slots(slots, n) && j < |slots| && k < |slots| && slots[j] == slots[k]
    ensures j == k
  {
    assert Less(slots, j, k) && Less(slots, k, j);
  }

  lemma StillPendingIff(n: nat, script: Script, t: nat, i: nat)
    requires i in SendBatchUpTo(n, script, t)
    ensures i in SendBatchUpTo(n, script, t + 1) <==> !AnsweredIn(n, script, t, i)
  {
    var pending, rs := SendBatchUpTo(n, script, t), BatchAt(script, t);
    var j :| 0 <= j < |pending| && pending[j] == i;
    StillUnsentIff(pending, rs, n, j);
    forall k | 0 <= k < |pending| && pending[k] == i ensures k == j {
      OnePlace(pending, n, j, k);
    }
  }

  lemma GoneStaysGone(n: nat, script: Script, t: nat, i: nat)
    requires i !in SendBatchUpTo(n, script, t)
    ensures i !in SendBatchUpTo(n, script, t + 1)
  {
    StillUnsentAscends(SendBatchUpTo(n, script, t), BatchAt(script, t), n);
  }

  /** None of the first `k` attempts gave slot `i` a final answer. */
  ghost predicate Unanswered(n: nat, script: Script, k: nat, i: nat) {
    0 < k ==> Unanswered(n, script, k - 1, i) && !AnsweredIn(n, script, k - 1, i)
  }

  lemma {:induction false} UnansweredMeans(n: nat, script: Script, k: nat, i: nat)
    ensures Unanswered(n, script, k, i) <==> forall t :: 0 <= t < k ==> !AnsweredIn(n, script, t, i)
  {
    if 0 < k {
      UnansweredMeans(n, script, k - 1, i);
    }
  }

  lemma AllUnsentFirst(n: nat, script: Script, i: nat)
    requires i < n
    ensures i in SendBatchUpTo(n, script, 0) && Unanswered(n, script, 0, i)
  {
    assert Indices(n)[i] == i;
  }

  lemma UnsentStep(n: nat, script: Script, t: nat, i: nat)
    ensures i in SendBatchUpTo(n, script, t + 1) <==> i in SendBatchUpTo(n, script, t) && !AnsweredIn(n, script, t, i)
  {
    if i in SendBatchUpTo(n, script, t) {
      StillPendingIff(n, script, t, i);
    } else {
      GoneStaysGone(n, script, t, i);
    }
  }

  /** After `k` attempts a slot is still to be sent exactly when none of them gave it a final answer. */
  lemma {:induction false} UnsentIffUnanswered(n: nat, script: Script, k: nat, i: nat) returns (unsent: bool)
    requires i < n
    ensures unsent == (i in SendBatchUpTo(n, script, k))
    ensures unsent == Unanswered(n, script, k, i)
  {
    if k == 0 {
      AllUnsentFirst(n, script, i);
      unsent := true;
    } else {
      var before := UnsentIffUnanswered(n, script, k - 1, i);
      UnsentStep(n, script, k - 1, i);
      unsent := before && !AnsweredIn(n, script, k - 1, i);
    }
  }

  /** `_send_with_retry`: whether one of the first `attempts` tries returned. */
  predicate SentWithin(script: Script, i: nat, attempts: nat) {
    exists k :: 0 <= k < attempts && SingleAt(script, i, k)
  }

  /** The sequential fallback: the slots among the first `n` for which every try raised. */
  function SendEachUpTo(n: nat, script: Script, attempts: nat): (failed: seq<nat>)
    ensures Slots(failed, n)
    ensures forall i :: i in failed <==> 0 <= i < n && !SentWithin(script, i, attempts)
  {
    if n == 0 then
      assert forall i, j :: Less([], i, j);
      []
    else
      var before := SendEachUpTo(n - 1, script, attempts);
      var longer := before + [n - 1];
      assert forall i, j :: Less(before, i, j) ==> Less(longer, i, j);
      if SentWithin(script, n - 1, attempts) then before else longer
  }

  /** How the inner client is probed. */
  datatype Inner = Inner(hasBatch: bool, ownsRetry: bool)

  function Attempts(inner: Inner, maxRetries: nat): nat {
    if inner.ownsRetry then 1 else maxRetries
  }

  /** The slots of a drained batch that go back to the queue. */
  function Failed(n: nat, inner: Inner, maxRetries: nat, script: Script): (failed: seq<nat>)
    ensures Slots(failed, n)
  {
    if inner.hasBatch then SendBatchUpTo(n, script, Attempts(inner, maxRetries))
    else SendEachUpTo(n, script, Attempts(inner, maxRetries))
  }

  /** The inner client answered slot `i` finally, or its `handle` returned for it. */
  ghost predicate Confirmed(inner: Inner, maxRetries: nat, script: Script, n: nat, i: nat) {
    var attempts := if inner.ownsRetry then 1 else maxRetries;
    if inner.hasBatch then !Unanswered(n, script, attempts, i)
    else exists t :: 0 <= t < attempts && SingleAt(script, i, t)
  }

  /** Back to the queue go exactly the envelopes without confirmation. */
  lemma FailedIffUnconfirmed(n: nat, inner: Inner, maxRetries: nat, script: Script, i: nat)
    requires i < n
    ensures i in Failed(n, inner, maxRetries, script) <==> !Confirmed(inner, maxRetries, script, n, i)
  {
    if inner.hasBatch {
      var unsent := UnsentIffUnanswered(n, script, Attempts(inner, maxRetries), i);
    }
  }

  // ---------- The order of confirmation ----------

  /** The slots among the first `n` whose answer is final, in slot order. */
  function FinalUpTo(slots: seq<nat>, rs: seq<Response>, n: nat): (final: seq<nat>)
    requires n <= |slots| && n <= |rs|
    ensures forall s :: s in final <==> exists j :: 0 <= j < n && slots[j] == s && !NeedsRetry(rs[j])
  {
    if n == 0 then [] else FinalUpTo(slots, rs, n - 1) + (if NeedsRetry(rs[n - 1]) then [] else [slots[n - 1]])
  }

  /** The slots one request answered finally, of those it carried. */
  function FinalOf(pending: seq<nat>, responses: seq<Response>): seq<nat> {
    FinalUpTo(pending, responses, Min(|pending|, |responses|))
  }

  /** The slots answered finally in the first `k` attempts, request by request. */
  function ConfirmedUpTo(n: nat, script: Script, k: nat): seq<nat> {
    if k == 0 then []
    else ConfirmedUpTo(n, script, k - 1) + FinalOf(SendBatchUpTo(n, script, k - 1), BatchAt(script, k - 1))
  }

  /** The sequential fallback: the slots among the first `n` for which a try returned. */
  function SentUpTo(n: nat, script: Script, attempts: nat): (sent: seq<nat>)
    ensures forall i :: i in sent <==> 0 <= i < n && SentWithin(script, i, attempts)
  {
    if n == 0 then []
    else SentUpTo(n - 1, script, attempts) + (if SentWithin(script, n - 1, attempts) then [n - 1] else [])
  }

  /** The slots of a drained batch the inner client confirmed, in the order in which it did. */
  function ConfirmedSlots(n: nat, inner: Inner, maxRetries: nat, script: Script): seq<nat> {
    if inner.hasBatch then ConfirmedUpTo(n, script, Attempts(inner, maxRetries))
    else SentUpTo(n, script, Attempts(inner, maxRetries))
  }

  lemma FinalIffAnswered(n: nat, script: Script, t: nat, i: nat)
    ensures i in FinalOf(SendBatchUpTo(n, script, t), BatchAt(script, t)) <==> AnsweredIn(n, script, t, i)
  {
  }

  lemma ConfirmedStep(n: nat, script: Script, k: nat, i: nat)
    ensures i in ConfirmedUpTo(n, script, k + 1) <==> i in ConfirmedUpTo(n, script, k) || AnsweredIn(n, script, k, i)
  {
    FinalIffAnswered(n, script, k, i);
  }

  lemma {:induction false} ConfirmedIffAnswered(n: nat, script: Script, k: nat, i: nat)
    ensures i in ConfirmedUpTo(n, script, k) <==> !Unanswered(n, script, k, i)
  {
    if k != 0 {
      ConfirmedIffAnswered(n, script, k - 1, i);
      ConfirmedStep(n, script, k - 1, i);
    }
  }

  lemma AnsweredIsSlot(n: nat, script: Script, t: nat, i: nat)
    requires AnsweredIn(n, script, t, i)
    ensures i < n && i in SendBatchUpTo(n, script, t)
  {
  }

  lemma {:induction false} UnansweredBeyond(n: nat, script: Script, k: nat, i: nat)
    requires n <= i
    ensures Unanswered(n, script, k, i)
  {
    if k != 0 {
      UnansweredBeyond(n, script, k - 1, i);
      if AnsweredIn(n, script, k - 1, i) {
        AnsweredIsSlot(n, script, k - 1, i);
      }
    }
  }

  /** Listed are exactly the slots of the batch that are confirmed; the others are those that failed. */
  lemma ListedIffConfirmed(n: nat, inner: Inner, maxRetries: nat, script: Script, i: nat)
    ensures i in ConfirmedSlots(n, inner, maxRetries, script) <==> i < n && Confirmed(inner, maxRetries, script, n, i)
    ensures i < n ==> (i in ConfirmedSlots(n, inner, maxRetries, script) <==> i !in Failed(n, inner, maxRetries, script))
  {
    if inner.hasBatch {
      ConfirmedIffAnswered(n, script, Attempts(inner, maxRetries), i);
      if n <= i {
        UnansweredBeyond(n, script, Attempts(inner, maxRetries), i);
      }
    }
    if i < n {
      FailedIffUnconfirmed(n, inner, maxRetries, script, i);
    }
  }

  /** `order` and `failed` split the slots below `n`. */
  ghost predicate Splits(order: seq<nat>, failed: seq<nat>, n: nat) {
    && (forall j :: 0 <= j < |order| ==> order[j] < n)
    && (forall s :: 0 <= s < n ==> (s in order <==> s !in failed))
  }

  lemma FlushSplits(n: nat, inner: Inner, maxRetries: nat, script: Script)
    ensures Splits(ConfirmedSlots(n, inner, maxRetries, script), Failed(n, inner, maxRetries, script), n)
  {
    var order := ConfirmedSlots(n, inner, maxRetries, script);
    forall j | 0 <= j < |order| ensures order[j] < n {
      ListedIffConfirmed(n, inner, maxRetries, script, order[j]);
    }
    forall s | 0 <= s < n
      ensures s in ConfirmedSlots(n, inner, maxRetries, script) <==> s !in Failed(n, inner, maxRetries, script)
    {
      ListedIffConfirmed(n, inner, maxRetries, script, s);
    }
  }

  // ---------- Accounting ----------

  /**
   Every envelope ever handed in, by arrival number: which are in flight, which
   passthrough waits for its flush, which wait in the queue, and which are done with, in
   the order in which the inner client confirmed them, or was handed a passthrough.
   */
  datatype Books = Books(
    arrived: seq<Envelope>,
    inFlight: seq<nat>,
    passing: seq<nat>,
    queued: seq<nat>,
    taken: seq<nat>)

  /** Each arrival is in exactly one place, and the actions not done with are in arrival order. */
  ghost predicate Balanced(b: Books) {
    && Slots(b.inFlight + b.queued, |b.arrived|)
    && (forall i :: i in b.passing ==> i < |b.arrived| && i !in b.inFlight && i !in b.queued)
    && (forall i :: i in b.taken ==> i < |b.arrived| && i !in b.inFlight && i !in b.passing && i !in b.queued)
    && (forall i :: 0 <= i < |b.arrived| ==> i in b.taken || i in b.inFlight || i in b.passing || i in b.queued)
  }

  /** Nothing is under way. */
  ghost predicate Idle(b: Books) {
    b.inFlight == [] && b.passing == []
  }

  /** A bufferable envelope arrives. */
  function Arrive(b: Books, e: Envelope): Books {
    b.(arrived := b.arrived + [e], queued := b.queued + [|b.arrived|])
  }

  function ArriveAll(b: Books, es: seq<Envelope>): Books {
    if es == [] then b else Arrive(ArriveAll(b, es[..|es| - 1]), es[|es| - 1])
  }

  /** The queue is drained into flight. */
  function Drain(b: Books): Books {
    b.(inFlight := b.queued, queued := [])
  }

  /** The flush ends: the failed slots of the flight go back to the front, the others are done with in the order given. */
  function Land(b: Books, failed: seq<nat>, order: seq<nat>): Books
    requires forall j :: 0 <= j < |failed| ==> failed[j] < |b.inFlight|
    requires forall j :: 0 <= j < |order| ==> order[j] < |b.inFlight|
  {
    b.(inFlight := [], queued := Select(b.inFlight, failed) + b.queued, taken := b.taken + Select(b.inFlight, order))
  }

  /** A passthrough envelope is handed in; it waits for the queue to be flushed. */
  function HandIn(b: Books, e: Envelope): Books {
    b.(arrived := b.arrived + [e], passing := b.passing + [|b.arrived|])
  }

  /** The passthrough goes to the inner client, whose answer or exception is the caller's. */
  function Through(b: Books): Books {
    b.(passing := [], taken := b.taken + b.passing)
  }

  lemma ArriveBalanced(b: Books, e: Envelope)
    requires Balanced(b)
    ensures Balanced(Arrive(b, e))
  {
    var open := b.inFlight + b.queued;
    var after := Arrive(b, e);
    assert after.inFlight + after.queued == open + [|b.arrived|];
    forall j, k ensures Less(open + [|b.arrived|], j, k) {
      assert Less(open, j, k);
      assert 0 <= j < |open| ==> open[j] < |b.arrived|;
    }
  }

  lemma {:induction false} ArriveAllBalanced(b: Books, es: seq<Envelope>)
    requires Balanced(b)
    ensures Balanced(ArriveAll(b, es)) && ArriveAll(b, es).inFlight == b.inFlight && ArriveAll(b, es).passing == b.passing
    ensures ArriveAll(b, es).arrived == b.arrived + es
    ensures ArriveAll(b, es).taken == b.taken
    ensures b.queued <= ArriveAll(b, es).queued
  {
    if es != [] {
      ArriveAllBalanced(b, es[..|es| - 1]);
      ArriveBalanced(ArriveAll(b, es[..|es| - 1]), es[|es| - 1]);
    }
  }

  lemma DrainBalanced(b: Books)
    requires Balanced(b) && b.inFlight == []
    ensures Balanced(Drain(b))
  {
    assert b.inFlight + b.queued == Drain(b).inFlight + Drain(b).queued;
  }

  lemma LandSlots(inFlight: seq<nat>, queued: seq<nat>, failed: seq<nat>, bound: nat)
    requires Slots(inFlight + queued, bound) && Slots(failed, |inFlight|)
    ensures Slots(Select(inFlight, failed) + queued, bound)
  {
    var back, open := Select(inFlight, failed), inFlight + queued;
    var all := back + queued;
    forall j | 0 <= j < |all| ensures all[j] < bound {
      assert open[if j < |back| then failed[j] else |inFlight| + j - |back|] == all[j];
    }
    forall j, k ensures Less(all, j, k) {
      if 0 <= j < k < |all| {
        var j' := if j < |back| then failed[j] else |inFlight| + j - |back|;
        var k' := if k < |back| then failed[k] else |inFlight| + k - |back|;
        assert Less(failed, j, k);
        assert open[j'] == all[j] && open[k'] == all[k];
        assert Less(open, j', k');
      }
    }
  }

  /** A flush that ends, however much of it failed, loses nothing, and what failed keeps its place in the queue. */
  lemma LandBalanced(b: Books, failed: seq<nat>, order: seq<nat>)
    requires Balanced(b) && Slots(failed, |b.inFlight|) && Splits(order, failed, |b.inFlight|)
    ensures Balanced(Land(b, failed, order))
  {
    var after := Land(b, failed, order);
    LandSlots(b.inFlight, b.queued, failed, |b.arrived|);
    LandSplits(b, failed, order);
    assert after.inFlight + after.queued == Select(b.inFlight, failed) + b.queued;
  }

  lemma InFlightOnce(b: Books, m: nat, k: nat)
    requires Balanced(b) && m < |b.inFlight| && k < |b.inFlight| && b.inFlight[m] == b.inFlight[k]
    ensures m == k
  {
    var open := b.inFlight + b.queued;
    assert open[m] == open[k];
    assert Less(open, m, k) && Less(open, k, m);
  }

  lemma InFlightNotQueued(b: Books, i: nat)
    requires Balanced(b) && i in b.inFlight
    ensures i < |b.arrived| && i !in b.queued && i !in b.passing
  {
    var open := b.inFlight + b.queued;
    var m :| 0 <= m < |b.inFlight| && b.inFlight[m] == i;
    assert open[m] == i;
    forall j | 0 <= j < |b.queued| ensures b.queued[j] != i {
      assert Less(open, m, |b.inFlight| + j) && b.queued[j] == open[|b.inFlight| + j];
    }
  }

  lemma LandSplits(b: Books, failed: seq<nat>, order: seq<nat>)
    requires Balanced(b) && Slots(failed, |b.inFlight|) && Splits(order, failed, |b.inFlight|)
    ensures forall i :: i in Land(b, failed, order).taken ==>
              i < |b.arrived| && i !in Select(b.inFlight, failed) && i !in b.passing && i !in b.queued
    ensures forall i :: i in b.passing ==> i !in Select(b.inFlight, failed)
    ensures forall i :: 0 <= i < |b.arrived| ==>
              i in Land(b, failed, order).taken || i in Select(b.inFlight, failed) || i in b.passing || i in b.queued
  {
    var back, done := Select(b.inFlight, failed), Select(b.inFlight, order);
    forall i | i in done ensures i < |b.arrived| && i !in back && i !in b.passing && i !in b.queued {
      var m :| 0 <= m < |done| && done[m] == i;
      assert order[m] in order && i in b.inFlight;
      InFlightNotQueued(b, i);
      forall j | 0 <= j < |back| ensures back[j] != i {
        assert failed[j] in failed;
        if back[j] == i {
          InFlightOnce(b, order[m], failed[j]);
        }
      }
    }
    forall i | i in b.taken || i in b.passing ensures i !in back {
      forall j | 0 <= j < |back| ensures back[j] != i {
        assert back[j] == b.inFlight[failed[j]] && b.inFlight[failed[j]] in b.inFlight;
      }
    }
    forall i | i in b.inFlight ensures i in done || i in back {
      var m :| 0 <= m < |b.inFlight| && b.inFlight[m] == i;
      if m in failed {
        var j :| 0 <= j < |failed| && failed[j] == m;
        assert back[j] == i;
      } else {
        var j :| 0 <= j < |order| && order[j] == m;
        assert done[j] == i;
      }
    }
  }

  lemma HandInBalanced(b: Books, e: Envelope)
    requires Balanced(b)
    ensures Balanced(HandIn(b, e))
  {
    var open := b.inFlight + b.queued;
    assert forall j :: 0 <= j < |open| ==> open[j] < |b.arrived|;
    assert forall i :: i in b.inFlight || i in b.queued ==> i in open;
  }

  lemma ThroughBalanced(b: Books)
    requires Balanced(b)
    ensures Balanced(Through(b))
  {
    assert Through(b).inFlight + Through(b).queued == b.inFlight + b.queued;
  }

  // ---------- Runs ----------

  datatype Settings = Settings(inner: Inner, maxBufferSize: nat, maxRetries: nat)

  /**
   A call of `handle`, or a turn of the background loop. `during` are the actions
   other tasks hand in while the flush is in flight.
   */
  datatype Op = Handle(envelope: Envelope, script: Script, during: seq<Envelope>) | Tick(script: Script, during: seq<Envelope>)

  /** One flush at a time: what arrives during it is queued, so it is bufferable. */
  ghost predicate OneFlush(op: Op) {
    forall i :: 0 <= i < |op.during| ==> ShouldBuffer(op.during[i])
  }

  /** What a call of `handle` gives its caller: queued, the inner client's answer, or its exception. */
  datatype Reply = Queued | Replied(response: Response) | Raises

  /** The slots a flush of `n` puts back. */
  function FailedIn(n: nat, cfg: Settings, script: Script): (failed: seq<nat>)
    ensures Slots(failed, n)
  {
    Failed(n, cfg.inner, cfg.maxRetries, script)
  }

  /** The slots a flush of `n` is done with, in the order of their confirmation. */
  function OrderOf(n: nat, cfg: Settings, script: Script): seq<nat> {
    ConfirmedSlots(n, cfg.inner, cfg.maxRetries, script)
  }

  function FlushBooks(b: Books, cfg: Settings, script: Script, during: seq<Envelope>): Books
    requires Balanced(b) && b.inFlight == []
  {
    if b.queued == [] then b
    else
      var flying := ArriveAll(Drain(b), during);
      DrainBalanced(b);
      ArriveAllBalanced(Drain(b), during);
      FlushSplits(|b.queued|, cfg.inner, cfg.maxRetries, script);
      Land(flying, FailedIn(|b.queued|, cfg, script), OrderOf(|b.queued|, cfg, script))
  }

  function StepBooks(b: Books, cfg: Settings, op: Op): Books
    requires Balanced(b) && Idle(b)
  {
    match op
    case Tick(script, during) => FlushBooks(b, cfg, script, during)
    case Handle(e, script, during) =>
      if ShouldBuffer(e) then
        ArriveBalanced(b, e);
        if |b.queued| + 1 >= cfg.maxBufferSize then FlushBooks(Arrive(b, e), cfg, script, during) else Arrive(b, e)
      else
        HandInBalanced(b, e);
        Through(FlushBooks(HandIn(b, e), cfg, script, during))
  }

  lemma FlushBalanced(b: Books, cfg: Settings, script: Script, during: seq<Envelope>)
    requires Balanced(b) && b.inFlight == []
    ensures Balanced(FlushBooks(b, cfg, script, during))
    ensures FlushBooks(b, cfg, script, during).inFlight == [] && FlushBooks(b, cfg, script, during).passing == b.passing
  {
    if b.queued != [] {
      DrainBalanced(b);
      ArriveAllBalanced(Drain(b), during);
      FlushSplits(|b.queued|, cfg.inner, cfg.maxRetries, script);
      LandBalanced(ArriveAll(Drain(b), during), FailedIn(|b.queued|, cfg, script), OrderOf(|b.queued|, cfg, script));
    }
  }

  lemma StepBalanced(b: Books, cfg: Settings, op: Op)
    requires Balanced(b) && Idle(b)
    ensures Balanced(StepBooks(b, cfg, op)) && Idle(StepBooks(b, cfg, op))
  {
    if op.Handle? && ShouldBuffer(op.envelope) {
      ArriveBalanced(b, op.envelope);
      FlushBalanced(Arrive(b, op.envelope), cfg, op.script, op.during);
    } else if op.Handle? {
      HandInBalanced(b, op.envelope);
      FlushBalanced(HandIn(b, op.envelope), cfg, op.script, op.during);
      ThroughBalanced(FlushBooks(HandIn(b, op.envelope), cfg, op.script, op.during));
    } else {
      FlushBalanced(b, cfg, op.script, op.during);
    }
  }

  function RunBooks(b: Books, cfg: Settings, ops: seq<Op>): (end: Books)
    requires Balanced(b) && Idle(b)
    ensures Balanced(end) && Idle(end)
  {
    if ops == [] then b
    else
      var before := RunBooks(b, cfg, ops[..|ops| - 1]);
      StepBalanced(before, cfg, ops[|ops| - 1]);
      StepBooks(before, cfg, ops[|ops| - 1])
  }

  /**
   An auto-authorized action handed in below the size limit only waits; the one that reaches
   the limit flushes the queue with itself in it, and then only what arrived meanwhile and
   what the inner client did not confirm waits.
   */
  lemma FlushesWhenFull(b: Books, cfg: Settings, e: Envelope, script: Script, during: seq<Envelope>)
    requires Balanced(b) && Idle(b) && e.body.ActionRecord? && e.body.action.auth == Some(AutoAuthorized)
    ensures var after := StepBooks(b, cfg, Op.Handle(e, script, during));
            if |b.queued| + 1 < cfg.maxBufferSize
            then after.queued == b.queued + [|b.arrived|] && after.taken == b.taken && after.arrived == b.arrived + [e]
            else |after.queued| == |during| + |FailedIn(|b.queued| + 1, cfg, script)| && b.taken <= after.taken
  {
    if |b.queued| + 1 >= cfg.maxBufferSize {
      var full := Arrive(b, e);
      ArriveBalanced(b, e);
      DrainBalanced(full);
      ArriveAllBalanced(Drain(full), during);
      FlushSplits(|full.queued|, cfg.inner, cfg.maxRetries, script);
      ArriveAllLengthens(Drain(full), during);
    }
  }

  lemma {:induction false} ArriveAllLengthens(b: Books, es: seq<Envelope>)
    ensures |ArriveAll(b, es).queued| == |b.queued| + |es| && ArriveAll(b, es).inFlight == b.inFlight
    ensures ArriveAll(b, es).taken == b.taken
  {
    if es != [] {
      ArriveAllLengthens(b, es[..|es| - 1]);
    }
  }

  const EMPTY := Books([], [], [], [], [])

  lemma EmptyBalanced()
    ensures Balanced(EMPTY) && Idle(EMPTY)
  {
    assert EMPTY.inFlight + EMPTY.queued == [];
  }

  // ---------- What was confirmed ----------

  /** The books from which an operation drains the queue, if it does. */
  function DrainedBy(b: Books, cfg: Settings, op: Op): Option<Books> {
    match op
    case Tick(_, _) => Some(b)
    case Handle(e, _, _) =>
      if !ShouldBuffer(e) then Some(HandIn(b, e))
      else if |b.queued| + 1 >= cfg.maxBufferSize then Some(Arrive(b, e))
      else None
  }

  /** The arrivals of a drained queue that the inner client confirmed. */
  ghost function ConfirmedOf(queued: seq<nat>, cfg: Settings, script: Script): (done: set<nat>)
    ensures forall i :: i in done <==>
              exists s :: 0 <= s < |queued| && queued[s] == i && Confirmed(cfg.inner, cfg.maxRetries, script, |queued|, s)
  {
    set s | 0 <= s < |queued| && Confirmed(cfg.inner, cfg.maxRetries, script, |queued|, s) :: queued[s]
  }

  /** The arrivals confirmed in the flush of one operation. */
  ghost function ConfirmedIn(b: Books, cfg: Settings, op: Op): set<nat> {
    var drained := DrainedBy(b, cfg, op);
    if drained.None? then {} else ConfirmedOf(drained.value.queued, cfg, op.script)
  }

  /** The arrivals confirmed in some flush of a run. */
  ghost function ConfirmedDuring(b: Books, cfg: Settings, ops: seq<Op>): set<nat>
    requires Balanced(b) && Idle(b)
  {
    if ops == [] then {}
    else
      var front := ops[..|ops| - 1];
      ConfirmedDuring(b, cfg, front) + ConfirmedIn(RunBooks(b, cfg, front), cfg, ops[|ops| - 1])
  }

  /** A flush is done with exactly what the inner client confirmed of the queue it drained. */
  lemma FlushTakesConfirmed(b: Books, cfg: Settings, script: Script, during: seq<Envelope>)
    requires Balanced(b) && b.inFlight == []
    ensures Elems(FlushBooks(b, cfg, script, during).taken) == Elems(b.taken) + ConfirmedOf(b.queued, cfg, script)
  {
    if b.queued != [] {
      DrainBalanced(b);
      ArriveAllBalanced(Drain(b), during);
      var n, order := |b.queued|, OrderOf(|b.queued|, cfg, script);
      FlushSplits(n, cfg.inner, cfg.maxRetries, script);
      var done := Select(b.queued, order);
      forall i ensures i in done <==> i in ConfirmedOf(b.queued, cfg, script) {
        OrderHolds(b.queued, cfg, script, i);
      }
    }
  }

  lemma OrderHolds(queued: seq<nat>, cfg: Settings, script: Script, i: nat)
    requires forall j :: 0 <= j < |OrderOf(|queued|, cfg, script)| ==> OrderOf(|queued|, cfg, script)[j] < |queued|
    ensures i in Select(queued, OrderOf(|queued|, cfg, script)) <==> i in ConfirmedOf(queued, cfg, script)
  {
    var order := OrderOf(|queued|, cfg, script);
    var done := Select(queued, order);
    forall s: nat ensures s in order <==> s < |queued| && Confirmed(cfg.inner, cfg.maxRetries, script, |queued|, s) {
      ListedIffConfirmed(|queued|, cfg.inner, cfg.maxRetries, script, s);
    }
    if i in done {
      var j :| 0 <= j < |done| && done[j] == i;
      assert order[j] in order;
    }
    if i in ConfirmedOf(queued, cfg, script) {
      var s :| 0 <= s < |queued| && queued[s] == i && Confirmed(cfg.inner, cfg.maxRetries, script, |queued|, s);
      var j :| 0 <= j < |order| && order[j] == s;
      assert done[j] == i;
    }
  }

  /** The arrivals of the books that are actions to be buffered, or not. */
  ghost predicate OnlyActionsWait(b: Books) {
    && (forall i :: i in b.inFlight || i in b.queued ==> i < |b.arrived| && ShouldBuffer(b.arrived[i]))
    && (forall i :: i in b.passing ==> i < |b.arrived| && !ShouldBuffer(b.arrived[i]))
  }

  /** An action that is done with was confirmed, and only those; whatever is not an action is through. */
  ghost predicate TakenAreConfirmed(b: Books, confirmed: set<nat>) {
    && OnlyActionsWait(b)
    && (forall i :: i in confirmed ==> i in b.taken)
    && (forall i :: i in b.taken && i < |b.arrived| && ShouldBuffer(b.arrived[i]) ==> i in confirmed)
  }

  lemma {:induction false} ArriveAllActions(b: Books, es: seq<Envelope>)
    requires OnlyActionsWait(b) && forall i :: 0 <= i < |es| ==> ShouldBuffer(es[i])
    ensures OnlyActionsWait(ArriveAll(b, es)) && ArriveAll(b, es).arrived == b.arrived + es
  {
    if es != [] {
      ArriveAllActions(b, es[..|es| - 1]);
    }
  }

  lemma LandActions(b: Books, failed: seq<nat>, order: seq<nat>)
    requires OnlyActionsWait(b) && Slots(failed, |b.inFlight|) && forall j :: 0 <= j < |order| ==> order[j] < |b.inFlight|
    ensures OnlyActionsWait(Land(b, failed, order))
  {
    var back := Select(b.inFlight, failed);
    forall j | 0 <= j < |back| ensures back[j] in b.inFlight {
    }
  }

  lemma FlushActions(b: Books, cfg: Settings, script: Script, during: seq<Envelope>)
    requires Balanced(b) && b.inFlight == [] && OnlyActionsWait(b)
    requires forall i :: 0 <= i < |during| ==> ShouldBuffer(during[i])
    ensures OnlyActionsWait(FlushBooks(b, cfg, script, during))
    ensures b.arrived <= FlushBooks(b, cfg, script, during).arrived
  {
    if b.queued != [] {
      DrainBalanced(b);
      ArriveAllBalanced(Drain(b), during);
      ArriveAllActions(Drain(b), during);
      FlushSplits(|b.queued|, cfg.inner, cfg.maxRetries, script);
      LandActions(ArriveAll(Drain(b), during), FailedIn(|b.queued|, cfg, script), OrderOf(|b.queued|, cfg, script));
    }
  }

  lemma FlushConfirms(b: Books, cfg: Settings, script: Script, during: seq<Envelope>, confirmed: set<nat>)
    requires Balanced(b) && b.inFlight == [] && TakenAreConfirmed(b, confirmed)
    requires forall i :: 0 <= i < |during| ==> ShouldBuffer(during[i])
    ensures TakenAreConfirmed(FlushBooks(b, cfg, script, during), confirmed + ConfirmedOf(b.queued, cfg, script))
  {
    FlushTakesConfirmed(b, cfg, script, during);
    FlushActions(b, cfg, script, during);
  }

  lemma StepConfirms(b: Books, cfg: Settings, op: Op, confirmed: set<nat>)
    requires Balanced(b) && Idle(b) && TakenAreConfirmed(b, confirmed) && OneFlush(op)
    ensures TakenAreConfirmed(StepBooks(b, cfg, op), confirmed + ConfirmedIn(b, cfg, op))
  {
    if op.Handle? && ShouldBuffer(op.envelope) {
      ArriveBalanced(b, op.envelope);
      FlushConfirms(Arrive(b, op.envelope), cfg, op.script, op.during, confirmed);
    } else if op.Handle? {
      HandInBalanced(b, op.envelope);
      FlushConfirms(HandIn(b, op.envelope), cfg, op.script, op.during, confirmed);
    } else {
      FlushConfirms(b, cfg, op.script, op.during, confirmed);
    }
  }

  lemma {:induction false} RunConfirms(cfg: Settings, ops: seq<Op>)
    requires forall k :: 0 <= k < |ops| ==> OneFlush(ops[k])
    ensures Balanced(EMPTY) && Idle(EMPTY)
    ensures TakenAreConfirmed(RunBooks(EMPTY, cfg, ops), ConfirmedDuring(EMPTY, cfg, ops))
  {
    EmptyBalanced();
    if ops != [] {
      var front := ops[..|ops| - 1];
      RunConfirms(cfg, front);
      StepConfirms(RunBooks(EMPTY, cfg, front), cfg, ops[|ops| - 1], ConfirmedDuring(EMPTY, cfg, front));
    }
  }

  /**
   After any run from empty, with any mix of failed flushes: an action is done with
   if and only if the inner client confirmed it in some flush of the run, and every
   other action is still queued, in arrival order. Everything else went through.
   */
  lemma NothingLostOrReordered(cfg: Settings, ops: seq<Op>)
    requires forall k :: 0 <= k < |ops| ==> OneFlush(ops[k])
    ensures Balanced(EMPTY) && Idle(EMPTY)
    ensures var end, confirmed := RunBooks(EMPTY, cfg, ops), ConfirmedDuring(EMPTY, cfg, ops);
            && Ascending(end.queued)
            && forall i :: 0 <= i < |end.arrived| ==>
                 if end.arrived[i].body.ActionRecord? && end.arrived[i].body.action.auth == Some(AutoAuthorized)
                 then (i in end.taken <==> i in confirmed) && (i in end.queued <==> i !in confirmed)
                 else i in end.taken
  {
    RunConfirms(cfg, ops);
    var end := RunBooks(EMPTY, cfg, ops);
    assert end.inFlight + end.queued == end.queued;
    forall j, k | 0 <= j < k < |end.queued| ensures end.queued[j] < end.queued[k] {
      assert Less(end.queued, j, k);
    }
  }

  // ---------- Over the cloud transport ----------

  /** A fully answered batch with nothing to retry leaves nothing to re-queue. */
  lemma AnsweredLeavesNothing(n: nat, script: Script)
    requires |BatchAt(script, 0)| == n && forall i :: 0 <= i < n ==> !NeedsRetry(BatchAt(script, 0)[i])
    ensures SendBatchUpTo(n, script, 1) == []
  {
    var all := SendBatchUpTo(n, script, 0);
    assert all[..n] == all && all[n..] == [] && BatchAt(script, 0)[..n] == BatchAt(script, 0);
    NoneKept(all, BatchAt(script, 0), n);
  }

  lemma {:induction false} NoneKept(slots: seq<nat>, rs: seq<Response>, n: nat)
    requires n <= |slots| == |rs| && forall j :: 0 <= j < n ==> !NeedsRetry(rs[j])
    ensures RetryUpTo(slots, rs, n) == []
  {
    if n != 0 {
      NoneKept(slots, rs, n - 1);
    }
  }

  /**
   With the cloud transport inside, its spool enabled and losses only warned about,
   flushing any queue of actions, new ones and ones that carry their seal, leaves
   nothing to re-queue, whatever the network and the disk do.
   */
  lemma CloudFlushLeavesNothing(c: Client, cfg: Config, batch: seq<Envelope>, wire: seq<HttpOutcome>, disk: seq<Disk>, maxRetries: nat)
    requires cfg.spoolEnabled && !cfg.failOnLoss
    requires forall e :: e in batch ==> ShouldBuffer(e) && (Unsealed(e.body.action) || CloudSafety.HasSeal(e))
    ensures var o := Cloud.HandleBatch(c, cfg, batch, wire, disk);
            o.result.Ok? && Failed(|batch|, Inner(true, true), maxRetries, Script([Some(o.result.value)], [])) == []
  {
    forall e | e in batch ensures CloudCalls.Telemetry(e) {
    }
    CloudCalls.TelemetryReturns(c, cfg, batch, wire, disk);
    CloudCalls.AlignedAndFinal(c, cfg, batch, wire, disk);
    var o := Cloud.HandleBatch(c, cfg, batch, wire, disk);
    AnsweredLeavesNothing(|batch|, Script([Some(o.result.value)], []));
  }
}
