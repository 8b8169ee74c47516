/**
 The order in which the micro-batching client gets its envelopes confirmed
 (rootsign/sdk/buffered_client.py:129-246): inside one flush, of a passthrough
 against the actions before it, and over whole runs.
 */
module BufferedOrder {
  import opened Common
  import opened Hashing
  import opened Wire
  import opened Cloud
  import opened Buffered

  // ---------- Inside one flush ----------

  /** Attempt `t` answers slot `j` finally, and the smaller slot `i` is only answered at the later attempt `u`. */
  ghost predicate Overtakes(n: nat, script: Script, t: nat, u: nat, i: nat, j: nat) {
    t < u && i < j && AnsweredIn(n, script, t, j) && AnsweredIn(n, script, u, i)
  }

  ghost predicate NoneOvertakenAt(n: nat, script: Script, u: nat) {
    forall t: nat, i: nat, j: nat :: !Overtakes(n, script, t, u, i, j)
  }

  /** In the first `k` attempts nothing is answered before a smaller slot that is answered later. */
  ghost predicate NoneOvertakes(n: nat, script: Script, k: nat) {
    0 < k ==> NoneOvertakes(n, script, k - 1) && NoneOvertakenAt(n, script, k - 1)
  }

  lemma {:induction false} NoneOvertakesMeans(n: nat, script: Script, k: nat)
    ensures NoneOvertakes(n, script, k) <==> forall t: nat, u: nat, i: nat, j: nat :: u < k ==> !Overtakes(n, script, t, u, i, j)
  {
    if 0 < k {
      NoneOvertakesMeans(n, script, k - 1);
      if NoneOvertakes(n, script, k) {
        forall t: nat, u: nat, i: nat, j: nat | u < k ensures !Overtakes(n, script, t, u, i, j) {
          assert u < k - 1 || u == k - 1;
        }
      }
    }
  }

  lemma AnsweredOnce(n: nat, script: Script, t: nat, u: nat, i: nat)
    requires t < u && AnsweredIn(n, script, t, i)
    ensures !AnsweredIn(n, script, u, i)
  {
    if AnsweredIn(n, script, u, i) {
      AnsweredIsSlot(n, script, u, i);
      var unsent := UnsentIffUnanswered(n, script, u, i);
      UnansweredMeans(n, script, u, i);
    }
  }

  lemma {:induction false} FinalAscends(pending: seq<nat>, rs: seq<Response>, m: nat, bound: nat)
    requires Slots(pending, bound) && m <= |pending| && m <= |rs|
    ensures Ascending(FinalUpTo(pending, rs, m))
    ensures forall s :: s in FinalUpTo(pending, rs, m) ==> s in pending[..m]
  {
    if m != 0 {
      FinalAscends(pending, rs, m - 1, bound);
      assert pending[..m] == pending[..m - 1] + [pending[m - 1]];
      var before := FinalUpTo(pending, rs, m - 1);
      forall j | 0 <= j < |before| ensures before[j] < pending[m - 1] {
        assert before[j] in pending[..m - 1];
        var i :| 0 <= i < m - 1 && pending[i] == before[j];
        assert Less(pending, i, m - 1);
      }
    }
  }

  ghost predicate AllBelow(xs: seq<nat>, ys: seq<nat>) {
    forall x, y :: x in xs && y in ys ==> x < y
  }

  lemma AscendingAppend(xs: seq<nat>, ys: seq<nat>)
    ensures Ascending(xs + ys) <==> Ascending(xs) && Ascending(ys) && AllBelow(xs, ys)
  {
    var all := xs + ys;
    if Ascending(all) {
      forall i, j | 0 <= i < j < |xs| ensures xs[i] < xs[j] {
        assert all[i] < all[j];
      }
      forall i, j | 0 <= i < j < |ys| ensures ys[i] < ys[j] {
        assert all[|xs| + i] < all[|xs| + j];
      }
      forall x, y | x in xs && y in ys ensures x < y {
        var i :| 0 <= i < |xs| && xs[i] == x;
        var j :| 0 <= j < |ys| && ys[j] == y;
        assert all[i] < all[|xs| + j];
      }
    }
    if Ascending(xs) && Ascending(ys) && AllBelow(xs, ys) {
      forall i, j | 0 <= i < j < |all| ensures all[i] < all[j] {
        assert i < |xs| <= j ==> xs[i] in xs && ys[j - |xs|] in ys;
      }
    }
  }

  /** What one more request answers comes after all before it exactly when it overtakes nothing. */
  lemma OneMoreAnswered(n: nat, script: Script, k: nat)
    ensures AllBelow(ConfirmedUpTo(n, script, k), FinalOf(SendBatchUpTo(n, script, k), BatchAt(script, k))) <==>
            NoneOvertakenAt(n, script, k)
  {
    var before, now := ConfirmedUpTo(n, script, k), FinalOf(SendBatchUpTo(n, script, k), BatchAt(script, k));
    forall x: nat ensures x in before <==> exists t: nat :: t < k && AnsweredIn(n, script, t, x) {
      ConfirmedIffAnswered(n, script, k, x);
      UnansweredMeans(n, script, k, x);
    }
    forall y: nat ensures y in now <==> AnsweredIn(n, script, k, y) {
      FinalIffAnswered(n, script, k, y);
    }
    if AllBelow(before, now) {
      forall t: nat, i: nat, j: nat ensures !Overtakes(n, script, t, k, i, j) {
        assert t < k && AnsweredIn(n, script, t, j) ==> j in before;
      }
    }
    if NoneOvertakenAt(n, script, k) {
      forall x, y | x in before && y in now ensures x < y {
        var t: nat :| t < k && AnsweredIn(n, script, t, x);
        AnsweredOnce(n, script, t, k, x);
        assert !Overtakes(n, script, t, k, y, x);
      }
    }
  }

  lemma OneMoreAscends(n: nat, script: Script, k: nat)
    ensures Ascending(ConfirmedUpTo(n, script, k + 1)) <==>
            Ascending(ConfirmedUpTo(n, script, k)) && NoneOvertakenAt(n, script, k)
  {
    var pending, rs := SendBatchUpTo(n, script, k), BatchAt(script, k);
    FinalAscends(pending, rs, Min(|pending|, |rs|), n);
    AscendingAppend(ConfirmedUpTo(n, script, k), FinalOf(pending, rs));
    OneMoreAnswered(n, script, k);
  }

  lemma {:induction false} AscendsIff(n: nat, script: Script, k: nat) returns (ascends: bool)
    ensures ascends == Ascending(ConfirmedUpTo(n, script, k))
    ensures ascends == NoneOvertakes(n, script, k)
  {
    if k == 0 {
      ascends := true;
    } else {
      var before := AscendsIff(n, script, k - 1);
      OneMoreAscends(n, script, k - 1);
      ascends := before && NoneOvertakenAt(n, script, k - 1);
    }
  }

  lemma {:induction false} SentAscends(n: nat, script: Script, attempts: nat)
    ensures Ascending(SentUpTo(n, script, attempts))
  {
    if n != 0 {
      SentAscends(n - 1, script, attempts);
      var before := SentUpTo(n - 1, script, attempts);
      forall j | 0 <= j < |before| ensures before[j] < n - 1 {
        assert before[j] in before;
      }
    }
  }

  /** No request of the flush answers a slot finally before a smaller one that is answered later. */
  ghost predicate InOrder(n: nat, cfg: Settings, script: Script) {
    !cfg.inner.hasBatch || NoneOvertakes(n, script, Attempts(cfg.inner, cfg.maxRetries))
  }

  /** Slots are confirmed in ascending order exactly then; envelopes sent singly, or a batch sent once, always are. */
  lemma OrderIff(n: nat, cfg: Settings, script: Script)
    ensures Ascending(OrderOf(n, cfg, script)) <==> InOrder(n, cfg, script)
    ensures !cfg.inner.hasBatch || Attempts(cfg.inner, cfg.maxRetries) <= 1 ==> InOrder(n, cfg, script)
  {
    if cfg.inner.hasBatch {
      var ascends := AscendsIff(n, script, Attempts(cfg.inner, cfg.maxRetries));
      NoneOvertakesMeans(n, script, Attempts(cfg.inner, cfg.maxRetries));
    } else {
      SentAscends(n, script, Attempts(cfg.inner, cfg.maxRetries));
    }
  }

  lemma SelectAscends(queued: seq<nat>, order: seq<nat>)
    requires Ascending(queued) && forall j :: 0 <= j < |order| ==> order[j] < |queued|
    ensures Ascending(Select(queued, order)) <==> Ascending(order)
  {
    var ys := Select(queued, order);
    if Ascending(ys) {
      forall i, j | 0 <= i < j < |order| ensures order[i] < order[j] {
        assert ys[i] < ys[j];
      }
    }
  }

  lemma QueueAscends(b: Books)
    requires Balanced(b) && b.inFlight == []
    ensures Ascending(b.queued)
  {
    assert b.inFlight + b.queued == b.queued;
    forall j, k | 0 <= j < k < |b.queued| ensures b.queued[j] < b.queued[k] {
      assert Less(b.queued, j, k);
    }
  }

  /** What a flush adds to the envelopes done with, in order. */
  lemma FlushAdds(b: Books, cfg: Settings, script: Script, during: seq<Envelope>) returns (added: seq<nat>)
    requires Balanced(b) && b.inFlight == []
    ensures FlushBooks(b, cfg, script, during).taken == b.taken + added
    ensures forall i :: i in added ==> i in b.queued
    ensures Ascending(added) <==> InOrder(|b.queued|, cfg, script)
  {
    if b.queued == [] {
      added := [];
      NothingOvertaken(cfg, script);
      assert b.taken + [] == b.taken;
    } else {
      DrainBalanced(b);
      ArriveAllBalanced(Drain(b), during);
      FlushSplits(|b.queued|, cfg.inner, cfg.maxRetries, script);
      added := Select(b.queued, OrderOf(|b.queued|, cfg, script));
      QueueAscends(b);
      SelectAscends(b.queued, OrderOf(|b.queued|, cfg, script));
      OrderIff(|b.queued|, cfg, script);
    }
  }

  lemma NothingOvertaken(cfg: Settings, script: Script)
    ensures InOrder(0, cfg, script)
  {
    NoneOvertakesMeans(0, script, Attempts(cfg.inner, cfg.maxRetries));
    forall t: nat, u: nat, i: nat, j: nat ensures !Overtakes(0, script, t, u, i, j) {
      if AnsweredIn(0, script, t, j) {
        AnsweredIsSlot(0, script, t, j);
      }
    }
  }

  /**
   A flush gets the queue confirmed in arrival order if and only if no envelope of it is
   answered finally at an earlier attempt than one that arrived before it.
   */
  lemma FlushInOrderIff(b: Books, cfg: Settings, script: Script, during: seq<Envelope>)
    requires Balanced(b) && b.inFlight == []
    ensures b.taken <= FlushBooks(b, cfg, script, during).taken
    ensures Ascending(FlushBooks(b, cfg, script, during).taken[|b.taken|..]) <==> InOrder(|b.queued|, cfg, script)
  {
    var added := FlushAdds(b, cfg, script, during);
    assert (b.taken + added)[|b.taken|..] == added;
  }

  /** Two requests; the first answers the second of two envelopes only, the second one the other. */
  ghost predicate SecondFirst(cfg: Settings, script: Script) {
    && cfg.inner.hasBatch && Attempts(cfg.inner, cfg.maxRetries) == 2
    && |script.batches| == 2 && script.batches[0].Some? && script.batches[1].Some?
    && |script.batches[0].value| == 2 && NeedsRetry(script.batches[0].value[0]) && !NeedsRetry(script.batches[0].value[1])
    && |script.batches[1].value| == 1 && !NeedsRetry(script.batches[1].value[0])
  }

  lemma FirstRequest(script: Script) returns (rs: seq<Response>)
    requires |script.batches| == 2 && script.batches[0].Some? && |script.batches[0].value| == 2
    requires NeedsRetry(script.batches[0].value[0]) && !NeedsRetry(script.batches[0].value[1])
    ensures SendBatchUpTo(2, script, 1) == [0] && ConfirmedUpTo(2, script, 1) == [1]
  {
    rs := script.batches[0].value;
    var all := SendBatchUpTo(2, script, 0);
    assert all == [0, 1] && all[..2] == all && all[2..] == [] && rs[..2] == rs;
    assert BatchAt(script, 0) == rs && ConfirmedUpTo(2, script, 0) == [];
    assert RetryUpTo(all, rs, 1) == [0] && FinalUpTo(all, rs, 1) == [];
  }

  lemma SecondRequest(script: Script)
    requires |script.batches| == 2 && script.batches[1].Some? && |script.batches[1].value| == 1
    requires !NeedsRetry(script.batches[1].value[0])
    requires SendBatchUpTo(2, script, 1) == [0] && ConfirmedUpTo(2, script, 1) == [1]
    ensures SendBatchUpTo(2, script, 2) == [] && ConfirmedUpTo(2, script, 2) == [1, 0]
  {
    var rs := script.batches[1].value;
    assert BatchAt(script, 1) == rs && [0][..1] == [0] && [0][1..] == [] && rs[..1] == rs;
    assert RetryUpTo([0], rs, 0) == [] && FinalUpTo([0], rs, 0) == [];
    assert FinalUpTo([0], rs, 1) == [0];
  }

  /** Such a flush of two fails for neither, and has the second confirmed before the first. */
  lemma RetryReverses(b: Books, cfg: Settings, script: Script, during: seq<Envelope>)
    requires Balanced(b) && b.inFlight == [] && |b.queued| == 2 && SecondFirst(cfg, script)
    ensures FailedIn(2, cfg, script) == [] && OrderOf(2, cfg, script) == [1, 0]
    ensures FlushBooks(b, cfg, script, during).taken == b.taken + [b.queued[1], b.queued[0]]
  {
    var rs := FirstRequest(script);
    SecondRequest(script);
    DrainBalanced(b);
    ArriveAllBalanced(Drain(b), during);
    assert Select(b.queued, [1, 0]) == [b.queued[1], b.queued[0]];
  }

  /** Such a client and such answers, in full. */
  lemma SuchAFlush() returns (cfg: Settings, script: Script)
    ensures cfg == Settings(Inner(true, false), 5, 2)
    ensures script == Script([Some([Reject(8, StoreUnavailable, "", true), Accept(9, None, None, None)]),
                              Some([Accept(8, None, None, None)])], [])
    ensures SecondFirst(cfg, script)
  {
    cfg := Settings(Inner(true, false), 5, 2);
    script := Script([Some([Reject(8, StoreUnavailable, "", true), Accept(9, None, None, None)]),
                      Some([Accept(8, None, None, None)])], []);
  }

  // ---------- A passthrough against the actions before it ----------

  /** The inner client confirms the whole queue of `n`. */
  ghost predicate AllConfirmed(n: nat, cfg: Settings, script: Script) {
    forall s :: 0 <= s < n ==> Confirmed(cfg.inner, cfg.maxRetries, script, n, s)
  }

  lemma {:induction false} ArriveAllQueued(b: Books, es: seq<Envelope>)
    ensures var after := ArriveAll(b, es);
            && |after.arrived| == |b.arrived| + |es| && |after.queued| == |b.queued| + |es|
            && forall i :: i in after.queued <==> i in b.queued || |b.arrived| <= i < |b.arrived| + |es|
  {
    if es != [] {
      ArriveAllQueued(b, es[..|es| - 1]);
    }
  }

  /** Arrival `i` is in the queue, and the inner client does not confirm it. */
  ghost predicate LeftIn(queued: seq<nat>, cfg: Settings, script: Script, i: nat) {
    exists s :: 0 <= s < |queued| && queued[s] == i && !Confirmed(cfg.inner, cfg.maxRetries, script, |queued|, s)
  }

  lemma BackIff(queued: seq<nat>, cfg: Settings, script: Script, i: nat)
    ensures i in Select(queued, FailedIn(|queued|, cfg, script)) <==> LeftIn(queued, cfg, script, i)
  {
    var failed := FailedIn(|queued|, cfg, script);
    var back := Select(queued, failed);
    forall s | 0 <= s < |queued| ensures s in failed <==> !Confirmed(cfg.inner, cfg.maxRetries, script, |queued|, s) {
      FailedIffUnconfirmed(|queued|, cfg.inner, cfg.maxRetries, script, s);
    }
    if i in back {
      var j :| 0 <= j < |back| && back[j] == i;
      assert failed[j] in failed;
    }
    if LeftIn(queued, cfg, script, i) {
      var s :| 0 <= s < |queued| && queued[s] == i && !Confirmed(cfg.inner, cfg.maxRetries, script, |queued|, s);
      var j :| 0 <= j < |failed| && failed[j] == s;
      assert back[j] == i;
    }
  }

  lemma SomeUnconfirmed(n: nat, cfg: Settings, script: Script)
    requires FailedIn(n, cfg, script) != []
    ensures !AllConfirmed(n, cfg, script)
  {
    var s := FailedIn(n, cfg, script)[0];
    assert s in FailedIn(n, cfg, script);
    FailedIffUnconfirmed(n, cfg.inner, cfg.maxRetries, script, s);
  }

  lemma QueuedBelow(b: Books, i: nat)
    requires Balanced(b) && i in b.queued
    ensures i < |b.arrived| && i !in b.taken
  {
    var j :| 0 <= j < |b.queued| && b.queued[j] == i;
    assert (b.inFlight + b.queued)[|b.inFlight| + j] == i;
  }

  /** What waits after a flush: what it left unconfirmed, in front of what arrived during it. */
  lemma FlushLeaves(b: Books, cfg: Settings, script: Script, during: seq<Envelope>) returns (after: Books)
    requires Balanced(b) && b.inFlight == []
    ensures after == FlushBooks(b, cfg, script, during) && |b.arrived| <= |after.arrived|
    ensures forall i: nat :: i in after.queued <==> LeftIn(b.queued, cfg, script, i) || |b.arrived| <= i < |after.arrived|
    ensures AllConfirmed(|b.queued|, cfg, script) ==> |after.arrived| == |b.arrived| + |after.queued|
  {
    after := FlushBooks(b, cfg, script, during);
    if b.queued != [] {
      DrainBalanced(b);
      ArriveAllBalanced(Drain(b), during);
      ArriveAllQueued(Drain(b), during);
      FlushSplits(|b.queued|, cfg.inner, cfg.maxRetries, script);
      forall i: nat ensures i in Select(b.queued, FailedIn(|b.queued|, cfg, script)) <==> LeftIn(b.queued, cfg, script, i) {
        BackIff(b.queued, cfg, script, i);
      }
      if FailedIn(|b.queued|, cfg, script) != [] {
        SomeUnconfirmed(|b.queued|, cfg, script);
      }
    }
  }

  /**
   A passthrough is handed to the inner client after everything that arrived before it if
   and only if the flush in front of it leaves nothing unconfirmed; what it leaves is
   overtaken.
   */
  lemma OvertakesIff(b: Books, cfg: Settings, op: Op) returns (before: seq<nat>)
    requires Balanced(b) && Idle(b) && op.Handle? && !ShouldBuffer(op.envelope)
    ensures StepBooks(b, cfg, op).taken == before + [|b.arrived|]
    ensures forall i :: 0 <= i < |b.arrived| ==> (i in before <==> !LeftIn(b.queued, cfg, op.script, i))
    ensures (forall i :: 0 <= i < |b.arrived| ==> i in before) <==> AllConfirmed(|b.queued|, cfg, op.script)
  {
    HandInBalanced(b, op.envelope);
    var held := HandIn(b, op.envelope);
    FlushBalanced(held, cfg, op.script, op.during);
    var after := FlushLeaves(held, cfg, op.script, op.during);
    before := after.taken;
    forall i | 0 <= i < |b.arrived| ensures i in before <==> !LeftIn(b.queued, cfg, op.script, i) {
      assert i in before || i in after.queued;
    }
    UnconfirmedIsLeft(b, cfg, op.script);
  }

  lemma UnconfirmedIsLeft(b: Books, cfg: Settings, script: Script)
    requires Balanced(b)
    ensures AllConfirmed(|b.queued|, cfg, script) <==> forall i :: 0 <= i < |b.arrived| ==> !LeftIn(b.queued, cfg, script, i)
  {
    if forall i :: 0 <= i < |b.arrived| ==> !LeftIn(b.queued, cfg, script, i) {
      forall s | 0 <= s < |b.queued| ensures Confirmed(cfg.inner, cfg.maxRetries, script, |b.queued|, s) {
        assert b.queued[s] in b.queued;
        QueuedBelow(b, b.queued[s]);
        assert !LeftIn(b.queued, cfg, script, b.queued[s]);
      }
    }
  }

  // ---------- Over whole runs ----------

  /** Each passthrough taken stands behind everything that arrived before it. */
  ghost predicate InTurnAt(b: Books, q: nat) {
    q < |b.taken| && b.taken[q] < |b.arrived| && !ShouldBuffer(b.arrived[b.taken[q]]) ==>
      forall i :: 0 <= i < b.taken[q] ==> i in b.taken[..q]
  }

  ghost predicate PassthroughsInTurn(b: Books) {
    forall q: nat :: InTurnAt(b, q)
  }

  /** The flush in front of a passthrough leaves nothing unconfirmed. */
  ghost predicate Clears(b: Books, cfg: Settings, op: Op) {
    op.Handle? && !ShouldBuffer(op.envelope) ==> AllConfirmed(|b.queued|, cfg, op.script)
  }

  ghost predicate AllClear(cfg: Settings, ops: seq<Op>)
    requires Balanced(EMPTY) && Idle(EMPTY)
  {
    ops != [] ==>
      && AllClear(cfg, ops[..|ops| - 1])
      && Clears(RunBooks(EMPTY, cfg, ops[..|ops| - 1]), cfg, ops[|ops| - 1])
  }

  /** A flush adds only actions, so it leaves the passthroughs' turns as they are. */
  lemma TurnsKept(b: Books, after: Books, added: seq<nat>)
    requires after.taken == b.taken + added && b.arrived <= after.arrived
    requires forall i :: i in b.taken ==> i < |b.arrived|
    requires forall i :: i in added ==> i < |after.arrived| && ShouldBuffer(after.arrived[i])
    ensures PassthroughsInTurn(after) <==> PassthroughsInTurn(b)
  {
    forall q: nat ensures InTurnAt(after, q) <==> InTurnAt(b, q) {
      if q < |b.taken| {
        assert b.taken[q] in b.taken && after.taken[..q] == b.taken[..q];
      } else if q < |after.taken| {
        assert after.taken[q] == added[q - |b.taken|] && added[q - |b.taken|] in added;
      }
    }
  }

  lemma FlushKeepsTurns(b: Books, cfg: Settings, script: Script, during: seq<Envelope>)
    requires Balanced(b) && b.inFlight == [] && OnlyActionsWait(b) && forall i :: 0 <= i < |during| ==> ShouldBuffer(during[i])
    ensures PassthroughsInTurn(FlushBooks(b, cfg, script, during)) <==> PassthroughsInTurn(b)
  {
    var added := FlushAdds(b, cfg, script, during);
    FlushActions(b, cfg, script, during);
    TurnsKept(b, FlushBooks(b, cfg, script, during), added);
  }

  /** A passthrough taken last keeps all in turn exactly if everything before it was taken. */
  lemma OneMoreTurn(b: Books, p: nat)
    requires b.passing == [p] && p < |b.arrived| && !ShouldBuffer(b.arrived[p])
    ensures PassthroughsInTurn(Through(b)) <==> PassthroughsInTurn(b) && forall i :: 0 <= i < p ==> i in b.taken
  {
    var after, last := Through(b), |b.taken|;
    assert after.taken[..last] == b.taken && after.taken[last] == p;
    forall q: nat | q != last ensures InTurnAt(after, q) <==> InTurnAt(b, q) {
      if q < last {
        assert after.taken[..q] == b.taken[..q];
      }
    }
    assert InTurnAt(b, last);
    assert InTurnAt(after, last) <==> forall i :: 0 <= i < p ==> i in b.taken;
  }

  lemma StepTurns(b: Books, cfg: Settings, op: Op)
    requires Balanced(b) && Idle(b) && OnlyActionsWait(b) && OneFlush(op)
    ensures PassthroughsInTurn(StepBooks(b, cfg, op)) <==> PassthroughsInTurn(b) && Clears(b, cfg, op)
  {
    if op.Handle? && ShouldBuffer(op.envelope) {
      ArriveBalanced(b, op.envelope);
      assert b.taken + [] == b.taken;
      TurnsKept(b, Arrive(b, op.envelope), []);
      FlushKeepsTurns(Arrive(b, op.envelope), cfg, op.script, op.during);
    } else if op.Handle? {
      PassthroughTurn(b, cfg, op);
    } else {
      FlushKeepsTurns(b, cfg, op.script, op.during);
    }
  }

  lemma PassthroughTurn(b: Books, cfg: Settings, op: Op)
    requires Balanced(b) && Idle(b) && OnlyActionsWait(b) && OneFlush(op) && op.Handle? && !ShouldBuffer(op.envelope)
    ensures PassthroughsInTurn(StepBooks(b, cfg, op)) <==> PassthroughsInTurn(b) && Clears(b, cfg, op)
  {
    HandInBalanced(b, op.envelope);
    var held := HandIn(b, op.envelope);
    assert b.taken + [] == b.taken;
    TurnsKept(b, held, []);
    FlushKeepsTurns(held, cfg, op.script, op.during);
    FlushBalanced(held, cfg, op.script, op.during);
    FlushActions(held, cfg, op.script, op.during);
    var after := FlushBooks(held, cfg, op.script, op.during);
    OneMoreTurn(after, |b.arrived|);
    var before := OvertakesIff(b, cfg, op);
    assert after.taken == StepBooks(b, cfg, op).taken[..|after.taken|];
  }

  /**
   In every run from empty, whatever fails: each passthrough is taken after everything that
   arrived before it if and only if no flush in front of a passthrough leaves anything
   unconfirmed.
   */
  lemma {:induction false} InTurnIff(cfg: Settings, ops: seq<Op>)
    requires forall k :: 0 <= k < |ops| ==> OneFlush(ops[k])
    ensures Balanced(EMPTY) && Idle(EMPTY)
    ensures PassthroughsInTurn(RunBooks(EMPTY, cfg, ops)) <==> AllClear(cfg, ops)
  {
    EmptyBalanced();
    if ops != [] {
      var front := ops[..|ops| - 1];
      InTurnIff(cfg, front);
      RunConfirms(cfg, front);
      StepTurns(RunBooks(EMPTY, cfg, front), cfg, ops[|ops| - 1]);
    }
  }

  /** Every flush of the run confirms the whole queue. */
  ghost predicate Smooth(b: Books, cfg: Settings, op: Op) {
    var drained := DrainedBy(b, cfg, op);
    drained.Some? ==> AllConfirmed(|drained.value.queued|, cfg, op.script)
  }

  ghost predicate SmoothRun(cfg: Settings, ops: seq<Op>)
    requires Balanced(EMPTY) && Idle(EMPTY)
  {
    ops != [] ==>
      && SmoothRun(cfg, ops[..|ops| - 1])
      && Smooth(RunBooks(EMPTY, cfg, ops[..|ops| - 1]), cfg, ops[|ops| - 1])
  }

  /** No flush of the run answers an envelope before one that arrived earlier. */
  ghost predicate Orderly(b: Books, cfg: Settings, op: Op) {
    var drained := DrainedBy(b, cfg, op);
    drained.Some? ==> InOrder(|drained.value.queued|, cfg, op.script)
  }

  ghost predicate OrderlyRun(cfg: Settings, ops: seq<Op>)
    requires Balanced(EMPTY) && Idle(EMPTY)
  {
    ops != [] ==>
      && OrderlyRun(cfg, ops[..|ops| - 1])
      && Orderly(RunBooks(EMPTY, cfg, ops[..|ops| - 1]), cfg, ops[|ops| - 1])
  }

  lemma {:induction false} SmoothClears(cfg: Settings, ops: seq<Op>)
    requires Balanced(EMPTY) && Idle(EMPTY) && SmoothRun(cfg, ops)
    ensures AllClear(cfg, ops)
  {
    if ops != [] {
      SmoothClears(cfg, ops[..|ops| - 1]);
    }
  }

  /** If nothing fails, no passthrough precedes an earlier action, however often a flush had to retry. */
  lemma SmoothRunInTurn(cfg: Settings, ops: seq<Op>)
    requires forall k :: 0 <= k < |ops| ==> OneFlush(ops[k])
    requires Balanced(EMPTY) && Idle(EMPTY) && SmoothRun(cfg, ops)
    ensures PassthroughsInTurn(RunBooks(EMPTY, cfg, ops))
  {
    SmoothClears(cfg, ops);
    InTurnIff(cfg, ops);
  }

  // ---------- Arrival order ----------

  /** All but what waits, which arrived last, is done with. */
  ghost predicate Caught(b: Books) {
    && |b.queued| <= |b.arrived|
    && forall i: nat :: i in b.taken <==> i < |b.arrived| - |b.queued|
  }

  /** What is done with was confirmed in exactly arrival order. */
  ghost predicate Fifo(b: Books) {
    |b.queued| <= |b.arrived| && b.taken == Indices(|b.arrived| - |b.queued|)
  }

  lemma FifoIffAscending(b: Books)
    requires Caught(b)
    ensures Fifo(b) <==> Ascending(b.taken)
  {
    var all := Indices(|b.arrived| - |b.queued|);
    forall i: nat ensures i in all <==> i < |all| {
      if i < |all| {
        assert all[i] == i;
      }
    }
    if Ascending(b.taken) {
      AscendingUnique(b.taken, all);
    }
  }

  /** A smooth flush catches up: only what arrived during it, or a passthrough handed in last, is not done with. */
  lemma FlushCatches(b: Books, cfg: Settings, script: Script, during: seq<Envelope>) returns (after: Books)
    requires Balanced(b) && b.inFlight == [] && AllConfirmed(|b.queued|, cfg, script)
    ensures after == FlushBooks(b, cfg, script, during)
    ensures |after.arrived| == |b.arrived| + |after.queued| && after.passing == b.passing && after.inFlight == []
    ensures forall i: nat :: i in after.taken <==> i < |b.arrived| && i !in b.passing
  {
    after := FlushLeaves(b, cfg, script, during);
    FlushBalanced(b, cfg, script, during);
    forall i: nat ensures i in after.taken <==> i < |b.arrived| && i !in b.passing {
      assert !LeftIn(b.queued, cfg, script, i);
    }
  }

  lemma SmoothStepCatches(b: Books, cfg: Settings, op: Op)
    requires Balanced(b) && Idle(b) && Caught(b) && Smooth(b, cfg, op)
    ensures Caught(StepBooks(b, cfg, op))
  {
    if op.Handle? && ShouldBuffer(op.envelope) {
      ArriveBalanced(b, op.envelope);
      if |b.queued| + 1 >= cfg.maxBufferSize {
        var after := FlushCatches(Arrive(b, op.envelope), cfg, op.script, op.during);
      }
    } else if op.Handle? {
      HandInBalanced(b, op.envelope);
      var after := FlushCatches(HandIn(b, op.envelope), cfg, op.script, op.during);
    } else {
      var after := FlushCatches(b, cfg, op.script, op.during);
    }
  }

  /** What one operation adds, and that it all arrived after what was done with. */
  lemma StepAdds(b: Books, cfg: Settings, op: Op) returns (added: seq<nat>)
    requires Balanced(b) && Idle(b) && Caught(b)
    ensures StepBooks(b, cfg, op).taken == b.taken + added && AllBelow(b.taken, added)
    ensures Ascending(added) <==> Orderly(b, cfg, op)
  {
    if op.Handle? && ShouldBuffer(op.envelope) {
      ArriveBalanced(b, op.envelope);
      if |b.queued| + 1 >= cfg.maxBufferSize {
        added := FlushAdds(Arrive(b, op.envelope), cfg, op.script, op.during);
        QueuedAbove(Arrive(b, op.envelope), added, |b.arrived| - |b.queued|);
      } else {
        added := [];
        assert b.taken + [] == b.taken;
      }
    } else if op.Handle? {
      added := PassthroughAdds(b, cfg, op);
    } else {
      added := FlushAdds(b, cfg, op.script, op.during);
      QueuedAbove(b, added, |b.arrived| - |b.queued|);
    }
  }

  lemma QueuedAbove(b: Books, added: seq<nat>, t: nat)
    requires Balanced(b) && (forall i :: i in added ==> i in b.queued)
    requires forall i: nat :: i in b.taken <==> i < t
    ensures AllBelow(b.taken, added)
  {
    forall x, y | x in b.taken && y in added ensures x < y {
      QueuedBelow(b, y);
    }
  }

  lemma PassthroughAdds(b: Books, cfg: Settings, op: Op) returns (added: seq<nat>)
    requires Balanced(b) && Idle(b) && Caught(b) && op.Handle? && !ShouldBuffer(op.envelope)
    ensures StepBooks(b, cfg, op).taken == b.taken + added && AllBelow(b.taken, added)
    ensures Ascending(added) <==> InOrder(|b.queued|, cfg, op.script)
  {
    HandInBalanced(b, op.envelope);
    var flushed := FlushAdds(HandIn(b, op.envelope), cfg, op.script, op.during);
    FlushBalanced(HandIn(b, op.envelope), cfg, op.script, op.during);
    added := flushed + [|b.arrived|];
    QueuedAbove(b, flushed, |b.arrived| - |b.queued|);
    forall y | y in flushed ensures y < |b.arrived| {
      QueuedBelow(b, y);
    }
    LastAbove(b.taken, flushed, |b.arrived|);
    assert b.taken + flushed + [|b.arrived|] == b.taken + added;
  }

  lemma LastAbove(xs: seq<nat>, ys: seq<nat>, last: nat)
    requires AllBelow(xs, ys) && (forall x :: x in xs ==> x < last) && forall y :: y in ys ==> y < last
    ensures Ascending(ys + [last]) <==> Ascending(ys)
    ensures AllBelow(xs, ys + [last])
  {
    AscendingAppend(ys, [last]);
  }

  /**
   In every run in which nothing fails, everything is confirmed in exactly arrival order if
   and only if no flush answers an envelope before one that arrived earlier.
   */
  lemma {:induction false} SmoothRunIsFifoIff(cfg: Settings, ops: seq<Op>)
    requires Balanced(EMPTY) && Idle(EMPTY) && SmoothRun(cfg, ops)
    ensures Caught(RunBooks(EMPTY, cfg, ops))
    ensures Fifo(RunBooks(EMPTY, cfg, ops)) <==> OrderlyRun(cfg, ops)
  {
    if ops != [] {
      var front, last := ops[..|ops| - 1], ops[|ops| - 1];
      SmoothRunIsFifoIff(cfg, front);
      var before := RunBooks(EMPTY, cfg, front);
      SmoothStepCatches(before, cfg, last);
      var added := StepAdds(before, cfg, last);
      AscendingAppend(before.taken, added);
      FifoIffAscending(before);
    }
    FifoIffAscending(RunBooks(EMPTY, cfg, ops));
  }

  lemma {:induction false} OnceIsOrderly(cfg: Settings, ops: seq<Op>)
    requires Balanced(EMPTY) && Idle(EMPTY)
    requires !cfg.inner.hasBatch || Attempts(cfg.inner, cfg.maxRetries) <= 1
    ensures OrderlyRun(cfg, ops)
  {
    if ops != [] {
      var front, last := ops[..|ops| - 1], ops[|ops| - 1];
      OnceIsOrderly(cfg, front);
      var drained := DrainedBy(RunBooks(EMPTY, cfg, front), cfg, last);
      if drained.Some? {
        OrderIff(|drained.value.queued|, cfg, last.script);
      }
    }
  }

  /** Over an inner client without batches, or one that owns its retries, a smooth run is first in, first out. */
  lemma SmoothRunIsFifo(cfg: Settings, ops: seq<Op>)
    requires Balanced(EMPTY) && Idle(EMPTY) && SmoothRun(cfg, ops)
    requires !cfg.inner.hasBatch || Attempts(cfg.inner, cfg.maxRetries) <= 1
    ensures Fifo(RunBooks(EMPTY, cfg, ops))
  {
    OnceIsOrderly(cfg, ops);
    SmoothRunIsFifoIff(cfg, ops);
  }

  /** Two actions and a turn of the background loop: nothing fails, and the second is confirmed before the first. */
  lemma RunReverses(a: Envelope, b: Envelope, cfg: Settings, script: Script) returns (ops: seq<Op>)
    requires ShouldBuffer(a) && ShouldBuffer(b) && 2 < cfg.maxBufferSize && SecondFirst(cfg, script)
    ensures Balanced(EMPTY) && Idle(EMPTY)
    ensures ops == [Op.Handle(a, script, []), Op.Handle(b, script, []), Tick(script, [])]
    ensures SmoothRun(cfg, ops) && RunBooks(EMPTY, cfg, ops).taken == [1, 0]
  {
    EmptyBalanced();
    ops := [Op.Handle(a, script, []), Op.Handle(b, script, []), Tick(script, [])];
    var queued := TwoQueued(a, b, cfg, script, ops[..2]);
    assert ops[..2] == [ops[0], ops[1]];
    assert ops[..2][..1] == [ops[0]] && [ops[0]][..0] == [];
    RetryReverses(queued, cfg, script, []);
    assert [] + [1, 0] == [1, 0];
    NoneFailed(cfg, script);
  }

  lemma JustQueued(b: Books, cfg: Settings, e: Envelope, script: Script) returns (after: Books)
    requires Balanced(b) && Idle(b) && ShouldBuffer(e) && |b.queued| + 1 < cfg.maxBufferSize
    ensures after == StepBooks(b, cfg, Op.Handle(e, script, [])) == Arrive(b, e)
    ensures Smooth(b, cfg, Op.Handle(e, script, []))
  {
    after := Arrive(b, e);
  }

  lemma TwoQueued(a: Envelope, b: Envelope, cfg: Settings, script: Script, ops: seq<Op>) returns (queued: Books)
    requires ShouldBuffer(a) && ShouldBuffer(b) && 2 < cfg.maxBufferSize && Balanced(EMPTY) && Idle(EMPTY)
    requires ops == [Op.Handle(a, script, []), Op.Handle(b, script, [])]
    ensures queued == RunBooks(EMPTY, cfg, ops) && queued == Books([a, b], [], [], [0, 1], [])
    ensures SmoothRun(cfg, ops)
  {
    assert ops[..1] == [ops[0]] && ops[..1][..0] == [];
    var one := JustQueued(EMPTY, cfg, a, script);
    StepBalanced(EMPTY, cfg, ops[0]);
    assert one == RunBooks(EMPTY, cfg, ops[..1]);
    queued := JustQueued(one, cfg, b, script);
  }

  lemma NoneFailed(cfg: Settings, script: Script)
    requires FailedIn(2, cfg, script) == []
    ensures AllConfirmed(2, cfg, script)
  {
    forall s | 0 <= s < 2 ensures Confirmed(cfg.inner, cfg.maxRetries, script, 2, s) {
      FailedIffUnconfirmed(2, cfg.inner, cfg.maxRetries, script, s);
    }
  }
}
