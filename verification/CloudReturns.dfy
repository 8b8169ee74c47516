/**
 A cloud client that falls out of step with a chain and comes back: all that matters is
 that a session is in step whenever a new action of it is sealed.
 */
module CloudReturns {
  import opened Common
  import opened Ranges
  import opened Hashing
  import opened Wire
  import opened Verify
  import opened Chains
  import opened Cloud
  import opened CloudSafety
  import opened CloudCalls
  import opened CloudForks

  /** The client's tail of a session is the tail of the chain it sealed there. */
  ghost predicate InStep(chains: map<Id, Tail>, h: History, s: Id) {
    TailFor(chains, s) == TailOf(ChainFor(h, s))
  }

  /** In step or not, the client has every chain's length right. */
  ghost predicate Counts(chains: map<Id, Tail>, h: History) {
    forall s: Id :: CountIs(chains, h, s)
  }

  ghost predicate CountIs(chains: map<Id, Tail>, h: History, s: Id) {
    TailFor(chains, s).count == |ChainFor(h, s)|
  }

  /** The batch brings a new action of this session. */
  ghost predicate NewIn(envelopes: seq<Envelope>, s: Id) {
    exists i :: IsNew(envelopes, i) && envelopes[i].sessionId == s
  }

  /** Every session with a new action in the batch is in step. */
  ghost predicate SealsInStep(chains: map<Id, Tail>, h: History, envelopes: seq<Envelope>) {
    forall s: Id :: NewIn(envelopes, s) ==> InStep(chains, h, s)
  }

  // ---------- Sealing reads no other tails ----------

  function TrueTails(h: History): map<Id, Tail> {
    map s | s in h.chain :: TailOf(h.chain[s])
  }

  lemma TrueTailsSynced(h: History)
    ensures Synced(TrueTails(h), h)
  {
  }

  /** Two clients that differ only in chains, and not in those of the given sessions. */
  ghost predicate Alike(c: Client, d: Client, envelopes: seq<Envelope>) {
    && d == c.(chains := d.chains)
    && forall s: Id :: NewIn(envelopes, s) ==> TailFor(c.chains, s) == TailFor(d.chains, s)
  }

  lemma NextAlike(b: SealedBatch, d: SealedBatch, envelopes: seq<Envelope>, n: nat)
    requires n < |envelopes| == |b.envelopes| && b.envelopes[n] == envelopes[n]
    requires b.envelopes == d.envelopes && b.error == d.error && Alike(b.client, d.client, envelopes)
    ensures var b', d' := SealNext(b, n), SealNext(d, n);
            b'.envelopes == d'.envelopes && b'.error == d'.error && Alike(b'.client, d'.client, envelopes)
    ensures forall s: Id :: !NewIn(envelopes, s) ==> TailFor(SealNext(b, n).client.chains, s) == TailFor(b.client.chains, s)
  {
    var e := envelopes[n];
    if WantsSeal(e) {
      assert IsNew(envelopes, n) && NewIn(envelopes, e.sessionId);
    }
  }

  /** Sealing gives both the same envelopes, and leaves the tails of sessions without a new action alone. */
  lemma {:induction false} SealAlike(c: Client, d: Client, h: History, envelopes: seq<Envelope>, n: nat)
    returns (b: SealedBatch, b': SealedBatch)
    requires n <= |envelopes| && Alike(c, d, envelopes)
    ensures b == SealUpTo(c, envelopes, n) && b' == SealUpTo(d, envelopes, n)
    ensures b.envelopes == b'.envelopes && b.error == b'.error && Alike(b.client, b'.client, envelopes)
    ensures forall s: Id :: !NewIn(envelopes, s) ==> TailFor(b.client.chains, s) == TailFor(c.chains, s)
    ensures HistoryUpTo(c, h, envelopes, n) == HistoryUpTo(d, h, envelopes, n)
  {
    if n == 0 {
      b, b' := SealedBatch(c, envelopes, None), SealedBatch(d, envelopes, None);
    } else {
      var before, before' := SealAlike(c, d, h, envelopes, n - 1);
      SealsKept(c, envelopes, n - 1);
      NextAlike(before, before', envelopes, n - 1);
      HistoryAlike(HistoryUpTo(c, h, envelopes, n - 1), before.client, before'.client, envelopes, n - 1);
      b, b' := SealNext(before, n - 1), SealNext(before', n - 1);
    }
  }

  lemma HistoryAlike(g: History, c: Client, d: Client, envelopes: seq<Envelope>, i: nat)
    requires i < |envelopes| && Alike(c, d, envelopes)
    ensures NextHistory(g, c, envelopes[i]) == NextHistory(g, d, envelopes[i])
  {
    if WantsSeal(envelopes[i]) {
      assert IsNew(envelopes, i) && NewIn(envelopes, envelopes[i].sessionId);
    }
  }

  /** Only chains of sessions with a new action grow. */
  lemma {:induction false} OthersUntouched(c: Client, h: History, envelopes: seq<Envelope>, n: nat, s: Id)
    requires n <= |envelopes| && !NewIn(envelopes, s)
    ensures ChainFor(HistoryUpTo(c, h, envelopes, n), s) == ChainFor(h, s)
  {
    if n != 0 {
      OthersUntouched(c, h, envelopes, n - 1, s);
      assert WantsSeal(envelopes[n - 1]) ==> IsNew(envelopes, n - 1);
    }
  }

  /** The batch sealed: every action carries the seal of its row, and each session is in step as it was before. */
  lemma SealedLoosely(sys: System, call: Call, h: History) returns (b: SealedBatch, g: History)
    requires Safe(sys, h) && Counts(sys.client.chains, h) && Admissible(h, call.envelopes)
    requires SealsInStep(sys.client.chains, h, call.envelopes)
    ensures b == SealUpTo(sys.client, call.envelopes, |call.envelopes|) && b.error.None?
    ensures g == HistoryAfter(sys, call, h) && Chained(g) && Recorded(g)
    ensures AllSealed(g, b.envelopes) && FilesLogged(b.client.files, g) && ServerLogged(sys.server, g)
    ensures Counts(b.client.chains, g)
    ensures forall s: Id :: InStep(b.client.chains, g, s) <==> InStep(sys.client.chains, h, s)
  {
    var n := |call.envelopes|;
    var d := sys.client.(chains := TrueTails(h));
    TrueTailsSynced(h);
    assert Alike(sys.client, d, call.envelopes) by {
      forall s: Id | NewIn(call.envelopes, s) ensures TailFor(sys.client.chains, s) == TailFor(d.chains, s) {
        assert InStep(sys.client.chains, h, s);
      }
    }
    var b';
    b, b' := SealAlike(sys.client, d, h, call.envelopes, n);
    var shadow;
    shadow, g := SealKeeps(d, h, call.envelopes, n);
    NewEventsFresh(h, call.envelopes, n);
    LoggedStays(sys, h, g, NewEvents(call.envelopes, n));
    forall s: Id ensures CountIs(b.client.chains, g, s) && (InStep(b.client.chains, g, s) <==> InStep(sys.client.chains, h, s)) {
      TailKept(sys.client, h, g, call.envelopes, b, shadow, s);
    }
  }

  lemma TailKept(c: Client, h: History, g: History, envelopes: seq<Envelope>, b: SealedBatch, shadow: SealedBatch, s: Id)
    requires g == HistoryUpTo(c, h, envelopes, |envelopes|) && Counts(c.chains, h) && SealsInStep(c.chains, h, envelopes)
    requires Alike(b.client, shadow.client, envelopes) && Synced(shadow.client.chains, g)
    requires forall t: Id :: !NewIn(envelopes, t) ==> TailFor(b.client.chains, t) == TailFor(c.chains, t)
    ensures CountIs(b.client.chains, g, s) && (InStep(b.client.chains, g, s) <==> InStep(c.chains, h, s))
  {
    if NewIn(envelopes, s) {
      assert TailFor(b.client.chains, s) == TailFor(shadow.client.chains, s) == TailOf(ChainFor(g, s));
      assert InStep(c.chains, h, s);
    } else {
      OthersUntouched(c, h, envelopes, |envelopes|, s);
      assert CountIs(c.chains, h, s);
    }
  }

  // ---------- One call ----------

  /** Where a session's tail stands after the writes: at the last record taken over, or where it was. */
  lemma {:induction false} TailAfterWrites(g: History, c: Client, cfg: Config, envelopes: seq<Envelope>, disk: seq<Disk>, n: nat, s: Id)
    returns (last: Option<int>, tail: Tail)
    requires n <= |envelopes| && AllSealed(g, envelopes) && FilesLogged(c.files, g) && CountIs(c.chains, g, s)
    ensures last == LastAdopted(c, cfg, envelopes, disk, n, s) && LastOk(ChainFor(g, s), last)
    ensures tail == TailFor(WriteUpTo(c, cfg, envelopes, disk, n).client.chains, s)
    ensures tail == if last.None? then TailFor(c.chains, s) else AdoptedTail(ChainFor(g, s), last)
  {
    if n == 0 {
      last, tail := None, TailFor(c.chains, s);
    } else {
      var last0, tail0 := TailAfterWrites(g, c, cfg, envelopes, disk, n - 1, s);
      WriteLogs(g, c, cfg, envelopes, disk, n - 1);
      last, tail := OneMoreTail(g, WriteUpTo(c, cfg, envelopes, disk, n - 1), cfg, envelopes[n - 1], DiskAt(disk, n - 1), s, last0, tail0);
    }
  }

  lemma OneMoreTail(g: History, w: Writing, cfg: Config, e: Envelope, disk: Disk, s: Id, last0: Option<int>, tail0: Tail)
    returns (last: Option<int>, tail: Tail)
    requires SealedIn(g, e) && FilesLogged(w.client.files, g) && LastOk(ChainFor(g, s), last0)
    requires tail0 == TailFor(w.client.chains, s) && tail0.count == |ChainFor(g, s)|
    ensures last == if e.sessionId == s && Adopts(w, e, disk) then e.body.action.number else last0
    ensures LastOk(ChainFor(g, s), last) && tail == TailFor(WriteNext(w, cfg, e, disk).client.chains, s)
    ensures tail == if e.sessionId == s && Adopts(w, e, disk) then AdoptedTail(ChainFor(g, s), last) else tail0
  {
    WriteStep(g, w, cfg, e, disk);
    last := if e.sessionId == s && Adopts(w, e, disk) then e.body.action.number else last0;
    tail := TailFor(WriteNext(w, cfg, e, disk).client.chains, s);
  }

  /** The session is in step after the call: the spool took over its newest record last, or none, and it was in step before. */
  ghost predicate EndsInStep(sys: System, cfg: Config, call: Call, h: History, s: Id) {
    var (c, spooled) := ToSpool(sys, cfg, call);
    var last := LastAdopted(c, cfg, spooled, call.disk, |spooled|, s);
    if last.None? then InStep(sys.client.chains, h, s) else last == Some(|ChainFor(HistoryAfter(sys, call, h), s)|)
  }

  /**
   One call from a client that need not be in step, as long as the sessions with new
   actions are: everything held stays one sealed chain per session, and a session is in
   step afterwards if and only if the spool took over its newest record last, or took over
   none of its records and it was in step before.
   */
  lemma LooseStep(sys: System, cfg: Config, call: Call, h: History)
    requires Safe(sys, h) && Counts(sys.client.chains, h) && Admissible(h, call.envelopes)
    requires SealsInStep(sys.client.chains, h, call.envelopes)
    ensures Safe(StepSystem(sys, cfg, call), HistoryAfter(sys, call, h))
    ensures Counts(StepSystem(sys, cfg, call).client.chains, HistoryAfter(sys, call, h))
    ensures forall s: Id :: InStep(StepSystem(sys, cfg, call).client.chains, HistoryAfter(sys, call, h), s) <==>
                            EndsInStep(sys, cfg, call, h, s)
  {
    var b, g := SealedLoosely(sys, call, h);
    var c, spooled, w := ClientAfter(sys, cfg, call, b);
    PartSealed(g, b.envelopes, spooled);
    WriteLogs(g, c, cfg, spooled, call.disk, |spooled|);
    ForkDelivered(sys, cfg, call, g, b);
    forall s: Id ensures CountIs(w.client.chains, g, s) && (InStep(w.client.chains, g, s) <==> EndsInStep(sys, cfg, call, h, s)) {
      assert CountIs(b.client.chains, g, s) && CountIs(c.chains, g, s);
      var last, tail := TailAfterWrites(g, c, cfg, spooled, call.disk, |spooled|, s);
      assert ChainOf(ChainFor(g, s), s);
      TailIdentifies(ChainFor(g, s), last);
      assert InStep(c.chains, g, s) <==> InStep(sys.client.chains, h, s);
    }
  }

  // ---------- Runs ----------

  /** Along the run, a session is in step whenever a new action of it is handed in. */
  ghost predicate InStepWhenSealing(sys: System, cfg: Config, calls: seq<Call>, h: History)
    decreases |calls|
  {
    calls != [] ==>
      && SealsInStep(sys.client.chains, h, calls[0].envelopes)
      && InStepWhenSealing(StepSystem(sys, cfg, calls[0]), cfg, calls[1..], HistoryAfter(sys, calls[0], h))
  }

  /** A client may fall out of step and back: only sealing must find it in step. */
  lemma {:induction false} LooseRunKeeps(sys: System, cfg: Config, calls: seq<Call>, h: History)
    requires Safe(sys, h) && Counts(sys.client.chains, h)
    requires NewRun(sys, cfg, calls, h) && InStepWhenSealing(sys, cfg, calls, h)
    ensures Safe(RunSystem(sys, cfg, calls), RunHistory(sys, cfg, calls, h))
    decreases |calls|
  {
    if calls != [] {
      LooseStep(sys, cfg, calls[0], h);
      LooseRunKeeps(StepSystem(sys, cfg, calls[0]), cfg, calls[1..], HistoryAfter(sys, calls[0], h));
    }
  }

  /**
   From a fresh client and an empty server, with calls of any size: if every new action
   is sealed in step, whatever server and spool hold of a session is never TAMPERED, and
   the numbers reported missing are those sealed that neither holds, below the largest held.
   */
  lemma NeverTamperedLoosely(cfg: Config, minted: Id, calls: seq<Call>, session: Id, picked: seq<Line>)
    requires NewRun(Start(minted), cfg, calls, NOTHING) && InStepWhenSealing(Start(minted), cfg, calls, NOTHING)
    requires Lists(picked, Held(RunSystem(Start(minted), cfg, calls), session))
    ensures LocalResult(picked).verdict != Tampered
    ensures var end := RunSystem(Start(minted), cfg, calls);
            var sealed := ChainFor(RunHistory(Start(minted), cfg, calls, NOTHING), session);
            forall n :: Covers(LocalResult(picked).missing, n) <==>
              picked != [] && 1 <= n <= |sealed| && n < MaxOf(Seqs(picked)) && sealed[n - 1] !in Held(end, session)
  {
    StartSafe(minted);
    LooseRunKeeps(Start(minted), cfg, calls, NOTHING);
    HeldVerdict(RunSystem(Start(minted), cfg, calls), RunHistory(Start(minted), cfg, calls, NOTHING), session, picked);
  }

  /** Handing in a session's newest record once more, if the spool takes it over, brings the session back into step. */
  lemma NewestBringsBack(sys: System, cfg: Config, call: Call, h: History)
    requires Safe(sys, h) && Counts(sys.client.chains, h) && Admissible(h, call.envelopes)
    requires |call.envelopes| == 1 && HasSeal(call.envelopes[0]) && TakesOver(sys, cfg, call)
    requires SequenceOf(call.envelopes[0]) == Some(|ChainFor(h, call.envelopes[0].sessionId)|)
    ensures HistoryAfter(sys, call, h) == h && Safe(StepSystem(sys, cfg, call), h)
    ensures InStep(StepSystem(sys, cfg, call).client.chains, h, call.envelopes[0].sessionId)
  {
    var e := call.envelopes[0];
    HistoryOfOne(sys.client, h, call.envelopes);
    UnsealedUntouched(sys.client, call.envelopes);
    assert SealUpTo(sys.client, call.envelopes, 1).envelopes == [e];
    var c, spooled := SpooledOfOne(sys, cfg, call, e);
    assert WriteUpTo(c, cfg, spooled, call.disk, 0) == Writing(c, [], 0, None);
    LooseStep(sys, cfg, call, h);
    assert EndsInStep(sys, cfg, call, h, e.sessionId);
  }
}
