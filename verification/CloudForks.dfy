/**
 When failover leaves the cloud client out of step with the chain it sealed, and
 what the verifier then says of the records that are held.
 */
module CloudForks {
  import opened Common
  import opened Ranges
  import opened Hashing
  import opened Wire
  import opened Verify
  import opened Verdicts
  import opened Chains
  import opened Cloud
  import opened CloudSafety
  import opened CloudCalls

  /** `picked` are rows of the chain, and perhaps the row `forked`. */
  ghost predicate RowsAndFork(rows: seq<Row>, forked: Row, picked: seq<Line>) {
    && rows != [] && Distinct(picked)
    && forall l :: l in picked ==> l == Full(forked) || InRows(rows, l)
  }

  /** The chain's newest row and the forked one are both listed. */
  ghost predicate BothListed(rows: seq<Row>, forked: Row, picked: seq<Line>)
    requires rows != []
  {
    Full(rows[|rows| - 1]) in picked && Full(forked) in picked
  }

  ghost predicate InRows(rows: seq<Row>, l: Line) {
    l.Full? && l.row in rows
  }

  lemma RowOfLine(rows: seq<Row>, l: Line)
    requires IsChain(rows) && InRows(rows, l)
    ensures 1 <= SeqOf(l) <= |rows| && l == Full(rows[SeqOf(l) - 1]) && ChainRow(rows, SeqOf(l) - 1)
  {
    var i :| 0 <= i < |rows| && rows[i] == l.row;
    assert ChainRow(rows, i);
  }

  lemma ForkNumbers(rows: seq<Row>, forked: Row, picked: seq<Line>)
    requires IsChain(rows) && RowsAndFork(rows, forked, picked) && forked.number == |rows| + 1
    ensures UniqueNumbers(picked) && Numbered(picked)
  {
    forall l | l in picked ensures 1 <= SeqOf(l) && (SeqOf(l) <= |rows| ==> l == Full(rows[SeqOf(l) - 1]))
                                   && (SeqOf(l) > |rows| ==> l == Full(forked))
    {
      if l != Full(forked) {
        RowOfLine(rows, l);
      }
    }
    forall i, j | 0 <= i < j < |picked| ensures Seqs(picked)[i] != Seqs(picked)[j] {
      assert picked[i] in picked && picked[j] in picked;
    }
  }

  lemma SoundBelowFork(rows: seq<Row>, forked: Row, picked: seq<Line>, l: Line)
    requires IsChain(rows) && RowsAndFork(rows, forked, picked) && forked.number == |rows| + 1
    requires l in picked && SeqOf(l) < |rows| + 1
    ensures Sound(picked, l)
  {
    RowOfLine(rows, l);
    forall q | q in picked && SeqOf(q) == SeqOf(l) - 1
      ensures q.Full? && OrNone(l.row.prevHash) == Some(q.row.selfHash)
    {
      RowOfLine(rows, q);
    }
  }

  lemma ForkUnsound(rows: seq<Row>, forked: Row, picked: seq<Line>)
    requires IsChain(rows) && RowsAndFork(rows, forked, picked) && forked.number == |rows| + 1
    requires BothListed(rows, forked, picked) && OrNone(forked.prevHash) != Some(rows[|rows| - 1].selfHash)
    ensures !Sound(picked, Full(forked))
  {
    assert ChainRow(rows, |rows| - 1);
  }

  /** Without the newest row, the gap before the forked one explains its break. */
  lemma ForkExplained(rows: seq<Row>, forked: Row, picked: seq<Line>)
    requires IsChain(rows) && RowsAndFork(rows, forked, picked) && forked.number == |rows| + 1
    requires forked.selfHash == SelfHash(forked) && Bound(forked) && Full(rows[|rows| - 1]) !in picked
    ensures Sound(picked, Full(forked))
  {
    forall q | q in picked ensures SeqOf(q) != |rows| {
      if q != Full(forked) {
        RowOfLine(rows, q);
      }
    }
  }

  lemma AllSoundBut(rows: seq<Row>, forked: Row, picked: seq<Line>)
    requires IsChain(rows) && RowsAndFork(rows, forked, picked) && forked.number == |rows| + 1
    requires forked.selfHash == SelfHash(forked) && Bound(forked) && !BothListed(rows, forked, picked)
    ensures AllSound(picked)
  {
    forall l | l in picked ensures Sound(picked, l) {
      if l == Full(forked) {
        ForkExplained(rows, forked, picked);
      } else {
        RowOfLine(rows, l);
        SoundBelowFork(rows, forked, picked, l);
      }
    }
  }

  /** The number at which the records verify TAMPERED, if they do; a TAMPERED report always names one. */
  function TamperedAt(picked: seq<Line>): Option<int> {
    if LocalResult(picked).verdict == Tampered then LocalResult(picked).firstInvalid else None
  }

  /**
   After the spool ends on an older record, the next record sealed links to that one.
   Rows of the chain listed with it, in any order, are TAMPERED if and only if it and the
   chain's newest record are both among them, and then at its number; otherwise the gap
   explains the break.
   */
  lemma ForkIsTampered(rows: seq<Row>, last: Option<int>, session: Id, newId: Id, p: ActionPayload, picked: seq<Line>)
    requires IsChain(rows) && LastOk(rows, last) && last.Some? && last != Some(|rows|) && BoundPayload(p)
    requires RowsAndFork(rows, RowOf(session, p, Mint(AdoptedTail(rows, last), session, newId, p).seal), picked)
    ensures var forked := RowOf(session, p, Mint(AdoptedTail(rows, last), session, newId, p).seal);
            TamperedAt(picked) == if BothListed(rows, forked, picked) then Some(|rows| + 1) else None
  {
    var forked := RowOf(session, p, Mint(AdoptedTail(rows, last), session, newId, p).seal);
    assert ChainRow(rows, |rows| - 1) && ChainRow(rows, last.value - 1);
    ForkNumbers(rows, forked, picked);
    if BothListed(rows, forked, picked) {
      ForkUnsound(rows, forked, picked);
      ForkLocated(rows, forked, picked);
    } else {
      AllSoundBut(rows, forked, picked);
      LocalMeaning(picked);
    }
  }

  lemma ForkLocated(rows: seq<Row>, forked: Row, picked: seq<Line>)
    requires IsChain(rows) && RowsAndFork(rows, forked, picked) && forked.number == |rows| + 1
    requires UniqueNumbers(picked) && Numbered(picked) && Full(forked) in picked && !Sound(picked, Full(forked))
    ensures LocalResult(picked).verdict == Tampered && LocalResult(picked).firstInvalid == Some(|rows| + 1)
  {
    forall l | l in picked && SeqOf(l) < |rows| + 1 ensures Sound(picked, l) {
      SoundBelowFork(rows, forked, picked, l);
    }
    LocalMeaning(picked);
    FirstUnsoundUnique(picked, |rows| + 1, LocalResult(picked).firstInvalid.value);
  }

  /** The client a call leaves behind is the one its spool writes leave behind. */
  lemma ClientAfter(sys: System, cfg: Config, call: Call, b: SealedBatch) returns (c: Client, spooled: seq<Envelope>, w: Writing)
    requires b == SealUpTo(sys.client, call.envelopes, |call.envelopes|) && b.error.None?
    ensures ToSpool(sys, cfg, call) == (c, spooled) && w == WriteUpTo(c, cfg, spooled, call.disk, |spooled|)
    ensures StepSystem(sys, cfg, call).client == w.client
    ensures c.chains == b.client.chains && c.files == b.client.files
    ensures forall i :: 0 <= i < |spooled| ==> spooled[i] in b.envelopes
  {
    var plan := PlanBatch(b, cfg, call.wire);
    c, spooled := plan.client, Select(b.envelopes, plan.spool);
    w := WriteUpTo(c, cfg, spooled, call.disk, |spooled|);
  }

  ghost predicate AllSealed(g: History, envelopes: seq<Envelope>) {
    forall i :: 0 <= i < |envelopes| ==> SealedIn(g, envelopes[i])
  }

  /** A call's batch once it is sealed. */
  lemma SealedCall(sys: System, call: Call, h: History) returns (b: SealedBatch, g: History)
    requires Safe(sys, h) && Synced(sys.client.chains, h) && Admissible(h, call.envelopes)
    ensures b == SealUpTo(sys.client, call.envelopes, |call.envelopes|) && b.error.None?
    ensures g == HistoryAfter(sys, call, h)
    ensures AllSealed(g, b.envelopes) && Synced(b.client.chains, g) && FilesLogged(b.client.files, g)
  {
    var n := |call.envelopes|;
    b, g := SealKeeps(sys.client, h, call.envelopes, n);
    NewEventsFresh(h, call.envelopes, n);
    LoggedStays(sys, h, g, NewEvents(call.envelopes, n));
  }

  lemma PartSealed(g: History, envelopes: seq<Envelope>, spooled: seq<Envelope>)
    requires AllSealed(g, envelopes) && forall i :: 0 <= i < |spooled| ==> spooled[i] in envelopes
    ensures AllSealed(g, spooled)
  {
  }

  /** After a call, a session's tail is that of the last seal the spool took over. */
  lemma TailAfter(sys: System, cfg: Config, call: Call, h: History, session: Id)
    returns (last: Option<int>, g: History, c: Client, spooled: seq<Envelope>)
    requires Safe(sys, h) && Synced(sys.client.chains, h) && Admissible(h, call.envelopes)
    ensures g == HistoryAfter(sys, call, h) && ToSpool(sys, cfg, call) == (c, spooled)
    ensures last == LastAdopted(c, cfg, spooled, call.disk, |spooled|, session)
    ensures LastOk(ChainFor(g, session), last)
    ensures TailFor(StepSystem(sys, cfg, call).client.chains, session) == AdoptedTail(ChainFor(g, session), last)
  {
    var b, w;
    b, g := SealedCall(sys, call, h);
    c, spooled, w := ClientAfter(sys, cfg, call, b);
    PartSealed(g, b.envelopes, spooled);
    last := TailOfWrites(g, c, cfg, spooled, call.disk, w, session);
  }

  lemma TailOfWrites(g: History, c: Client, cfg: Config, spooled: seq<Envelope>, disk: seq<Disk>, w: Writing, session: Id)
    returns (last: Option<int>)
    requires AllSealed(g, spooled) && FilesLogged(c.files, g) && Synced(c.chains, g)
    requires w == WriteUpTo(c, cfg, spooled, disk, |spooled|)
    ensures last == LastAdopted(c, cfg, spooled, disk, |spooled|, session)
    ensures LastOk(ChainFor(g, session), last) && TailFor(w.client.chains, session) == AdoptedTail(ChainFor(g, session), last)
  {
    var w' := WriteKeeps(g, c, cfg, spooled, disk, |spooled|);
    last := LastAdopted(c, cfg, spooled, disk, |spooled|, session);
    assert TailFor(w'.client.chains, session) == TailFor(w.client.chains, session);
  }

  lemma {:induction false} WriteLogs(h: History, c: Client, cfg: Config, envelopes: seq<Envelope>, disk: seq<Disk>, n: nat)
    requires n <= |envelopes| && forall i :: 0 <= i < |envelopes| ==> SealedIn(h, envelopes[i])
    requires FilesLogged(c.files, h)
    ensures FilesLogged(WriteUpTo(c, cfg, envelopes, disk, n).client.files, h)
  {
    if n != 0 {
      WriteLogs(h, c, cfg, envelopes, disk, n - 1);
      WriteStep(h, WriteUpTo(c, cfg, envelopes, disk, n - 1), cfg, envelopes[n - 1], DiskAt(disk, n - 1));
    }
  }

  /** Call `next` hands in one new action of a session. */
  ghost predicate HandsInNew(g: History, next: Call, session: Id) {
    |next.envelopes| == 1 && WantsSeal(next.envelopes[0]) && NewAction(g, next.envelopes[0])
    && next.envelopes[0].sessionId == session
  }

  /** The row a new action gets from a client that is out of step. */
  lemma ForkSealed(s1: System, g: History, next: Call, session: Id, last: Option<int>) returns (forked: Row, g': History, sealed: Envelope)
    requires Safe(s1, g) && HandsInNew(g, next, session)
    requires LastOk(ChainFor(g, session), last)
    requires TailFor(s1.client.chains, session) == AdoptedTail(ChainFor(g, session), last)
    ensures var e := next.envelopes[0];
            forked == RowOf(session, e.body.action,
                            Mint(AdoptedTail(ChainFor(g, session), last), session, s1.client.minted, e.body.action).seal)
    ensures forked == NextRow(s1, next) && ChainFor(g', session) == ChainFor(g, session) + [forked]
    ensures forked.sessionId == session && g' == Extend(g, next.envelopes[0].eventId, forked)
    ensures SealUpTo(s1.client, next.envelopes, 1).envelopes == [sealed] && SealUpTo(s1.client, next.envelopes, 1).error.None?
    ensures SealUpTo(s1.client, next.envelopes, 1).client.files == s1.client.files
    ensures SealedIn(g', sealed) && HasSeal(sealed) && CarriedRow(sealed) == forked && sealed.eventId == next.envelopes[0].eventId
    ensures sealed.sessionId == session
  {
    var e := next.envelopes[0];
    var sealing := Mint(TailFor(s1.client.chains, session), session, s1.client.minted, e.body.action);
    assert SealUpTo(s1.client, next.envelopes, 0) == SealedBatch(s1.client, next.envelopes, None);
    forked := RowOf(session, e.body.action, sealing.seal);
    g' := Extend(g, e.eventId, forked);
    sealed := SealEnvelope(e, sealing.seal);
    assert ChainFor(g', session) == ChainFor(g, session) + [forked];
    assert forked.number == |ChainFor(g, session)| + 1;
  }

  lemma RecordedExtends(g: History, event: Id, row: Row)
    requires Recorded(g)
    ensures Recorded(Extend(g, event, row))
  {
    var longer := Extend(g, event, row);
    forall f | f in longer.log ensures longer.log[f] in ChainFor(longer, longer.log[f].sessionId) {
      assert f != event ==> g.log[f] in ChainFor(g, g.log[f].sessionId);
    }
  }

  /** Whatever happens to that action, all that is held afterwards are the chain's rows and the forked one. */
  lemma ForkLogged(s1: System, g: History, cfg: Config, next: Call, g': History, sealed: Envelope, forked: Row)
    requires Safe(s1, g) && HandsInNew(g, next, forked.sessionId)
    requires g' == Extend(g, next.envelopes[0].eventId, forked)
    requires SealUpTo(s1.client, next.envelopes, 1).envelopes == [sealed] && SealUpTo(s1.client, next.envelopes, 1).error.None?
    requires SealUpTo(s1.client, next.envelopes, 1).client.files == s1.client.files
    requires SealedIn(g', sealed)
    ensures var s2 := StepSystem(s1, cfg, next);
            Recorded(g') && FilesLogged(s2.client.files, g') && ServerLogged(s2.server, g')
  {
    LoggedStays(s1, g, g', {next.envelopes[0].eventId});
    RecordedExtends(g, next.envelopes[0].eventId, forked);
    var b := SealUpTo(s1.client, next.envelopes, 1);
    var c, spooled, w := ClientAfter(s1, cfg, next, b);
    PartSealed(g', b.envelopes, spooled);
    WriteLogs(g', c, cfg, spooled, next.disk, |spooled|);
    ForkDelivered(s1, cfg, next, g', b);
  }

  lemma ForkDelivered(s1: System, cfg: Config, next: Call, g': History, b: SealedBatch)
    requires b == SealUpTo(s1.client, next.envelopes, |next.envelopes|) && b.error.None?
    requires AllSealed(g', b.envelopes) && ServerLogged(s1.server, g')
    ensures ServerLogged(StepSystem(s1, cfg, next).server, g')
  {
    DeliverKeeps(g', s1.server, b.envelopes, OutcomeOf(s1, cfg, next).sent, next.kept, |b.envelopes|);
  }

  /**
   From any call that leaves the client out of step in a session, with the next action
   handed in there: what is held then, in every listing, is TAMPERED if and only if that
   action and the newest record before it are both held by either side, and then at the
   action's number.
   */
  lemma OutOfStepIsTampered(sys: System, cfg: Config, call: Call, h: History, next: Call, session: Id, picked: seq<Line>)
    returns (g: History, s1: System, s2: System)
    requires Safe(sys, h) && Synced(sys.client.chains, h) && Admissible(h, call.envelopes)
    requires OutOfStepIn(sys, cfg, call, HistoryAfter(sys, call, h), session)
    requires HandsInNew(HistoryAfter(sys, call, h), next, session)
    requires Lists(picked, Held(RunSystem(sys, cfg, [call, next]), session))
    ensures g == HistoryAfter(sys, call, h) && s1 == StepSystem(sys, cfg, call) && s2 == RunSystem(sys, cfg, [call, next])
    ensures ChainFor(g, session) != []
    ensures TamperedAtFork(picked, ChainFor(g, session), NextRow(s1, next), Held(s2, session))
  {
    StepKeeps(sys, cfg, call, h);
    var last, c, spooled;
    last, g, c, spooled := TailAfter(sys, cfg, call, h, session);
    s1, s2 := StepSystem(sys, cfg, call), RunSystem(sys, cfg, [call, next]);
    TwoCalls(sys, cfg, call, next);
    OutOfStepChain(g, session, last);
    ForkHeld(s1, s2, g, cfg, next, session, last);
    ForkListed(ChainFor(g, session), last, session, s1.client.minted, next.envelopes[0].body.action, NextRow(s1, next),
               Held(s2, session), picked);
  }

  /** In this session, the last seal the spool took over is not the newest one. */
  ghost predicate OutOfStepIn(sys: System, cfg: Config, call: Call, g: History, session: Id) {
    var (c, spooled) := ToSpool(sys, cfg, call);
    !NewestOrNone(LastAdopted(c, cfg, spooled, call.disk, |spooled|, session), ChainFor(g, session))
  }

  lemma OutOfStepChain(g: History, session: Id, last: Option<int>)
    requires Chained(g) && LastOk(ChainFor(g, session), last) && !NewestOrNone(last, ChainFor(g, session))
    ensures IsChain(ChainFor(g, session)) && last.Some? && last != Some(|ChainFor(g, session)|)
  {
    assert ChainOf(ChainFor(g, session), session);
  }

  /** The row minted on record `last` of the chain for a bound payload. */
  ghost predicate MintedOn(rows: seq<Row>, last: Option<int>, session: Id, minted: Id, p: ActionPayload, forked: Row) {
    BoundPayload(p) && forked == RowOf(session, p, Mint(AdoptedTail(rows, last), session, minted, p).seal)
  }

  ghost predicate Within(held: set<Row>, rows: seq<Row>) {
    forall row :: row in held ==> row in rows
  }

  /** After the next action, sealed on record `last`, nothing is held but the chain's rows and that action's. */
  lemma ForkHeld(s1: System, s2: System, g: History, cfg: Config, next: Call, session: Id, last: Option<int>)
    requires Safe(s1, g) && HandsInNew(g, next, session) && s2 == StepSystem(s1, cfg, next)
    requires LastOk(ChainFor(g, session), last)
    requires TailFor(s1.client.chains, session) == AdoptedTail(ChainFor(g, session), last)
    ensures MintedOn(ChainFor(g, session), last, session, s1.client.minted, next.envelopes[0].body.action, NextRow(s1, next))
    ensures Within(Held(s2, session), ChainFor(g, session) + [NextRow(s1, next)])
  {
    var forked, g', sealed := ForkSealed(s1, g, next, session, last);
    ForkLogged(s1, g, cfg, next, g', sealed, forked);
    HeldInChain(s2, g', session);
  }

  /** TAMPERED, and at the forked row's number, if and only if it and the chain's newest row are both held. */
  ghost predicate TamperedAtFork(picked: seq<Line>, rows: seq<Row>, forked: Row, held: set<Row>)
    requires rows != []
  {
    TamperedAt(picked) == if rows[|rows| - 1] in held && forked in held then Some(|rows| + 1) else None
  }

  /** `picked` lists a set of rows, each once, in any order. */
  ghost predicate Lists(picked: seq<Line>, rows: set<Row>) {
    Distinct(picked) && forall l :: l in picked <==> l.Full? && l.row in rows
  }

  /** The row the client seals for the one new action of a call. */
  function NextRow(s1: System, next: Call): Row
    requires |next.envelopes| == 1 && next.envelopes[0].body.ActionRecord?
  {
    MintedRow(s1.client, next.envelopes[0])
  }

  lemma TwoCalls(sys: System, cfg: Config, call: Call, next: Call)
    ensures RunSystem(sys, cfg, [call, next]) == StepSystem(StepSystem(sys, cfg, call), cfg, next)
  {
    var s1 := StepSystem(sys, cfg, call);
    assert [call, next][1..] == [next] && [next][1..] == [];
    assert RunSystem(s1, cfg, [next]) == RunSystem(StepSystem(s1, cfg, next), cfg, []);
  }

  lemma ForkListed(rows: seq<Row>, last: Option<int>, session: Id, minted: Id, p: ActionPayload, forked: Row, held: set<Row>,
                   picked: seq<Line>)
    requires IsChain(rows) && LastOk(rows, last) && last.Some? && last != Some(|rows|)
    requires MintedOn(rows, last, session, minted, p, forked) && Within(held, rows + [forked])
    requires Lists(picked, held)
    ensures rows != []
    ensures TamperedAtFork(picked, rows, forked, held)
  {
    forall l | l in picked ensures l == Full(forked) || InRows(rows, l) {
      assert l.row in rows + [forked];
    }
    ForkIsTampered(rows, last, session, minted, p, picked);
    assert Full(rows[|rows| - 1]) in picked <==> rows[|rows| - 1] in held;
    assert Full(forked) in picked <==> forked in held;
  }

  // ---------- It happens ----------

  const NOTHING := History(map[], map[])

  /** A fresh client and an empty server. */
  function Start(minted: Id): System {
    System(Client(map[], minted, false, None, map[], map[], {}), map[])
  }

  lemma StartSafe(minted: Id)
    ensures Safe(Start(minted), NOTHING) && Synced(Start(minted).client.chains, NOTHING)
  {
  }

  /**
   Two new actions of one session in one batch from a fresh client, of which, when the
   attempts are used up, the second has a final answer and the first is still to be retried.
   */
  ghost predicate SecondTakenOnly(cfg: Config, call: Call, minted: Id, session: Id) {
    && Admissible(NOTHING, call.envelopes) && cfg.spoolEnabled
    && |call.envelopes| == 2 && IsNew(call.envelopes, 0) && IsNew(call.envelopes, 1)
    && call.envelopes[0].sessionId == session == call.envelopes[1].sessionId
    && FirstLeft(SealUpTo(Start(minted).client, call.envelopes, 2).envelopes, call.wire, cfg.Attempts())
  }

  /** The last answers to a batch of two: the first asks for a retry, the second does not. */
  ghost predicate FirstLeft(envelopes: seq<Envelope>, wire: seq<HttpOutcome>, attempts: nat) {
    && |envelopes| == 2
    && var rs := PostUpTo(envelopes, wire, attempts).results; NeedsRetry(rs[0]) && !NeedsRetry(rs[1])
  }

  lemma {:induction false} RetryAll(slots: seq<nat>, rs: seq<Response>, n: nat)
    requires n <= |slots| == |rs| && forall j :: 0 <= j < n ==> NeedsRetry(rs[j])
    ensures RetryUpTo(slots, rs, n) == slots[..n]
  {
    if n != 0 {
      RetryAll(slots, rs, n - 1);
      assert slots[..n] == slots[..n - 1] + [slots[n - 1]];
    }
  }

  lemma LostRequest(envelopes: seq<Envelope>, p: Posting, outcome: HttpOutcome)
    requires PostingOk(p, |envelopes|) && p.pending == Indices(|envelopes|) && !outcome.HttpAnswer?
    ensures PostAgain(envelopes, p, outcome).pending == Indices(|envelopes|)
  {
    var batch := Select(envelopes, p.pending);
    var rs := Interpret(batch, outcome);
    forall j | 0 <= j < |rs| ensures NeedsRetry(rs[j]) {
      InterpretMeaning(batch, outcome, j);
    }
    RetryAll(p.pending, rs, |rs|);
    assert p.pending[..|rs|] == p.pending;
  }

  /** Lost requests leave everything pending. */
  lemma {:induction false} LostLeavesAll(envelopes: seq<Envelope>, wire: seq<HttpOutcome>, k: nat)
    requires forall t :: 0 <= t < k ==> !WireAt(wire, t).HttpAnswer?
    ensures PostUpTo(envelopes, wire, k).pending == Indices(|envelopes|)
  {
    if k != 0 {
      LostLeavesAll(envelopes, wire, k - 1);
      LostRequest(envelopes, PostUpTo(envelopes, wire, k - 1), WireAt(wire, k - 1));
    }
  }

  /** With any budget: requests are lost until the last, and that one is answered for the second only. */
  lemma LastAnswerLeavesFirst(envelopes: seq<Envelope>, wire: seq<HttpOutcome>, attempts: nat, answers: seq<Response>, status: int)
    requires |envelopes| == 2 && 0 < attempts && forall t :: 0 <= t < attempts - 1 ==> !WireAt(wire, t).HttpAnswer?
    requires WireAt(wire, attempts - 1) == HttpAnswer(status, Some(answers)) && |answers| == 2
    requires NeedsRetry(answers[0]) && !NeedsRetry(answers[1])
    ensures FirstLeft(envelopes, wire, attempts)
  {
    LostLeavesAll(envelopes, wire, attempts - 1);
    var p, outcome := PostUpTo(envelopes, wire, attempts - 1), WireAt(wire, attempts - 1);
    assert Interpret(Select(envelopes, p.pending), outcome) == answers;
    AttemptStep(envelopes, p, outcome);
    assert p.pending[0] == 0 && p.pending[1] == 1;
  }

  /** Such a batch leaves the client out of step, and spooling. */
  lemma BatchFallsOutOfStep(cfg: Config, call: Call, minted: Id, session: Id) returns (b: SealedBatch, g: History)
    requires SecondTakenOnly(cfg, call, minted, session)
    ensures b == SealUpTo(Start(minted).client, call.envelopes, 2) && g == HistoryAfter(Start(minted), call, NOTHING)
    ensures OutOfStepIn(Start(minted), cfg, call, g, session)
    ensures !SpoolEndsNewest(Start(minted), cfg, call, g)
    ensures |ChainFor(g, session)| == 2 && b.error.None?
    ensures SealedIn(g, b.envelopes[1]) && HasSeal(b.envelopes[1]) && b.envelopes[1].eventId == call.envelopes[1].eventId
    ensures CarriedRow(b.envelopes[1]) == ChainFor(g, session)[1] && b.envelopes[0].eventId == call.envelopes[0].eventId
  {
    var sys := Start(minted);
    StartSafe(minted);
    b, g := TwoSealed(sys.client, NOTHING, call.envelopes);
    var d, spooled := OneSpooled(sys, cfg, call, b);
    FirstAdopted(d, cfg, spooled, call.disk);
    OldIsNotNewest(sys, cfg, call, g, d, spooled, session);
  }

  /**
   And then the session is TAMPERED: once the next new action of the session is
   spooled, whatever is held of it, in any order, fails at that action's number.
   */
  lemma BatchThenTampered(cfg: Config, batch: Call, next: Call, minted: Id, session: Id, picked: seq<Line>)
    requires SecondTakenOnly(cfg, batch, minted, session) && batch.envelopes[1].eventId in batch.kept
    requires HandsInNew(HistoryAfter(Start(minted), batch, NOTHING), next, session) && DiskAt(next.disk, 0).writable
    requires Lists(picked, Held(RunSystem(Start(minted), cfg, [batch, next]), session))
    ensures LocalResult(picked).verdict == Tampered && LocalResult(picked).firstInvalid == Some(3)
  {
    StartSafe(minted);
    var b, g0 := BatchFallsOutOfStep(cfg, batch, minted, session);
    var g, s1, s2 := OutOfStepIsTampered(Start(minted), cfg, batch, NOTHING, next, session, picked);
    TwoCalls(Start(minted), cfg, batch, next);
    NewestHeld(cfg, batch, next, minted, session, g, s1, s2);
    NextHeld(cfg, batch, next, minted, session, g, s1, s2);
  }

  lemma NewestHeld(cfg: Config, batch: Call, next: Call, minted: Id, session: Id, g: History, s1: System, s2: System)
    requires SecondTakenOnly(cfg, batch, minted, session) && batch.envelopes[1].eventId in batch.kept
    requires g == HistoryAfter(Start(minted), batch, NOTHING) && s1 == StepSystem(Start(minted), cfg, batch)
    requires s2 == StepSystem(s1, cfg, next)
    ensures |ChainFor(g, session)| == 2 && ChainFor(g, session)[1] in Held(s2, session)
  {
    var b, g' := BatchFallsOutOfStep(cfg, batch, minted, session);
    StartSafe(minted);
    StepKeeps(Start(minted), cfg, batch, NOTHING);
    SecondDelivered(cfg, batch, minted, session, b, s1);
    SecondHeld(b.envelopes[1], g, s1, session);
    ServerKeeps(s1, cfg, next, session, ChainFor(g, session)[1]);
  }

  lemma NextHeld(cfg: Config, batch: Call, next: Call, minted: Id, session: Id, g: History, s1: System, s2: System)
    requires SecondTakenOnly(cfg, batch, minted, session)
    requires g == HistoryAfter(Start(minted), batch, NOTHING) && s1 == StepSystem(Start(minted), cfg, batch)
    requires s2 == StepSystem(s1, cfg, next)
    requires HandsInNew(g, next, session) && DiskAt(next.disk, 0).writable
    ensures NextRow(s1, next) in Held(s2, session)
  {
    var b, g' := BatchFallsOutOfStep(cfg, batch, minted, session);
    StartSafe(minted);
    StepKeeps(Start(minted), cfg, batch, NOTHING);
    var last, g'', c, spooled := TailAfter(Start(minted), cfg, batch, NOTHING, session);
    FirstSeenOnly(cfg, batch, minted, session, b, s1);
    FirstLogged(cfg, batch, minted, session, g);
    ForkSpooled(s1, g, cfg, next, session);
  }

  lemma FirstLogged(cfg: Config, batch: Call, minted: Id, session: Id, g: History)
    requires SecondTakenOnly(cfg, batch, minted, session) && g == HistoryAfter(Start(minted), batch, NOTHING)
    ensures batch.envelopes[0].eventId in g.log
  {
    StartSafe(minted);
    var b, g' := SealKeeps(Start(minted).client, NOTHING, batch.envelopes, 2);
    assert SealedIn(g', b.envelopes[0]) && SameEvent(b.envelopes[0], batch.envelopes[0]);
  }

  /** The server takes the second action of the batch. */
  lemma SecondDelivered(cfg: Config, batch: Call, minted: Id, session: Id, b: SealedBatch, s1: System)
    requires SecondTakenOnly(cfg, batch, minted, session) && batch.envelopes[1].eventId in batch.kept
    requires b == SealUpTo(Start(minted).client, batch.envelopes, 2) && b.error.None?
    requires HasSeal(b.envelopes[1]) && b.envelopes[1].eventId == batch.envelopes[1].eventId
    requires s1 == StepSystem(Start(minted), cfg, batch)
    ensures b.envelopes[1].eventId in s1.server
  {
    SealingSpools(Start(minted).client, batch.envelopes, 2);
    FirstPostsAll(b.envelopes, batch.wire, cfg.Attempts());
    var sent := PlanBatch(b, cfg, batch.wire).sent;
    assert Posted(sent, 1) by {
      assert Indices(2)[1] == 1 && 1 in sent[0];
    }
    DeliverGrows(map[], b.envelopes, sent, batch.kept, 2);
  }

  lemma SecondHeld(e: Envelope, g: History, s1: System, session: Id)
    requires SealedIn(g, e) && HasSeal(e) && e.eventId in s1.server && ServerLogged(s1.server, g)
    requires 1 < |ChainFor(g, session)| && CarriedRow(e) == ChainFor(g, session)[1] && ChainOf(ChainFor(g, session), session)
    ensures InServer(s1, session, ChainFor(g, session)[1])
  {
    assert s1.server[e.eventId] == CarriedRow(e);
  }

  lemma {:induction false} FirstPostsAll(envelopes: seq<Envelope>, wire: seq<HttpOutcome>, k: nat)
    requires envelopes != [] && 0 < k
    ensures PostUpTo(envelopes, wire, k).sent != [] && PostUpTo(envelopes, wire, k).sent[0] == Indices(|envelopes|)
  {
    if k == 1 {
      assert PostUpTo(envelopes, wire, 0).sent == [] && PostUpTo(envelopes, wire, 0).pending == Indices(|envelopes|);
    } else {
      FirstPostsAll(envelopes, wire, k - 1);
    }
  }

  ghost predicate InServer(sys: System, session: Id, row: Row) {
    exists e :: e in sys.server && sys.server[e] == row && row.sessionId == session
  }

  /** What the server holds it keeps, through any call. */
  lemma ServerKeeps(s1: System, cfg: Config, next: Call, session: Id, row: Row)
    requires InServer(s1, session, row)
    ensures InServer(StepSystem(s1, cfg, next), session, row) && row in Held(StepSystem(s1, cfg, next), session)
  {
    var e :| e in s1.server && s1.server[e] == row && row.sessionId == session;
    var o := OutcomeOf(s1, cfg, next);
    DeliveredStays(s1.server, o.envelopes, o.sent, next.kept, |o.envelopes|, e);
  }

  lemma {:induction false} DeliveredStays(server: map<Id, Row>, envelopes: seq<Envelope>, sent: seq<seq<nat>>, kept: set<Id>, n: nat, e: Id)
    requires n <= |envelopes| && e in server
    ensures e in DeliverUpTo(server, envelopes, sent, kept, n) && DeliverUpTo(server, envelopes, sent, kept, n)[e] == server[e]
  {
    if n != 0 {
      DeliveredStays(server, envelopes, sent, kept, n - 1, e);
    }
  }

  /** After the batch the client spools, and its writer remembers at most the first event. */
  lemma FirstSeenOnly(cfg: Config, batch: Call, minted: Id, session: Id, b: SealedBatch, s1: System)
    requires SecondTakenOnly(cfg, batch, minted, session)
    requires b == SealUpTo(Start(minted).client, batch.envelopes, 2) && b.error.None?
    requires b.envelopes[0].eventId == batch.envelopes[0].eventId
    requires s1 == StepSystem(Start(minted), cfg, batch)
    ensures s1.client.spooling && forall x :: x in s1.client.seen ==> x == batch.envelopes[0].eventId
  {
    SealingSpools(Start(minted).client, batch.envelopes, 2);
    SealKeepsSeen(Start(minted).client, batch.envelopes, 2);
    var d, spooled := OneSpooled(Start(minted), cfg, batch, b);
    var c, spooled', w := ClientAfter(Start(minted), cfg, batch, b);
    SeenGrows(d, cfg, spooled, batch.disk, |spooled|);
  }

  /** A spooling client whose disk takes the line puts the next new action on file. */
  lemma ForkSpooled(s1: System, g: History, cfg: Config, next: Call, session: Id)
    requires Safe(s1, g) && HandsInNew(g, next, session)
    requires s1.client.spooling && DiskAt(next.disk, 0).writable && next.envelopes[0].eventId !in s1.client.seen
    requires TailFor(s1.client.chains, session).count == |ChainFor(g, session)|
    ensures NextRow(s1, next) in Held(StepSystem(s1, cfg, next), session)
  {
    var e, row := next.envelopes[0], NextRow(s1, next);
    var b := SealUpTo(s1.client, next.envelopes, 1);
    assert SealUpTo(s1.client, next.envelopes, 0) == SealedBatch(s1.client, next.envelopes, None);
    var c, spooled, w := ClientAfter(s1, cfg, next, b);
    var sealed := b.envelopes[0];
    assert Indices(1)[0] == 0 && spooled == [sealed];
    assert WriteUpTo(c, cfg, spooled, next.disk, 0) == Writing(c, [], 0, None);
    SpooledLine(c, cfg, sealed, DiskAt(next.disk, 0));
    var x := ActionEntry(e.eventId, row);
    assert x in FileFor(w.client.files, session);
    assert x.row.sessionId == session;
  }

  lemma SpooledLine(c: Client, cfg: Config, sealed: Envelope, disk: Disk)
    requires HasSeal(sealed) && disk.writable && sealed.eventId !in c.seen
    ensures ActionEntry(sealed.eventId, CarriedRow(sealed)) in
              FileFor(WriteNext(Writing(c, [], 0, None), cfg, sealed, disk).client.files, sealed.sessionId)
  {
    var lines := FileFor(SpoolEnvelope(c, sealed, disk).client.files, sealed.sessionId);
    assert lines[|lines| - 1] == ActionEntry(sealed.eventId, CarriedRow(sealed));
  }

  lemma OneSpooled(sys: System, cfg: Config, call: Call, b: SealedBatch) returns (d: Client, spooled: seq<Envelope>)
    requires b == SealUpTo(sys.client, call.envelopes, |call.envelopes|) && |b.envelopes| == 2
    requires cfg.spoolEnabled && !b.client.spooling && b.client.seen == {}
    requires FirstLeft(b.envelopes, call.wire, cfg.Attempts())
    ensures ToSpool(sys, cfg, call) == (d, spooled) && spooled == [b.envelopes[0]] && d.seen == {} && d.spooling
  {
    PlanOfTwo(b, cfg, call.wire);
    var r := ToSpool(sys, cfg, call);
    d, spooled := r.0, r.1;
  }

  lemma OldIsNotNewest(sys: System, cfg: Config, call: Call, g: History, d: Client, spooled: seq<Envelope>, session: Id)
    requires ToSpool(sys, cfg, call) == (d, spooled) && |ChainFor(g, session)| == 2
    requires LastAdopted(d, cfg, spooled, call.disk, |spooled|, session) == Some(1)
    ensures !SpoolEndsNewest(sys, cfg, call, g) && OutOfStepIn(sys, cfg, call, g, session)
  {
    assert !NewestOrNone(LastAdopted(d, cfg, spooled, call.disk, |spooled|, session), ChainFor(g, session));
  }

  lemma PlanOfTwo(b: SealedBatch, cfg: Config, wire: seq<HttpOutcome>)
    requires cfg.spoolEnabled && !b.client.spooling && FirstLeft(b.envelopes, wire, cfg.Attempts())
    ensures PlanBatch(b, cfg, wire).spool == [0] && PlanBatch(b, cfg, wire).client.seen == b.client.seen
    ensures PlanBatch(b, cfg, wire).client.spooling
  {
    UnsentOfTwo(PostUpTo(b.envelopes, wire, cfg.Attempts()).results);
  }

  lemma FirstAdopted(c: Client, cfg: Config, spooled: seq<Envelope>, disk: seq<Disk>)
    requires |spooled| == 1 && spooled[0].body.ActionRecord? && c.seen == {}
    ensures LastAdopted(c, cfg, spooled, disk, 1, spooled[0].sessionId) == spooled[0].body.action.number
  {
    assert WriteUpTo(c, cfg, spooled, disk, 0) == Writing(c, [], 0, None);
  }

  lemma TwoSealed(c: Client, h: History, envelopes: seq<Envelope>) returns (b: SealedBatch, g: History)
    requires Healthy(c, h) && Admissible(h, envelopes) && h == NOTHING
    requires |envelopes| == 2 && IsNew(envelopes, 0) && IsNew(envelopes, 1)
    requires envelopes[0].sessionId == envelopes[1].sessionId
    ensures b == SealUpTo(c, envelopes, 2) && g == HistoryUpTo(c, h, envelopes, 2)
    ensures SealedSoFar(c, h, envelopes, 2, b, g)
    ensures |ChainFor(g, envelopes[0].sessionId)| == 2
    ensures b.envelopes[0].body.ActionRecord? && b.envelopes[0].body.action.number == Some(1)
    ensures b.envelopes[0].sessionId == envelopes[0].sessionId && b.envelopes[0].eventId == envelopes[0].eventId
    ensures HasSeal(b.envelopes[1]) && b.envelopes[1].eventId == envelopes[1].eventId && SealedIn(g, b.envelopes[1])
    ensures CarriedRow(b.envelopes[1]) == ChainFor(g, envelopes[0].sessionId)[1]
  {
    var b1, g1 := SealKeeps(c, h, envelopes, 1);
    OneLonger(c, h, envelopes, 0, h);
    assert SealedIn(g1, b1.envelopes[0]) && SameEvent(b1.envelopes[0], envelopes[0]);
    b, g := SealKeeps(c, h, envelopes, 2);
    OneLonger(c, h, envelopes, 1, g1);
    assert b.envelopes[0] == b1.envelopes[0];
    assert SealedIn(g, b.envelopes[1]) && SameEvent(b.envelopes[1], envelopes[1]);
    SecondNumber(c, h, envelopes, b1, g1);
  }

  lemma SecondNumber(c: Client, h: History, envelopes: seq<Envelope>, b1: SealedBatch, g1: History)
    requires |envelopes| == 2 && IsNew(envelopes, 1) && Unsealed(envelopes[1].body.action)
    requires b1 == SealUpTo(c, envelopes, 1) && b1.error.None? && b1.envelopes[1] == envelopes[1]
    requires g1 == HistoryUpTo(c, h, envelopes, 1) && Synced(b1.client.chains, g1)
    requires |ChainFor(g1, envelopes[1].sessionId)| == 1
    ensures SequenceOf(SealUpTo(c, envelopes, 2).envelopes[1]) == Some(2)
  {
    assert TailFor(b1.client.chains, envelopes[1].sessionId).count == 1;
  }

  lemma OneLonger(c: Client, h: History, envelopes: seq<Envelope>, n: nat, g: History)
    requires n < |envelopes| && WantsSeal(envelopes[n]) && g == HistoryUpTo(c, h, envelopes, n)
    ensures |ChainFor(HistoryUpTo(c, h, envelopes, n + 1), envelopes[n].sessionId)| == |ChainFor(g, envelopes[n].sessionId)| + 1
  {
  }

  lemma UnsentOfTwo(results: seq<Response>)
    requires |results| == 2 && NeedsRetry(results[0]) && !NeedsRetry(results[1])
    ensures Unsent(results) == [0]
  {
    var unsent := Unsent(results);
    assert 0 in unsent && 1 !in unsent;
    forall j | 0 <= j < |unsent| ensures unsent[j] == 0 {
      assert unsent[j] in unsent;
    }
    assert Less(unsent, 0, 1);
  }
}
