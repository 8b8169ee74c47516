/**
 Safety of the cloud transport over whole runs: whatever the network, the
 server and the disk do, the records the server and the spool hold between
 them are part of one sealed chain.
 */
module CloudSafety {
  import opened Common
  import opened Ranges
  import opened Hashing
  import opened Wire
  import opened Verify
  import opened Verdicts
  import opened Chains
  import opened Cloud

  // ---------- History ----------

  /** Everything ever sealed: per session in order, and by the event that carried it. */
  datatype History = History(chain: map<Id, seq<Row>>, log: map<Id, Row>)

  function ChainFor(h: History, session: Id): seq<Row> {
    if session in h.chain then h.chain[session] else []
  }

  function Extend(h: History, event: Id, row: Row): History {
    History(h.chain[row.sessionId := ChainFor(h, row.sessionId) + [row]], h.log[event := row])
  }

  ghost predicate ChainOf(rows: seq<Row>, session: Id) {
    IsChain(rows) && forall i :: 0 <= i < |rows| ==> rows[i].sessionId == session
  }

  ghost predicate Chained(h: History) {
    forall s: Id :: ChainOf(ChainFor(h, s), s)
  }

  ghost predicate Recorded(h: History) {
    forall e :: e in h.log ==> h.log[e] in ChainFor(h, h.log[e].sessionId)
  }

  /** The client's tails are the tails of the chains it sealed. */
  ghost predicate Synced(chains: map<Id, Tail>, h: History) {
    forall s: Id :: TailFor(chains, s) == TailOf(ChainFor(h, s))
  }

  function MintedRow(c: Client, e: Envelope): Row
    requires e.body.ActionRecord?
  {
    RowOf(e.sessionId, e.body.action, Mint(TailFor(c.chains, e.sessionId), e.sessionId, c.minted, e.body.action).seal)
  }

  ghost function NextHistory(h: History, c: Client, e: Envelope): History {
    if WantsSeal(e) then Extend(h, e.eventId, MintedRow(c, e)) else h
  }

  /** The history once the first `n` of a batch are sealed. */
  ghost function HistoryUpTo(c: Client, h: History, envelopes: seq<Envelope>, n: nat): History
    requires n <= |envelopes|
  {
    if n == 0 then h
    else NextHistory(HistoryUpTo(c, h, envelopes, n - 1), SealUpTo(c, envelopes, n - 1).client, envelopes[n - 1])
  }

  /** An action nobody sealed yet, with bound payloads, under an event id not in the log. */
  ghost predicate NewAction(h: History, e: Envelope)
    requires e.body.ActionRecord?
  {
    Unsealed(e.body.action) && BoundPayload(e.body.action) && e.eventId !in h.log
  }

  ghost predicate IsNew(envelopes: seq<Envelope>, i: int) {
    0 <= i < |envelopes| && WantsSeal(envelopes[i])
  }

  ghost function NewEvents(envelopes: seq<Envelope>, n: nat): set<Id>
    requires n <= |envelopes|
  {
    if n == 0 then {}
    else NewEvents(envelopes, n - 1) + (if WantsSeal(envelopes[n - 1]) then {envelopes[n - 1].eventId} else {})
  }

  /** Every action handed in is new, and no two of them share an event id; or it is one handed in again, under its seal. */
  ghost predicate Admissible(h: History, envelopes: seq<Envelope>) {
    && (forall i {:trigger IsNew(envelopes, i)} :: IsNew(envelopes, i) ==>
          NewAction(h, envelopes[i]) && envelopes[i].eventId !in NewEvents(envelopes, i))
    && Resent(h, envelopes)
  }

  /** Whatever is not to be sealed carries the seal of its row in the history, if it is an action. */
  ghost predicate Resent(h: History, envelopes: seq<Envelope>) {
    forall i :: 0 <= i < |envelopes| && !WantsSeal(envelopes[i]) ==> SealedIn(h, envelopes[i])
  }

  function SealOf(p: ActionPayload): SealedAction
    requires p.actionId.Some? && p.number.Some? && p.selfHash.Some?
  {
    SealedAction(p.actionId.value, p.number.value, p.prevHash, p.selfHash.value)
  }

  /** An action envelope carries the seal of its row in the history. */
  ghost predicate SealedIn(h: History, e: Envelope) {
    e.body.ActionRecord? ==>
      var p := e.body.action;
      && p.actionId.Some? && p.number.Some? && p.selfHash.Some?
      && 1 <= p.number.value <= |ChainFor(h, e.sessionId)|
      && ChainFor(h, e.sessionId)[p.number.value - 1] == RowOf(e.sessionId, p, SealOf(p))
      && e.eventId in h.log && h.log[e.eventId] == RowOf(e.sessionId, p, SealOf(p))
  }

  // ---------- Sealing a batch ----------

  lemma ExtendKeeps(c: Client, h: History, e: Envelope)
    requires Chained(h) && Recorded(h) && Synced(c.chains, h)
    requires e.body.ActionRecord? && Unsealed(e.body.action) && BoundPayload(e.body.action) && e.eventId !in h.log
    ensures var sealing := Mint(TailFor(c.chains, e.sessionId), e.sessionId, c.minted, e.body.action);
            var row := MintedRow(c, e);
            var longer := Extend(h, e.eventId, row);
            && Chained(longer) && Recorded(longer)
            && Synced(c.chains[e.sessionId := sealing.tail], longer)
            && SealedIn(longer, SealEnvelope(e, sealing.seal))
  {
    var s, rows := e.sessionId, ChainFor(h, e.sessionId);
    var row := MintedRow(c, e);
    var longer := Extend(h, e.eventId, row);
    MintExtends(rows, s, c.minted, e.body.action);
    forall t: Id ensures ChainFor(longer, t) == (if t == s then rows + [row] else ChainFor(h, t)) {
    }
    forall f | f in longer.log ensures longer.log[f] in ChainFor(longer, longer.log[f].sessionId) {
      if f != e.eventId {
        assert h.log[f] in ChainFor(h, h.log[f].sessionId);
      }
    }
  }

  lemma SealedStays(h: History, e: Envelope, event: Id, row: Row)
    requires SealedIn(h, e) && (e.body.ActionRecord? ==> e.eventId != event)
    ensures SealedIn(Extend(h, event, row), e)
  {
  }

  /** Only the chain tails and the id supply changed. */
  ghost predicate OnlySealed(c: Client, d: Client) {
    d == c.(chains := d.chains, minted := d.minted)
  }

  ghost predicate SameEvent(a: Envelope, b: Envelope) {
    && a.eventId == b.eventId && a.sessionId == b.sessionId
    && (a.body.ActionRecord? <==> b.body.ActionRecord?)
    && (!a.body.ActionRecord? ==> a == b)
  }

  ghost predicate Healthy(c: Client, h: History) {
    Chained(h) && Recorded(h) && Synced(c.chains, h)
  }

  /** The first `n` envelopes are sealed in `g`, the rest untouched. */
  ghost predicate SealedPrefix(g: History, original: seq<Envelope>, now: seq<Envelope>, n: nat) {
    && |original| == |now| && n <= |now|
    && (forall i :: 0 <= i < n ==> SealedIn(g, now[i]) && SameEvent(now[i], original[i]))
    && (forall i :: n <= i < |now| ==> now[i] == original[i])
  }

  /** `g` logs what `h` does, and the given events besides. */
  ghost predicate LogGrew(h: History, g: History, events: set<Id>) {
    && g.log.Keys == h.log.Keys + events
    && forall e :: e in h.log && e !in events ==> g.log[e] == h.log[e]
  }

  /** What holds of a batch whose first `n` envelopes have been sealed. */
  ghost predicate SealedSoFar(c: Client, h: History, envelopes: seq<Envelope>, n: nat, b: SealedBatch, g: History) {
    && n <= |envelopes|
    && b.error.None? && OnlySealed(c, b.client)
    && Healthy(b.client, g)
    && SealedPrefix(g, envelopes, b.envelopes, n)
    && LogGrew(h, g, NewEvents(envelopes, n))
    && Resent(g, envelopes)
  }

  lemma PrefixStep(g: History, longer: History, original: seq<Envelope>, now: seq<Envelope>, n: nat, sealed: Envelope)
    requires SealedPrefix(g, original, now, n) && n < |now|
    requires SameEvent(sealed, original[n]) && SealedIn(longer, sealed)
    requires forall i :: 0 <= i < n ==> SealedIn(longer, now[i])
    ensures SealedPrefix(longer, original, now[n := sealed], n + 1)
  {
  }

  lemma StepLog(h: History, g: History, envelopes: seq<Envelope>, n: nat, row: Row)
    requires n < |envelopes| && LogGrew(h, g, NewEvents(envelopes, n)) && WantsSeal(envelopes[n])
    ensures LogGrew(h, Extend(g, envelopes[n].eventId, row), NewEvents(envelopes, n + 1))
  {
  }

  lemma SealActionStep(c: Client, h: History, envelopes: seq<Envelope>, n: nat, b: SealedBatch, g: History)
    requires n < |envelopes| && IsNew(envelopes, n) && NewAction(h, envelopes[n])
    requires envelopes[n].eventId !in NewEvents(envelopes, n)
    requires SealedSoFar(c, h, envelopes, n, b, g)
    ensures var e := envelopes[n];
            var sealing := Mint(TailFor(b.client.chains, e.sessionId), e.sessionId, b.client.minted, e.body.action);
            var longer := Extend(g, e.eventId, MintedRow(b.client, e));
            && Chained(longer) && Recorded(longer)
            && Synced(b.client.chains[e.sessionId := sealing.tail], longer)
            && SealedPrefix(longer, envelopes, b.envelopes[n := SealEnvelope(e, sealing.seal)], n + 1)
            && LogGrew(h, longer, NewEvents(envelopes, n + 1))
            && Resent(longer, envelopes)
  {
    var e := envelopes[n];
    var row := MintedRow(b.client, e);
    var sealing := Mint(TailFor(b.client.chains, e.sessionId), e.sessionId, b.client.minted, e.body.action);
    ExtendKeeps(b.client, g, e);
    var longer := Extend(g, e.eventId, row);
    forall i | 0 <= i < n ensures SealedIn(longer, b.envelopes[i]) {
      assert SameEvent(b.envelopes[i], envelopes[i]);
      SealedStays(g, b.envelopes[i], e.eventId, row);
    }
    PrefixStep(g, longer, envelopes, b.envelopes, n, SealEnvelope(e, sealing.seal));
    StepLog(h, g, envelopes, n, row);
    forall i | 0 <= i < |envelopes| && !WantsSeal(envelopes[i]) ensures SealedIn(longer, envelopes[i]) {
      SealedStays(g, envelopes[i], e.eventId, row);
    }
  }

  lemma SealStep(c: Client, h: History, envelopes: seq<Envelope>, n: nat, b: SealedBatch, g: History)
    returns (b': SealedBatch, g': History)
    requires n < |envelopes| && Admissible(h, envelopes)
    requires SealedSoFar(c, h, envelopes, n, b, g)
    ensures b' == SealNext(b, n) && g' == NextHistory(g, b.client, envelopes[n])
    ensures SealedSoFar(c, h, envelopes, n + 1, b', g')
  {
    b', g' := SealNext(b, n), NextHistory(g, b.client, envelopes[n]);
    var e := envelopes[n];
    if WantsSeal(e) {
      assert IsNew(envelopes, n);
      SealActionStep(c, h, envelopes, n, b, g);
    } else {
      assert b.envelopes[n := e] == b.envelopes;
      PrefixStep(g, g, envelopes, b.envelopes, n, e);
    }
  }

  lemma SealUnfold(c: Client, h: History, envelopes: seq<Envelope>, n: nat, b: SealedBatch, g: History)
    returns (b': SealedBatch, g': History)
    requires n < |envelopes| && Admissible(h, envelopes)
    requires b == SealUpTo(c, envelopes, n) && g == HistoryUpTo(c, h, envelopes, n)
    requires SealedSoFar(c, h, envelopes, n, b, g)
    ensures b' == SealUpTo(c, envelopes, n + 1) && g' == HistoryUpTo(c, h, envelopes, n + 1)
    ensures SealedSoFar(c, h, envelopes, n + 1, b', g')
  {
    b', g' := SealStep(c, h, envelopes, n, b, g);
  }

  lemma SealStart(c: Client, h: History, envelopes: seq<Envelope>, n: nat) returns (b: SealedBatch)
    requires n == 0 && Healthy(c, h) && Resent(h, envelopes)
    ensures b == SealUpTo(c, envelopes, n) && SealedSoFar(c, h, envelopes, n, b, h)
  {
    b := SealedBatch(c, envelopes, None);
  }

  /** Sealing the first `n` of an admissible batch extends every chain by exactly the new actions in it. */
  lemma {:induction false} SealKeeps(c: Client, h: History, envelopes: seq<Envelope>, n: nat)
    returns (b: SealedBatch, g: History)
    requires n <= |envelopes| && Healthy(c, h) && Admissible(h, envelopes)
    ensures b == SealUpTo(c, envelopes, n) && g == HistoryUpTo(c, h, envelopes, n)
    ensures SealedSoFar(c, h, envelopes, n, b, g)
  {
    if n == 0 {
      b := SealStart(c, h, envelopes, n);
      g := h;
    } else {
      b, g := SealKeeps(c, h, envelopes, n - 1);
      b, g := SealUnfold(c, h, envelopes, n - 1, b, g);
    }
  }

  // ---------- Writing to the spool ----------

  ghost predicate EntryLogged(h: History, session: Id, x: Entry) {
    x.ActionEntry? ==> x.eventId in h.log && h.log[x.eventId] == x.row && x.row.sessionId == session
  }

  ghost predicate FilesLogged(files: map<Id, seq<Entry>>, h: History) {
    forall s: Id, x :: x in FileFor(files, s) ==> EntryLogged(h, s, x)
  }

  /** Whether the writer takes over this envelope's seal as the session's tail. */
  predicate Adopts(w: Writing, e: Envelope, disk: Disk) {
    w.failure.None? && e.body.ActionRecord? && e.eventId !in w.client.seen - disk.evicted
  }

  function AdoptedChains(chains: map<Id, Tail>, e: Envelope): map<Id, Tail>
    requires e.body.ActionRecord? && e.body.action.number.Some?
  {
    chains[e.sessionId := Tail(e.body.action.selfHash, Max(TailFor(chains, e.sessionId).count, e.body.action.number.value))]
  }

  lemma SpoolStep(h: History, c: Client, e: Envelope, disk: Disk)
    requires SealedIn(h, e) && FilesLogged(c.files, h)
    ensures var after := SpoolEnvelope(c, e, disk).client;
            && FilesLogged(after.files, h)
            && after.chains == (if e.body.ActionRecord? && e.eventId !in c.seen - disk.evicted
                                then AdoptedChains(c.chains, e) else c.chains)
  {
    if e.body.ActionRecord? {
      AppendLogged(h, c.files, e.sessionId, ActionEntry(e.eventId, RowOf(e.sessionId, e.body.action, SealOf(e.body.action))));
    } else {
      AppendLogged(h, c.files, e.sessionId, OtherEntry(e.eventId));
    }
  }

  lemma FailureGrows(c: Client, cfg: Config, e: Envelope, disk: Disk)
    ensures var noted := OnWriteFailure(c, cfg, e, disk.reason);
            && noted.client.files == c.files && noted.client.chains == c.chains
            && (noted.outcome.Ok? ==> noted.outcome.value.status != Accepted)
  {
  }

  /** Where a write leaves the client: after the spool or after the loss was noted, the ledger flushed or not. */
  lemma WriteOneIs(w: Writing, cfg: Config, e: Envelope, disk: Disk, s: Spooled, noted: Client)
    requires s == SpoolEnvelope(w.client, e, disk) && noted == OnWriteFailure(s.client, cfg, e, disk.reason).client
    ensures var one := WriteOne(w.client, cfg, e, disk);
            && (one.client == s.client || one.client == FlushLedger(s.client, e, disk)
                || one.client == noted || one.client == FlushLedger(noted, e, disk))
            && (one.outcome.Ok? && one.outcome.value.status == Accepted ==>
                  s.answer.Answered? && s.answer.response.status == Accepted && one.client == FlushLedger(s.client, e, disk))
            && WriteNext(w, cfg, e, disk).client == (if w.failure.Some? then w.client else one.client)
  {
  }

  /** What one more spool write does to the chains and the files. */
  lemma WriteStep(h: History, w: Writing, cfg: Config, e: Envelope, disk: Disk)
    requires SealedIn(h, e) && FilesLogged(w.client.files, h)
    ensures var after := WriteNext(w, cfg, e, disk).client;
            && FilesLogged(after.files, h)
            && after.chains == (if Adopts(w, e, disk) then AdoptedChains(w.client.chains, e) else w.client.chains)
  {
    SpoolStep(h, w.client, e, disk);
    var s := SpoolEnvelope(w.client, e, disk);
    var noted := OnWriteFailure(s.client, cfg, e, disk.reason).client;
    FailureGrows(s.client, cfg, e, disk);
    FlushLogged(h, s.client, e, disk);
    FlushLogged(h, noted, e, disk);
    WriteOneIs(w, cfg, e, disk, s, noted);
  }

  lemma AppendLogged(h: History, files: map<Id, seq<Entry>>, session: Id, x: Entry)
    requires FilesLogged(files, h) && EntryLogged(h, session, x)
    ensures FilesLogged(Append(files, session, x), h)
  {
  }

  lemma FlushLogged(h: History, c: Client, e: Envelope, disk: Disk)
    requires FilesLogged(c.files, h)
    ensures FilesLogged(FlushLedger(c, e, disk).files, h)
    ensures FlushLedger(c, e, disk).chains == c.chains
  {
    AppendLogged(h, c.files, e.sessionId, LossEntry(LedgerFor(c.ledgers, e.sessionId)));
  }

  /** The number of the last action of a session whose seal the writer took over, among the first `n`. */
  function LastAdopted(c: Client, cfg: Config, envelopes: seq<Envelope>, disk: seq<Disk>, n: nat, session: Id): Option<int>
    requires n <= |envelopes|
  {
    if n == 0 then None
    else
      var e := envelopes[n - 1];
      if e.sessionId == session && Adopts(WriteUpTo(c, cfg, envelopes, disk, n - 1), e, DiskAt(disk, n - 1)) then e.body.action.number
      else LastAdopted(c, cfg, envelopes, disk, n - 1, session)
  }

  /** The tail of a session after adoptions: the last adopted record's hash, and the full count. */
  function AdoptedTail(rows: seq<Row>, last: Option<int>): Tail {
    if last.Some? && 1 <= last.value <= |rows| then Tail(Some(rows[last.value - 1].selfHash), |rows|) else TailOf(rows)
  }

  ghost predicate LastOk(rows: seq<Row>, last: Option<int>) {
    last.Some? ==> 1 <= last.value <= |rows|
  }

  /** Writing sealed envelopes keeps the files logged and leaves each tail at its last adopted record. */
  lemma {:induction false} WriteKeeps(h: History, c: Client, cfg: Config, envelopes: seq<Envelope>, disk: seq<Disk>, n: nat)
    returns (w: Writing)
    requires n <= |envelopes| && forall i :: 0 <= i < |envelopes| ==> SealedIn(h, envelopes[i])
    requires FilesLogged(c.files, h) && Synced(c.chains, h)
    ensures w == WriteUpTo(c, cfg, envelopes, disk, n)
    ensures FilesLogged(w.client.files, h)
    ensures forall s: Id {:trigger TailFor(w.client.chains, s)} ::
              var last := LastAdopted(c, cfg, envelopes, disk, n, s);
              LastOk(ChainFor(h, s), last) && TailFor(w.client.chains, s) == AdoptedTail(ChainFor(h, s), last)
  {
    if n == 0 {
      w := Writing(c, [], 0, None);
    } else {
      var before := WriteKeeps(h, c, cfg, envelopes, disk, n - 1);
      var e := envelopes[n - 1];
      WriteStep(h, before, cfg, e, DiskAt(disk, n - 1));
      w := WriteNext(before, cfg, e, DiskAt(disk, n - 1));
      forall s: Id ensures var last := LastAdopted(c, cfg, envelopes, disk, n, s);
        LastOk(ChainFor(h, s), last) && TailFor(w.client.chains, s) == AdoptedTail(ChainFor(h, s), last)
      {
        assert TailFor(before.client.chains, s).count == |ChainFor(h, s)|;
      }
    }
  }

  /** Hashes tell the records of one chain apart, so only the newest record has the tail's hash. */
  lemma TailIdentifies(rows: seq<Row>, last: Option<int>)
    requires IsChain(rows) && LastOk(rows, last)
    ensures AdoptedTail(rows, last) == TailOf(rows) <==> last == None || last == Some(|rows|)
  {
    if last.Some? {
      assert ChainRow(rows, last.value - 1) && ChainRow(rows, |rows| - 1);
    }
  }

  // ---------- The whole system ----------

  /** The client, and the action records the server holds, by event id. */
  datatype System = System(client: Client, server: map<Id, Row>)

  /** One `handle_batch` call and everything the outside world does meanwhile; `kept` is what the server stores. */
  datatype Call = Call(envelopes: seq<Envelope>, wire: seq<HttpOutcome>, disk: seq<Disk>, kept: set<Id>)

  predicate Posted(sent: seq<seq<nat>>, i: nat) {
    exists k :: 0 <= k < |sent| && i in sent[k]
  }

  predicate HasSeal(e: Envelope) {
    && e.body.ActionRecord?
    && e.body.action.actionId.Some? && e.body.action.number.Some? && e.body.action.selfHash.Some?
  }

  function CarriedRow(e: Envelope): Row
    requires HasSeal(e)
  {
    RowOf(e.sessionId, e.body.action, SealOf(e.body.action))
  }

  /** The server may store any sealed action it was sent, as sent; what it already holds stays. */
  function DeliverUpTo(server: map<Id, Row>, envelopes: seq<Envelope>, sent: seq<seq<nat>>, kept: set<Id>, n: nat): map<Id, Row>
    requires n <= |envelopes|
  {
    if n == 0 then server
    else
      var before := DeliverUpTo(server, envelopes, sent, kept, n - 1);
      var e := envelopes[n - 1];
      if HasSeal(e) && Posted(sent, n - 1) && e.eventId in kept && e.eventId !in before
      then before[e.eventId := CarriedRow(e)] else before
  }

  function OutcomeOf(sys: System, cfg: Config, call: Call): BatchOutcome {
    HandleBatch(sys.client, cfg, call.envelopes, call.wire, call.disk)
  }

  function StepSystem(sys: System, cfg: Config, call: Call): System {
    var o := OutcomeOf(sys, cfg, call);
    System(o.client, DeliverUpTo(sys.server, o.envelopes, o.sent, call.kept, |o.envelopes|))
  }

  ghost function HistoryAfter(sys: System, call: Call, h: History): History {
    HistoryUpTo(sys.client, h, call.envelopes, |call.envelopes|)
  }

  ghost predicate ServerLogged(server: map<Id, Row>, h: History) {
    forall e :: e in server ==> e in h.log && h.log[e] == server[e]
  }

  /** Every record held anywhere is the record its event was sealed as, and all of those form chains. */
  ghost predicate Safe(sys: System, h: History) {
    Chained(h) && Recorded(h) && FilesLogged(sys.client.files, h) && ServerLogged(sys.server, h)
  }

  /** What the call leaves to the spool: the client before writing, and the envelopes written. */
  function ToSpool(sys: System, cfg: Config, call: Call): (r: (Client, seq<Envelope>)) {
    var b := SealUpTo(sys.client, call.envelopes, |call.envelopes|);
    var plan := PlanBatch(b, cfg, call.wire);
    (plan.client, Select(b.envelopes, plan.spool))
  }

  /** In every session, the last seal the spool takes over is the newest one; or it takes over none. */
  ghost predicate SpoolEndsNewest(sys: System, cfg: Config, call: Call, h: History) {
    var (c, spooled) := ToSpool(sys, cfg, call);
    forall s: Id :: NewestOrNone(LastAdopted(c, cfg, spooled, call.disk, |spooled|, s), ChainFor(h, s))
  }

  ghost predicate NewestOrNone(last: Option<int>, rows: seq<Row>) {
    last == None || last == Some(|rows|)
  }

  lemma {:induction false} NewEventsFresh(h: History, envelopes: seq<Envelope>, n: nat)
    requires n <= |envelopes| && Admissible(h, envelopes)
    ensures NewEvents(envelopes, n) !! h.log.Keys
  {
    if n != 0 {
      NewEventsFresh(h, envelopes, n - 1);
      assert WantsSeal(envelopes[n - 1]) ==> IsNew(envelopes, n - 1);
    }
  }

  lemma LoggedStays(sys: System, h: History, g: History, events: set<Id>)
    requires FilesLogged(sys.client.files, h) && ServerLogged(sys.server, h)
    requires LogGrew(h, g, events) && events !! h.log.Keys
    ensures FilesLogged(sys.client.files, g) && ServerLogged(sys.server, g)
  {
  }

  lemma {:induction false} DeliverKeeps(h: History, server: map<Id, Row>, envelopes: seq<Envelope>, sent: seq<seq<nat>>, kept: set<Id>, n: nat)
    requires n <= |envelopes| && ServerLogged(server, h)
    requires forall i :: 0 <= i < |envelopes| ==> SealedIn(h, envelopes[i])
    ensures ServerLogged(DeliverUpTo(server, envelopes, sent, kept, n), h)
  {
    if n != 0 {
      DeliverKeeps(h, server, envelopes, sent, kept, n - 1);
    }
  }

  /**
   One call, with any batch of new actions and of sealed ones handed in again, and any
   behaviour of network, disk and server: everything held stays one sealed chain per session; and the client can
   go on sealing that chain if and only if the spool ended on the newest record.
   */
  lemma StepKeeps(sys: System, cfg: Config, call: Call, h: History)
    requires Safe(sys, h) && Synced(sys.client.chains, h) && Admissible(h, call.envelopes)
    ensures Safe(StepSystem(sys, cfg, call), HistoryAfter(sys, call, h))
    ensures Synced(StepSystem(sys, cfg, call).client.chains, HistoryAfter(sys, call, h)) <==>
            SpoolEndsNewest(sys, cfg, call, HistoryAfter(sys, call, h))
  {
    var n := |call.envelopes|;
    var b, g := SealKeeps(sys.client, h, call.envelopes, n);
    NewEventsFresh(h, call.envelopes, n);
    LoggedStays(sys, h, g, NewEvents(call.envelopes, n));
    var plan := PlanBatch(b, cfg, call.wire);
    var spooled := Select(b.envelopes, plan.spool);
    var w := WriteKeeps(g, plan.client, cfg, spooled, call.disk, |spooled|);
    DeliverKeeps(g, sys.server, b.envelopes, plan.sent, call.kept, n);
    SyncIff(g, plan.client, cfg, spooled, call.disk, w);
  }

  lemma SyncIff(h: History, c: Client, cfg: Config, spooled: seq<Envelope>, disk: seq<Disk>, w: Writing)
    requires Chained(h)
    requires forall s: Id {:trigger TailFor(w.client.chains, s)} ::
              var last := LastAdopted(c, cfg, spooled, disk, |spooled|, s);
              LastOk(ChainFor(h, s), last) && TailFor(w.client.chains, s) == AdoptedTail(ChainFor(h, s), last)
    ensures Synced(w.client.chains, h) <==>
            forall s: Id :: NewestOrNone(LastAdopted(c, cfg, spooled, disk, |spooled|, s), ChainFor(h, s))
  {
    forall s: Id ensures TailFor(w.client.chains, s) == TailOf(ChainFor(h, s)) <==>
      NewestOrNone(LastAdopted(c, cfg, spooled, disk, |spooled|, s), ChainFor(h, s))
    {
      var tail := TailFor(w.client.chains, s);
      assert ChainOf(ChainFor(h, s), s);
      TailIdentifies(ChainFor(h, s), LastAdopted(c, cfg, spooled, disk, |spooled|, s));
    }
  }

  // ---------- Runs ----------

  function RunSystem(sys: System, cfg: Config, calls: seq<Call>): System
    decreases |calls|
  {
    if calls == [] then sys else RunSystem(StepSystem(sys, cfg, calls[0]), cfg, calls[1..])
  }

  ghost function RunHistory(sys: System, cfg: Config, calls: seq<Call>, h: History): History
    decreases |calls|
  {
    if calls == [] then h else RunHistory(StepSystem(sys, cfg, calls[0]), cfg, calls[1..], HistoryAfter(sys, calls[0], h))
  }

  /** Every call of the run brings new actions, or earlier ones under their seals. */
  ghost predicate NewRun(sys: System, cfg: Config, calls: seq<Call>, h: History)
    decreases |calls|
  {
    calls != [] ==>
      && Admissible(h, calls[0].envelopes)
      && NewRun(StepSystem(sys, cfg, calls[0]), cfg, calls[1..], HistoryAfter(sys, calls[0], h))
  }

  ghost predicate OneAtATime(calls: seq<Call>) {
    forall k :: 0 <= k < |calls| ==> |calls[k].envelopes| == 1
  }

  /** In a one-envelope call, the spool takes over the envelope's seal. */
  predicate TakesOver(sys: System, cfg: Config, call: Call) {
    var (c, spooled) := ToSpool(sys, cfg, call);
    |spooled| == 1 && Adopts(Writing(c, [], 0, None), spooled[0], DiskAt(call.disk, 0))
  }

  /** The one envelope of a call is not an action, or a new one, or the newest again; or the spool does not take it over. */
  ghost predicate NewestOrUntaken(sys: System, cfg: Config, call: Call, h: History)
    requires |call.envelopes| == 1
  {
    var e := call.envelopes[0];
    !e.body.ActionRecord? || WantsSeal(e) || SequenceOf(e) == Some(|ChainFor(h, e.sessionId)|) || !TakesOver(sys, cfg, call)
  }

  /**
   A one-envelope call ends on the newest record exactly when it hands in a new
   action or the newest one again, unless the spool takes nothing over.
   */
  lemma OneEndsNewest(sys: System, cfg: Config, call: Call, h: History)
    requires Safe(sys, h) && Synced(sys.client.chains, h) && Admissible(h, call.envelopes)
    requires |call.envelopes| == 1
    ensures SpoolEndsNewest(sys, cfg, call, HistoryAfter(sys, call, h)) <==> NewestOrUntaken(sys, cfg, call, h)
  {
    var sealed, g := OneSealed(sys, call, h);
    var c, spooled := SpooledOfOne(sys, cfg, call, sealed);
    OneAdopted(c, cfg, spooled, call.disk, sealed, g);
  }

  /** The one envelope after sealing: with the newest number if it was new, otherwise as it was. */
  lemma OneSealed(sys: System, call: Call, h: History) returns (sealed: Envelope, g: History)
    requires Safe(sys, h) && Synced(sys.client.chains, h) && Admissible(h, call.envelopes)
    requires |call.envelopes| == 1
    ensures SealUpTo(sys.client, call.envelopes, 1).envelopes == [sealed] && g == HistoryAfter(sys, call, h)
    ensures SameEvent(sealed, call.envelopes[0]) && SealedIn(g, sealed)
    ensures WantsSeal(call.envelopes[0]) ==> SequenceOf(sealed) == Some(|ChainFor(g, sealed.sessionId)|)
    ensures !WantsSeal(call.envelopes[0]) ==> sealed == call.envelopes[0] && g == h
  {
    sealed, g := SealedAlone(sys.client, h, call.envelopes);
  }

  lemma SealedAlone(c: Client, h: History, envelopes: seq<Envelope>) returns (sealed: Envelope, g: History)
    requires Healthy(c, h) && Admissible(h, envelopes) && |envelopes| == 1
    ensures SealUpTo(c, envelopes, 1).envelopes == [sealed] && g == HistoryUpTo(c, h, envelopes, 1)
    ensures SameEvent(sealed, envelopes[0]) && SealedIn(g, sealed)
    ensures WantsSeal(envelopes[0]) ==> SequenceOf(sealed) == Some(|ChainFor(g, sealed.sessionId)|)
    ensures !WantsSeal(envelopes[0]) ==> sealed == envelopes[0] && g == h
  {
    var b;
    b, g := SealKeeps(c, h, envelopes, 1);
    sealed := b.envelopes[0];
    HistoryOfOne(c, h, envelopes);
    if WantsSeal(envelopes[0]) {
      NewestNumber(c, h, envelopes[0], sealed);
    } else {
      UnsealedUntouched(c, envelopes);
    }
  }

  lemma HistoryOfOne(c: Client, h: History, envelopes: seq<Envelope>)
    requires |envelopes| == 1
    ensures HistoryUpTo(c, h, envelopes, 1) == NextHistory(h, c, envelopes[0])
  {
    assert SealUpTo(c, envelopes, 0) == SealedBatch(c, envelopes, None);
  }

  lemma UnsealedUntouched(c: Client, envelopes: seq<Envelope>)
    requires |envelopes| == 1 && !WantsSeal(envelopes[0])
    ensures SealUpTo(c, envelopes, 1).envelopes == envelopes
  {
    assert SealUpTo(c, envelopes, 0) == SealedBatch(c, envelopes, None);
  }

  lemma SpooledOfOne(sys: System, cfg: Config, call: Call, sealed: Envelope) returns (c: Client, spooled: seq<Envelope>)
    requires |call.envelopes| == 1 && SealUpTo(sys.client, call.envelopes, 1).envelopes == [sealed]
    ensures ToSpool(sys, cfg, call) == (c, spooled) && |spooled| <= 1 && (|spooled| == 1 ==> spooled[0] == sealed)
    ensures TakesOver(sys, cfg, call) <==> |spooled| == 1 && Adopts(Writing(c, [], 0, None), sealed, DiskAt(call.disk, 0))
  {
    var r := ToSpool(sys, cfg, call);
    c, spooled := r.0, r.1;
    var spool := PlanBatch(SealUpTo(sys.client, call.envelopes, 1), cfg, call.wire).spool;
    assert Less(spool, 0, 1);
    assert |spool| <= 1;
  }

  lemma OneAdopted(c: Client, cfg: Config, spooled: seq<Envelope>, disk: seq<Disk>, e: Envelope, g: History)
    requires |spooled| <= 1 && (|spooled| == 1 ==> spooled[0] == e)
    requires SealedIn(g, e)
    ensures (forall s: Id :: NewestOrNone(LastAdopted(c, cfg, spooled, disk, |spooled|, s), ChainFor(g, s))) <==>
            !e.body.ActionRecord? || SequenceOf(e) == Some(|ChainFor(g, e.sessionId)|)
            || !(|spooled| == 1 && Adopts(Writing(c, [], 0, None), e, DiskAt(disk, 0)))
  {
    forall s: Id ensures LastAdopted(c, cfg, spooled, disk, |spooled|, s) ==
      if |spooled| == 1 && e.sessionId == s && Adopts(Writing(c, [], 0, None), e, DiskAt(disk, 0)) then SequenceOf(e) else None
    {
      assert WriteUpTo(c, cfg, spooled, disk, 0) == Writing(c, [], 0, None);
    }
    assert NewestOrNone(LastAdopted(c, cfg, spooled, disk, |spooled|, e.sessionId), ChainFor(g, e.sessionId)) <==>
      !e.body.ActionRecord? || SequenceOf(e) == Some(|ChainFor(g, e.sessionId)|)
      || !(|spooled| == 1 && Adopts(Writing(c, [], 0, None), e, DiskAt(disk, 0)));
  }

  lemma NewestNumber(c: Client, h: History, e: Envelope, sealed: Envelope)
    requires e.body.ActionRecord? && Synced(c.chains, h) && SameEvent(sealed, e)
    requires SealedIn(Extend(h, e.eventId, MintedRow(c, e)), sealed)
    ensures sealed.body.action.number == Some(|ChainFor(Extend(h, e.eventId, MintedRow(c, e)), e.sessionId)|)
  {
  }

  /** In every call of the run, the spool ends on the newest record. */
  ghost predicate InStepRun(sys: System, cfg: Config, calls: seq<Call>, h: History)
    decreases |calls|
  {
    calls != [] ==>
      && SpoolEndsNewest(sys, cfg, calls[0], HistoryAfter(sys, calls[0], h))
      && InStepRun(StepSystem(sys, cfg, calls[0]), cfg, calls[1..], HistoryAfter(sys, calls[0], h))
  }

  /**
   Safety of whole runs, from any safe state, under any mix of wire success, outage,
   rejection, cache eviction and disk failure, as long as the spool stays in step.
   */
  lemma {:induction false} RunKeeps(sys: System, cfg: Config, calls: seq<Call>, h: History)
    requires Safe(sys, h) && Synced(sys.client.chains, h)
    requires NewRun(sys, cfg, calls, h) && InStepRun(sys, cfg, calls, h)
    ensures Safe(RunSystem(sys, cfg, calls), RunHistory(sys, cfg, calls, h))
    ensures Synced(RunSystem(sys, cfg, calls).client.chains, RunHistory(sys, cfg, calls, h))
    decreases |calls|
  {
    if calls != [] {
      StepKeeps(sys, cfg, calls[0], h);
      RunKeeps(StepSystem(sys, cfg, calls[0]), cfg, calls[1..], HistoryAfter(sys, calls[0], h));
    }
  }

  /** Along the run, an action handed in again is the newest of its session, or the spool does not take it over. */
  ghost predicate NewestAgain(sys: System, cfg: Config, calls: seq<Call>, h: History)
    requires OneAtATime(calls)
    decreases |calls|
  {
    calls != [] ==>
      && |calls[0].envelopes| == 1
      && NewestOrUntaken(sys, cfg, calls[0], h)
      && NewestAgain(StepSystem(sys, cfg, calls[0]), cfg, calls[1..], HistoryAfter(sys, calls[0], h))
  }

  /**
   With one envelope per call, a run stays in step if and only if every action handed
   in again was the newest of its session, or was not taken over by the spool. New
   actions alone always stay in step.
   */
  lemma {:induction false} OneAtATimeInStep(sys: System, cfg: Config, calls: seq<Call>, h: History)
    requires Safe(sys, h) && Synced(sys.client.chains, h)
    requires OneAtATime(calls) && NewRun(sys, cfg, calls, h)
    ensures InStepRun(sys, cfg, calls, h) <==> NewestAgain(sys, cfg, calls, h)
    decreases |calls|
  {
    if calls != [] {
      StepKeeps(sys, cfg, calls[0], h);
      OneEndsNewest(sys, cfg, calls[0], h);
      if NewestOrUntaken(sys, cfg, calls[0], h) {
        OneAtATimeInStep(StepSystem(sys, cfg, calls[0]), cfg, calls[1..], HistoryAfter(sys, calls[0], h));
      }
    }
  }

  // ---------- What the auditor sees ----------

  /** The rows of a session that the server or its spool file holds. */
  ghost function Held(sys: System, session: Id): set<Row> {
    (set e | e in sys.server && sys.server[e].sessionId == session :: sys.server[e]) +
    (set x | x in FileFor(sys.client.files, session) && x.ActionEntry? :: x.row)
  }

  /** An event held on both sides is held as the same record, so the union by event is the union of rows. */
  lemma SidesAgree(sys: System, h: History, session: Id, x: Entry)
    requires Safe(sys, h) && x in FileFor(sys.client.files, session) && x.ActionEntry? && x.eventId in sys.server
    ensures sys.server[x.eventId] == x.row
  {
    assert EntryLogged(h, session, x);
  }

  /**
   The union of what server and spool hold of a session, listed in any order, is
   never TAMPERED: it is VALID or INCOMPLETE, and a number is reported missing
   exactly when it was sealed, lies below the largest held, and neither side holds it.
   */
  lemma HeldVerdict(sys: System, h: History, session: Id, picked: seq<Line>)
    requires Safe(sys, h) && Distinct(picked)
    requires forall l :: l in picked <==> l.Full? && l.row in Held(sys, session)
    ensures LocalResult(picked).verdict != Tampered
    ensures forall n :: Covers(LocalResult(picked).missing, n) <==>
              picked != [] && 1 <= n <= |ChainFor(h, session)| && n < MaxOf(Seqs(picked))
              && ChainFor(h, session)[n - 1] !in Held(sys, session)
  {
    var chain := ChainFor(h, session);
    HeldInChain(sys, h, session);
    assert ChainOf(chain, session);
    PartVerdict(chain, picked);
    MissingFromPart(chain, picked);
  }

  lemma HeldInChain(sys: System, h: History, session: Id)
    requires Recorded(h) && FilesLogged(sys.client.files, h) && ServerLogged(sys.server, h)
    ensures forall row :: row in Held(sys, session) ==> row in ChainFor(h, session)
  {
    forall row | row in Held(sys, session) ensures row in ChainFor(h, session) {
      if e :| e in sys.server && sys.server[e].sessionId == session && sys.server[e] == row {
        assert h.log[e] == row;
      } else {
        var x :| x in FileFor(sys.client.files, session) && x.ActionEntry? && x.row == row;
        assert EntryLogged(h, session, x);
        assert h.log[x.eventId] == row;
      }
    }
  }

  /** The same for a whole run that starts with nothing sealed, held or spooled. */
  lemma NeverTampered(cfg: Config, minted: Id, calls: seq<Call>, session: Id, picked: seq<Line>)
    requires var start := System(Client(map[], minted, false, None, map[], map[], {}), map[]);
             && OneAtATime(calls) && NewRun(start, cfg, calls, History(map[], map[]))
             && NewestAgain(start, cfg, calls, History(map[], map[]))
             && Distinct(picked)
             && forall l :: l in picked <==> l.Full? && l.row in Held(RunSystem(start, cfg, calls), session)
    ensures LocalResult(picked).verdict != Tampered
    ensures var start := System(Client(map[], minted, false, None, map[], map[], {}), map[]);
            var end := RunSystem(start, cfg, calls);
            var sealed := ChainFor(RunHistory(start, cfg, calls, History(map[], map[])), session);
            forall n :: Covers(LocalResult(picked).missing, n) <==>
              picked != [] && 1 <= n <= |sealed| && n < MaxOf(Seqs(picked)) && sealed[n - 1] !in Held(end, session)
  {
    var start := System(Client(map[], minted, false, None, map[], map[], {}), map[]);
    var h := History(map[], map[]);
    OneAtATimeInStep(start, cfg, calls, h);
    RunKeeps(start, cfg, calls, h);
    HeldVerdict(RunSystem(start, cfg, calls), RunHistory(start, cfg, calls, h), session, picked);
  }
}
