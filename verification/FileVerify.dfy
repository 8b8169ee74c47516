/**
 `verify_session_local` on a whole file (rootsign/sdk/chain.py), and the way a
 sealed action takes: sealed, written, verified on disk, read back, uploaded.
 */
module FileVerify {
  import opened Common
  import opened Ranges
  import opened Hashing
  import opened Wire
  import opened Verify
  import opened Verdicts
  import opened Chains
  import opened Spool

  // ---------- Records as the verifier reads them ----------

  function HashAt(d: Dict, k: Key): Option<Hash> {
    var v := Get(d, k);
    if v.Digest? then Some(v.h) else None
  }

  function TextAt(d: Dict, k: Key): Option<string> {
    var v := Get(d, k);
    if v.Text? then Some(v.s) else None
  }

  predicate HasCanonical(d: Dict) {
    && Get(d, ActionId).Num? && Get(d, SessionId).Num? && Get(d, ToolName).Text? && Get(d, InputHash).Digest?
    && Get(d, Timestamp).Num? && Get(d, ActionId).n >= 0 && Get(d, SessionId).n >= 0
  }

  function StatusAt(d: Dict): AuthStatus {
    var v := Get(d, AuthorizationStatus);
    if v.Auth? then v.status else AutoAuthorized
  }

  /** A numbered record; `Lacking` when hashing it would miss a canonical field. */
  function LineOf(d: Dict): Line
    requires Get(d, SequenceNumber).Num?
  {
    var n := Get(d, SequenceNumber).n;
    if !HasCanonical(d) then Lacking(n)
    else
      Full(Row(Get(d, ActionId).n, Get(d, SessionId).n, Get(d, ToolName).s, Get(d, InputHash).h,
               HashAt(d, OutputHash), HashAt(d, PrevActionHash), Get(d, Timestamp).n, n,
               Coerce(HashAt(d, SelfHashKey)), TextAt(d, InputRedacted), TextAt(d, OutputRedacted), StatusAt(d)))
  }

  // ---------- The whole file ----------

  datatype FileError = NoRecords | TruncatedLine | MalformedJson(line: nat)

  /** `Raised` when sorting finds a record without a sequence number. */
  datatype FileReport = Unreadable(recordCount: nat, why: FileError) | Checked(result: VerifyResult) | Raised

  function VerdictOf(r: FileReport): Option<Verdict> {
    match r
    case Unreadable(_, _) => Some(Tampered)
    case Checked(result) => Some(result.verdict)
    case Raised => None
  }

  function NonBlank(lines: seq<FileLine>): (kept: seq<FileLine>)
    ensures forall l :: l in kept <==> l in lines && l != Blank
  {
    if lines == [] then []
    else
      var before, last := NonBlank(lines[..|lines| - 1]), lines[|lines| - 1];
      assert lines == lines[..|lines| - 1] + [last];
      if last.Blank? then before else before + [last]
  }

  /** The index of the first line that does not parse. */
  function FirstGarbage(lines: seq<FileLine>): (g: Option<nat>)
    ensures g.Some? ==> g.value < |lines| && lines[g.value].Garbage?
  {
    if lines == [] then None
    else
      var g := FirstGarbage(lines[..|lines| - 1]);
      if g.Some? then g else if lines[|lines| - 1].Garbage? then Some(|lines| - 1) else None
  }

  /** A record without an event type is an action of an old export. */
  predicate CountsAsAction(record: Dict) {
    EventType !in record || record[EventType] == Event(ActionEvent)
  }

  function ActionRecords(lines: seq<FileLine>): seq<Dict> {
    if lines == [] then []
    else
      var before, last := ActionRecords(lines[..|lines| - 1]), lines[|lines| - 1];
      if last.Json? && CountsAsAction(last.record) then before + [last.record] else before
  }

  predicate AllNumbered(records: seq<Dict>) {
    forall i :: 0 <= i < |records| ==> Get(records[i], SequenceNumber).Num?
  }

  function LinesOf(records: seq<Dict>): (ls: seq<Line>)
    requires AllNumbered(records)
    ensures |ls| == |records| && forall i :: 0 <= i < |ls| ==> ls[i] == LineOf(records[i])
  {
    seq(|records|, i requires 0 <= i < |records| => LineOf(records[i]))
  }

  function VerifyFile(lines: seq<FileLine>): FileReport {
    var raw := NonBlank(lines);
    var g := FirstGarbage(raw);
    if raw == [] then Unreadable(0, NoRecords)
    else if g.Some? then Unreadable(g.value, if g.value == |raw| - 1 then TruncatedLine else MalformedJson(g.value + 1))
    else
      var records := ActionRecords(raw);
      if !AllNumbered(records) then Raised else Checked(LocalResult(LinesOf(records)))
  }

  lemma {:induction false} GarbageStays(lines: seq<FileLine>, k: nat)
    requires k <= |lines| && FirstGarbage(lines[..k]).Some?
    ensures FirstGarbage(lines) == FirstGarbage(lines[..k])
  {
    if k < |lines| {
      assert lines[..|lines| - 1][..k] == lines[..k];
      GarbageStays(lines[..|lines| - 1], k);
    } else {
      assert lines[..k] == lines;
    }
  }

  method VerifySessionLocal(lines: seq<FileLine>) returns (r: FileReport)
    ensures r == VerifyFile(lines)
  {
    var raw := NonBlank(lines);
    if raw == [] {
      return Unreadable(0, NoRecords);
    }
    var records: seq<Dict> := [];
    for i := 0 to |raw|
      invariant FirstGarbage(raw[..i]).None? && records == ActionRecords(raw[..i])
    {
      assert raw[..i + 1][..i] == raw[..i];
      if raw[i].Garbage? {
        GarbageStays(raw, i + 1);
        return Unreadable(i, if i == |raw| - 1 then TruncatedLine else MalformedJson(i + 1));
      }
      if raw[i].Json? && CountsAsAction(raw[i].record) {
        records := records + [raw[i].record];
      }
    }
    assert raw[..|raw|] == raw;
    if !AllNumbered(records) {
      return Raised;
    }
    var result := VerifyRecords(LinesOf(records));
    r := Checked(result);
  }

  // ---------- A sealed action on its way ----------

  function OptText(s: Option<string>): Val {
    if s.Some? then Text(s.value) else Null
  }

  function OptNum(n: Option<int>): Val {
    if n.Some? then Num(n.value) else Null
  }

  function EncodeSeal(p: ActionPayload): Dict {
    map[
      ActionId := if p.actionId.Some? then Num(p.actionId.value) else Null,
      SequenceNumber := OptNum(p.number),
      PrevActionHash := OptHash(p.prevHash),
      SelfHashKey := OptHash(p.selfHash)]
  }

  function EncodeContent(p: ActionPayload): Dict {
    map[
      ToolName := Text(p.toolName),
      InputHash := Digest(p.inputHash),
      OutputHash := OptHash(p.outputHash),
      Timestamp := Num(p.timestamp),
      InputRedacted := OptText(p.inputRedacted),
      OutputRedacted := OptText(p.outputRedacted)]
  }

  /** The payload dictionary of an action, as `_seal` leaves it. */
  function EncodePayload(p: ActionPayload): Dict {
    EncodeContent(p) + EncodeSeal(p) + if p.auth.Some? then map[AuthorizationStatus := Auth(p.auth.value)] else map[]
  }

  function EncodeHeader(e: Envelope): Dict {
    map[
      SchemaVersion := SemVer(e.version),
      SdkVersion := CURRENT_SDK,
      EventType := Event(ActionEvent),
      EventId := Num(e.eventId)]
  }

  function EncodeOrigin(e: Envelope): Dict {
    map[
      EmittedAt := Num(e.emittedAt),
      AgentId := Num(e.agentId),
      SessionId := Num(e.sessionId)]
  }

  /** The envelope dictionary of an action. */
  function EncodeAction(e: Envelope): Dict
    requires e.body.ActionRecord?
  {
    (EncodeHeader(e) + EncodeOrigin(e))[Payload := Object(EncodePayload(e.body.action))]
  }

  /** Dictionary `d` says what payload `p` says. */
  ghost predicate Carries(d: Dict, p: ActionPayload) {
    && Get(d, ToolName) == Text(p.toolName) && Get(d, InputHash) == Digest(p.inputHash) && Get(d, Timestamp) == Num(p.timestamp)
    && Get(d, OutputHash) == OptHash(p.outputHash)
    && Get(d, InputRedacted) == OptText(p.inputRedacted) && Get(d, OutputRedacted) == OptText(p.outputRedacted)
    && Get(d, ActionId) == (if p.actionId.Some? then Num(p.actionId.value) else Null)
    && Get(d, SequenceNumber) == OptNum(p.number)
    && Get(d, PrevActionHash) == OptHash(p.prevHash) && Get(d, SelfHashKey) == OptHash(p.selfHash)
    && StatusAt(d) == (if p.auth.Some? then p.auth.value else AutoAuthorized)
  }

  /** What the payload dictionary holds under each key; `None` where it has none. */
  function EncodedAt(p: ActionPayload, k: Key): Option<Val> {
    match k
    case ToolName => Some(Text(p.toolName))
    case InputHash => Some(Digest(p.inputHash))
    case OutputHash => Some(OptHash(p.outputHash))
    case Timestamp => Some(Num(p.timestamp))
    case InputRedacted => Some(OptText(p.inputRedacted))
    case OutputRedacted => Some(OptText(p.outputRedacted))
    case ActionId => Some(if p.actionId.Some? then Num(p.actionId.value) else Null)
    case SequenceNumber => Some(OptNum(p.number))
    case PrevActionHash => Some(OptHash(p.prevHash))
    case SelfHashKey => Some(OptHash(p.selfHash))
    case AuthorizationStatus => if p.auth.Some? then Some(Auth(p.auth.value)) else None
    case _ => None
  }

  ghost predicate EncodedKey(d: Dict, p: ActionPayload, k: Key) {
    (k in d <==> EncodedAt(p, k).Some?) && (k in d ==> Some(d[k]) == EncodedAt(p, k))
  }

  lemma SealHolds(p: ActionPayload, k: Key)
    ensures k in EncodeSeal(p) <==> k.ActionId? || k.SequenceNumber? || k.PrevActionHash? || k.SelfHashKey?
    ensures k in EncodeSeal(p) ==> Some(EncodeSeal(p)[k]) == EncodedAt(p, k)
  {
  }

  lemma ContentHolds(p: ActionPayload, k: Key)
    ensures k in EncodeContent(p) ==> Some(EncodeContent(p)[k]) == EncodedAt(p, k)
    ensures k in EncodeContent(p) <==>
            k.ToolName? || k.InputHash? || k.OutputHash? || k.Timestamp? || k.InputRedacted? || k.OutputRedacted?
  {
  }

  lemma EncodedHolds(p: ActionPayload, k: Key)
    ensures EncodedKey(EncodePayload(p), p, k)
  {
    SealHolds(p, k);
    ContentHolds(p, k);
  }

  lemma EncodedPayload(p: ActionPayload) returns (d: Dict)
    ensures d == EncodePayload(p) && Carries(d, p)
    ensures ToolName in d && InputHash in d && Timestamp in d && forall k :: k in d ==> ActionField(k)
  {
    d := EncodePayload(p);
    forall k: Key ensures EncodedKey(d, p, k) {
      EncodedHolds(p, k);
    }
    EncodedCarries(d, p);
    forall k | k in d ensures ActionField(k) {
      assert EncodedKey(d, p, k);
    }
  }

  lemma EncodedCarries(d: Dict, p: ActionPayload)
    requires EncodedKey(d, p, ToolName) && EncodedKey(d, p, InputHash) && EncodedKey(d, p, Timestamp)
    requires EncodedKey(d, p, OutputHash) && EncodedKey(d, p, InputRedacted) && EncodedKey(d, p, OutputRedacted)
    requires EncodedKey(d, p, ActionId) && EncodedKey(d, p, SequenceNumber) && EncodedKey(d, p, PrevActionHash)
    requires EncodedKey(d, p, SelfHashKey) && EncodedKey(d, p, AuthorizationStatus)
    ensures Carries(d, p) && ToolName in d && InputHash in d && Timestamp in d
  {
  }

  lemma CarriesSeal(d: Dict, p: ActionPayload, seal: SealedAction)
    requires Carries(d, p) && p == WithSeal(p, seal)
    requires ToolName in d && InputHash in d && Timestamp in d && forall k :: k in d ==> ActionField(k)
    ensures SealedPayload(d, seal)
  {
    assert p.actionId == Some(seal.actionId) && p.number == Some(seal.number);
    assert p.prevHash == seal.prevHash && p.selfHash == Some(seal.selfHash);
  }

  /** The payload's line is the row that was sealed. */
  lemma CarriedLine(d: Dict, session: Id, p: ActionPayload, seal: SealedAction)
    requires Carries(d, p) && p == WithSeal(p, seal) && Get(d, SessionId) == Num(session)
    ensures Get(d, SequenceNumber).Num? && LineOf(d) == Full(RowOf(session, p, seal))
  {
    assert p.actionId == Some(seal.actionId) && p.number == Some(seal.number);
    assert p.prevHash == seal.prevHash && p.selfHash == Some(seal.selfHash);
  }

  /** A payload as the server sees it: with the session its envelope names. */
  function InSession(p: Dict, session: Val): Dict {
    p[SessionId := session]
  }

  lemma StillCarries(d: Dict, p: ActionPayload, session: Id)
    requires Carries(d, p)
    ensures Carries(InSession(d, Num(session)), p) && Get(InSession(d, Num(session)), SessionId) == Num(session)
  {
  }

  lemma EncodedEnvelope(e: Envelope, seal: SealedAction) returns (d: Dict)
    requires e.body.ActionRecord? && e.body.action == WithSeal(e.body.action, seal)
    ensures d == EncodeAction(e) && SealedEnvelope(d, seal) && Get(d, SessionId) == Num(e.sessionId)
    ensures var plain := InSession(PayloadOf(d), Num(e.sessionId));
            Get(plain, SequenceNumber).Num? && LineOf(plain) == Full(RowOf(e.sessionId, e.body.action, seal))
  {
    var payload := EncodedPayload(e.body.action);
    CarriesSeal(payload, e.body.action, seal);
    StillCarries(payload, e.body.action, e.sessionId);
    CarriedLine(InSession(payload, Num(e.sessionId)), e.sessionId, e.body.action, seal);
    d := EnvelopeAround(e, payload);
  }

  lemma EnvelopeAround(e: Envelope, payload: Dict) returns (d: Dict)
    requires e.body.ActionRecord? && payload == EncodePayload(e.body.action)
    ensures d == EncodeAction(e) && PayloadOf(d) == payload && Get(d, Payload).Object?
    ensures (forall k :: k in d ==> EnvelopeField(k))
    ensures Get(d, EventType) == Event(ActionEvent) && Get(d, SessionId) == Num(e.sessionId)
  {
    d := EncodeAction(e);
    forall k | k in d ensures EnvelopeField(k) {
      EncodedMetadata(e, k);
    }
  }

  lemma EncodedMetadata(e: Envelope, k: Key)
    requires e.body.ActionRecord? && k in EncodeAction(e)
    ensures EnvelopeField(k)
  {
    HeaderFields(e, k);
    OriginFields(e, k);
  }

  lemma HeaderFields(e: Envelope, k: Key)
    ensures k in EncodeHeader(e) ==> EnvelopeField(k)
  {
  }

  lemma OriginFields(e: Envelope, k: Key)
    ensures k in EncodeOrigin(e) ==> EnvelopeField(k)
  {
  }

  ghost predicate SameAt(a: Dict, b: Dict, k: Key) {
    Get(a, k) == Get(b, k)
  }

  /** The verifier reads a dictionary only through `get`, and takes no status for the default one. */
  lemma LineReadsValues(a: Dict, b: Dict)
    requires Get(a, SequenceNumber).Num? && SameAt(a, b, SequenceNumber) && StatusAt(a) == StatusAt(b)
    requires SameAt(a, b, ActionId) && SameAt(a, b, SessionId) && SameAt(a, b, ToolName) && SameAt(a, b, Timestamp)
    requires SameAt(a, b, InputHash) && SameAt(a, b, OutputHash) && SameAt(a, b, PrevActionHash) && SameAt(a, b, SelfHashKey)
    requires SameAt(a, b, InputRedacted) && SameAt(a, b, OutputRedacted)
    ensures LineOf(a) == LineOf(b)
  {
  }

  /**
   The line written for a sealed action is, to the file verifier, exactly the row
   that was sealed; and the envelope rebuilt from it carries that same row to the
   store. Hence its hash still recomputes, wherever it is checked.
   */
  lemma SealedRowSurvives(e: Envelope, seal: SealedAction, line: nat) returns (record: Dict, back: Dict)
    requires e.body.ActionRecord? && e.body.action == WithSeal(e.body.action, seal)
    ensures BuildAction(EncodeAction(e), seal) == Some(record) && Rebuild(record, line) == Ok(back)
    ensures CountsAsAction(record) && Get(record, SequenceNumber) == Num(seal.number)
    ensures LineOf(record) == Full(RowOf(e.sessionId, e.body.action, seal))
    ensures var carried := InSession(PayloadOf(back), Get(back, SessionId));
            Get(carried, SequenceNumber).Num? && LineOf(carried) == LineOf(record)
  {
    var d := EncodedEnvelope(e, seal);
    record, back := ActionRoundTrip(d, seal, line);
    assert Get(back, SessionId) == Get(d, SessionId);
    WrittenCarries(record, d, seal, back, e.sessionId);
  }

  lemma CarriedKey(record: Dict, d: Dict, seal: SealedAction, back: Dict, k: Key)
    requires SealedPayload(PayloadOf(d), seal) && RecordLike(record, d, seal) && ActionField(k)
    requires SameUpToNull(PayloadOf(back), WithDefaultStatus(PayloadOf(d)))
    ensures Get(record, k) == Get(WithDefaultStatus(PayloadOf(d)), k) == Get(PayloadOf(back), k)
  {
    assert RecordKey(record, d, seal, k);
    FlatIsPayload(PayloadOf(d), seal, k);
  }

  lemma CarriedAt(record: Dict, d: Dict, seal: SealedAction, session: Id, k: Key)
    requires SealedPayload(PayloadOf(d), seal) && RecordLike(record, d, seal)
    requires ActionField(k) && k != AuthorizationStatus
    ensures SameAt(InSession(PayloadOf(d), Num(session)), record, k)
  {
    assert RecordKey(record, d, seal, k);
    FlatIsPayload(PayloadOf(d), seal, k);
  }

  lemma WrittenKeys(record: Dict, d: Dict, seal: SealedAction, session: Id)
    requires RecordKey(record, d, seal, EventType) && RecordKey(record, d, seal, SequenceNumber)
    requires RecordKey(record, d, seal, SessionId) && Get(d, SessionId) == Num(session)
    ensures CountsAsAction(record) && Get(record, SequenceNumber) == Num(seal.number) && Get(record, SessionId) == Num(session)
  {
  }

  /** The line written, and the payload that comes back, say what the payload said. */
  lemma WrittenCarries(record: Dict, d: Dict, seal: SealedAction, back: Dict, session: Id)
    requires SealedPayload(PayloadOf(d), seal) && RecordLike(record, d, seal)
    requires SameUpToNull(PayloadOf(back), WithDefaultStatus(PayloadOf(d))) && Get(d, SessionId) == Num(session)
    ensures CountsAsAction(record) && Get(record, SequenceNumber) == Num(seal.number)
    ensures LineOf(record) == LineOf(InSession(PayloadOf(d), Num(session)))
    ensures var carried := InSession(PayloadOf(back), Num(session));
            Get(carried, SequenceNumber).Num? && LineOf(carried) == LineOf(record)
  {
    WrittenKeys(record, d, seal, session);
    StatusCarries(record, d, seal, back);
    RecordCarries(record, d, seal, session);
    BackCarries(PayloadOf(d), PayloadOf(back), session);
  }

  lemma StatusCarries(record: Dict, d: Dict, seal: SealedAction, back: Dict)
    requires SealedPayload(PayloadOf(d), seal) && RecordLike(record, d, seal)
    requires SameUpToNull(PayloadOf(back), WithDefaultStatus(PayloadOf(d)))
    ensures StatusAt(record) == StatusAt(PayloadOf(d)) == StatusAt(PayloadOf(back))
  {
    CarriedKey(record, d, seal, back, AuthorizationStatus);
  }

  lemma RecordCarries(record: Dict, d: Dict, seal: SealedAction, session: Id)
    requires SealedPayload(PayloadOf(d), seal) && RecordLike(record, d, seal)
    requires Get(record, SequenceNumber) == Num(seal.number) && Get(record, SessionId) == Num(session)
    requires StatusAt(record) == StatusAt(PayloadOf(d))
    ensures LineOf(record) == LineOf(InSession(PayloadOf(d), Num(session)))
  {
    CarriedAt(record, d, seal, session, SequenceNumber);
    CarriedAt(record, d, seal, session, ActionId);
    CarriedAt(record, d, seal, session, ToolName);
    CarriedAt(record, d, seal, session, Timestamp);
    CarriedAt(record, d, seal, session, InputHash);
    CarriedAt(record, d, seal, session, OutputHash);
    CarriedAt(record, d, seal, session, PrevActionHash);
    CarriedAt(record, d, seal, session, SelfHashKey);
    CarriedAt(record, d, seal, session, InputRedacted);
    CarriedAt(record, d, seal, session, OutputRedacted);
    LineReadsValues(InSession(PayloadOf(d), Num(session)), record);
  }

  lemma BackAt(p: Dict, back: Dict, session: Id) returns (a: Dict, b: Dict)
    requires SameUpToNull(back, WithDefaultStatus(p)) && StatusAt(p) == StatusAt(back)
    ensures a == InSession(p, Num(session)) && b == InSession(back, Num(session))
    ensures StatusAt(a) == StatusAt(b) && Get(a, SequenceNumber) == Get(p, SequenceNumber)
    ensures forall k: Key :: k != AuthorizationStatus ==> SameAt(a, b, k)
  {
    a, b := InSession(p, Num(session)), InSession(back, Num(session));
    forall k: Key | k != AuthorizationStatus ensures SameAt(a, b, k) {
      assert Get(back, k) == Get(WithDefaultStatus(p), k);
    }
  }

  lemma BackCarries(p: Dict, back: Dict, session: Id)
    requires SameUpToNull(back, WithDefaultStatus(p)) && StatusAt(p) == StatusAt(back)
    requires Get(p, SequenceNumber).Num?
    ensures var carried := InSession(back, Num(session));
            Get(carried, SequenceNumber).Num? && LineOf(carried) == LineOf(InSession(p, Num(session)))
  {
    var a, b := BackAt(p, back, session);
    LineReadsValues(a, b);
  }

  // ---------- A file the writer wrote ----------

  /** What stands beside the actions in a session file: other events, annotations, blank lines. */
  predicate Beside(l: FileLine) {
    l.Blank? || (l.Json? && !CountsAsAction(l.record))
  }

  lemma {:induction false} BesideIsInert(lines: seq<FileLine>, l: FileLine)
    requires Beside(l)
    ensures ActionRecords(NonBlank(lines + [l])) == ActionRecords(NonBlank(lines))
    ensures FirstGarbage(NonBlank(lines)).None? ==> FirstGarbage(NonBlank(lines + [l])).None?
  {
    assert (lines + [l])[..|lines|] == lines;
    if !l.Blank? {
      var raw := NonBlank(lines);
      assert NonBlank(lines + [l]) == raw + [l];
      assert (raw + [l])[..|raw|] == raw;
    }
  }

  lemma NonBlankAppended(lines: seq<FileLine>, l: FileLine)
    requires !l.Blank?
    ensures NonBlank(lines + [l]) == NonBlank(lines) + [l]
  {
    assert (lines + [l])[..|lines|] == lines;
  }

  lemma RecordAppended(raw: seq<FileLine>, record: Dict)
    requires CountsAsAction(record)
    ensures ActionRecords(raw + [Json(record)]) == ActionRecords(raw) + [record]
    ensures FirstGarbage(raw).None? ==> FirstGarbage(raw + [Json(record)]).None?
  {
    assert (raw + [Json(record)])[..|raw|] == raw;
  }

  lemma ActionAppended(lines: seq<FileLine>, record: Dict)
    requires CountsAsAction(record)
    ensures ActionRecords(NonBlank(lines + [Json(record)])) == ActionRecords(NonBlank(lines)) + [record]
    ensures FirstGarbage(NonBlank(lines)).None? ==> FirstGarbage(NonBlank(lines + [Json(record)])).None?
  {
    NonBlankAppended(lines, Json(record));
    RecordAppended(NonBlank(lines), record);
  }

  /** `lines` is a session file whose action lines hold `picked`, in order. */
  ghost predicate Holds(lines: seq<FileLine>, picked: seq<Line>) {
    var records := ActionRecords(NonBlank(lines));
    FirstGarbage(NonBlank(lines)).None? && AllNumbered(records) && LinesOf(records) == picked
  }

  lemma HoldsBeside(lines: seq<FileLine>, picked: seq<Line>, l: FileLine)
    requires Holds(lines, picked) && Beside(l)
    ensures Holds(lines + [l], picked)
  {
    BesideIsInert(lines, l);
  }

  lemma HoldsRecord(lines: seq<FileLine>, picked: seq<Line>, record: Dict, l: Line)
    requires Holds(lines, picked)
    requires CountsAsAction(record) && Get(record, SequenceNumber).Num? && LineOf(record) == l
    ensures Holds(lines + [Json(record)], picked + [l])
  {
    ActionAppended(lines, record);
  }

  /** Appending a sealed action's line appends its row. */
  lemma HoldsAction(lines: seq<FileLine>, picked: seq<Line>, e: Envelope, seal: SealedAction) returns (record: Dict)
    requires Holds(lines, picked)
    requires e.body.ActionRecord? && e.body.action == WithSeal(e.body.action, seal)
    ensures BuildAction(EncodeAction(e), seal) == Some(record)
    ensures Holds(lines + [Json(record)], picked + [Full(RowOf(e.sessionId, e.body.action, seal))])
  {
    var back;
    record, back := SealedRowSurvives(e, seal, 0);
    HoldsRecord(lines, picked, record, Full(RowOf(e.sessionId, e.body.action, seal)));
  }

  /** The records are numbered 1 to their count, in some order. */
  ghost predicate OneToCount(picked: seq<Line>) {
    forall n :: 1 <= n <= |picked| ==> n in Seqs(picked)
  }

  /**
   A file that holds part of a sealed chain, whatever stands beside the actions and
   in whatever order, is never TAMPERED; it is VALID exactly when it holds the
   records 1 to their count.
   */
  lemma HeldFileVerdict(lines: seq<FileLine>, chain: seq<Row>, picked: seq<Line>)
    requires Holds(lines, picked) && NonBlank(lines) != [] && IsChain(chain) && PartOf(picked, chain)
    ensures VerifyFile(lines) == Checked(LocalResult(picked))
    ensures VerdictOf(VerifyFile(lines)) != Some(Tampered)
    ensures VerdictOf(VerifyFile(lines)) == Some(Valid) <==> OneToCount(picked)
  {
    PartVerdict(chain, picked);
  }

  /** What the writer is handed: an action with its seal, or anything else. */
  datatype Entry = Sealed(envelope: Envelope, seal: SealedAction) | Other(write: Write)

  /** An action carries the seal it is written with; an annotation names a type of its own. */
  ghost predicate EntryOk(x: Entry) {
    match x
    case Sealed(e, seal) => e.body.ActionRecord? && e.body.action == WithSeal(e.body.action, seal)
    case Other(w) => Writable(w) && !w.WriteAction? && (w.Annotate? ==> EventType in w.record)
  }

  ghost predicate AllEntriesOk(xs: seq<Entry>) {
    forall i :: 0 <= i < |xs| ==> EntryOk(xs[i])
  }

  function WriteOf(x: Entry): Write
    requires x.Sealed? ==> x.envelope.body.ActionRecord?
  {
    match x
    case Sealed(e, seal) => WriteAction(EncodeAction(e), seal)
    case Other(w) => w
  }

  ghost function Writes(xs: seq<Entry>): (ws: seq<Write>)
    requires AllEntriesOk(xs)
    ensures |ws| == |xs| && forall i :: 0 <= i < |xs| ==> EntryOk(xs[i]) && ws[i] == WriteOf(xs[i])
  {
    seq(|xs|, i requires 0 <= i < |xs| && EntryOk(xs[i]) => WriteOf(xs[i]))
  }

  /** The rows sealed, in the order they were written. */
  function RowsIn(xs: seq<Entry>): seq<Row>
    requires forall x :: x in xs && x.Sealed? ==> x.envelope.body.ActionRecord?
  {
    if xs == [] then []
    else
      var x := xs[|xs| - 1];
      RowsIn(xs[..|xs| - 1]) + (if x.Sealed? then [RowOf(x.envelope.sessionId, x.envelope.body.action, x.seal)] else [])
  }

  lemma OtherIsBeside(w: Write)
    requires Writable(w) && !w.WriteAction? && (w.Annotate? ==> EventType in w.record)
    ensures Beside(LineFor(w)) && LineFor(w).Json?
  {
  }

  lemma EntryHolds(lines: seq<FileLine>, rows: seq<Row>, x: Entry)
    requires Holds(lines, Lines(rows)) && EntryOk(x)
    ensures LineFor(WriteOf(x)).Json?
    ensures Holds(lines + [LineFor(WriteOf(x))],
                  Lines(rows + (if x.Sealed? then [RowOf(x.envelope.sessionId, x.envelope.body.action, x.seal)] else [])))
  {
    match x {
      case Sealed(e, seal) =>
        var row := RowOf(e.sessionId, e.body.action, seal);
        var record := HoldsAction(lines, Lines(rows), e, seal);
        assert Lines(rows + [row]) == Lines(rows) + [Full(row)];
      case Other(w) =>
        OtherIsBeside(w);
        HoldsBeside(lines, Lines(rows), LineFor(w));
        assert rows + [] == rows;
    }
  }

  /** Whatever was written, the file holds exactly the rows that were sealed, in order. */
  lemma {:induction false} WrittenHolds(xs: seq<Entry>)
    requires AllEntriesOk(xs)
    ensures forall x :: x in xs && x.Sealed? ==> x.envelope.body.ActionRecord?
    ensures Holds(LinesFor(Writes(xs)), Lines(RowsIn(xs)))
  {
    EntriesAreActions(xs);
    if xs != [] {
      var x := xs[|xs| - 1];
      WrittenHolds(xs[..|xs| - 1]);
      var before := LastWritten(xs);
      EntryHolds(before, RowsIn(xs[..|xs| - 1]), x);
    }
  }

  lemma WritesStep(xs: seq<Entry>) returns (before: seq<Write>)
    requires xs != [] && AllEntriesOk(xs)
    ensures AllEntriesOk(xs[..|xs| - 1]) && EntryOk(xs[|xs| - 1]) && before == Writes(xs[..|xs| - 1])
    ensures Writes(xs) == before + [WriteOf(xs[|xs| - 1])]
  {
    before := Writes(xs[..|xs| - 1]);
  }

  lemma LinesStep(ws: seq<Write>, w: Write)
    ensures LinesFor(ws + [w]) == LinesFor(ws) + [LineFor(w)]
  {
  }

  lemma LastWritten(xs: seq<Entry>) returns (before: seq<FileLine>)
    requires xs != [] && AllEntriesOk(xs)
    ensures AllEntriesOk(xs[..|xs| - 1]) && before == LinesFor(Writes(xs[..|xs| - 1])) && EntryOk(xs[|xs| - 1])
    ensures LinesFor(Writes(xs)) == before + [LineFor(WriteOf(xs[|xs| - 1]))]
  {
    var ws := WritesStep(xs);
    LinesStep(ws, WriteOf(xs[|xs| - 1]));
    before := LinesFor(ws);
  }

  lemma SomethingWritten(xs: seq<Entry>)
    requires xs != [] && AllEntriesOk(xs)
    ensures NonBlank(LinesFor(Writes(xs))) != []
  {
    var before := LastWritten(xs);
    var x := xs[|xs| - 1];
    if x.Other? {
      OtherIsBeside(x.write);
    } else {
      var record, back := SealedRowSurvives(x.envelope, x.seal, 0);
    }
    NonBlankAppended(before, LineFor(WriteOf(x)));
  }

  lemma EntriesAreActions(xs: seq<Entry>)
    requires AllEntriesOk(xs)
    ensures forall x :: x in xs && x.Sealed? ==> x.envelope.body.ActionRecord?
  {
    forall x | x in xs ensures EntryOk(x) {
      var i :| 0 <= i < |xs| && xs[i] == x;
    }
  }

  /**
   A file written with sealed actions that are distinct records of one chain, among
   other events and annotations and in any order, is never TAMPERED; it is VALID exactly
   when they are the records 1 to their count, and surely when they are the whole chain.
   */
  lemma WrittenFileVerdict(xs: seq<Entry>, chain: seq<Row>)
    requires AllEntriesOk(xs) && xs != [] && IsChain(chain)
    requires forall x :: x in xs && x.Sealed? ==> x.envelope.body.ActionRecord?
    requires PartOf(Lines(RowsIn(xs)), chain)
    ensures var picked, verdict := Lines(RowsIn(xs)), VerdictOf(VerifyFile(LinesFor(Writes(xs))));
            && verdict != Some(Tampered)
            && (verdict == Some(Valid) <==> OneToCount(picked))
            && (RowsIn(xs) == chain ==> verdict == Some(Valid))
  {
    WrittenHolds(xs);
    SomethingWritten(xs);
    HeldOrWhole(LinesFor(Writes(xs)), chain, RowsIn(xs));
  }

  lemma HeldOrWhole(lines: seq<FileLine>, chain: seq<Row>, rows: seq<Row>)
    requires Holds(lines, Lines(rows)) && NonBlank(lines) != [] && IsChain(chain) && PartOf(Lines(rows), chain)
    ensures VerdictOf(VerifyFile(lines)) != Some(Tampered)
    ensures VerdictOf(VerifyFile(lines)) == Some(Valid) <==> OneToCount(Lines(rows))
    ensures rows == chain ==> VerdictOf(VerifyFile(lines)) == Some(Valid)
  {
    HeldFileVerdict(lines, chain, Lines(rows));
    ChainIsValid(chain);
  }

  /**
   Sealed in one process, written, verified on disk, read back: when the actions of the
   file are a run of bound payloads sealed from a fresh state, in order, the file verifies
   VALID, and the reader gives back every envelope written.
   */
  lemma SealedFileIsValid(xs: seq<Entry>, session: Id, ids: seq<Id>, payloads: seq<ActionPayload>)
    requires AllEntriesOk(xs) && xs != [] && |ids| == |payloads| && forall p :: p in payloads ==> BoundPayload(p)
    requires forall x :: x in xs && x.Sealed? ==> x.envelope.body.ActionRecord?
    requires RowsIn(xs) == SealRun(session, ids, payloads)
    ensures VerdictOf(VerifyFile(LinesFor(Writes(xs)))) == Some(Valid)
    ensures var r := ReadUpTo(LinesFor(Writes(xs)), |xs|);
            r.Ok? && SameEnvelopes(r.value.envelopes, Envelopes(Writes(xs)))
  {
    var chain := SealRun(session, ids, payloads);
    SealRunIsChain(session, ids, payloads);
    WholeIsPart(chain);
    WrittenFileVerdict(xs, chain);
    EntriesWritable(xs);
    NumbersOfRows(xs);
    ChainAscends(chain);
    SpoolRoundTrip(Writes(xs));
  }

  lemma EntriesWritable(xs: seq<Entry>)
    requires AllEntriesOk(xs)
    ensures forall i :: 0 <= i < |xs| ==> Writable(Writes(xs)[i])
  {
    forall i | 0 <= i < |xs| ensures Writable(Writes(xs)[i]) {
      assert EntryOk(xs[i]);
      if xs[i].Sealed? {
        var d := EncodedEnvelope(xs[i].envelope, xs[i].seal);
      }
    }
  }

  lemma {:induction false} NumbersOfRows(xs: seq<Entry>)
    requires AllEntriesOk(xs)
    ensures forall x :: x in xs && x.Sealed? ==> x.envelope.body.ActionRecord?
    ensures Numbers(Writes(xs)) == Seqs(Lines(RowsIn(xs)))
  {
    EntriesAreActions(xs);
    if xs != [] {
      var front, x := xs[..|xs| - 1], xs[|xs| - 1];
      EntriesAreActions(front);
      NumbersOfRows(front);
      assert EntryOk(x);
      assert Writes(xs)[..|xs| - 1] == Writes(front);
    }
  }
}
