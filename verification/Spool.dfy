/**
 Session files as dictionaries: the lines the JSONL writer appends
 (rootsign/sdk/jsonl_client.py), the envelopes the spool reader rebuilds from
 them (rootsign/sdk/spool.py), and what the file verifier makes of the same
 lines (rootsign/sdk/chain.py).
 */
module Spool {
  import opened Common
  import opened Hashing
  import opened Wire
  import opened Verify
  import opened Chains

  // ---------- Dictionaries ----------

  datatype EventKind = OpenEvent | ActionEvent | DecisionEvent | ApprovalEvent | CloseEvent

  datatype Key =
    | SchemaVersion | SdkVersion | EventType | EventId | EmittedAt | AgentId | SessionId | Payload
    | ToolName | InputHash | OutputHash | InputRedacted | OutputRedacted | Timestamp | DurationMs
    | DecisionId | PolicyId | AuthorizationStatus | ActionId | SequenceNumber | PrevActionHash | SelfHashKey
    | ApprovalId | OtherKey(n: nat)

  datatype Val =
    | Null
    | Num(n: int)
    | Text(s: string)
    | Digest(h: Hash)
    | Auth(status: AuthStatus)
    | SemVer(version: Version)
    | Event(kind: EventKind)
    | Object(fields: map<Key, Val>)

  type Dict = map<Key, Val>

  /** `d.get(k)`. */
  function Get(d: Dict, k: Key): Val {
    if k in d then d[k] else Null
  }

  /** Equal up to which absent keys are written as explicit nulls. */
  ghost predicate SameUpToNull(a: Dict, b: Dict) {
    forall k: Key :: Get(a, k) == Get(b, k)
  }

  datatype Place = InEnvelope | InPayload | Elsewhere

  /** Which wire schema a key is a field of: `IngestEnvelope`, `ActionRecordPayload`, or neither. */
  function PlaceOf(k: Key): Place {
    match k
    case SchemaVersion | SdkVersion | EventType | EventId | EmittedAt | AgentId | SessionId | Payload => InEnvelope
    case ApprovalId | OtherKey(_) => Elsewhere
    case _ => InPayload
  }

  predicate EnvelopeField(k: Key) {
    PlaceOf(k) == InEnvelope
  }

  predicate ActionField(k: Key) {
    PlaceOf(k) == InPayload
  }

  /** The envelope's payload; `or {}` when there is none. */
  function PayloadOf(envelope: Dict): Dict {
    var p := Get(envelope, Payload);
    if p.Object? then p.fields else map[]
  }

  function OptHash(h: Option<Hash>): Val {
    if h.Some? then Digest(h.value) else Null
  }

  // ---------- Writing ----------

  /** A record line is the envelope's metadata, with the payload's fields flattened beside it under the seal. */
  function Metadata(envelope: Dict): Dict {
    map[
      SchemaVersion := Get(envelope, SchemaVersion),
      SdkVersion := Get(envelope, SdkVersion),
      EventType := Event(ActionEvent),
      EventId := Get(envelope, EventId),
      EmittedAt := Get(envelope, EmittedAt),
      AgentId := Get(envelope, AgentId),
      SessionId := Get(envelope, SessionId)]
  }

  function CanonicalPart(p: Dict, seal: SealedAction): Dict
    requires ToolName in p && InputHash in p && Timestamp in p
  {
    map[
      ActionId := Num(seal.actionId),
      ToolName := p[ToolName],
      InputHash := p[InputHash],
      OutputHash := Get(p, OutputHash),
      PrevActionHash := OptHash(seal.prevHash),
      Timestamp := p[Timestamp],
      SequenceNumber := Num(seal.number),
      SelfHashKey := Digest(seal.selfHash)]
  }

  function OtherPart(p: Dict): Dict {
    map[
      InputRedacted := Get(p, InputRedacted),
      OutputRedacted := Get(p, OutputRedacted),
      AuthorizationStatus := if AuthorizationStatus in p then p[AuthorizationStatus] else Auth(AutoAuthorized),
      DecisionId := Get(p, DecisionId),
      DurationMs := Get(p, DurationMs),
      PolicyId := Get(p, PolicyId)]
  }

  /** `_build_action`: the flat record. The three fields read by index must be there. */
  function BuildAction(envelope: Dict, seal: SealedAction): Option<Dict> {
    var p := PayloadOf(envelope);
    if ToolName !in p || InputHash !in p || Timestamp !in p then None
    else Some(Metadata(envelope) + CanonicalPart(p, seal) + OtherPart(p))
  }

  /** `_build_non_action`: the envelope, with the minted id for a decision or an approval. */
  function BuildNonAction(envelope: Dict, newId: Id): Dict {
    var kind := Get(envelope, EventType);
    if kind == Event(DecisionEvent) then envelope[DecisionId := Num(newId)]
    else if kind == Event(ApprovalEvent) then envelope[ApprovalId := Num(newId)]
    else envelope
  }

  /** The line of any other event is its envelope; a decision and an approval get the id minted for them besides. */
  lemma NonActionLine(envelope: Dict, newId: Id, k: Key)
    ensures var line := BuildNonAction(envelope, newId);
            if (k == DecisionId && Get(envelope, EventType) == Event(DecisionEvent))
               || (k == ApprovalId && Get(envelope, EventType) == Event(ApprovalEvent))
            then k in line && line[k] == Num(newId)
            else (k in line <==> k in envelope) && (k in envelope ==> line[k] == envelope[k])
  {
  }

  // ---------- Reading ----------

  datatype FileLine = Blank | Garbage | Json(record: Dict)

  datatype SpoolError =
    | TruncatedFinalLine
    | MalformedLine(line: nat)
    | OutOfOrder(line: nat)
    | MissingCanonical(line: nat)
    | NoPayload(line: nat)

  const CURRENT_SCHEMA := SemVer(Version(1, 1))

  const CURRENT_SDK := Text("sdk")

  function SetDefault(d: Dict, k: Key, v: Val): Dict {
    if k in d then d else d[k := v]
  }

  /** `_envelope_shell`. */
  function EnvelopeShell(record: Dict, payload: Dict): Dict {
    var shell := (map k | k in record && EnvelopeField(k) :: record[k])[Payload := Object(payload)];
    SetDefault(SetDefault(shell, SchemaVersion, CURRENT_SCHEMA), SdkVersion, CURRENT_SDK)
  }

  function ActionPart(record: Dict): Dict {
    map k | k in record && ActionField(k) :: record[k]
  }

  predicate IsEvent(record: Dict) {
    Get(record, EventType).Event?
  }

  predicate IsActionRecord(record: Dict) {
    Get(record, EventType) == Event(ActionEvent)
  }

  /** `_envelope_from_action` and `_envelope_from_record`. */
  function Rebuild(record: Dict, line: nat): Result<Dict, SpoolError> {
    if IsActionRecord(record) then
      if ToolName !in record || InputHash !in record then Err(MissingCanonical(line))
      else Ok(EnvelopeShell(record, ActionPart(record)))
    else if !Get(record, Payload).Object? then Err(NoPayload(line))
    else Ok(EnvelopeShell(record, record[Payload].fields))
  }

  /**
   An envelope read back has the record's envelope fields and nothing else, this payload,
   and this version of schema and SDK if the record names none.
   */
  lemma ShellSays(record: Dict, payload: Dict, k: Key)
    ensures var shell := EnvelopeShell(record, payload);
            && Payload in shell && shell[Payload] == Object(payload)
            && SchemaVersion in shell && SdkVersion in shell
            && (SchemaVersion !in record ==> shell[SchemaVersion] == SemVer(Version(1, 1)))
            && (SdkVersion !in record ==> shell[SdkVersion] == CURRENT_SDK)
            && (k in record && k != Payload && k in {SchemaVersion, SdkVersion, EventType, EventId, EmittedAt, AgentId, SessionId} ==>
                  k in shell && shell[k] == record[k])
            && (k in shell ==>
                  k in {SchemaVersion, SdkVersion, Payload} || (k in record && k in {EventType, EventId, EmittedAt, AgentId, SessionId}))
  {
  }

  /** The sequence number a line contributes to the order check. */
  function SequenceIn(record: Dict): Option<int> {
    var v := Get(record, SequenceNumber);
    if IsActionRecord(record) && v.Num? then Some(v.n) else None
  }

  datatype Reading = Reading(envelopes: seq<Dict>, annotations: nat, session: Option<Val>, previous: Option<int>)

  const NOTHING_READ := Reading([], 0, None, None)

  /** One line, number `line` of a file of `total` lines. */
  function ReadLine(r: Reading, l: FileLine, line: nat, total: nat): Result<Reading, SpoolError> {
    match l
    case Blank => Ok(r)
    case Garbage => Err(if line == total then TruncatedFinalLine else MalformedLine(line))
    case Json(record) =>
      if !IsEvent(record) then Ok(r.(annotations := r.annotations + 1))
      else
        var session := if r.session.None? then Some(Get(record, SessionId)) else r.session;
        var rebuilt := Rebuild(record, line);
        if rebuilt.Err? then Err(rebuilt.error)
        else
          var n := SequenceIn(record);
          if n.Some? && r.previous.Some? && n.value <= r.previous.value then Err(OutOfOrder(line))
          else Ok(Reading(r.envelopes + [rebuilt.value], r.annotations, session, if n.Some? then n else r.previous))
  }

  function ReadUpTo(lines: seq<FileLine>, n: nat): Result<Reading, SpoolError>
    requires n <= |lines|
  {
    if n == 0 then Ok(NOTHING_READ)
    else
      var before := ReadUpTo(lines, n - 1);
      if before.Err? then before else ReadLine(before.value, lines[n - 1], n, |lines|)
  }

  datatype SpoolSession = SpoolSession(session: Val, envelopes: seq<Dict>, annotations: nat)

  /** The session is named by the first event line; a file without one is named by its stem. */
  function ReadFile(lines: seq<FileLine>, stem: string): Result<SpoolSession, SpoolError> {
    var r := ReadUpTo(lines, |lines|);
    if r.Err? then Err(r.error)
    else
      var session := if r.value.session.Some? then r.value.session.value else Text(stem);
      Ok(SpoolSession(session, r.value.envelopes, r.value.annotations))
  }

  method ReadSpoolSession(lines: seq<FileLine>, stem: string) returns (r: Result<SpoolSession, SpoolError>)
    ensures r == ReadFile(lines, stem)
  {
    var envelopes: seq<Dict>, annotations: nat := [], 0;
    var session: Option<Val>, previous: Option<int> := None, None;
    for i := 0 to |lines|
      invariant ReadUpTo(lines, i) == Ok(Reading(envelopes, annotations, session, previous))
    {
      match lines[i] {
        case Blank =>
        case Garbage =>
          ErrorStays(lines, i + 1, |lines|);
          return Err(if i + 1 == |lines| then TruncatedFinalLine else MalformedLine(i + 1));
        case Json(record) =>
          if !IsEvent(record) {
            annotations := annotations + 1;
          } else {
            if session.None? {
              session := Some(Get(record, SessionId));
            }
            var rebuilt := Rebuild(record, i + 1);
            if rebuilt.Err? {
              ErrorStays(lines, i + 1, |lines|);
              return Err(rebuilt.error);
            }
            var n := SequenceIn(record);
            if n.Some? {
              if previous.Some? && n.value <= previous.value {
                ErrorStays(lines, i + 1, |lines|);
                return Err(OutOfOrder(i + 1));
              }
              previous := n;
            }
            envelopes := envelopes + [rebuilt.value];
          }
      }
    }
    r := Ok(SpoolSession(if session.Some? then session.value else Text(stem), envelopes, annotations));
  }

  lemma {:induction false} ErrorStays(lines: seq<FileLine>, k: nat, n: nat)
    requires k <= n <= |lines| && ReadUpTo(lines, k).Err?
    ensures ReadUpTo(lines, n) == ReadUpTo(lines, k)
  {
    if k < n {
      ErrorStays(lines, k, n - 1);
    }
  }

  // ---------- What reading accepts, and what it gives ----------

  /** A line the reader can take on its own: blank, an annotation, or a record it can rebuild. */
  predicate Readable(l: FileLine) {
    match l
    case Blank => true
    case Garbage => false
    case Json(record) =>
      EventType in record && record[EventType].Event? ==>
        if record[EventType] == Event(ActionEvent) then ToolName in record && InputHash in record
        else Payload in record && record[Payload].Object?
  }

  function Sequences(lines: seq<FileLine>): seq<int> {
    if lines == [] then []
    else
      var before, last := Sequences(lines[..|lines| - 1]), lines[|lines| - 1];
      if last.Json? && SequenceIn(last.record).Some? then before + [SequenceIn(last.record).value] else before
  }

  /** The envelopes of the lines that carry one, in file order. */
  function Rebuilt(lines: seq<FileLine>): seq<Dict> {
    if lines == [] then []
    else
      var before, last := Rebuilt(lines[..|lines| - 1]), lines[|lines| - 1];
      if last.Json? && IsEvent(last.record) && Rebuild(last.record, 0).Ok? then before + [Rebuild(last.record, 0).value]
      else before
  }

  function Annotations(lines: seq<FileLine>): nat {
    if lines == [] then 0
    else
      var last := lines[|lines| - 1];
      Annotations(lines[..|lines| - 1]) + (if last.Json? && !IsEvent(last.record) then 1 else 0)
  }

  /** The session the first event line names. */
  function FirstSession(lines: seq<FileLine>): Option<Val> {
    if lines == [] then None
    else
      var before, last := FirstSession(lines[..|lines| - 1]), lines[|lines| - 1];
      if before.None? && last.Json? && IsEvent(last.record) then Some(Get(last.record, SessionId)) else before
  }

  /** It is that of the first event line, and there is none without one. */
  lemma {:induction false} FirstSessionIsFirst(lines: seq<FileLine>) returns (at: nat)
    ensures FirstSession(lines).Some? ==>
              && at < |lines| && lines[at].Json? && IsEvent(lines[at].record)
              && FirstSession(lines) == Some(Get(lines[at].record, SessionId))
              && forall i :: 0 <= i < at && lines[i].Json? ==> !IsEvent(lines[i].record)
    ensures FirstSession(lines).None? ==> forall i :: 0 <= i < |lines| && lines[i].Json? ==> !IsEvent(lines[i].record)
  {
    at := 0;
    if lines != [] {
      var front := lines[..|lines| - 1];
      at := FirstSessionIsFirst(front);
      assert forall i :: 0 <= i < |front| ==> lines[i] == front[i];
      if FirstSession(front).None? {
        at := |lines| - 1;
      }
    }
  }

  function LastOf(xs: seq<int>): Option<int> {
    if xs == [] then None else Some(xs[|xs| - 1])
  }

  ghost predicate AllReadable(lines: seq<FileLine>) {
    forall i :: 0 <= i < |lines| ==> Readable(lines[i])
  }

  lemma AscendingExtended(xs: seq<int>, n: int)
    ensures Ascending(xs + [n]) <==> Ascending(xs) && (xs != [] ==> xs[|xs| - 1] < n)
  {
    var longer := xs + [n];
    if Ascending(longer) {
      forall i, j | 0 <= i < j < |xs| ensures xs[i] < xs[j] {
        assert longer[i] < longer[j];
      }
      assert xs != [] ==> longer[|xs| - 1] < longer[|xs|];
    }
  }

  lemma ReadableExtended(lines: seq<FileLine>, l: FileLine)
    ensures AllReadable(lines + [l]) <==> AllReadable(lines) && Readable(l)
  {
    var longer := lines + [l];
    if AllReadable(longer) {
      assert Readable(longer[|lines|]);
      forall i | 0 <= i < |lines| ensures Readable(lines[i]) {
        assert Readable(longer[i]);
      }
    }
  }

  /** What a successful reading of these lines gives. */
  ghost predicate ReadAs(r: Reading, lines: seq<FileLine>) {
    && r.envelopes == Rebuilt(lines) && r.annotations == Annotations(lines)
    && r.previous == LastOf(Sequences(lines)) && r.session == FirstSession(lines)
  }

  ghost predicate InOrder(lines: seq<FileLine>) {
    AllReadable(lines) && Ascending(Sequences(lines))
  }

  lemma ReadsStep(r: Reading, front: seq<FileLine>, last: FileLine, n: nat, total: nat)
    requires ReadAs(r, front) && InOrder(front)
    ensures ReadLine(r, last, n, total).Ok? <==> InOrder(front + [last])
    ensures ReadLine(r, last, n, total).Ok? ==> ReadAs(ReadLine(r, last, n, total).value, front + [last])
  {
    assert (front + [last])[..|front|] == front;
    ReadableExtended(front, last);
    if last.Json? && SequenceIn(last.record).Some? {
      AscendingExtended(Sequences(front), SequenceIn(last.record).value);
    }
  }

  lemma OrderOfFront(front: seq<FileLine>, last: FileLine)
    requires InOrder(front + [last])
    ensures InOrder(front)
  {
    assert (front + [last])[..|front|] == front;
    ReadableExtended(front, last);
    if last.Json? && SequenceIn(last.record).Some? {
      AscendingExtended(Sequences(front), SequenceIn(last.record).value);
    }
  }

  /**
   Reading succeeds if and only if every line is readable and the action numbers
   ascend strictly; it then gives the rebuilt envelopes in file order, counts the
   annotations, and names the session of the first event line.
   */
  lemma {:induction false} ReadsIff(lines: seq<FileLine>, n: nat)
    requires n <= |lines|
    ensures ReadUpTo(lines, n).Ok? <==> InOrder(lines[..n])
    ensures ReadUpTo(lines, n).Ok? ==> ReadAs(ReadUpTo(lines, n).value, lines[..n])
  {
    if n != 0 {
      var front, last := lines[..n - 1], lines[n - 1];
      ReadsIff(lines, n - 1);
      assert lines[..n] == front + [last];
      if ReadUpTo(lines, n - 1).Ok? {
        ReadsStep(ReadUpTo(lines, n - 1).value, front, last, n, |lines|);
      } else if InOrder(front + [last]) {
        OrderOfFront(front, last);
      }
    }
  }

  /** The line is an action's and carries number `n`. */
  ghost predicate HasNumber(l: FileLine, n: int) {
    && l.Json? && EventType in l.record && l.record[EventType] == Event(ActionEvent)
    && SequenceNumber in l.record && l.record[SequenceNumber] == Num(n)
  }

  /** Every numbered action has a smaller number than each one after it. */
  ghost predicate NumbersAscend(lines: seq<FileLine>) {
    forall i, j, m, n :: 0 <= i < j < |lines| && HasNumber(lines[i], m) && HasNumber(lines[j], n) ==> m < n
  }

  lemma {:induction false} SequencesAre(lines: seq<FileLine>)
    ensures forall n :: n in Sequences(lines) <==> exists i :: 0 <= i < |lines| && HasNumber(lines[i], n)
  {
    if lines != [] {
      var front, last := lines[..|lines| - 1], lines[|lines| - 1];
      SequencesAre(front);
      forall n ensures n in Sequences(lines) <==> exists i :: 0 <= i < |lines| && HasNumber(lines[i], n) {
        if i :| 0 <= i < |lines| && HasNumber(lines[i], n) {
          assert i < |front| ==> HasNumber(front[i], n);
        }
        if i :| 0 <= i < |front| && HasNumber(front[i], n) {
          assert HasNumber(lines[i], n);
        }
        assert HasNumber(last, n) ==> HasNumber(lines[|front|], n);
      }
    }
  }

  /** Every numbered action among `front` stands below each number of `last`. */
  ghost predicate BelowLast(front: seq<FileLine>, last: FileLine) {
    forall i, m, n :: 0 <= i < |front| && HasNumber(front[i], m) && HasNumber(last, n) ==> m < n
  }

  lemma NumbersExtended(front: seq<FileLine>, last: FileLine)
    ensures NumbersAscend(front + [last]) <==> NumbersAscend(front) && BelowLast(front, last)
  {
    var longer := front + [last];
    if NumbersAscend(longer) {
      forall i, m, n | 0 <= i < |front| && HasNumber(front[i], m) && HasNumber(last, n) ensures m < n {
        assert HasNumber(longer[i], m) && HasNumber(longer[|front|], n);
      }
      forall i, j, m, n | 0 <= i < j < |front| && HasNumber(front[i], m) && HasNumber(front[j], n) ensures m < n {
        assert HasNumber(longer[i], m) && HasNumber(longer[j], n);
      }
    }
  }

  lemma BelowLastIff(front: seq<FileLine>, last: FileLine, n: int, xs: seq<int>)
    requires HasNumber(last, n) && xs == Sequences(front)
    ensures BelowLast(front, last) <==> forall x :: x in xs ==> x < n
  {
    SequencesAre(front);
    if BelowLast(front, last) {
      forall x | x in xs ensures x < n {
        var i :| 0 <= i < |front| && HasNumber(front[i], x);
      }
    } else {
      var i, m, k :| 0 <= i < |front| && HasNumber(front[i], m) && HasNumber(last, k) && k <= m;
      assert m in xs && !(m < n);
    }
  }

  /** The order the reader asks for, in the lines' own fields. */
  lemma {:induction false} OrderMeans(lines: seq<FileLine>)
    ensures Ascending(Sequences(lines)) <==> NumbersAscend(lines)
  {
    if lines != [] {
      var front, last := lines[..|lines| - 1], lines[|lines| - 1];
      assert lines == front + [last];
      OrderMeans(front);
      NumbersExtended(front, last);
      if last.Json? && SequenceIn(last.record).Some? {
        var xs, n := Sequences(front), SequenceIn(last.record).value;
        AscendingExtended(xs, n);
        LastIsGreatest(xs, n);
        BelowLastIff(front, last, n, xs);
      }
    }
  }

  lemma LastIsGreatest(xs: seq<int>, n: int)
    ensures Ascending(xs) ==> ((xs != [] ==> xs[|xs| - 1] < n) <==> forall x :: x in xs ==> x < n)
  {
    if xs != [] {
      assert xs[|xs| - 1] in xs;
    }
  }

  /** What the reader says of a line it cannot take, line `at` of `total`. */
  ghost predicate Says(error: SpoolError, l: FileLine, at: nat, total: nat) {
    match l
    case Blank => false
    case Garbage => error == if at == total then TruncatedFinalLine else MalformedLine(at)
    case Json(record) =>
      && EventType in record && record[EventType].Event?
      && error ==
         if record[EventType] == Event(ActionEvent) then
           if ToolName !in record || InputHash !in record then MissingCanonical(at) else OutOfOrder(at)
         else NoPayload(at)
  }

  /** A refused file is refused at the first line after which it is not readable and in order, and the error names that line. */
  lemma {:induction false} ReadFails(lines: seq<FileLine>, n: nat) returns (at: nat)
    requires n <= |lines| && ReadUpTo(lines, n).Err?
    ensures at < n && InOrder(lines[..at]) && !InOrder(lines[..at + 1])
    ensures Says(ReadUpTo(lines, n).error, lines[at], at + 1, |lines|)
  {
    ReadsIff(lines, n - 1);
    ReadsIff(lines, n);
    if ReadUpTo(lines, n - 1).Err? {
      at := ReadFails(lines, n - 1);
    } else {
      at := n - 1;
    }
  }

  // ---------- The round trip ----------

  ghost predicate SealedPayload(p: Dict, seal: SealedAction) {
    && (forall k :: k in p ==> ActionField(k))
    && ToolName in p && InputHash in p && Timestamp in p
    && Get(p, ActionId) == Num(seal.actionId) && Get(p, SequenceNumber) == Num(seal.number)
    && Get(p, PrevActionHash) == OptHash(seal.prevHash) && Get(p, SelfHashKey) == Digest(seal.selfHash)
  }

  /** An action envelope as the wire schema admits it, carrying the seal it was given. */
  ghost predicate SealedEnvelope(envelope: Dict, seal: SealedAction) {
    && (forall k :: k in envelope ==> EnvelopeField(k))
    && Get(envelope, EventType) == Event(ActionEvent) && Get(envelope, Payload).Object?
    && SealedPayload(PayloadOf(envelope), seal)
  }

  /** The payload with its default status spelled out. */
  function WithDefaultStatus(p: Dict): Dict {
    SetDefault(p, AuthorizationStatus, Auth(AutoAuthorized))
  }

  /** The same envelope: exactly, except that an action's nulls and default status may be spelled out. */
  ghost predicate SameEnvelope(a: Dict, b: Dict) {
    && (forall k: Key :: k != Payload ==> Get(a, k) == Get(b, k))
    && Get(a, Payload).Object? && Get(b, Payload).Object?
    && if IsActionRecord(b) then SameUpToNull(PayloadOf(a), WithDefaultStatus(PayloadOf(b))) else a == b
  }

  /** What the flattened payload holds under each of its keys. */
  function FlatAt(p: Dict, seal: SealedAction, k: Key): Val {
    match k
    case ActionId => Num(seal.actionId)
    case PrevActionHash => OptHash(seal.prevHash)
    case SequenceNumber => Num(seal.number)
    case SelfHashKey => Digest(seal.selfHash)
    case AuthorizationStatus => Get(WithDefaultStatus(p), AuthorizationStatus)
    case _ => Get(p, k)
  }

  /** What the flat record holds under each key. */
  function RecordAt(envelope: Dict, seal: SealedAction, k: Key): Val {
    if k == EventType then Event(ActionEvent)
    else if k == Payload then Null
    else if EnvelopeField(k) then Get(envelope, k)
    else if ActionField(k) then FlatAt(PayloadOf(envelope), seal, k)
    else Null
  }

  predicate InRecord(k: Key) {
    (EnvelopeField(k) || ActionField(k)) && k != Payload
  }

  ghost predicate RecordLike(record: Dict, envelope: Dict, seal: SealedAction) {
    forall k: Key :: RecordKey(record, envelope, seal, k)
  }

  ghost predicate RecordKey(record: Dict, envelope: Dict, seal: SealedAction, k: Key) {
    (k in record <==> InRecord(k)) && Get(record, k) == RecordAt(envelope, seal, k)
  }

  lemma MetadataHolds(envelope: Dict, k: Key)
    ensures k in Metadata(envelope) <==> EnvelopeField(k) && k != Payload
    ensures k in Metadata(envelope) ==> Metadata(envelope)[k] == if k == EventType then Event(ActionEvent) else Get(envelope, k)
  {
  }

  predicate CanonicalField(k: Key) {
    k.ActionId? || k.ToolName? || k.InputHash? || k.OutputHash? || k.PrevActionHash? || k.Timestamp? || k.SequenceNumber?
    || k.SelfHashKey?
  }

  lemma CanonicalHolds(p: Dict, seal: SealedAction, k: Key)
    requires ToolName in p && InputHash in p && Timestamp in p
    ensures k in CanonicalPart(p, seal) <==> CanonicalField(k)
    ensures k in CanonicalPart(p, seal) ==> CanonicalPart(p, seal)[k] == FlatAt(p, seal, k)
  {
  }

  lemma OtherHolds(p: Dict, seal: SealedAction, k: Key)
    ensures k in OtherPart(p) <==> ActionField(k) && !CanonicalField(k)
    ensures k in OtherPart(p) ==> OtherPart(p)[k] == FlatAt(p, seal, k)
  {
  }

  lemma MergedAt(a: Dict, b: Dict, c: Dict, k: Key)
    ensures k in a + b + c <==> k in a || k in b || k in c
    ensures Get(a + b + c, k) == if k in c then c[k] else if k in b then b[k] else if k in a then a[k] else Null
  {
  }

  lemma FieldsApart(k: Key)
    ensures CanonicalField(k) ==> ActionField(k)
    ensures ActionField(k) ==> !EnvelopeField(k)
  {
  }

  lemma RecordHolds(envelope: Dict, seal: SealedAction, k: Key)
    requires BuildAction(envelope, seal).Some?
    ensures RecordKey(BuildAction(envelope, seal).value, envelope, seal, k)
  {
    var p := PayloadOf(envelope);
    MetadataHolds(envelope, k);
    CanonicalHolds(p, seal, k);
    OtherHolds(p, seal, k);
    MergedAt(Metadata(envelope), CanonicalPart(p, seal), OtherPart(p), k);
    FieldsApart(k);
  }

  lemma Recorded(envelope: Dict, seal: SealedAction) returns (record: Dict)
    requires SealedEnvelope(envelope, seal)
    ensures BuildAction(envelope, seal) == Some(record) && RecordLike(record, envelope, seal)
  {
    record := BuildAction(envelope, seal).value;
    forall k: Key ensures RecordKey(record, envelope, seal, k) {
      RecordHolds(envelope, seal, k);
    }
  }

  lemma RebuiltShell(record: Dict, envelope: Dict, seal: SealedAction, k: Key)
    requires Get(envelope, EventType) == Event(ActionEvent) && k != Payload
    requires (k in envelope ==> EnvelopeField(k)) && RecordKey(record, envelope, seal, k)
    requires RecordKey(record, envelope, seal, SchemaVersion) && RecordKey(record, envelope, seal, SdkVersion)
    ensures Get(EnvelopeShell(record, ActionPart(record)), k) == Get(envelope, k)
  {
  }

  /** Adopting a seal the payload carries changes no field of it. */
  lemma FlatIsPayload(p: Dict, seal: SealedAction, k: Key)
    requires SealedPayload(p, seal) && ActionField(k)
    ensures FlatAt(p, seal, k) == Get(WithDefaultStatus(p), k)
  {
  }

  lemma RebuiltPayload(record: Dict, envelope: Dict, seal: SealedAction, k: Key)
    requires SealedPayload(PayloadOf(envelope), seal) && RecordKey(record, envelope, seal, k)
    ensures Get(ActionPart(record), k) == Get(WithDefaultStatus(PayloadOf(envelope)), k)
  {
    if ActionField(k) {
      FlatIsPayload(PayloadOf(envelope), seal, k);
      assert RecordAt(envelope, seal, k) == FlatAt(PayloadOf(envelope), seal, k);
    } else {
      assert k !in ActionPart(record);
    }
  }

  lemma RebuiltEnvelope(record: Dict, envelope: Dict, seal: SealedAction) returns (back: Dict)
    requires SealedEnvelope(envelope, seal) && RecordLike(record, envelope, seal)
    ensures back == EnvelopeShell(record, ActionPart(record)) && SameEnvelope(back, envelope)
  {
    back := EnvelopeShell(record, ActionPart(record));
    assert RecordKey(record, envelope, seal, SchemaVersion) && RecordKey(record, envelope, seal, SdkVersion);
    forall k: Key | k != Payload ensures Get(back, k) == Get(envelope, k) {
      assert RecordKey(record, envelope, seal, k);
      RebuiltShell(record, envelope, seal, k);
    }
    assert Get(back, Payload) == Object(ActionPart(record));
    forall k: Key ensures Get(PayloadOf(back), k) == Get(WithDefaultStatus(PayloadOf(envelope)), k) {
      assert RecordKey(record, envelope, seal, k);
      RebuiltPayload(record, envelope, seal, k);
    }
  }

  /**
   A sealed action comes back as the same envelope, up to explicit nulls and the
   default status; in particular all four fields of its seal do.
   */
  lemma ActionRoundTrip(envelope: Dict, seal: SealedAction, line: nat) returns (record: Dict, back: Dict)
    requires SealedEnvelope(envelope, seal)
    ensures BuildAction(envelope, seal) == Some(record) && Rebuild(record, line) == Ok(back)
    ensures RecordLike(record, envelope, seal) && SameEnvelope(back, envelope)
  {
    record := Recorded(envelope, seal);
    back := RebuiltEnvelope(record, envelope, seal);
    assert RecordKey(record, envelope, seal, EventType);
    assert RecordKey(record, envelope, seal, ToolName) && RecordKey(record, envelope, seal, InputHash);
  }

  /** A non-action envelope of the wire schema comes back exactly. */
  lemma NonActionRoundTrip(envelope: Dict, newId: Id, line: nat)
    requires (forall k :: k in envelope ==> EnvelopeField(k)) && Get(envelope, Payload).Object?
    requires SchemaVersion in envelope && SdkVersion in envelope
    requires IsEvent(envelope) && !IsActionRecord(envelope)
    ensures Rebuild(BuildNonAction(envelope, newId), line) == Ok(envelope)
  {
    var record := BuildNonAction(envelope, newId);
    var back := Rebuild(record, line).value;
    forall k: Key ensures k in back <==> k in envelope {
    }
    forall k: Key | k in back ensures back[k] == envelope[k] {
    }
    assert back == envelope;
  }

  /** What the writer is given: an envelope to record, or a note beside the record. */
  datatype Write = WriteAction(envelope: Dict, seal: SealedAction) | WriteOther(envelope: Dict, newId: Id) | Annotate(record: Dict)

  ghost predicate Writable(w: Write) {
    match w
    case WriteAction(envelope, seal) => SealedEnvelope(envelope, seal)
    case WriteOther(envelope, _) =>
      && (forall k :: k in envelope ==> EnvelopeField(k)) && Get(envelope, Payload).Object?
      && SchemaVersion in envelope && SdkVersion in envelope
      && IsEvent(envelope) && !IsActionRecord(envelope)
    case Annotate(record) => !IsEvent(record)
  }

  function LineFor(w: Write): FileLine {
    match w
    case WriteAction(envelope, seal) =>
      var record := BuildAction(envelope, seal);
      if record.Some? then Json(record.value) else Blank
    case WriteOther(envelope, newId) => Json(BuildNonAction(envelope, newId))
    case Annotate(record) => Json(record)
  }

  function LinesFor(ws: seq<Write>): (lines: seq<FileLine>)
    ensures |lines| == |ws| && forall i :: 0 <= i < |ws| ==> lines[i] == LineFor(ws[i])
  {
    seq(|ws|, i requires 0 <= i < |ws| => LineFor(ws[i]))
  }

  function Numbers(ws: seq<Write>): seq<int> {
    if ws == [] then []
    else
      var last := ws[|ws| - 1];
      Numbers(ws[..|ws| - 1]) + (if last.WriteAction? then [last.seal.number] else [])
  }

  function Envelopes(ws: seq<Write>): seq<Dict> {
    if ws == [] then []
    else
      var last := ws[|ws| - 1];
      Envelopes(ws[..|ws| - 1]) + (if last.Annotate? then [] else [last.envelope])
  }

  ghost predicate SameEnvelopes(as_: seq<Dict>, bs: seq<Dict>) {
    |as_| == |bs| && forall i :: 0 <= i < |as_| ==> SameEnvelope(as_[i], bs[i])
  }

  /** Line `l` is one the reader takes back as `w`. */
  ghost predicate Wrote(l: FileLine, w: Write) {
    && Readable(l) && l.Json?
    && (w.Annotate? <==> !IsEvent(l.record))
    && SequenceIn(l.record) == (if w.WriteAction? then Some(w.seal.number) else None)
    && (!w.Annotate? ==> SameEnvelope(Rebuild(l.record, 0).value, w.envelope))
  }

  lemma WrittenAction(record: Dict, envelope: Dict, seal: SealedAction, back: Dict)
    requires Rebuild(record, 0) == Ok(back) && SameEnvelope(back, envelope)
    requires RecordKey(record, envelope, seal, EventType) && RecordKey(record, envelope, seal, SequenceNumber)
    ensures Wrote(Json(record), WriteAction(envelope, seal))
  {
  }

  lemma WrittenLine(w: Write) returns (l: FileLine)
    requires Writable(w)
    ensures l == LineFor(w) && Wrote(l, w)
  {
    match w {
      case WriteAction(envelope, seal) =>
        var record, back := ActionRoundTrip(envelope, seal, 0);
        l := Json(record);
        WrittenAction(record, envelope, seal, back);
      case WriteOther(envelope, newId) =>
        l := LineFor(w);
        NonActionRoundTrip(envelope, newId, 0);
      case Annotate(_) =>
        l := LineFor(w);
    }
  }

  ghost predicate ReadsBack(lines: seq<FileLine>, ws: seq<Write>) {
    && AllReadable(lines) && Sequences(lines) == Numbers(ws)
    && SameEnvelopes(Rebuilt(lines), Envelopes(ws))
    && Annotations(lines) + |Envelopes(ws)| == |ws|
  }

  lemma WrittenStep(lines: seq<FileLine>, l: FileLine, ws: seq<Write>, w: Write)
    requires ReadsBack(lines, ws) && Wrote(l, w)
    ensures ReadsBack(lines + [l], ws + [w])
  {
    var longer, more := lines + [l], ws + [w];
    assert longer[..|longer| - 1] == lines && more[..|more| - 1] == ws;
    ReadableExtended(lines, l);
  }

  lemma {:induction false} WrittenLines(ws: seq<Write>)
    requires forall i :: 0 <= i < |ws| ==> Writable(ws[i])
    ensures ReadsBack(LinesFor(ws), ws)
  {
    if ws != [] {
      var front, last := ws[..|ws| - 1], ws[|ws| - 1];
      WrittenLines(front);
      var l := WrittenLine(last);
      WrittenStep(LinesFor(front), l, front, last);
      assert LinesFor(ws) == LinesFor(front) + [l];
      assert ws == front + [last];
    }
  }

  /**
   Whatever was written, sealed actions, other events and annotations, reads back
   if and only if the action numbers ascend; then as the same envelopes in order,
   with exactly the annotations skipped.
   */
  lemma SpoolRoundTrip(ws: seq<Write>)
    requires forall i :: 0 <= i < |ws| ==> Writable(ws[i])
    ensures var r := ReadUpTo(LinesFor(ws), |ws|);
            && (r.Ok? <==> Ascending(Numbers(ws)))
            && (r.Ok? ==> SameEnvelopes(r.value.envelopes, Envelopes(ws)) && r.value.annotations == |ws| - |Envelopes(ws)|)
  {
    var lines := LinesFor(ws);
    WrittenLines(ws);
    ReadsIff(lines, |ws|);
    assert lines[..|ws|] == lines;
  }
}
