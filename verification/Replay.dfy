/**
 Replaying spooled envelopes in batches (rootsign/replay.py): stop soliciting
 after the batch with the first refusal, keep every answer that was given.
 */
module Replay {
  import opened Common
  import opened Wire

  /** Why a replay stopped: a refusal of the store, or a batch answered short. */
  datatype Cause = Refused(code: Option<ErrorCode>, message: string) | AnsweredShort(answered: nat, sent: nat)

  datatype ReplayReport = ReplayReport(
    total: nat,
    accepted: nat,
    duplicates: nat,
    failedIndex: Option<nat>,
    cause: Option<Cause>,
    responses: seq<Response>)

  predicate Taken(r: Response) {
    r.status == Accepted || r.code == Some(DuplicateEvent)
  }

  function Blank(total: nat): ReplayReport {
    ReplayReport(total, 0, 0, None, None, [])
  }

  /** One answer, for the envelope at `index`. The first refusal is the one that is kept. */
  function Record(report: ReplayReport, index: nat, r: Response): ReplayReport {
    var longer := report.(responses := report.responses + [r]);
    if r.status == Accepted then longer.(accepted := report.accepted + 1)
    else if r.code == Some(DuplicateEvent) then longer.(duplicates := report.duplicates + 1)
    else if report.failedIndex.None? then longer.(failedIndex := Some(index), cause := Some(Refused(r.code, r.message)))
    else longer
  }

  function RecordAll(report: ReplayReport, start: nat, rs: seq<Response>): ReplayReport {
    if rs == [] then report
    else Record(RecordAll(report, start, rs[..|rs| - 1]), start + |rs| - 1, rs[|rs| - 1])
  }

  /** What the store returned to request `k`; nothing once the script ends. */
  function AnswerAt(answers: seq<seq<Response>>, k: nat): seq<Response> {
    if k < |answers| then answers[k] else []
  }

  /** `max(1, batch_size)`. */
  function Size(batchSize: int): (size: nat)
    ensures 1 <= size && (1 <= batchSize ==> size == batchSize) && (batchSize < 1 ==> size == 1)
  {
    Max(1, batchSize)
  }

  function BatchEnd(n: nat, size: nat, start: nat): (end: nat)
    requires start <= n && 1 <= size
    ensures start <= end <= n && (start < n ==> start < end)
  {
    Min(n, start + size)
  }

  /** The report once request `k`, for the batch at `start`, is answered. */
  function AfterBatch(report: ReplayReport, n: nat, size: nat, answers: seq<seq<Response>>, start: nat, k: nat): ReplayReport
    requires start <= n && 1 <= size
  {
    var rs := AnswerAt(answers, k);
    var now := RecordAll(report, start, rs);
    var sent := BatchEnd(n, size, start) - start;
    if now.failedIndex.None? && |rs| < sent then
      now.(failedIndex := Some(start + |rs|), cause := Some(AnsweredShort(|rs|, sent)))
    else now
  }

  /** The report, and how many envelopes had been sent. */
  datatype Replayed = Replayed(report: ReplayReport, sent: nat)

  function ReplayFrom(report: ReplayReport, n: nat, size: nat, answers: seq<seq<Response>>, start: nat, k: nat): (r: Replayed)
    requires start <= n && 1 <= size
    ensures start <= r.sent <= n
    decreases n - start
  {
    if start == n then Replayed(report, n)
    else
      var now := AfterBatch(report, n, size, answers, start, k);
      var end := BatchEnd(n, size, start);
      if now.failedIndex.Some? then Replayed(now, end)
      else ReplayFrom(now, n, size, answers, end, k + 1)
  }

  method RecordAnswers(report: ReplayReport, start: nat, responses: seq<Response>) returns (now: ReplayReport)
    ensures now == RecordAll(report, start, responses)
  {
    now := report;
    for offset := 0 to |responses|
      invariant now == RecordAll(report, start, responses[..offset])
    {
      assert responses[..offset + 1][..offset] == responses[..offset];
      now := Record(now, start + offset, responses[offset]);
    }
    assert responses[..|responses|] == responses;
  }

  lemma ReplayUnfolds(report: ReplayReport, n: nat, size: nat, answers: seq<seq<Response>>, start: nat, k: nat)
    returns (now: ReplayReport, end: nat)
    requires start < n && 1 <= size
    ensures now == AfterBatch(report, n, size, answers, start, k) && end == BatchEnd(n, size, start)
    ensures ReplayFrom(report, n, size, answers, start, k) ==
            if now.failedIndex.Some? then Replayed(now, end) else ReplayFrom(now, n, size, answers, end, k + 1)
  {
    now, end := AfterBatch(report, n, size, answers, start, k), BatchEnd(n, size, start);
  }

  /** One request: its answers recorded, and a short answer turned into a failure. */
  method SendBatch(report: ReplayReport, batch: seq<Envelope>, start: nat, responses: seq<Response>) returns (now: ReplayReport)
    ensures var recorded := RecordAll(report, start, responses);
            now == if recorded.failedIndex.None? && |responses| < |batch|
                   then recorded.(failedIndex := Some(start + |responses|), cause := Some(AnsweredShort(|responses|, |batch|)))
                   else recorded
  {
    now := RecordAnswers(report, start, responses);
    if now.failedIndex.Some? {
      return;
    }
    if |responses| < |batch| {
      now := now.(failedIndex := Some(start + |responses|), cause := Some(AnsweredShort(|responses|, |batch|)));
    }
  }

  method ReplayEnvelopes(envelopes: seq<Envelope>, batchSize: int, answers: seq<seq<Response>>)
    returns (report: ReplayReport, sent: seq<Envelope>)
    ensures var spec := ReplayFrom(Blank(|envelopes|), |envelopes|, Size(batchSize), answers, 0, 0);
            report == spec.report && sent == envelopes[..spec.sent]
  {
    report := Blank(|envelopes|);
    sent := [];
    var size, start, k := Size(batchSize), 0, 0;
    while start < |envelopes|
      invariant start <= |envelopes| && sent == envelopes[..start]
      invariant ReplayFrom(Blank(|envelopes|), |envelopes|, size, answers, 0, 0) ==
                ReplayFrom(report, |envelopes|, size, answers, start, k)
      decreases |envelopes| - start
    {
      ghost var now, stop := ReplayUnfolds(report, |envelopes|, size, answers, start, k);
      var end := BatchEnd(|envelopes|, size, start);
      report := SendBatch(report, envelopes[start..end], start, AnswerAt(answers, k));
      sent := sent + envelopes[start..end];
      if report.failedIndex.Some? {
        return;
      }
      start, k := end, k + 1;
    }
  }

  // ---------- What a report says ----------

  function CountTaken(rs: seq<Response>, accepted: bool): nat {
    if rs == [] then 0
    else
      var last := rs[|rs| - 1];
      CountTaken(rs[..|rs| - 1], accepted) + (if Taken(last) && (last.status == Accepted) == accepted then 1 else 0)
  }

  ghost predicate AllTaken(rs: seq<Response>) {
    forall i :: 0 <= i < |rs| ==> Taken(rs[i])
  }

  /** The first answer that is not a success. */
  function FirstRefusal(rs: seq<Response>): (f: Option<nat>)
    ensures f.Some? ==> f.value < |rs|
  {
    if rs == [] then None
    else
      var f := FirstRefusal(rs[..|rs| - 1]);
      if f.Some? then f else if Taken(rs[|rs| - 1]) then None else Some(|rs| - 1)
  }

  lemma {:induction false} FirstRefusalIsFirst(rs: seq<Response>)
    ensures var f := FirstRefusal(rs);
            && (f.None? <==> AllTaken(rs))
            && (f.Some? ==> !Taken(rs[f.value]) && AllTaken(rs[..f.value]))
  {
    if rs != [] {
      var front, f := rs[..|rs| - 1], FirstRefusal(rs[..|rs| - 1]);
      FirstRefusalIsFirst(front);
      assert f.Some? ==> front[..f.value] == rs[..f.value] && front[f.value] == rs[f.value];
      assert f.None? ==> forall i :: 0 <= i < |front| ==> Taken(front[i]) && rs[i] == front[i];
    }
  }

  /** The tallies and the halt are those of the answers listed. */
  ghost predicate Tallied(r: ReplayReport) {
    && r.accepted == CountTaken(r.responses, true)
    && r.duplicates == CountTaken(r.responses, false)
    && r.failedIndex == FirstRefusal(r.responses)
    && r.cause == (if r.failedIndex.None? then None
                   else Some(Refused(r.responses[r.failedIndex.value].code, r.responses[r.failedIndex.value].message)))
  }

  /** Or every answer was a success and the next envelope of the batch got none. */
  ghost predicate HaltedShort(r: ReplayReport) {
    && r.accepted == CountTaken(r.responses, true)
    && r.duplicates == CountTaken(r.responses, false)
    && AllTaken(r.responses) && r.failedIndex == Some(|r.responses|)
    && r.cause.Some? && r.cause.value.AnsweredShort? && r.cause.value.answered < r.cause.value.sent
  }

  ghost predicate ReportOk(r: ReplayReport) {
    && |r.responses| <= r.total
    && (Tallied(r) || (HaltedShort(r) && |r.responses| < r.total))
    && (r.failedIndex.None? ==> |r.responses| == r.total)
  }

  lemma RecordOne(r: ReplayReport, index: nat, x: Response) returns (after: ReplayReport)
    requires Tallied(r) && index == |r.responses|
    ensures after == Record(r, index, x)
    ensures Tallied(after) && after.responses == r.responses + [x] && after.total == r.total
  {
    after := Record(r, index, x);
    var longer := r.responses + [x];
    assert longer[..|longer| - 1] == r.responses;
  }

  lemma RecordUnfolds(r: ReplayReport, start: nat, rs: seq<Response>, before: ReplayReport, after: ReplayReport)
    requires rs != [] && before == RecordAll(r, start, rs[..|rs| - 1])
    requires after == Record(before, start + |rs| - 1, rs[|rs| - 1])
    ensures after == RecordAll(r, start, rs)
  {
  }

  lemma {:induction false} RecordAllTallies(r: ReplayReport, start: nat, rs: seq<Response>) returns (after: ReplayReport)
    requires Tallied(r) && start == |r.responses|
    ensures after == RecordAll(r, start, rs)
    ensures Tallied(after) && after.responses == r.responses + rs && after.total == r.total
  {
    if rs == [] {
      after := r;
    } else {
      var before := RecordAllTallies(r, start, rs[..|rs| - 1]);
      after := RecordOne(before, start + |rs| - 1, rs[|rs| - 1]);
      RecordUnfolds(r, start, rs, before, after);
      assert r.responses + rs == r.responses + rs[..|rs| - 1] + [rs[|rs| - 1]];
    }
  }

  /** No request is answered with more responses than it sent. */
  ghost predicate NeverLong(answers: seq<seq<Response>>, n: nat, size: nat, start: nat, k: nat)
    requires start <= n && 1 <= size
    decreases n - start
  {
    start < n ==>
      var end := BatchEnd(n, size, start);
      |AnswerAt(answers, k)| <= end - start && NeverLong(answers, n, size, end, k + 1)
  }

  lemma {:induction false} FromMeaning(r: ReplayReport, n: nat, size: nat, answers: seq<seq<Response>>, start: nat, k: nat)
    requires start <= n && 1 <= size && NeverLong(answers, n, size, start, k)
    requires Tallied(r) && r.failedIndex.None? && |r.responses| == start && r.total == n
    ensures ReportOk(ReplayFrom(r, n, size, answers, start, k).report)
    ensures ReplayFrom(r, n, size, answers, start, k).report.total == n
    decreases n - start
  {
    if start < n {
      var recorded := RecordAllTallies(r, start, AnswerAt(answers, k));
      var now := AfterBatch(r, n, size, answers, start, k);
      FirstRefusalIsFirst(recorded.responses);
      if now.failedIndex.None? {
        FromMeaning(now, n, size, answers, BatchEnd(n, size, start), k + 1);
      }
    }
  }

  /**
   Whatever the store answers, as long as it never answers more than it was sent:
   the tallies are those of the answers, `failed_index` is the first refusal or the
   first unanswered envelope, and the replay is complete exactly when every
   envelope was answered with a success.
   */
  lemma ReportMeaning(n: nat, batchSize: int, answers: seq<seq<Response>>)
    requires NeverLong(answers, n, Size(batchSize), 0, 0)
    ensures var r := ReplayFrom(Blank(n), n, Size(batchSize), answers, 0, 0).report;
            && ReportOk(r) && r.total == n
            && (r.failedIndex.None? <==> |r.responses| == n && AllTaken(r.responses))
  {
    FromMeaning(Blank(n), n, Size(batchSize), answers, 0, 0);
    FirstRefusalIsFirst(ReplayFrom(Blank(n), n, Size(batchSize), answers, 0, 0).report.responses);
  }

  /** The answers with this status, or refused with this code. */
  function AcceptedAt(rs: seq<Response>): set<int> {
    set i | 0 <= i < |rs| && rs[i].status == Accepted
  }

  function DuplicateAt(rs: seq<Response>): set<int> {
    set i | 0 <= i < |rs| && rs[i].status != Accepted && rs[i].code == Some(DuplicateEvent)
  }

  lemma OneMoreAt(before: set<int>, after: set<int>, n: int, counts: bool)
    requires n !in before && after == if counts then before + {n} else before
    ensures |after| == |before| + if counts then 1 else 0
  {
  }

  lemma AcceptedStep(front: seq<Response>, last: Response)
    ensures |AcceptedAt(front + [last])| == |AcceptedAt(front)| + if last.status == Accepted then 1 else 0
  {
    OneMoreAt(AcceptedAt(front), AcceptedAt(front + [last]), |front|, last.status == Accepted);
  }

  lemma DuplicateStep(front: seq<Response>, last: Response)
    ensures |DuplicateAt(front + [last])| ==
            |DuplicateAt(front)| + if last.status != Accepted && last.code == Some(DuplicateEvent) then 1 else 0
  {
    OneMoreAt(DuplicateAt(front), DuplicateAt(front + [last]), |front|,
              last.status != Accepted && last.code == Some(DuplicateEvent));
  }

  lemma {:induction false} CountsAre(rs: seq<Response>)
    ensures CountTaken(rs, true) == |AcceptedAt(rs)| && CountTaken(rs, false) == |DuplicateAt(rs)|
  {
    if rs != [] {
      var front, last := rs[..|rs| - 1], rs[|rs| - 1];
      assert rs == front + [last];
      CountsAre(front);
      AcceptedStep(front, last);
      DuplicateStep(front, last);
    }
  }

  /** The answer is a success: an acceptance, or the store already has the event. */
  ghost predicate Success(r: Response) {
    r.status == Accepted || r.code == Some(DuplicateEvent)
  }

  /**
   The same in the answers' own fields: acceptances and duplicates are counted, the halt is
   at the first answer that is neither and quotes it, or else at the first envelope of a
   batch that got no answer, and a replay without a halt has one for every envelope.
   */
  lemma ReportSays(n: nat, batchSize: int, answers: seq<seq<Response>>)
    requires NeverLong(answers, n, Size(batchSize), 0, 0)
    ensures var r := ReplayFrom(Blank(n), n, Size(batchSize), answers, 0, 0).report;
            && r.accepted == |AcceptedAt(r.responses)| && r.duplicates == |DuplicateAt(r.responses)|
            && (r.failedIndex.None? <==> |r.responses| == n && forall i :: 0 <= i < |r.responses| ==> Success(r.responses[i]))
            && (r.failedIndex.None? ==> r.cause.None?)
            && (r.failedIndex.Some? ==>
                  && r.failedIndex.value <= |r.responses| && r.failedIndex.value < n
                  && (forall i :: 0 <= i < r.failedIndex.value ==> Success(r.responses[i]))
                  && (r.failedIndex.value < |r.responses| ==>
                        var refusal := r.responses[r.failedIndex.value];
                        !Success(refusal) && r.cause == Some(Refused(refusal.code, refusal.message)))
                  && (r.failedIndex.value == |r.responses| ==> r.cause.Some? && r.cause.value.AnsweredShort?))
  {
    ReportMeaning(n, batchSize, answers);
    var r := ReplayFrom(Blank(n), n, Size(batchSize), answers, 0, 0).report;
    CountsAre(r.responses);
    FirstRefusalIsFirst(r.responses);
    if r.failedIndex.Some? && r.failedIndex.value < |r.responses| {
      forall i | 0 <= i < r.failedIndex.value ensures Success(r.responses[i]) {
        assert Taken(r.responses[..r.failedIndex.value][i]);
      }
    }
  }

  /** A short halt says how many of the last batch were answered, and how many it sent. */
  lemma {:induction false} ShortSays(r: ReplayReport, n: nat, size: nat, answers: seq<seq<Response>>, start: nat, k: nat)
    requires start <= n && 1 <= size && NeverLong(answers, n, size, start, k)
    requires Tallied(r) && r.failedIndex.None? && |r.responses| == start && r.total == n
    ensures var now := ReplayFrom(r, n, size, answers, start, k).report;
            now.cause.Some? && now.cause.value.AnsweredShort? ==>
              var from := |now.responses| - now.cause.value.answered;
              0 <= from < n && now.cause.value.sent == if from + size <= n then size else n - from
    decreases n - start
  {
    if start < n {
      var recorded := RecordAllTallies(r, start, AnswerAt(answers, k));
      var now := AfterBatch(r, n, size, answers, start, k);
      if now.failedIndex.None? {
        ShortSays(now, n, size, answers, BatchEnd(n, size, start), k + 1);
      }
    }
  }

  // ---------- A store that answers in order ----------

  /**
   `rulings[i]` is the store's answer to envelope `i` after envelopes 0 to `i - 1`;
   it answers each batch with one response per envelope.
   */
  function InOrder(rulings: seq<Response>, size: nat, start: nat): (answers: seq<seq<Response>>)
    requires start <= |rulings| && 1 <= size
    decreases |rulings| - start
  {
    if start == |rulings| then []
    else
      var end := BatchEnd(|rulings|, size, start);
      [rulings[start..end]] + InOrder(rulings, size, end)
  }

  /** Where the batch that holds index `i` ends, counting batches from `start`. */
  function HaltAfter(i: nat, n: nat, size: nat, start: nat): (end: nat)
    requires start <= i < n && 1 <= size
    ensures i < end <= n && end <= i + size
    decreases n - start
  {
    var end := BatchEnd(n, size, start);
    if i < end then end else HaltAfter(i, n, size, end)
  }

  function SentInOrder(rulings: seq<Response>, size: nat, start: nat): (sent: nat)
    requires start <= |rulings| && 1 <= size
    requires FirstRefusal(rulings).Some? ==> start <= FirstRefusal(rulings).value
    ensures sent <= |rulings|
  {
    var f := FirstRefusal(rulings);
    if f.Some? then HaltAfter(f.value, |rulings|, size, start) else |rulings|
  }

  lemma {:induction false} PrefixRefusal(rs: seq<Response>, m: nat)
    requires m <= |rs|
    ensures var f := FirstRefusal(rs);
            FirstRefusal(rs[..m]) == if f.Some? && f.value < m then f else None
  {
    if m < |rs| {
      PrefixRefusal(rs[..|rs| - 1], m);
      assert rs[..|rs| - 1][..m] == rs[..m];
    } else {
      assert rs[..m] == rs;
    }
  }

  lemma {:induction false} AnswersFrom(rulings: seq<Response>, size: nat, start: nat, answers: seq<seq<Response>>, k: nat)
    requires start <= |rulings| && 1 <= size && k <= |answers| && answers[k..] == InOrder(rulings, size, start)
    ensures start < |rulings| ==>
              var end := BatchEnd(|rulings|, size, start);
              && AnswerAt(answers, k) == rulings[start..end]
              && k < |answers| && answers[k + 1..] == InOrder(rulings, size, end)
  {
    if start < |rulings| {
      assert answers[k..][0] == answers[k] && answers[k..][1..] == answers[k + 1..];
    }
  }

  lemma {:induction false} InOrderFrom(r: ReplayReport, rulings: seq<Response>, size: nat, answers: seq<seq<Response>>, start: nat, k: nat)
    requires start <= |rulings| && 1 <= size && k <= |answers| && answers[k..] == InOrder(rulings, size, start)
    requires Tallied(r) && r.failedIndex.None? && r.responses == rulings[..start]
    ensures FirstRefusal(rulings).Some? ==> start <= FirstRefusal(rulings).value
    ensures var end := ReplayFrom(r, |rulings|, size, answers, start, k);
            && end.sent == SentInOrder(rulings, size, start)
            && Tallied(end.report) && end.report.responses == rulings[..end.sent] && end.report.total == r.total
    decreases |rulings| - start
  {
    PrefixRefusal(rulings, start);
    var n := |rulings|;
    if start < n {
      AnswersFrom(rulings, size, start, answers, k);
      var end := BatchEnd(n, size, start);
      var recorded := RecordAllTallies(r, start, rulings[start..end]);
      assert rulings[..start] + rulings[start..end] == rulings[..end];
      PrefixRefusal(rulings, end);
      var now := AfterBatch(r, n, size, answers, start, k);
      if now.failedIndex.None? {
        InOrderFrom(now, rulings, size, answers, end, k + 1);
      }
    } else {
      assert rulings[..start] == rulings;
    }
  }

  /**
   A store that answers in order: the replay halts at its first refusal whatever the
   batch size, records the answers up to the end of that batch, and sends no further.
   */
  lemma InOrderReplay(rulings: seq<Response>, batchSize: int) returns (r: Replayed)
    ensures r == ReplayFrom(Blank(|rulings|), |rulings|, Size(batchSize), InOrder(rulings, Size(batchSize), 0), 0, 0)
    ensures var f := FirstRefusal(rulings);
            && r.report.failedIndex == f
            && r.report.cause == (if f.None? then None else Some(Refused(rulings[f.value].code, rulings[f.value].message)))
            && (if f.None? then r.sent == |rulings| else f.value < r.sent <= f.value + Size(batchSize))
    ensures r.sent == SentInOrder(rulings, Size(batchSize), 0) && r.report.responses == rulings[..r.sent]
    ensures r.report.total == |rulings| && Tallied(r.report)
  {
    var size := Size(batchSize);
    var answers := InOrder(rulings, size, 0);
    assert answers[0..] == answers;
    assert rulings[..0] == [];
    InOrderFrom(Blank(|rulings|), rulings, size, answers, 0, 0);
    r := ReplayFrom(Blank(|rulings|), |rulings|, size, answers, 0, 0);
    PrefixRefusal(rulings, r.sent);
  }

  /**
   Batched replay refines one-at-a-time replay: the same halt for the same reason,
   and the answers of the small steps are the first answers of the large ones.
   */
  lemma BatchingRefinesSingle(rulings: seq<Response>, batchSize: int)
    ensures var size := Size(batchSize);
            var one := ReplayFrom(Blank(|rulings|), |rulings|, 1, InOrder(rulings, 1, 0), 0, 0);
            var many := ReplayFrom(Blank(|rulings|), |rulings|, size, InOrder(rulings, size, 0), 0, 0);
            && one.report.failedIndex == many.report.failedIndex && one.report.cause == many.report.cause
            && one.report.responses <= many.report.responses && one.sent <= many.sent
            && (one.report.failedIndex.None? ==> one.report == many.report)
  {
    var one := InOrderReplay(rulings, 1);
    var many := InOrderReplay(rulings, batchSize);
    SameHalt(rulings, one, many);
  }

  lemma SameHalt(rulings: seq<Response>, one: Replayed, many: Replayed)
    requires one.sent <= many.sent <= |rulings|
    requires one.report.responses == rulings[..one.sent] && many.report.responses == rulings[..many.sent]
    requires one.report.total == many.report.total && Tallied(one.report) && Tallied(many.report)
    requires one.report.failedIndex == many.report.failedIndex && one.report.cause == many.report.cause
    requires one.report.failedIndex.None? ==> one.sent == many.sent
    ensures one.report.responses <= many.report.responses
    ensures one.report.failedIndex.None? ==> one.report == many.report
  {
    assert rulings[..many.sent][..one.sent] == rulings[..one.sent];
  }
}
