/**
 Sync receipts (rootsign/sdk/receipt.py): what one upload attempt did to every
 record of a spool file, as buckets of positions that partition the file.
 */
module Receipt {
  import opened Common
  import opened Ranges
  import opened Wire
  import opened Replay

  datatype Rejection = Rejection(
    record: int,
    code: Option<ErrorCode>,
    retryable: Option<bool>,
    message: string,
    sequence: Option<int>)

  datatype Disposition = FullyAccepted | Partial | TransportFailed

  /** An exception's text, or the answer that said the client had given up. */
  datatype Trouble = Raised(text: string) | GaveUp(code: Option<ErrorCode>, message: string)

  datatype Attempt = Attempt(
    recordCount: nat,
    accepted: seq<Range>,
    duplicate: seq<Range>,
    rejected: seq<Rejection>,
    notAttempted: seq<Range>,
    haltedAtSequence: Option<int>,
    disposition: Disposition,
    trouble: Option<Trouble>)

  datatype BuildError = IndexError

  // ---------- Building an attempt ----------

  datatype Buckets = Buckets(accepted: seq<int>, duplicate: seq<int>, rejected: seq<Rejection>)

  /** Put the answer at `index` into its bucket; positions count from 1. */
  function Place(b: Buckets, envelopes: seq<Envelope>, index: nat, r: Response): Buckets {
    var position := index + 1;
    if r.status == Accepted then b.(accepted := b.accepted + [position])
    else if r.code == Some(DuplicateEvent) then b.(duplicate := b.duplicate + [position])
    else
      var sequence := if index < |envelopes| then SequenceOf(envelopes[index]) else None;
      b.(rejected := b.rejected + [Rejection(position, r.code, r.retryable, r.message, sequence)])
  }

  function PlaceAll(envelopes: seq<Envelope>, rs: seq<Response>): Buckets {
    if rs == [] then Buckets([], [], [])
    else Place(PlaceAll(envelopes, rs[..|rs| - 1]), envelopes, |rs| - 1, rs[|rs| - 1])
  }

  /** `list(range(lo, hi + 1))`. */
  function Upwards(lo: int, hi: int): (xs: seq<int>)
    ensures Ascending(xs) && forall x :: x in xs <==> lo <= x <= hi
    decreases hi - lo
  {
    if hi < lo then []
    else
      var front := Upwards(lo, hi - 1);
      assert forall i :: 0 <= i < |front| ==> front[i] in front;
      front + [hi]
  }

  function PackPositions(xs: seq<int>): seq<Range> {
    Compress(SortedDistinct(xs))
  }

  function Decision(halting: Option<Response>, failed: bool, rejected: bool, transportError: Option<string>): Disposition {
    if transportError.Some? || (halting.Some? && halting.value.retryable == Some(true)) then TransportFailed
    else if !failed && !rejected then FullyAccepted
    else Partial
  }

  function TroubleOf(halting: Option<Response>, transportError: Option<string>): Option<Trouble> {
    if transportError.Some? then Some(Raised(transportError.value))
    else if halting.Some? && halting.value.retryable == Some(true) then Some(GaveUp(halting.value.code, halting.value.message))
    else None
  }

  /** `build_attempt`. Indexing the answers with `failed_index` raises when there is no such answer. */
  function Build(envelopes: seq<Envelope>, report: ReplayReport, transportError: Option<string>): Result<Attempt, BuildError> {
    var f := report.failedIndex;
    if f.Some? && |report.responses| <= f.value then Err(IndexError)
    else
      var b := PlaceAll(envelopes, report.responses);
      var halting := if f.Some? then Some(report.responses[f.value]) else None;
      var haltedAt := if f.Some? && f.value < |envelopes| then SequenceOf(envelopes[f.value]) else None;
      Ok(Attempt(
        |envelopes|,
        PackPositions(b.accepted),
        PackPositions(b.duplicate),
        b.rejected,
        PackPositions(Upwards(|report.responses| + 1, |envelopes|)),
        haltedAt,
        Decision(halting, f.Some?, b.rejected != [], transportError),
        TroubleOf(halting, transportError)))
  }

  method SortAnswers(envelopes: seq<Envelope>, responses: seq<Response>)
    returns (accepted: seq<int>, duplicate: seq<int>, rejected: seq<Rejection>)
    ensures Buckets(accepted, duplicate, rejected) == PlaceAll(envelopes, responses)
  {
    accepted, duplicate, rejected := [], [], [];
    for index := 0 to |responses|
      invariant Buckets(accepted, duplicate, rejected) == PlaceAll(envelopes, responses[..index])
    {
      assert responses[..index + 1][..index] == responses[..index];
      var response := responses[index];
      if response.status == Accepted {
        accepted := accepted + [index + 1];
      } else if response.code == Some(DuplicateEvent) {
        duplicate := duplicate + [index + 1];
      } else {
        var sequence := if index < |envelopes| then SequenceOf(envelopes[index]) else None;
        rejected := rejected + [Rejection(index + 1, response.code, response.retryable, response.message, sequence)];
      }
    }
    assert responses[..|responses|] == responses;
  }

  method BuildAttempt(envelopes: seq<Envelope>, report: ReplayReport, transportError: Option<string>)
    returns (r: Result<Attempt, BuildError>)
    ensures r == Build(envelopes, report, transportError)
  {
    var responses := report.responses;
    var accepted, duplicate, rejected := SortAnswers(envelopes, responses);
    var halting: Option<Response> := None;
    var haltedAt: Option<int> := None;
    if report.failedIndex.Some? {
      var failed := report.failedIndex.value;
      if |responses| <= failed {
        return Err(IndexError);
      }
      halting := Some(responses[failed]);
      if failed < |envelopes| {
        haltedAt := SequenceOf(envelopes[failed]);
      }
    }
    var packedAccepted := CompressRanges(accepted);
    var packedDuplicate := CompressRanges(duplicate);
    var packedNot := CompressRanges(Upwards(|responses| + 1, |envelopes|));
    r := Ok(Attempt(|envelopes|, packedAccepted, packedDuplicate, rejected, packedNot, haltedAt,
                    Decision(halting, report.failedIndex.Some?, rejected != [], transportError),
                    TroubleOf(halting, transportError)));
  }

  // ---------- Checking a partition ----------

  function Records(rejected: seq<Rejection>): (xs: seq<int>)
    ensures |xs| == |rejected| && forall i :: 0 <= i < |rejected| ==> xs[i] == rejected[i].record
  {
    seq(|rejected|, i requires 0 <= i < |rejected| => rejected[i].record)
  }

  /** Every position some bucket covers, as often as buckets cover it. */
  function Covered(a: Attempt): multiset<int> {
    multiset(Expand(a.accepted)) + multiset(Expand(a.duplicate)) + multiset(Expand(a.notAttempted)) + multiset(Records(a.rejected))
  }

  /** `partition_is_total`. */
  predicate PartitionIsTotal(a: Attempt) {
    Covered(a) == multiset(Upwards(1, a.recordCount))
  }

  /** In how many buckets position `p` lies; the rejected list counts each of its entries. */
  ghost function BucketsAt(a: Attempt, p: int): nat {
    (if Covers(a.accepted, p) then 1 else 0) + (if Covers(a.duplicate, p) then 1 else 0)
    + (if Covers(a.notAttempted, p) then 1 else 0) + multiset(Records(a.rejected))[p]
  }

  lemma {:induction false} AscendingCounts(xs: seq<int>)
    requires Ascending(xs)
    ensures forall p :: multiset(xs)[p] == if p in xs then 1 else 0
  {
    if xs != [] {
      var front, last := xs[..|xs| - 1], xs[|xs| - 1];
      AscendingCounts(front);
      assert xs == front + [last];
      assert last !in front;
    }
  }

  lemma CoveredAt(a: Attempt, p: int)
    ensures Covered(a)[p] == BucketsAt(a, p)
  {
    ExpandCovers(a.accepted);
    ExpandCovers(a.duplicate);
    ExpandCovers(a.notAttempted);
  }

  /** The check passes exactly when every position of the file lies in one bucket and nothing else lies in any. */
  lemma PartitionMeaning(a: Attempt)
    ensures PartitionIsTotal(a) <==> forall p :: BucketsAt(a, p) == if 1 <= p <= a.recordCount then 1 else 0
  {
    var whole := Upwards(1, a.recordCount);
    AscendingCounts(whole);
    forall p ensures Covered(a)[p] == BucketsAt(a, p) && multiset(whole)[p] == if 1 <= p <= a.recordCount then 1 else 0 {
      CoveredAt(a, p);
    }
  }

  predicate InRange(r: Range, p: int) {
    r.lo <= p <= r.hi
  }

  /** How many of the ranges hold `p`. */
  ghost function RangesAt(rs: seq<Range>, p: int): nat {
    if rs == [] then 0 else RangesAt(rs[..|rs| - 1], p) + if InRange(rs[|rs| - 1], p) then 1 else 0
  }

  /** No position lies in two of the ranges. */
  ghost predicate Apart(rs: seq<Range>) {
    forall i, j, p :: 0 <= i < j < |rs| && InRange(rs[i], p) ==> !InRange(rs[j], p)
  }

  lemma {:induction false} RangesAtCovers(rs: seq<Range>, p: int)
    ensures 0 < RangesAt(rs, p) <==> Covers(rs, p)
  {
    if rs != [] {
      var front := rs[..|rs| - 1];
      RangesAtCovers(front, p);
      if Covers(front, p) {
        var i :| 0 <= i < |front| && front[i].lo <= p <= front[i].hi;
        assert rs[i] == front[i];
      }
      if Covers(rs, p) {
        var i :| 0 <= i < |rs| && rs[i].lo <= p <= rs[i].hi;
        assert i < |front| ==> front[i] == rs[i];
      }
    }
  }

  /** Ranges that are apart hold no position twice. */
  lemma {:induction false} ApartAtMostOnce(rs: seq<Range>, p: int)
    requires Apart(rs)
    ensures RangesAt(rs, p) <= 1
  {
    if rs != [] {
      var front, last := rs[..|rs| - 1], rs[|rs| - 1];
      ApartAtMostOnce(front, p);
      RangesAtCovers(front, p);
      if Covers(front, p) {
        var i :| 0 <= i < |front| && front[i].lo <= p <= front[i].hi;
        assert InRange(rs[i], p) && !InRange(rs[|rs| - 1], p);
      }
    }
  }

  /** A position in two ranges is held twice. */
  lemma {:induction false} HeldTwice(rs: seq<Range>, i: nat, j: nat, p: int)
    requires i < j < |rs| && InRange(rs[i], p) && InRange(rs[j], p)
    ensures 2 <= RangesAt(rs, p)
  {
    var front := rs[..|rs| - 1];
    if j < |front| {
      HeldTwice(front, i, j, p);
    } else {
      assert front[i] == rs[i];
      RangesAtCovers(front, p);
    }
  }

  ghost predicate AtMostOnce(rs: seq<Range>) {
    forall p :: RangesAt(rs, p) <= 1
  }

  lemma ApartIff(rs: seq<Range>)
    ensures Apart(rs) <==> AtMostOnce(rs)
  {
    if Apart(rs) {
      forall p ensures RangesAt(rs, p) <= 1 {
        ApartAtMostOnce(rs, p);
      }
    } else {
      var i, j, p :| 0 <= i < j < |rs| && InRange(rs[i], p) && InRange(rs[j], p);
      HeldTwice(rs, i, j, p);
    }
  }

  /** How many ranges and rejections of the receipt speak of position `p`. */
  ghost function EntriesAt(a: Attempt, p: int): nat {
    RangesAt(a.accepted, p) + RangesAt(a.duplicate, p) + RangesAt(a.notAttempted, p) + multiset(Records(a.rejected))[p]
  }

  /** Every position of the file has exactly one entry, and nothing else has any. */
  ghost predicate ExactlyOnce(a: Attempt) {
    forall p :: EntriesAt(a, p) == if 1 <= p <= a.recordCount then 1 else 0
  }

  ghost predicate BucketsApart(a: Attempt) {
    Apart(a.accepted) && Apart(a.duplicate) && Apart(a.notAttempted)
  }

  ghost predicate AtMostOnceEach(a: Attempt, p: int) {
    RangesAt(a.accepted, p) <= 1 && RangesAt(a.duplicate, p) <= 1 && RangesAt(a.notAttempted, p) <= 1
  }

  lemma EntriesInBuckets(a: Attempt, p: int)
    ensures BucketsAt(a, p) <= EntriesAt(a, p)
    ensures BucketsAt(a, p) == EntriesAt(a, p) <==> AtMostOnceEach(a, p)
  {
    RangesAtCovers(a.accepted, p);
    RangesAtCovers(a.duplicate, p);
    RangesAtCovers(a.notAttempted, p);
  }

  lemma EachApart(a: Attempt)
    ensures BucketsApart(a) <==> forall p :: AtMostOnceEach(a, p)
  {
    ApartIff(a.accepted);
    ApartIff(a.duplicate);
    ApartIff(a.notAttempted);
    if forall p :: AtMostOnceEach(a, p) {
      forall p ensures RangesAt(a.accepted, p) <= 1 && RangesAt(a.duplicate, p) <= 1 && RangesAt(a.notAttempted, p) <= 1 {
        assert AtMostOnceEach(a, p);
      }
    }
  }

  /**
   The check sees a bucket as a set: each position has exactly one entry if and only if
   the check passes and no bucket's ranges overlap.
   */
  lemma ExactlyOnceIff(a: Attempt)
    ensures ExactlyOnce(a) <==> PartitionIsTotal(a) && BucketsApart(a)
  {
    PartitionMeaning(a);
    EachApart(a);
    if ExactlyOnce(a) {
      forall p ensures AtMostOnceEach(a, p) && BucketsAt(a, p) == if 1 <= p <= a.recordCount then 1 else 0 {
        EntriesInBuckets(a, p);
        assert EntriesAt(a, p) <= 1;
      }
    }
    if PartitionIsTotal(a) && BucketsApart(a) {
      forall p ensures EntriesAt(a, p) == if 1 <= p <= a.recordCount then 1 else 0 {
        EntriesInBuckets(a, p);
        assert AtMostOnceEach(a, p);
      }
    }
  }

  lemma TwoRanges(rs: seq<Range>, p: int)
    requires |rs| == 2
    ensures RangesAt(rs, p) == (if InRange(rs[0], p) then 1 else 0) + (if InRange(rs[1], p) then 1 else 0)
  {
    var front := rs[..1];
    assert front[..0] == [] && front[0] == rs[0];
    assert RangesAt(front, p) == if InRange(rs[0], p) then 1 else 0;
  }

  /** A receipt of two records that lists the second one twice as accepted passes the check. */
  lemma OverlapPasses(a: Attempt)
    requires a.recordCount == 2 && a.accepted == [Range(1, 2), Range(2, 2)]
    requires a.duplicate == [] && a.rejected == [] && a.notAttempted == []
    ensures PartitionIsTotal(a) && !Apart(a.accepted) && EntriesAt(a, 2) == 2
  {
    forall p ensures BucketsAt(a, p) == if 1 <= p <= a.recordCount then 1 else 0 {
      assert 1 <= p <= 2 ==> a.accepted[0].lo <= p <= a.accepted[0].hi;
    }
    PartitionMeaning(a);
    TwoRanges(a.accepted, 2);
    assert InRange(a.accepted[0], 2) && InRange(a.accepted[1], 2);
  }

  // ---------- What a built attempt says ----------

  datatype Kind = IsAccepted | IsDuplicate | IsRejected

  function KindOf(r: Response): Kind {
    if r.status == Accepted then IsAccepted else if r.code == Some(DuplicateEvent) then IsDuplicate else IsRejected
  }

  /** `xs` are the positions of the answers of one kind, in order. */
  ghost predicate PositionsOf(xs: seq<int>, rs: seq<Response>, kind: Kind) {
    Ascending(xs) && forall p :: p in xs <==> 1 <= p <= |rs| && KindOf(rs[p - 1]) == kind
  }

  lemma PositionsGrow(xs: seq<int>, rs: seq<Response>, r: Response, kind: Kind)
    requires PositionsOf(xs, rs, kind)
    ensures PositionsOf(if KindOf(r) == kind then xs + [|rs| + 1] else xs, rs + [r], kind)
  {
    assert forall i :: 0 <= i < |xs| ==> xs[i] in xs;
  }

  lemma {:induction false} PlacedByKind(envelopes: seq<Envelope>, rs: seq<Response>)
    ensures var b := PlaceAll(envelopes, rs);
            && PositionsOf(b.accepted, rs, IsAccepted)
            && PositionsOf(b.duplicate, rs, IsDuplicate)
            && PositionsOf(Records(b.rejected), rs, IsRejected)
  {
    if rs != [] {
      var front, last := rs[..|rs| - 1], rs[|rs| - 1];
      PlacedByKind(envelopes, front);
      var b := PlaceAll(envelopes, front);
      assert front + [last] == rs;
      PositionsGrow(b.accepted, front, last, IsAccepted);
      PositionsGrow(b.duplicate, front, last, IsDuplicate);
      PositionsGrow(Records(b.rejected), front, last, IsRejected);
      var now := PlaceAll(envelopes, rs);
      assert Records(now.rejected) == if KindOf(last) == IsRejected then Records(b.rejected) + [|rs|] else Records(b.rejected);
    }
  }

  /** A rejection quotes the answer at its position, and the number of the record there. */
  ghost predicate Quotes(x: Rejection, envelopes: seq<Envelope>, rs: seq<Response>) {
    && 1 <= x.record <= |rs|
    && var i := x.record - 1;
       && x.code == rs[i].code && x.retryable == rs[i].retryable && x.message == rs[i].message
       && x.sequence == (if i < |envelopes| then SequenceOf(envelopes[i]) else None)
  }

  lemma {:induction false} RejectionsQuote(envelopes: seq<Envelope>, rs: seq<Response>)
    ensures forall x :: x in PlaceAll(envelopes, rs).rejected ==> Quotes(x, envelopes, rs)
  {
    if rs != [] {
      var front := rs[..|rs| - 1];
      RejectionsQuote(envelopes, front);
      forall x | x in PlaceAll(envelopes, rs).rejected ensures Quotes(x, envelopes, rs) {
        assert x in PlaceAll(envelopes, front).rejected ==> Quotes(x, envelopes, front);
      }
    }
  }

  lemma PackCovers(xs: seq<int>, p: int)
    ensures Covers(PackPositions(xs), p) <==> p in xs
  {
    ExpandAfterCompress(xs);
    ExpandCovers(PackPositions(xs));
    assert p in Elems(xs) <==> p in xs;
  }

  /** Each position is in the bucket of its answer, or was not attempted. */
  lemma BuiltBuckets(envelopes: seq<Envelope>, report: ReplayReport, transportError: Option<string>, p: int)
    requires Build(envelopes, report, transportError).Ok?
    ensures var a, rs := Build(envelopes, report, transportError).value, report.responses;
            && (Covers(a.accepted, p) <==> 1 <= p <= |rs| && KindOf(rs[p - 1]) == IsAccepted)
            && (Covers(a.duplicate, p) <==> 1 <= p <= |rs| && KindOf(rs[p - 1]) == IsDuplicate)
            && multiset(Records(a.rejected))[p] == (if 1 <= p <= |rs| && KindOf(rs[p - 1]) == IsRejected then 1 else 0)
            && (Covers(a.notAttempted, p) <==> |rs| < p <= |envelopes|)
  {
    var b := PlaceAll(envelopes, report.responses);
    PlacedByKind(envelopes, report.responses);
    PackCovers(b.accepted, p);
    PackCovers(b.duplicate, p);
    PackCovers(Upwards(|report.responses| + 1, |envelopes|), p);
    AscendingCounts(Records(b.rejected));
  }

  lemma PackedApart(xs: seq<int>)
    ensures Apart(PackPositions(xs))
  {
    CompressEncodes(SortedDistinct(xs));
  }

  lemma BuiltApart(envelopes: seq<Envelope>, report: ReplayReport, transportError: Option<string>)
    requires Build(envelopes, report, transportError).Ok?
    ensures BucketsApart(Build(envelopes, report, transportError).value)
  {
    var b := PlaceAll(envelopes, report.responses);
    PackedApart(b.accepted);
    PackedApart(b.duplicate);
    PackedApart(Upwards(|report.responses| + 1, |envelopes|));
  }

  lemma BuiltTotal(envelopes: seq<Envelope>, report: ReplayReport, transportError: Option<string>)
    requires Build(envelopes, report, transportError).Ok?
    ensures PartitionIsTotal(Build(envelopes, report, transportError).value) <==> |report.responses| <= |envelopes|
  {
    var a := Build(envelopes, report, transportError).value;
    PartitionMeaning(a);
    forall p ensures BucketsAt(a, p) == if 1 <= p <= Max(|report.responses|, |envelopes|) then 1 else 0 {
      BuiltBuckets(envelopes, report, transportError, p);
    }
    if |envelopes| < |report.responses| {
      assert BucketsAt(a, |report.responses|) == 1;
    }
  }

  /**
   A built attempt partitions the file, one entry for each record, if and only if the
   store gave no more answers than there are records.
   */
  lemma BuiltPartition(envelopes: seq<Envelope>, report: ReplayReport, transportError: Option<string>)
    requires Build(envelopes, report, transportError).Ok?
    ensures PartitionIsTotal(Build(envelopes, report, transportError).value) <==> |report.responses| <= |envelopes|
    ensures ExactlyOnce(Build(envelopes, report, transportError).value) <==> |report.responses| <= |envelopes|
  {
    BuiltTotal(envelopes, report, transportError);
    BuiltApart(envelopes, report, transportError);
    ExactlyOnceIff(Build(envelopes, report, transportError).value);
  }

  /**
   For any report of a replay: building fails exactly when the store answered a
   batch short without refusing anything. Otherwise the buckets partition the file,
   rejections quote their answers, `fully_accepted` means a complete replay with
   every record taken, and `transport_failed` means an exception or a first refusal
   that asked for a retry.
   */
  lemma AttemptMeaning(envelopes: seq<Envelope>, report: ReplayReport, transportError: Option<string>)
    requires ReportOk(report) && report.total == |envelopes|
    ensures Build(envelopes, report, transportError).Err? <==> AllTaken(report.responses) && report.failedIndex.Some?
    ensures Build(envelopes, report, transportError).Ok? ==>
              var a := Build(envelopes, report, transportError).value;
              && PartitionIsTotal(a)
              && (forall x :: x in a.rejected ==> Quotes(x, envelopes, report.responses))
              && (a.disposition == TransportFailed <==>
                    transportError.Some?
                    || (report.failedIndex.Some? && report.responses[report.failedIndex.value].retryable == Some(true)))
              && (a.disposition == FullyAccepted <==> transportError.None? && report.failedIndex.None?)
              && (a.disposition == FullyAccepted ==>
                    a.rejected == [] && a.notAttempted == []
                    && forall p :: 1 <= p <= |envelopes| ==> Covers(a.accepted, p) || Covers(a.duplicate, p))
  {
    FirstRefusalIsFirst(report.responses);
    if Build(envelopes, report, transportError).Ok? {
      var a := Build(envelopes, report, transportError).value;
      BuiltPartition(envelopes, report, transportError);
      RejectionsQuote(envelopes, report.responses);
      if report.failedIndex.None? {
        CompleteBuckets(envelopes, report, transportError);
      }
    }
  }

  /**
   Where an attempt halted and what troubled it: the sequence number of the action that was
   refused or left unanswered, if the file has that record; and the exception's text, or
   else the refusal's code and message if that refusal asks for a retry.
   */
  lemma HaltAndTrouble(envelopes: seq<Envelope>, report: ReplayReport, transportError: Option<string>)
    requires Build(envelopes, report, transportError).Ok?
    ensures var a, f := Build(envelopes, report, transportError).value, report.failedIndex;
            && a.recordCount == |envelopes|
            && (f.None? ==> a.haltedAtSequence == None)
            && (f.Some? ==> f.value < |report.responses|)
            && (f.Some? && |envelopes| <= f.value ==> a.haltedAtSequence == None)
            && (f.Some? && f.value < |envelopes| ==>
                  a.haltedAtSequence ==
                  if envelopes[f.value].body.ActionRecord? then envelopes[f.value].body.action.number else None)
            && (transportError.Some? ==> a.trouble == Some(Raised(transportError.value)))
            && (transportError.None? ==>
                  a.trouble ==
                  if f.Some? && report.responses[f.value].retryable == Some(true)
                  then Some(GaveUp(report.responses[f.value].code, report.responses[f.value].message)) else None)
  {
  }

  /** Two records sent together, one answer, an acceptance: nothing was refused, and the receipt cannot be built. */
  lemma ShortAnswerBreaksBuild(envelopes: seq<Envelope>, answer: Response)
    requires |envelopes| == 2 && answer.status == Accepted
    ensures var report := ReplayFrom(Blank(2), 2, 2, [[answer]], 0, 0).report;
            report.responses == [answer] && Build(envelopes, report, None) == Err(IndexError)
  {
    var report, end := ReplayUnfolds(Blank(2), 2, 2, [[answer]], 0, 0);
    assert [answer][..0] == [];
    assert RecordAll(Blank(2), 0, [answer]) == Record(Blank(2), 0, answer);
  }

  lemma CompleteBuckets(envelopes: seq<Envelope>, report: ReplayReport, transportError: Option<string>)
    requires |report.responses| == |envelopes| && AllTaken(report.responses) && report.failedIndex.None?
    ensures var a := Build(envelopes, report, transportError).value;
            && a.rejected == [] && a.notAttempted == []
            && forall p :: 1 <= p <= |envelopes| ==> Covers(a.accepted, p) || Covers(a.duplicate, p)
  {
    var a := Build(envelopes, report, transportError).value;
    var refused := Records(a.rejected);
    assert refused != [] ==> refused[0] in multiset(refused);
    assert Upwards(|envelopes| + 1, |envelopes|) == [];
    forall p ensures multiset(refused)[p] == 0
                     && (1 <= p <= |envelopes| ==> Covers(a.accepted, p) || Covers(a.duplicate, p))
    {
      BuiltBuckets(envelopes, report, transportError, p);
    }
  }
}
