/**
 The two chain verifiers: `verify_session_local` over a JSONL file
 (rootsign/sdk/chain.py) and `verify_chain` over the actions table
 (rootsign/crud/action.py), with the shared verdict rule (rootsign/verdict.py).
 */
module Verify {
  import opened Common
  import opened Ranges
  import opened Hashing

  datatype Verdict = Valid | Tampered | Incomplete

  datatype FailureKind =
    | SelfHashMismatch
    | PrevHashMismatch
    | DuplicateSequence
    | PayloadBinding
    | MissingField

  /** `error` is the failure's kind where the source has a message. */
  datatype VerifyResult = VerifyResult(
    verdict: Verdict,
    recordCount: nat,
    firstInvalid: Option<int>,
    error: Option<FailureKind>,
    missing: seq<Range>)

  /** An action line: all canonical fields, or lacking at least one of them. */
  datatype Line = Full(row: Row) | Lacking(number: int)

  function SeqOf(l: Line): int {
    if l.Full? then l.row.number else l.number
  }

  function Seqs(ls: seq<Line>): (xs: seq<int>)
    ensures |xs| == |ls| && forall i :: 0 <= i < |ls| ==> xs[i] == SeqOf(ls[i])
  {
    seq(|ls|, i requires 0 <= i < |ls| => SeqOf(ls[i]))
  }

  function Lines(rows: seq<Row>): (ls: seq<Line>)
    ensures |ls| == |rows| && forall i :: 0 <= i < |rows| ==> ls[i] == Full(rows[i])
  {
    seq(|rows|, i requires 0 <= i < |rows| => Full(rows[i]))
  }

  /** Worst verdict wins. */
  function Decide(missing: seq<Range>, failure: Option<FailureKind>): Verdict {
    if failure.Some? then Tampered
    else if missing != [] then Incomplete
    else Valid
  }

  // ---------- Sorting by sequence number ----------

  ghost predicate SortedLines(ls: seq<Line>) {
    forall i, j :: 0 <= i < j < |ls| ==> SeqOf(ls[i]) <= SeqOf(ls[j])
  }

  /** How many leading lines come strictly before number `n`. */
  function Position(n: int, ls: seq<Line>, i: nat): (k: nat)
    requires i <= |ls|
    ensures i <= k <= |ls|
    ensures forall j :: i <= j < k ==> SeqOf(ls[j]) < n
    ensures k < |ls| ==> n <= SeqOf(ls[k])
    decreases |ls| - i
  {
    if i == |ls| || n <= SeqOf(ls[i]) then i else Position(n, ls, i + 1)
  }

  function Insert(l: Line, ls: seq<Line>): seq<Line> {
    var k := Position(SeqOf(l), ls, 0);
    ls[..k] + [l] + ls[k..]
  }

  lemma InsertKeepsOrder(l: Line, ls: seq<Line>)
    requires SortedLines(ls)
    ensures SortedLines(Insert(l, ls))
  {
    var k, r := Position(SeqOf(l), ls, 0), Insert(l, ls);
    forall i, j | 0 <= i < j < |r| ensures SeqOf(r[i]) <= SeqOf(r[j]) {
      assert r[i] == if i < k then ls[i] else if i == k then l else ls[i - 1];
      assert r[j] == if j < k then ls[j] else if j == k then l else ls[j - 1];
    }
  }

  lemma InsertKeepsLines(l: Line, ls: seq<Line>)
    ensures multiset(Insert(l, ls)) == multiset(ls) + multiset{l}
  {
    var k := Position(SeqOf(l), ls, 0);
    assert ls == ls[..k] + ls[k..];
  }

  /** The stable `records.sort(key=sequence_number)`. */
  function SortLines(ls: seq<Line>): (r: seq<Line>)
    ensures SortedLines(r) && multiset(r) == multiset(ls) && |r| == |ls|
  {
    if ls == [] then []
    else
      var rest := SortLines(ls[1..]);
      InsertKeepsOrder(ls[0], rest);
      InsertKeepsLines(ls[0], rest);
      assert ls == [ls[0]] + ls[1..];
      Insert(ls[0], rest)
  }

  // ---------- The walk ----------

  /** What the body of the walk reports for one line, in the order it checks. */
  function CheckLine(l: Line, expectedPrev: Option<Hash>, gaps: seq<Range>): Option<FailureKind> {
    if l.Lacking? then Some(MissingField)
    else if l.row.selfHash != SelfHash(l.row) then Some(SelfHashMismatch)
    else if OrNone(l.row.prevHash) != expectedPrev && !ExplainsBreak(l.row.number, gaps) then Some(PrevHashMismatch)
    else if !Bound(l.row) then Some(PayloadBinding)
    else None
  }

  function ExpectedPrev(s: seq<Line>, i: nat): Option<Hash>
    requires i <= |s|
  {
    if 0 < i && s[i - 1].Full? then Some(s[i - 1].row.selfHash) else None
  }

  function FailureAt(s: seq<Line>, i: nat, gaps: seq<Range>): Option<FailureKind>
    requires i < |s|
  {
    CheckLine(s[i], ExpectedPrev(s, i), gaps)
  }

  predicate RepeatAt(s: seq<Line>, i: nat)
    requires i < |s|
  {
    0 < i && SeqOf(s[i - 1]) == SeqOf(s[i])
  }

  /** The store looks for a repeated number at each step of the same walk. */
  function StoreFailureAt(s: seq<Line>, i: nat, gaps: seq<Range>): Option<FailureKind>
    requires i < |s|
  {
    if RepeatAt(s, i) then Some(DuplicateSequence) else FailureAt(s, i, gaps)
  }

  /** The outcome of a walk: nothing found, or the first index that failed. */
  datatype Finding = Clean | At(index: nat, kind: FailureKind)

  function LocalWalk(s: seq<Line>, gaps: seq<Range>, i: nat): (f: Finding)
    requires i <= |s|
    ensures f.Clean? ==> forall j :: i <= j < |s| ==> FailureAt(s, j, gaps) == None
    ensures f.At? ==> i <= f.index < |s| && FailureAt(s, f.index, gaps) == Some(f.kind)
    ensures f.At? ==> forall j :: i <= j < f.index ==> FailureAt(s, j, gaps) == None
    decreases |s| - i
  {
    if i == |s| then Clean
    else if FailureAt(s, i, gaps).Some? then At(i, FailureAt(s, i, gaps).value)
    else LocalWalk(s, gaps, i + 1)
  }

  function StoreWalk(s: seq<Line>, gaps: seq<Range>, i: nat): (f: Finding)
    requires i <= |s|
    ensures f.Clean? ==> forall j :: i <= j < |s| ==> StoreFailureAt(s, j, gaps) == None
    ensures f.At? ==> i <= f.index < |s| && StoreFailureAt(s, f.index, gaps) == Some(f.kind)
    ensures f.At? ==> forall j :: i <= j < f.index ==> StoreFailureAt(s, j, gaps) == None
    decreases |s| - i
  {
    if i == |s| then Clean
    else if StoreFailureAt(s, i, gaps).Some? then At(i, StoreFailureAt(s, i, gaps).value)
    else StoreWalk(s, gaps, i + 1)
  }

  function RepeatWalk(s: seq<Line>, i: nat): (f: Finding)
    requires i <= |s|
    ensures f.Clean? ==> forall j :: i <= j < |s| ==> !RepeatAt(s, j)
    ensures f.At? ==> i <= f.index < |s| && RepeatAt(s, f.index) && f.kind == DuplicateSequence
    ensures f.At? ==> forall j :: i <= j < f.index ==> !RepeatAt(s, j)
    decreases |s| - i
  {
    if i == |s| then Clean
    else if RepeatAt(s, i) then At(i, DuplicateSequence)
    else RepeatWalk(s, i + 1)
  }

  /** The report built from what the walk over the sorted lines found. */
  function Report(s: seq<Line>, f: Finding): VerifyResult
    requires f.At? ==> f.index < |s|
  {
    var gaps := Missing(Seqs(s));
    if f.At? then VerifyResult(Decide(gaps, Some(f.kind)), |s|, Some(SeqOf(s[f.index])), Some(f.kind), gaps)
    else VerifyResult(Decide(gaps, None), |s|, if gaps == [] then None else Some(gaps[0].lo), None, gaps)
  }

  /** The local verifier looks for repeated numbers before it walks. */
  function LocalFinding(s: seq<Line>): Finding {
    var repeat := RepeatWalk(s, 0);
    if repeat.At? then repeat else LocalWalk(s, Missing(Seqs(s)), 0)
  }

  /** The verdict on the action lines of a file, whatever their order. */
  function LocalResult(ls: seq<Line>): VerifyResult {
    Report(SortLines(ls), LocalFinding(SortLines(ls)))
  }

  /** The verdict on the rows of a session as the store returns them, ordered by number. */
  function StoreResult(rows: seq<Row>): VerifyResult {
    Report(Lines(rows), StoreWalk(Lines(rows), Missing(Seqs(Lines(rows))), 0))
  }

  // ---------- The verifiers as they run ----------

  method FindRepeat(sorted: seq<Line>) returns (f: Finding)
    ensures f == RepeatWalk(sorted, 0)
  {
    if sorted == [] {
      return Clean;
    }
    for i := 1 to |sorted|
      invariant RepeatWalk(sorted, 0) == RepeatWalk(sorted, i)
    {
      if SeqOf(sorted[i - 1]) == SeqOf(sorted[i]) {
        return At(i, DuplicateSequence);
      }
    }
    f := Clean;
  }

  method WalkLines(sorted: seq<Line>, gaps: seq<Range>) returns (f: Finding)
    ensures f == LocalWalk(sorted, gaps, 0)
  {
    var expectedPrev: Option<Hash> := None;
    for i := 0 to |sorted|
      invariant expectedPrev == ExpectedPrev(sorted, i)
      invariant LocalWalk(sorted, gaps, 0) == LocalWalk(sorted, gaps, i)
    {
      var failure := CheckLine(sorted[i], expectedPrev, gaps);
      if failure.Some? {
        return At(i, failure.value);
      }
      expectedPrev := Some(sorted[i].row.selfHash);
    }
    f := Clean;
  }

  method VerifyRecords(records: seq<Line>) returns (r: VerifyResult)
    ensures r == LocalResult(records)
  {
    if records == [] {
      return VerifyResult(Valid, 0, None, None, []);
    }
    var sorted := SortLines(records);
    var gaps := MissingRanges(Seqs(sorted));
    var f := FindRepeat(sorted);
    if f.Clean? {
      f := WalkLines(sorted, gaps);
    }
    if f.At? {
      return VerifyResult(Decide(gaps, Some(f.kind)), |sorted|, Some(SeqOf(sorted[f.index])), Some(f.kind), gaps);
    }
    r := VerifyResult(Decide(gaps, None), |sorted|, if gaps == [] then None else Some(gaps[0].lo), None, gaps);
  }

  method VerifyChain(actions: seq<Row>) returns (r: VerifyResult)
    requires SortedLines(Lines(actions))
    ensures r == StoreResult(actions)
  {
    ghost var s := Lines(actions);
    if actions == [] {
      return VerifyResult(Valid, 0, None, None, []);
    }
    var gaps := MissingRanges(Seqs(Lines(actions)));
    var seen: set<int> := {};
    var expectedPrev: Option<Hash> := None;
    for i := 0 to |actions|
      invariant seen == Elems(Seqs(s[..i]))
      invariant expectedPrev == ExpectedPrev(s, i)
      invariant StoreWalk(s, gaps, 0) == StoreWalk(s, gaps, i)
    {
      var action := actions[i];
      RepeatIsSeen(s, i);
      if action.number in seen {
        return VerifyResult(Decide(gaps, Some(DuplicateSequence)), |actions|, Some(action.number),
                            Some(DuplicateSequence), gaps);
      }
      seen := seen + {action.number};
      var failure := CheckLine(Full(action), expectedPrev, gaps);
      if failure.Some? {
        return VerifyResult(Decide(gaps, failure), |actions|, Some(action.number), failure, gaps);
      }
      expectedPrev := Some(action.selfHash);
    }
    r := VerifyResult(Decide(gaps, None), |actions|, if gaps == [] then None else Some(gaps[0].lo), None, gaps);
  }

  lemma RepeatIsSeen(s: seq<Line>, i: nat)
    requires SortedLines(s) && i < |s|
    ensures RepeatAt(s, i) <==> SeqOf(s[i]) in Elems(Seqs(s[..i]))
    ensures Elems(Seqs(s[..i + 1])) == Elems(Seqs(s[..i])) + {SeqOf(s[i])}
  {
    var before := Seqs(s[..i]);
    if SeqOf(s[i]) in before {
      var j :| 0 <= j < i && before[j] == SeqOf(s[i]);
      assert SeqOf(s[j]) <= SeqOf(s[i - 1]) <= SeqOf(s[i]);
    }
    assert RepeatAt(s, i) ==> before[i - 1] == SeqOf(s[i]);
    assert Seqs(s[..i + 1]) == before + [SeqOf(s[i])];
  }
}
