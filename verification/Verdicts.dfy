/**
 What the verifiers' verdicts mean, for every list of records in any order.
 */
module Verdicts {
  import opened Common
  import opened Ranges
  import opened Hashing
  import opened Verify

  ghost predicate UniqueNumbers(ls: seq<Line>) {
    Distinct(Seqs(ls))
  }

  /** `ck_actions_seq_positive`: numbering starts at 1. */
  ghost predicate Numbered(ls: seq<Line>) {
    forall l :: l in ls ==> 1 <= SeqOf(l)
  }

  /**
   A line is sound among `ls`: complete, hashed and bound as stored, and linked
   to the line numbered just before it when that line is there. Nothing is
   asked of the link when the predecessor is absent, except that record 1 has none.
   */
  ghost predicate Sound(ls: seq<Line>, l: Line) {
    l.Full? && Hashed(l.row) && Kept(l.row) && LinkedAmong(ls, l.row)
  }

  /** The self-hash is that of the eight canonical fields, an absent hash read as the empty one. */
  ghost predicate Hashed(row: Row) {
    row.selfHash == OfAction(CanonicalForm(row.actionId, row.sessionId, row.toolName, row.inputHash,
                                           if row.outputHash.Some? then row.outputHash.value else Empty,
                                           if row.prevHash.Some? then row.prevHash.value else Empty,
                                           row.timestamp, row.number))
  }

  /** A payload that is stored hashes to the field the chain protects. */
  ghost predicate Kept(row: Row) {
    && (row.inputRedacted.Some? ==> row.inputHash == OfPayload(row.inputRedacted.value))
    && (row.outputRedacted.Some? ==> row.outputHash == Some(OfPayload(row.outputRedacted.value)))
  }

  /** Record 1 names no predecessor; any other names the record before it, if that is there. */
  ghost predicate LinkedAmong(ls: seq<Line>, row: Row) {
    && (row.number == 1 ==> row.prevHash == None || row.prevHash == Some(Empty))
    && forall p :: p in ls && SeqOf(p) == row.number - 1 ==>
         p.Full? && p.row.selfHash != Empty && row.prevHash == Some(p.row.selfHash)
  }

  ghost predicate AllSound(ls: seq<Line>) {
    forall l :: l in ls ==> Sound(ls, l)
  }

  // ---------- Sorting changes neither the lines nor their numbers ----------

  lemma SortSameLines(ls: seq<Line>)
    ensures |SortLines(ls)| == |ls|
    ensures forall l :: l in SortLines(ls) <==> l in ls
    ensures Elems(Seqs(SortLines(ls))) == Elems(Seqs(ls))
    ensures Missing(Seqs(SortLines(ls))) == Missing(Seqs(ls))
  {
    var s := SortLines(ls);
    assert |multiset(s)| == |multiset(ls)|;
    forall l ensures l in s <==> l in ls {
      assert l in multiset(s) <==> l in multiset(ls);
    }
    NumbersOf(s);
    NumbersOf(ls);
    forall n ensures n in Elems(Seqs(s)) <==> n in Elems(Seqs(ls)) {
    }
    MissingOfSameSet(Seqs(s), Seqs(ls));
  }

  lemma NumbersOf(ls: seq<Line>)
    ensures forall n :: n in Seqs(ls) <==> exists l :: l in ls && SeqOf(l) == n
    ensures forall n :: n in Elems(Seqs(ls)) <==> exists l :: l in ls && SeqOf(l) == n
  {
    forall n ensures n in Seqs(ls) <==> exists l :: l in ls && SeqOf(l) == n {
      if n in Seqs(ls) {
        var i :| 0 <= i < |ls| && Seqs(ls)[i] == n;
        assert ls[i] in ls;
      }
      if l :| l in ls && SeqOf(l) == n {
        var i :| 0 <= i < |ls| && ls[i] == l;
        assert Seqs(ls)[i] == n;
      }
    }
  }

  lemma SortUnique(ls: seq<Line>)
    ensures UniqueNumbers(SortLines(ls)) <==> UniqueNumbers(ls)
  {
    SortSameLines(ls);
    DistinctIffCount(Seqs(ls));
    DistinctIffCount(Seqs(SortLines(ls)));
  }

  // ---------- One step of the walk ----------

  /** On strictly ascending lines, the walk accepts a line exactly when it is sound. */
  lemma StepIsSound(s: seq<Line>, i: nat)
    requires SortedLines(s) && UniqueNumbers(s) && Numbered(s) && i < |s|
    requires 0 < i ==> s[i - 1].Full?
    ensures FailureAt(s, i, Missing(Seqs(s))) == None <==> Sound(s, s[i])
  {
    var n := SeqOf(s[i]);
    assert Seqs(s)[i] == n;
    ExplainsBreakIff(n, Seqs(s));
    NumbersOf(s);
    Neighbour(s, i);
  }

  /** The only line that can carry the number just below is the one just before. */
  lemma Neighbour(s: seq<Line>, i: nat)
    requires SortedLines(s) && UniqueNumbers(s) && Numbered(s) && i < |s|
    ensures forall p :: p in s && SeqOf(p) == SeqOf(s[i]) - 1 ==> 0 < i && p == s[i - 1]
    ensures 0 < i ==> 1 < SeqOf(s[i])
    ensures 0 < i && SeqOf(s[i - 1]) == SeqOf(s[i]) - 1 ==> s[i - 1] in s
  {
    assert forall j, k :: 0 <= j < k < |s| ==> Seqs(s)[j] != Seqs(s)[k];
    forall p | p in s && SeqOf(p) == SeqOf(s[i]) - 1 ensures 0 < i && p == s[i - 1] {
      var j :| 0 <= j < |s| && s[j] == p;
      assert j < i;
      assert SeqOf(s[j]) <= SeqOf(s[i - 1]) <= SeqOf(s[i]);
      assert Seqs(s)[i - 1] != Seqs(s)[i];
      StrictlyBelow(s, j, i - 1);
    }
    if 0 < i {
      assert Seqs(s)[i - 1] != Seqs(s)[i];
      assert s[i - 1] in s;
    }
  }

  lemma StrictlyBelow(s: seq<Line>, j: nat, k: nat)
    requires SortedLines(s) && UniqueNumbers(s) && j <= k < |s|
    ensures j < k ==> SeqOf(s[j]) < SeqOf(s[k])
  {
    assert Seqs(s)[j] != Seqs(s)[k] || j == k;
  }

  // ---------- The meaning of a verdict ----------

  /** `n` is the least number of an unsound line. */
  ghost predicate FirstUnsound(ls: seq<Line>, n: int) {
    && (exists l :: l in ls && SeqOf(l) == n && !Sound(ls, l))
    && (forall l :: l in ls && SeqOf(l) < n ==> Sound(ls, l))
  }

  /**
   The local verdict, stated without sorting or walking: the gaps are the
   maximal absent runs, TAMPERED names the least unsound record, and without
   one the verdict is decided by the gaps alone.
   */
  lemma LocalMeaning(ls: seq<Line>)
    requires UniqueNumbers(ls) && Numbered(ls)
    ensures var r := LocalResult(ls);
            && r.recordCount == |ls|
            && r.missing == Missing(Seqs(ls))
            && Encodes(r.missing, Absent(Seqs(ls)))
    ensures AllSound(ls) ==>
              var r := LocalResult(ls);
              && r.error == None
              && r.verdict == (if Absent(Seqs(ls)) == {} then Valid else Incomplete)
              && (Absent(Seqs(ls)) == {} ==> r.firstInvalid == None)
              && (Absent(Seqs(ls)) != {} ==>
                    && r.firstInvalid.Some?
                    && r.firstInvalid.value in Absent(Seqs(ls))
                    && forall x :: x in Absent(Seqs(ls)) ==> r.firstInvalid.value <= x)
    ensures !AllSound(ls) ==>
              var r := LocalResult(ls);
              r.verdict == Tampered && r.firstInvalid.Some? && FirstUnsound(ls, r.firstInvalid.value)
  {
    var s := SortLines(ls);
    SortSameLines(ls);
    SortUnique(ls);
    MissingEncodes(Seqs(ls));
    MissingEmptyIff(Seqs(ls));
    WalkMeaning(s);
    SoundAmong(ls, s);
    var f := LocalFinding(s);
    assert LocalResult(ls) == Report(s, f);
    assert f.At? ==> FirstUnsound(s, SeqOf(s[f.index]));
  }

  /** Soundness depends on which lines are there, not on their order. */
  lemma SoundAmong(ls: seq<Line>, ks: seq<Line>)
    requires forall l :: l in ls <==> l in ks
    ensures forall l :: Sound(ls, l) <==> Sound(ks, l)
    ensures AllSound(ls) <==> AllSound(ks)
    ensures forall n :: FirstUnsound(ls, n) <==> FirstUnsound(ks, n)
  {
  }

  lemma WalkMeaning(s: seq<Line>)
    requires SortedLines(s) && UniqueNumbers(s) && Numbered(s)
    ensures LocalFinding(s).Clean? ==> AllSound(s)
    ensures LocalFinding(s).At? ==> LocalFinding(s).index < |s| && FirstUnsound(s, SeqOf(s[LocalFinding(s).index]))
  {
    NoRepeat(s);
    var f := LocalWalk(s, Missing(Seqs(s)), 0);
    if f.At? {
      FoundFirst(s, f.index);
    } else {
      PrefixSound(s, |s|);
    }
  }

  lemma NoRepeat(s: seq<Line>)
    requires UniqueNumbers(s)
    ensures RepeatWalk(s, 0).Clean?
  {
    assert forall j :: 0 < j < |s| ==> Seqs(s)[j - 1] != Seqs(s)[j];
  }

  lemma FoundFirst(s: seq<Line>, at: nat)
    requires SortedLines(s) && UniqueNumbers(s) && Numbered(s) && at < |s|
    requires FailureAt(s, at, Missing(Seqs(s))).Some?
    requires forall j :: 0 <= j < at ==> FailureAt(s, j, Missing(Seqs(s))) == None
    ensures FirstUnsound(s, SeqOf(s[at]))
  {
    PrefixSound(s, at);
    assert 0 < at ==> FailureAt(s, at - 1, Missing(Seqs(s))) == None;
    StepIsSound(s, at);
    assert s[at] in s;
    forall l | l in s && SeqOf(l) < SeqOf(s[at]) ensures Sound(s, l) {
      var j :| 0 <= j < |s| && s[j] == l;
      assert j < at;
    }
  }

  lemma PrefixSound(s: seq<Line>, n: nat)
    requires SortedLines(s) && UniqueNumbers(s) && Numbered(s) && n <= |s|
    requires forall j :: 0 <= j < n ==> FailureAt(s, j, Missing(Seqs(s))) == None
    ensures forall j :: 0 <= j < n ==> Sound(s, s[j])
  {
    forall j | 0 <= j < n ensures Sound(s, s[j]) {
      assert 0 < j ==> FailureAt(s, j - 1, Missing(Seqs(s))) == None;
      StepIsSound(s, j);
    }
  }

  /** What is wrong with a line, in the order a verifier looks: a field missing, the hash, the link, a payload. */
  ghost predicate FailsAs(ls: seq<Line>, l: Line, kind: FailureKind) {
    match kind
    case MissingField => l.Lacking?
    case SelfHashMismatch => l.Full? && !Hashed(l.row)
    case PrevHashMismatch => l.Full? && Hashed(l.row) && !LinkedAmong(ls, l.row)
    case PayloadBinding => l.Full? && Hashed(l.row) && LinkedAmong(ls, l.row) && !Kept(l.row)
    case DuplicateSequence => false
  }

  lemma StepFailsAs(s: seq<Line>, i: nat, kind: FailureKind)
    requires SortedLines(s) && UniqueNumbers(s) && Numbered(s) && i < |s|
    requires 0 < i ==> s[i - 1].Full?
    requires FailureAt(s, i, Missing(Seqs(s))) == Some(kind)
    ensures FailsAs(s, s[i], kind)
  {
    var n := SeqOf(s[i]);
    assert Seqs(s)[i] == n;
    ExplainsBreakIff(n, Seqs(s));
    NumbersOf(s);
    Neighbour(s, i);
  }

  lemma FoundKind(s: seq<Line>)
    requires SortedLines(s) && UniqueNumbers(s) && Numbered(s) && LocalFinding(s).At?
    ensures LocalFinding(s).index < |s| && FailsAs(s, s[LocalFinding(s).index], LocalFinding(s).kind)
  {
    NoRepeat(s);
    var at := LocalFinding(s).index;
    assert 0 < at ==> FailureAt(s, at - 1, Missing(Seqs(s))) == None;
    StepFailsAs(s, at, LocalFinding(s).kind);
  }

  /** TAMPERED says what is wrong with the record it names, the least unsound one. */
  lemma KindMeaning(ls: seq<Line>) returns (l: Line)
    requires UniqueNumbers(ls) && Numbered(ls) && !AllSound(ls)
    ensures l in ls && LocalResult(ls).firstInvalid == Some(SeqOf(l)) && !Sound(ls, l)
    ensures LocalResult(ls).error.Some? && FailsAs(ls, l, LocalResult(ls).error.value)
  {
    var s := SortLines(ls);
    SortSameLines(ls);
    SortUnique(ls);
    var f := FindingOf(ls, s);
    FoundKind(s);
    l := s[f.index];
    assert l in s;
    SoundAmong(ls, s);
    UniqueUnsound(s, l);
    FailsAmong(ls, s, l, f.kind);
  }

  lemma FindingOf(ls: seq<Line>, s: seq<Line>) returns (f: Finding)
    requires s == SortLines(ls) && UniqueNumbers(s) && Numbered(s) && SortedLines(s)
    requires !AllSound(ls) && forall l :: l in ls <==> l in s
    ensures f == LocalFinding(s) && f.At? && f.index < |s| && FirstUnsound(s, SeqOf(s[f.index]))
    ensures LocalResult(ls).firstInvalid == Some(SeqOf(s[f.index])) && LocalResult(ls).error == Some(f.kind)
  {
    f := LocalFinding(s);
    WalkMeaning(s);
    SoundAmong(ls, s);
    assert LocalResult(ls) == Report(s, f);
  }

  lemma UniqueUnsound(s: seq<Line>, l: Line)
    requires UniqueNumbers(s) && l in s && FirstUnsound(s, SeqOf(l))
    ensures !Sound(s, l)
  {
    var bad :| bad in s && SeqOf(bad) == SeqOf(l) && !Sound(s, bad);
    var i :| 0 <= i < |s| && s[i] == bad;
    var j :| 0 <= j < |s| && s[j] == l;
    assert Seqs(s)[i] == Seqs(s)[j];
  }

  lemma FailsAmong(ls: seq<Line>, ks: seq<Line>, l: Line, kind: FailureKind)
    requires FailsAs(ks, l, kind) && forall x :: x in ls <==> x in ks
    ensures FailsAs(ls, l, kind)
  {
  }

  /** A repeated number is always TAMPERED, and the gaps are still reported. */
  lemma RepeatIsTampered(ls: seq<Line>)
    requires !UniqueNumbers(ls)
    ensures LocalResult(ls).verdict == Tampered && LocalResult(ls).error == Some(DuplicateSequence)
    ensures LocalResult(ls).missing == Missing(Seqs(ls))
  {
    SortSameLines(ls);
    SortUnique(ls);
    var k := SortedRepeat(SortLines(ls));
    assert LocalFinding(SortLines(ls)) == RepeatWalk(SortLines(ls), 0);
  }

  /** In sorted lines, a repeated number stands right after itself somewhere. */
  lemma SortedRepeat(s: seq<Line>) returns (k: nat)
    requires SortedLines(s) && !UniqueNumbers(s)
    ensures k < |s| && RepeatAt(s, k) && RepeatWalk(s, 0).At?
  {
    var j, i :| 0 <= j < i < |s| && Seqs(s)[j] == Seqs(s)[i];
    k := i;
    RepeatIsSeen(s, k);
    assert Seqs(s[..k])[j] == SeqOf(s[k]);
  }

  /** VALID exactly when the records are sound and numbered 1 to their count; with positive numbers. */
  lemma ValidIff(ls: seq<Line>)
    requires Numbered(ls)
    ensures LocalResult(ls).verdict == Valid <==>
            UniqueNumbers(ls) && AllSound(ls) && forall n :: 1 <= n <= |ls| ==> n in Seqs(ls)
  {
    NumbersOf(ls);
    if !UniqueNumbers(ls) {
      RepeatIsTampered(ls);
    } else if ls != [] {
      LocalMeaning(ls);
      MissingEncodes(Seqs(ls));
      CountIsSize(Missing(Seqs(ls)), Absent(Seqs(ls)));
      assert forall x :: x in Seqs(ls) ==> 1 <= x;
      MissingCountIs(Seqs(ls));
      var top := MaxOf(Seqs(ls));
      if Absent(Seqs(ls)) == {} {
        assert top == |ls|;
      }
      if forall n :: 1 <= n <= |ls| ==> n in Seqs(ls) {
        DenseTop(Seqs(ls));
      }
    }
  }

  /** Distinct positive numbers that include 1..count are exactly those. */
  lemma DenseTop(xs: seq<int>)
    requires xs != [] && Distinct(xs) && forall x :: x in xs ==> 1 <= x
    requires forall n :: 1 <= n <= |xs| ==> n in xs
    ensures MaxOf(xs) == |xs| && Absent(xs) == {}
  {
    DistinctIffCount(xs);
    SpanSize(1, |xs|);
    var dense := Span(Range(1, |xs|));
    assert dense <= Elems(xs);
    assert |Elems(xs) - dense| == |Elems(xs)| - |dense|;
    assert Elems(xs) - dense == {};
    assert MaxOf(xs) in Elems(xs);
    assert |xs| in xs;
  }

  // ---------- The two verifiers agree ----------

  /** Strictly ascending lines are determined by which lines they are. */
  lemma OneSortedOrder(s: seq<Line>, t: seq<Line>)
    requires SortedLines(s) && SortedLines(t) && UniqueNumbers(s)
    requires multiset(s) == multiset(t)
    ensures s == t
  {
    SameNumbers(s, t);
    SortedAscend(s);
    SortedAscend(t);
    AscendingUnique(Seqs(s), Seqs(t));
    forall i | 0 <= i < |s| ensures s[i] == t[i] {
      assert t[i] in multiset(s);
      var j :| 0 <= j < |s| && s[j] == t[i];
      assert Seqs(s)[j] == Seqs(t)[i] == Seqs(s)[i];
    }
  }

  lemma SortedAscend(s: seq<Line>)
    requires SortedLines(s) && UniqueNumbers(s)
    ensures Ascending(Seqs(s))
  {
    forall i, j | 0 <= i < j < |s| ensures Seqs(s)[i] < Seqs(s)[j] {
      StrictlyBelow(s, i, j);
    }
  }

  lemma {:induction false} WalksAgree(s: seq<Line>, gaps: seq<Range>, i: nat)
    requires i <= |s| && forall j :: 0 <= j < |s| ==> !RepeatAt(s, j)
    ensures StoreWalk(s, gaps, i) == LocalWalk(s, gaps, i)
    decreases |s| - i
  {
    if i < |s| {
      WalksAgree(s, gaps, i + 1);
    }
  }

  /**
   The store's verifier and the file verifier agree on every table, whichever
   way the database breaks ties in its ordering: always on the verdict and the
   gaps, and on the whole report when no number repeats.
   */
  lemma VerifiersAgree(table: seq<Row>, actions: seq<Row>)
    requires SortedLines(Lines(actions)) && multiset(Lines(actions)) == multiset(Lines(table))
    ensures StoreResult(actions).verdict == LocalResult(Lines(table)).verdict
    ensures StoreResult(actions).missing == LocalResult(Lines(table)).missing
    ensures UniqueNumbers(Lines(table)) ==> StoreResult(actions) == LocalResult(Lines(table))
  {
    var s, t := Lines(actions), SortLines(Lines(table));
    SortSameLines(Lines(table));
    SortUnique(Lines(table));
    if UniqueNumbers(Lines(table)) {
      OneSortedOrder(t, s);
      NoRepeat(s);
      WalksAgree(s, Missing(Seqs(s)), 0);
    } else {
      RepeatIsTampered(Lines(table));
      SameNumbers(s, Lines(table));
      StoreSeesRepeat(s);
    }
  }

  lemma SameNumbers(s: seq<Line>, t: seq<Line>)
    requires multiset(s) == multiset(t)
    ensures UniqueNumbers(s) <==> UniqueNumbers(t)
    ensures Missing(Seqs(s)) == Missing(Seqs(t))
    ensures |s| == |t| && Elems(Seqs(s)) == Elems(Seqs(t))
  {
    assert |multiset(s)| == |multiset(t)|;
    forall l ensures l in s <==> l in t {
      assert l in multiset(s) <==> l in multiset(t);
    }
    NumbersOf(s);
    NumbersOf(t);
    assert Elems(Seqs(s)) == Elems(Seqs(t));
    MissingOfSameSet(Seqs(s), Seqs(t));
    DistinctIffCount(Seqs(s));
    DistinctIffCount(Seqs(t));
  }

  lemma StoreSeesRepeat(s: seq<Line>)
    requires SortedLines(s) && !UniqueNumbers(s)
    ensures StoreWalk(s, Missing(Seqs(s)), 0).At?
  {
    var k := SortedRepeat(s);
    assert StoreFailureAt(s, k, Missing(Seqs(s))).Some?;
  }

  // ---------- The tip commits to the history ----------

  /** The self-hash of the highest-numbered record. */
  function Tip(ls: seq<Line>): Hash
    requires ls != []
  {
    var last := SortLines(ls)[|ls| - 1];
    if last.Full? then last.row.selfHash else Empty
  }

  lemma ValidWalk(ls: seq<Line>)
    requires LocalResult(ls).verdict == Valid
    ensures Unbroken(SortLines(ls))
  {
    var s := SortLines(ls);
    assert Missing(Seqs(s)) == [] && LocalFinding(s).Clean?;
  }

  /** Every line passes the walk with no gap to excuse it. */
  ghost predicate Unbroken(s: seq<Line>) {
    forall i :: 0 <= i < |s| ==> FailureAt(s, i, []) == None
  }

  /**
   Any two non-empty lists of records that verify VALID and end in the same
   self-hash have the same length and agree on every canonical field of every
   record, and on every redacted payload both of them carry.
   */
  lemma TipCommits(as_: seq<Line>, bs: seq<Line>)
    requires as_ != [] && bs != []
    ensures LocalResult(as_).verdict == Valid && LocalResult(bs).verdict == Valid && Tip(as_) == Tip(bs) ==>
              |as_| == |bs| && SameChain(SortLines(as_), SortLines(bs))
  {
    if LocalResult(as_).verdict == Valid && LocalResult(bs).verdict == Valid && Tip(as_) == Tip(bs) {
      var s := ValidTip(as_);
      var t := ValidTip(bs);
      SameFromTips(s, t);
    }
  }

  lemma SameFromTips(s: seq<Line>, t: seq<Line>)
    requires s != [] && t != [] && Unbroken(s) && Unbroken(t)
    requires s[|s| - 1].Full? && t[|t| - 1].Full? && s[|s| - 1].row.selfHash == t[|t| - 1].row.selfHash
    ensures SameChain(s, t)
  {
    LinkedBack(s, t, |s|, |t|);
  }

  lemma ValidTip(ls: seq<Line>) returns (s: seq<Line>)
    requires ls != [] && LocalResult(ls).verdict == Valid
    ensures s == SortLines(ls) && |s| == |ls| && Unbroken(s)
    ensures s[|s| - 1].Full? && s[|s| - 1].row.selfHash == Tip(ls)
  {
    s := SortLines(ls);
    ValidWalk(ls);
    assert FailureAt(s, |s| - 1, []) == None;
  }

  ghost predicate SameChain(s: seq<Line>, t: seq<Line>) {
    |s| == |t| && forall i :: 0 <= i < |s| ==> s[i].Full? && t[i].Full? && SameHistory(s[i].row, t[i].row)
  }

  ghost predicate SameHistory(a: Row, b: Row) {
    && CanonicalOf(a) == CanonicalOf(b)
    && a.selfHash == b.selfHash
    && (a.inputRedacted.Some? && b.inputRedacted.Some? ==> a.inputRedacted == b.inputRedacted)
    && (a.outputRedacted.Some? && b.outputRedacted.Some? ==> a.outputRedacted == b.outputRedacted)
  }

  /** Walking both chains back from equal hashes: they stay equal and start together. */
  lemma {:induction false} LinkedBack(s: seq<Line>, t: seq<Line>, m: nat, n: nat)
    requires 0 < m <= |s| && 0 < n <= |t|
    requires Unbroken(s) && Unbroken(t)
    requires s[m - 1].Full? && t[n - 1].Full? && s[m - 1].row.selfHash == t[n - 1].row.selfHash
    ensures m == n
    ensures forall i :: 0 <= i < m ==> s[i].Full? && t[i].Full? && SameHistory(s[i].row, t[i].row)
    decreases m
  {
    var a, b := s[m - 1].row, t[n - 1].row;
    assert FailureAt(s, m - 1, []) == None && FailureAt(t, n - 1, []) == None;
    assert SameHistory(a, b);
    CoercionLosesOnlyEmpty(a.prevHash, b.prevHash);
    assert ExpectedPrev(s, m - 1) == ExpectedPrev(t, n - 1);
    if 1 < m {
      assert FailureAt(s, m - 2, []) == None;
    }
    if 1 < n {
      assert FailureAt(t, n - 2, []) == None;
    }
    if 1 < m && 1 < n {
      LinkedBack(s, t, m - 1, n - 1);
    }
  }
}
