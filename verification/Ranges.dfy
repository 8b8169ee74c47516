/**
 Inclusive range lists: the gap report of the verifiers (rootsign/verdict.py)
 and the outcome buckets of sync receipts (rootsign/sdk/receipt.py).

 Both encoders are pinned by one canonical form: `Encodes(rs, A)` determines
 `rs` from the set `A` alone.
 */
module Ranges {
  import opened Common

  datatype Range = Range(lo: int, hi: int)

  // ---------- The canonical form ----------

  ghost predicate Covers(rs: seq<Range>, x: int) {
    exists i :: 0 <= i < |rs| && rs[i].lo <= x <= rs[i].hi
  }

  /** Non-empty ranges, ascending, and never adjacent: every range is a maximal run. */
  ghost predicate Canonical(rs: seq<Range>) {
    && (forall i :: 0 <= i < |rs| ==> rs[i].lo <= rs[i].hi)
    && (forall i, j :: 0 <= i < j < |rs| ==> rs[i].hi + 1 < rs[j].lo)
  }

  ghost predicate Encodes(rs: seq<Range>, A: set<int>) {
    Canonical(rs) && forall x :: x in A <==> Covers(rs, x)
  }

  /** One set has one canonical range list. */
  lemma {:induction false} EncodingUnique(rs: seq<Range>, ts: seq<Range>, A: set<int>)
    requires Encodes(rs, A) && Encodes(ts, A)
    ensures rs == ts
    decreases |rs|
  {
    if rs == [] || ts == [] {
      assert rs != [] ==> Covers(rs, rs[0].lo);
      assert ts != [] ==> Covers(ts, ts[0].lo);
    } else {
      var r, t := rs[|rs| - 1], ts[|ts| - 1];
      LastRange(rs, A);
      LastRange(ts, A);
      assert Covers(rs, r.hi) && Covers(ts, t.hi);
      assert r.hi == t.hi;
      assert r.lo == t.lo by {
        assert r.lo < t.lo ==> Covers(rs, t.lo - 1);
        assert t.lo < r.lo ==> Covers(ts, r.lo - 1);
      }
      DropLast(rs, A);
      DropLast(ts, A);
      EncodingUnique(rs[..|rs| - 1], ts[..|ts| - 1], set x | x in A && x < r.lo);
    }
  }

  lemma LastRange(rs: seq<Range>, A: set<int>)
    requires Encodes(rs, A) && rs != []
    ensures forall x :: x in A ==> x <= rs[|rs| - 1].hi
    ensures rs[|rs| - 1].lo - 1 !in A
    ensures forall x :: rs[|rs| - 1].lo <= x <= rs[|rs| - 1].hi ==> x in A
  {
    forall x | rs[|rs| - 1].lo <= x <= rs[|rs| - 1].hi ensures x in A {
      assert Covers(rs, x);
    }
  }

  lemma DropLast(rs: seq<Range>, A: set<int>)
    requires Encodes(rs, A) && rs != []
    ensures Encodes(rs[..|rs| - 1], set x | x in A && x < rs[|rs| - 1].lo)
  {
    var front, last := rs[..|rs| - 1], rs[|rs| - 1];
    forall x ensures (x in A && x < last.lo) <==> Covers(front, x) {
      if Covers(front, x) {
        var i :| 0 <= i < |front| && front[i].lo <= x <= front[i].hi;
        assert rs[i] == front[i];
        assert Covers(rs, x);
      }
      if x in A && x < last.lo {
        var i :| 0 <= i < |rs| && rs[i].lo <= x <= rs[i].hi;
        assert front[i] == rs[i];
      }
    }
  }

  // ---------- Compression: receipt.compress_ranges ----------

  /** Add `x`, larger than everything encoded so far. */
  function Push(rs: seq<Range>, x: int): seq<Range> {
    if rs != [] && rs[|rs| - 1].hi + 1 == x
    then rs[..|rs| - 1] + [Range(rs[|rs| - 1].lo, x)]
    else rs + [Range(x, x)]
  }

  function Compress(xs: seq<int>): seq<Range> {
    if xs == [] then [] else Push(Compress(xs[..|xs| - 1]), xs[|xs| - 1])
  }

  lemma PushCovers(rs: seq<Range>, x: int, y: int)
    requires Canonical(rs)
    ensures Covers(Push(rs, x), y) <==> Covers(rs, y) || y == x
  {
    var ps := Push(rs, x);
    assert ps[|ps| - 1].hi == x && ps[|ps| - 1].lo <= x;
    if Covers(rs, y) {
      var i :| 0 <= i < |rs| && rs[i].lo <= y <= rs[i].hi;
      assert ps[i].lo <= y <= ps[i].hi;
    }
    if Covers(ps, y) && y != x {
      var i :| 0 <= i < |ps| && ps[i].lo <= y <= ps[i].hi;
      assert rs[i].lo <= y <= rs[i].hi;
    }
  }

  lemma PushCanonical(rs: seq<Range>, x: int)
    requires Canonical(rs) && forall i :: 0 <= i < |rs| ==> rs[i].hi < x
    ensures Canonical(Push(rs, x))
  {
  }

  lemma PushEncodes(rs: seq<Range>, A: set<int>, x: int)
    requires Encodes(rs, A)
    requires forall y :: y in A ==> y < x
    ensures Encodes(Push(rs, x), A + {x})
  {
    forall i | 0 <= i < |rs| ensures rs[i].hi < x {
      assert Covers(rs, rs[i].hi);
    }
    PushCanonical(rs, x);
    forall y ensures y in A + {x} <==> Covers(Push(rs, x), y) {
      PushCovers(rs, x, y);
    }
  }

  lemma {:induction false} CompressEncodes(xs: seq<int>)
    requires Ascending(xs)
    ensures Encodes(Compress(xs), Elems(xs))
  {
    if xs != [] {
      var front, last := xs[..|xs| - 1], xs[|xs| - 1];
      CompressEncodes(front);
      PushEncodes(Compress(front), Elems(front), last);
      assert Elems(front) + {last} == Elems(xs);
    }
  }

  /** How many leading elements are below `x`. */
  function RankOf(x: int, ys: seq<int>, i: nat): (k: nat)
    requires i <= |ys|
    ensures i <= k <= |ys|
    ensures forall j :: i <= j < k ==> ys[j] < x
    ensures k < |ys| ==> x <= ys[k]
    decreases |ys| - i
  {
    if i == |ys| || x <= ys[i] then i else RankOf(x, ys, i + 1)
  }

  function InsertDistinct(x: int, ys: seq<int>): seq<int> {
    var k := RankOf(x, ys, 0);
    if k < |ys| && ys[k] == x then ys else ys[..k] + [x] + ys[k..]
  }

  lemma InsertDistinctAscends(x: int, ys: seq<int>)
    requires Ascending(ys)
    ensures Ascending(InsertDistinct(x, ys))
  {
    var k, r := RankOf(x, ys, 0), InsertDistinct(x, ys);
    if r != ys {
      forall i, j | 0 <= i < j < |r| ensures r[i] < r[j] {
        assert r[i] == if i < k then ys[i] else if i == k then x else ys[i - 1];
        assert r[j] == if j < k then ys[j] else if j == k then x else ys[j - 1];
      }
    }
  }

  lemma InsertDistinctAdds(x: int, ys: seq<int>)
    ensures Elems(InsertDistinct(x, ys)) == Elems(ys) + {x}
  {
    var k := RankOf(x, ys, 0);
    assert ys == ys[..k] + ys[k..];
  }

  /** `sorted(set(positions))`. */
  function SortedDistinct(xs: seq<int>): (ys: seq<int>)
    ensures Ascending(ys) && Elems(ys) == Elems(xs)
  {
    if xs == [] then []
    else
      var rest := SortedDistinct(xs[1..]);
      InsertDistinctAscends(xs[0], rest);
      InsertDistinctAdds(xs[0], rest);
      assert xs == [xs[0]] + xs[1..];
      InsertDistinct(xs[0], rest)
  }

  lemma CompressStep(xs: seq<int>, i: nat)
    requires i < |xs|
    ensures Compress(xs[..i + 1]) == Push(Compress(xs[..i]), xs[i])
  {
    assert xs[..i + 1][..i] == xs[..i];
  }

  lemma PushOnto(rs: seq<Range>, r: Range, x: int)
    ensures Push(rs + [r], x) == if r.hi + 1 == x then rs + [Range(r.lo, x)] else rs + [r] + [Range(x, x)]
  {
    assert (rs + [r])[..|rs|] == rs;
  }

  method CompressRanges(positions: seq<int>) returns (ranges: seq<Range>)
    ensures ranges == Compress(SortedDistinct(positions))
    ensures Encodes(ranges, Elems(positions))
  {
    var ordered := SortedDistinct(positions);
    CompressEncodes(ordered);
    if ordered == [] {
      return [];
    }
    ranges := [];
    var start, previous := ordered[0], ordered[0];
    CompressStep(ordered, 0);
    for i := 1 to |ordered|
      invariant ranges + [Range(start, previous)] == Compress(ordered[..i])
    {
      var position := ordered[i];
      CompressStep(ordered, i);
      PushOnto(ranges, Range(start, previous), position);
      if position == previous + 1 {
        previous := position;
      } else {
        ranges := ranges + [Range(start, previous)];
        start, previous := position, position;
      }
    }
    assert ordered[..|ordered|] == ordered;
    ranges := ranges + [Range(start, previous)];
  }

  // ---------- Expansion: receipt.expand_ranges ----------

  /** `range(lo, hi + 1)`. */
  function Span(r: Range): (s: set<int>)
    ensures forall x :: x in s <==> r.lo <= x <= r.hi
    decreases r.hi - r.lo
  {
    if r.hi < r.lo then {} else Span(Range(r.lo, r.hi - 1)) + {r.hi}
  }

  function Expand(rs: seq<Range>): set<int> {
    if rs == [] then {} else Expand(rs[..|rs| - 1]) + Span(rs[|rs| - 1])
  }

  lemma {:induction false} ExpandCovers(rs: seq<Range>)
    ensures forall x :: x in Expand(rs) <==> Covers(rs, x)
  {
    if rs != [] {
      var front := rs[..|rs| - 1];
      ExpandCovers(front);
      forall x ensures x in Expand(rs) <==> Covers(rs, x) {
        if Covers(front, x) {
          var i :| 0 <= i < |front| && front[i].lo <= x <= front[i].hi;
          assert rs[i] == front[i];
        }
        if Covers(rs, x) {
          var i :| 0 <= i < |rs| && rs[i].lo <= x <= rs[i].hi;
          assert i < |front| ==> front[i] == rs[i];
        }
      }
    }
  }

  method ExpandRanges(ranges: seq<Range>) returns (out: set<int>)
    ensures out == Expand(ranges)
    ensures forall x :: x in out <==> Covers(ranges, x)
  {
    out := {};
    for i := 0 to |ranges|
      invariant out == Expand(ranges[..i])
    {
      assert ranges[..i + 1][..i] == ranges[..i];
      out := out + Span(ranges[i]);
    }
    assert ranges[..|ranges|] == ranges;
    ExpandCovers(ranges);
  }

  /** `expand_ranges(compress_ranges(xs)) == set(xs)`. */
  lemma ExpandAfterCompress(xs: seq<int>)
    ensures Expand(Compress(SortedDistinct(xs))) == Elems(xs)
  {
    CompressEncodes(SortedDistinct(xs));
    ExpandCovers(Compress(SortedDistinct(xs)));
  }

  /** The other direction: every canonical list is what compressing its expansion gives back. */
  lemma CompressAfterExpand(rs: seq<Range>, xs: seq<int>)
    requires Canonical(rs) && Elems(xs) == Expand(rs)
    ensures Compress(SortedDistinct(xs)) == rs
  {
    ExpandCovers(rs);
    CompressEncodes(SortedDistinct(xs));
    EncodingUnique(Compress(SortedDistinct(xs)), rs, Elems(xs));
  }

  // ---------- Gaps: verdict.missing_ranges, explains_break, missing_count ----------

  function MaxOf(xs: seq<int>): (m: int)
    requires xs != []
    ensures m in xs && forall x :: x in xs ==> x <= m
  {
    if |xs| == 1 then xs[0]
    else
      var rest := MaxOf(xs[1..]);
      assert forall x :: x in xs <==> x == xs[0] || x in xs[1..];
      Max(xs[0], rest)
  }

  /** The numbers of 1..n that are not present, ascending. */
  function AbsentUpTo(present: set<int>, n: int): seq<int>
    decreases if n < 0 then 0 else n
  {
    if n < 1 then []
    else if n in present then AbsentUpTo(present, n - 1)
    else AbsentUpTo(present, n - 1) + [n]
  }

  lemma {:induction false} AbsentAscends(present: set<int>, n: int)
    ensures Ascending(AbsentUpTo(present, n))
    ensures forall x :: x in AbsentUpTo(present, n) <==> 1 <= x <= n && x !in present
    decreases if n < 0 then 0 else n
  {
    if 1 <= n {
      AbsentAscends(present, n - 1);
      var below := AbsentUpTo(present, n - 1);
      assert forall i :: 0 <= i < |below| ==> below[i] in below;
    }
  }

  /** The sequence numbers a dense chain up to the largest one present would also hold. */
  ghost function Absent(xs: seq<int>): (A: set<int>)
    ensures forall x :: x in A <==> xs != [] && 1 <= x <= MaxOf(xs) && x !in xs
  {
    if xs == [] then {} else set x | 1 <= x <= MaxOf(xs) && x !in xs
  }

  function Missing(xs: seq<int>): seq<Range> {
    if xs == [] then [] else Compress(AbsentUpTo(Elems(xs), MaxOf(xs)))
  }

  lemma MissingEncodes(xs: seq<int>)
    ensures Encodes(Missing(xs), Absent(xs))
  {
    if xs != [] {
      var absent := AbsentUpTo(Elems(xs), MaxOf(xs));
      AbsentAscends(Elems(xs), MaxOf(xs));
      CompressEncodes(absent);
      assert Elems(absent) == Absent(xs);
    }
  }

  /** The gap report depends on which numbers are present, not on order or repetition. */
  lemma MissingOfSameSet(xs: seq<int>, ys: seq<int>)
    requires Elems(xs) == Elems(ys)
    ensures Missing(xs) == Missing(ys)
  {
    assert forall x :: x in xs <==> x in Elems(xs);
    assert forall y :: y in ys <==> y in Elems(ys);
    assert ys != [] ==> ys[0] in xs;
    assert xs != [] ==> xs[0] in ys;
    assert xs != [] ==> MaxOf(xs) == MaxOf(ys);
  }

  /** The state of the gap scan just before `candidate`: closed runs, and the run still open. */
  ghost predicate ScannedTo(present: set<int>, candidate: int, ranges: seq<Range>, start: Option<int>) {
    && Compress(AbsentUpTo(present, candidate - 1)) ==
       (if start.Some? then ranges + [Range(start.value, candidate - 1)] else ranges)
    && (start.None? ==> ranges == [] || ranges[|ranges| - 1].hi + 1 < candidate)
  }

  lemma ScanAbsent(present: set<int>, candidate: int, ranges: seq<Range>, start: Option<int>)
    requires 1 <= candidate && candidate !in present
    requires ScannedTo(present, candidate, ranges, start)
    ensures ScannedTo(present, candidate + 1, ranges, Some(if start.Some? then start.value else candidate))
  {
    var below := AbsentUpTo(present, candidate - 1);
    assert AbsentUpTo(present, candidate) == below + [candidate];
    assert (below + [candidate])[..|below|] == below;
    assert start.Some? ==> (ranges + [Range(start.value, candidate - 1)])[..|ranges|] == ranges;
  }

  lemma ScanPresent(present: set<int>, candidate: int, ranges: seq<Range>, start: Option<int>)
    requires 1 <= candidate && candidate in present
    requires ScannedTo(present, candidate, ranges, start)
    ensures ScannedTo(present, candidate + 1,
                      if start.Some? then ranges + [Range(start.value, candidate - 1)] else ranges, None)
  {
    var below := AbsentUpTo(present, candidate - 1);
    AbsentAscends(present, candidate - 1);
    CompressEncodes(below);
    LastBelow(Compress(below), below, candidate);
  }

  lemma LastBelow(rs: seq<Range>, xs: seq<int>, bound: int)
    requires Encodes(rs, Elems(xs)) && forall x :: x in xs ==> x < bound
    ensures rs == [] || rs[|rs| - 1].hi < bound
  {
    assert rs != [] ==> Covers(rs, rs[|rs| - 1].hi);
  }

  lemma ScanStarts(present: set<int>)
    ensures ScannedTo(present, 1, [], None)
  {
  }

  /** The scan has passed the largest number, or there is nothing from 1 on to scan. */
  lemma ScanEnds(sequences: seq<int>, candidate: int, ranges: seq<Range>)
    requires sequences != [] && ScannedTo(Elems(sequences), candidate, ranges, None)
    requires candidate == MaxOf(sequences) + 1 || MaxOf(sequences) < 1 == candidate
    ensures ranges == Missing(sequences)
  {
    assert candidate == 1 ==> AbsentUpTo(Elems(sequences), candidate - 1) == [];
    assert MaxOf(sequences) < 1 ==> AbsentUpTo(Elems(sequences), MaxOf(sequences)) == [];
  }

  method MissingRanges(sequences: seq<int>) returns (ranges: seq<Range>)
    ensures ranges == Missing(sequences)
    ensures Encodes(ranges, Absent(sequences))
  {
    if sequences == [] {
      MissingEncodes(sequences);
      return [];
    }
    ranges := ScanGaps(Elems(sequences), MaxOf(sequences));
    ScanEnds(sequences, if MaxOf(sequences) < 1 then 1 else MaxOf(sequences) + 1, ranges);
    MissingEncodes(sequences);
  }

  /** The loop over `1..top`, where `top` is present. */
  method ScanGaps(present: set<int>, top: int) returns (ranges: seq<Range>)
    requires top in present
    ensures ScannedTo(present, if top < 1 then 1 else top + 1, ranges, None)
  {
    ranges := [];
    var start: Option<int> := None;
    var candidate := 1;
    ScanStarts(present);
    while candidate <= top
      invariant 1 <= candidate && (candidate <= top + 1 || candidate == 1)
      invariant ScannedTo(present, candidate, ranges, start)
      invariant top < candidate ==> start.None?
    {
      ranges, start := ScanOne(present, candidate, ranges, start);
      candidate := candidate + 1;
    }
  }

  /** One turn of the gap scan. */
  method ScanOne(present: set<int>, candidate: int, ranges: seq<Range>, start: Option<int>)
    returns (ranges': seq<Range>, start': Option<int>)
    requires 1 <= candidate && ScannedTo(present, candidate, ranges, start)
    ensures ScannedTo(present, candidate + 1, ranges', start')
    ensures candidate in present ==> start'.None?
  {
    ranges', start' := ranges, start;
    if candidate in present {
      ScanPresent(present, candidate, ranges, start);
      if start.Some? {
        ranges' := ranges + [Range(start.value, candidate - 1)];
        start' := None;
      }
    } else {
      ScanAbsent(present, candidate, ranges, start);
      if start.None? {
        start' := Some(candidate);
      }
    }
  }

  /** True when the record at `s` sits immediately after a gap. */
  predicate ExplainsBreak(s: int, ranges: seq<Range>) {
    exists i :: 0 <= i < |ranges| && ranges[i].hi == s - 1
  }

  lemma ExplainsBreakIff(s: int, xs: seq<int>)
    requires s in xs
    ensures ExplainsBreak(s, Missing(xs)) <==> 1 < s && s - 1 !in xs
  {
    var rs := Missing(xs);
    MissingEncodes(xs);
    if ExplainsBreak(s, rs) {
      var i :| 0 <= i < |rs| && rs[i].hi == s - 1;
      assert Covers(rs, s - 1);
    }
    if 1 < s && s - 1 !in xs {
      assert s - 1 in Absent(xs);
      assert Covers(rs, s - 1);
      var i :| 0 <= i < |rs| && rs[i].lo <= s - 1 <= rs[i].hi;
      assert rs[i].hi == s - 1 by {
        assert s <= rs[i].hi ==> Covers(rs, s);
      }
    }
  }

  /** Nothing is missing exactly when the numbers present are dense from 1. */
  lemma MissingEmptyIff(xs: seq<int>)
    ensures Missing(xs) == [] <==> Absent(xs) == {}
    ensures Missing(xs) != [] ==> Missing(xs)[0].lo in Absent(xs)
    ensures Missing(xs) != [] ==> forall x :: x in Absent(xs) ==> Missing(xs)[0].lo <= x
  {
    var rs := Missing(xs);
    MissingEncodes(xs);
    if rs != [] {
      assert Covers(rs, rs[0].lo);
    }
    if Absent(xs) != {} {
      var x :| x in Absent(xs);
      assert Covers(rs, x);
    }
  }

  function MissingCount(ranges: seq<Range>): int {
    if ranges == [] then 0
    else MissingCount(ranges[..|ranges| - 1]) + ranges[|ranges| - 1].hi - ranges[|ranges| - 1].lo + 1
  }

  lemma {:induction false} SpanSize(lo: int, hi: int)
    requires lo <= hi + 1
    ensures |Span(Range(lo, hi))| == hi - lo + 1
    decreases hi - lo + 1
  {
    if lo <= hi {
      SpanSize(lo, hi - 1);
      var below := Span(Range(lo, hi - 1));
      OneMore(below, hi);
      assert Span(Range(lo, hi)) == below + {hi};
    } else {
      assert Span(Range(lo, hi)) == {};
    }
  }

  lemma OneMore(A: set<int>, x: int)
    requires x !in A
    ensures |A + {x}| == |A| + 1
  {
  }

  lemma {:induction false} CountIsSize(rs: seq<Range>, A: set<int>)
    requires Encodes(rs, A)
    ensures MissingCount(rs) == |A|
  {
    if rs == [] {
      assert forall x :: x in A ==> Covers(rs, x);
      assert A == {};
    } else {
      var last := rs[|rs| - 1];
      var lower := set x | x in A && x < last.lo;
      DropLast(rs, A);
      CountIsSize(rs[..|rs| - 1], lower);
      LastRange(rs, A);
      SpanSize(last.lo, last.hi);
      assert A == lower + Span(last);
    }
  }

  lemma DenseSplit(xs: seq<int>)
    requires xs != [] && forall x :: x in xs ==> 1 <= x
    ensures Span(Range(1, MaxOf(xs))) == Absent(xs) + Elems(xs)
    ensures Absent(xs) !! Elems(xs)
  {
    forall x ensures x in Span(Range(1, MaxOf(xs))) <==> x in Absent(xs) + Elems(xs) {
      assert x in Elems(xs) <==> x in xs;
    }
  }

  /** With distinct positive numbers, the number missing is the largest minus how many are there. */
  lemma MissingCountIs(xs: seq<int>)
    requires xs != [] && Distinct(xs) && forall x :: x in xs ==> 1 <= x
    ensures MissingCount(Missing(xs)) == MaxOf(xs) - |xs|
  {
    MissingEncodes(xs);
    CountIsSize(Missing(xs), Absent(xs));
    DistinctIffCount(xs);
    SpanSize(1, MaxOf(xs));
    DenseSplit(xs);
  }
}
