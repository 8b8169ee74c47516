/**
 Client-side sealing (rootsign/chain_state.py), and what the verifier says
 about every sub-collection and every forgery of a sealed chain.
 */
module Chains {
  import opened Common
  import opened Ranges
  import opened Hashing
  import opened Wire
  import opened Verify
  import opened Verdicts

  /** A session's chain tail: hash of the newest record, and how many were sealed. */
  datatype Tail = Tail(hash: Option<Hash>, count: nat)

  const FRESH := Tail(None, 0)

  datatype SealedAction = SealedAction(actionId: Id, number: int, prevHash: Option<Hash>, selfHash: Hash)

  datatype SealError = PartiallySealed | IncompleteSeal

  datatype Sealing = Sealing(seal: SealedAction, tail: Tail)

  predicate IsSealed(p: ActionPayload) {
    p.selfHash.Some?
  }

  predicate Unsealed(p: ActionPayload) {
    p.actionId.None? && p.number.None? && p.prevHash.None? && p.selfHash.None?
  }

  /** The row an action becomes under a seal. A missing status is written as auto-authorized. */
  function RowOf(session: Id, p: ActionPayload, seal: SealedAction): Row {
    Row(seal.actionId, session, p.toolName, p.inputHash, p.outputHash, seal.prevHash, p.timestamp, seal.number,
        seal.selfHash, p.inputRedacted, p.outputRedacted, if p.auth.Some? then p.auth.value else AutoAuthorized)
  }

  function WithSeal(p: ActionPayload, seal: SealedAction): ActionPayload {
    p.(actionId := Some(seal.actionId), number := Some(seal.number),
       prevHash := seal.prevHash, selfHash := Some(seal.selfHash))
  }

  function Mint(t: Tail, session: Id, newId: Id, p: ActionPayload): Sealing {
    var blank := SealedAction(newId, t.count + 1, t.hash, Empty);
    var selfHash := SelfHash(RowOf(session, p, blank));
    Sealing(blank.(selfHash := selfHash), Tail(Some(selfHash), t.count + 1))
  }

  /** Take over a seal the payload already carries: the tail always, the count only upwards. */
  function Adopt(t: Tail, p: ActionPayload): Result<Sealing, SealError>
    requires IsSealed(p)
  {
    if p.actionId.None? || p.number.None? then Err(IncompleteSeal)
    else
      var seal := SealedAction(p.actionId.value, p.number.value, p.prevHash, p.selfHash.value);
      Ok(Sealing(seal, Tail(p.selfHash, Max(t.count, seal.number))))
  }

  function SealPayload(t: Tail, session: Id, newId: Id, p: ActionPayload): Result<Sealing, SealError> {
    if IsSealed(p) then Adopt(t, p)
    else if !Unsealed(p) then Err(PartiallySealed)
    else Ok(Mint(t, session, newId, p))
  }

  /**
   An action without a self-hash is sealed if it carries no other part of a seal: next
   number, previous tail, and the hash of its canonical fields, which becomes the tail.
   One with a self-hash is taken over if it has an id and a number. Nothing else is sealed.
   */
  lemma SealMeaning(t: Tail, session: Id, newId: Id, p: ActionPayload)
    ensures SealPayload(t, session, newId, p) == Err(PartiallySealed) <==>
              p.selfHash.None? && (p.actionId.Some? || p.number.Some? || p.prevHash.Some?)
    ensures SealPayload(t, session, newId, p) == Err(IncompleteSeal) <==>
              p.selfHash.Some? && (p.actionId.None? || p.number.None?)
    ensures SealPayload(t, session, newId, p).Ok? ==>
              var s := SealPayload(t, session, newId, p).value;
              && s.tail.hash == Some(s.seal.selfHash)
              && (p.selfHash.None? ==>
                    && s.seal.actionId == newId && s.seal.number == t.count + 1 == s.tail.count && s.seal.prevHash == t.hash
                    && s.seal.selfHash == OfAction(CanonicalForm(newId, session, p.toolName, p.inputHash,
                                                                 if p.outputHash.Some? then p.outputHash.value else Empty,
                                                                 if t.hash.Some? then t.hash.value else Empty,
                                                                 p.timestamp, t.count + 1)))
              && (p.selfHash.Some? ==>
                    && p.actionId == Some(s.seal.actionId) && p.number == Some(s.seal.number)
                    && p.prevHash == s.seal.prevHash && p.selfHash == Some(s.seal.selfHash)
                    && s.tail.count == if t.count < s.seal.number then s.seal.number else t.count)
  {
  }

  class ChainState {
    var tail: Option<Hash>
    var count: nat

    constructor (t: Tail)
      ensures View() == t
    {
      tail, count := t.hash, t.count;
    }

    function View(): Tail
      reads this
    {
      Tail(tail, count)
    }

    method Seal(session: Id, newId: Id, p: ActionPayload) returns (r: Result<SealedAction, SealError>)
      modifies this
      ensures var spec := SealPayload(old(View()), session, newId, p);
              if spec.Ok? then r == Ok(spec.value.seal) && View() == spec.value.tail
              else r == Err(spec.error) && View() == old(View())
    {
      if IsSealed(p) {
        r := AdoptSeal(p);
        return;
      }
      if p.actionId.Some? || p.number.Some? || p.prevHash.Some? {
        return Err(PartiallySealed);
      }
      var number := count + 1;
      var blank := SealedAction(newId, number, tail, Empty);
      var selfHash := SelfHash(RowOf(session, p, blank));
      tail := Some(selfHash);
      count := number;
      r := Ok(blank.(selfHash := selfHash));
    }

    method AdoptSeal(p: ActionPayload) returns (r: Result<SealedAction, SealError>)
      requires IsSealed(p)
      modifies this
      ensures var spec := Adopt(old(View()), p);
              if spec.Ok? then r == Ok(spec.value.seal) && View() == spec.value.tail
              else r == Err(spec.error) && View() == old(View())
    {
      if p.actionId.None? || p.number.None? {
        return Err(IncompleteSeal);
      }
      tail := p.selfHash;
      count := Max(count, p.number.value);
      r := Ok(SealedAction(p.actionId.value, p.number.value, p.prevHash, p.selfHash.value));
    }
  }

  // ---------- Sealed chains ----------

  /** Row `i` is number `i + 1`, hashed as stored, and linked to the row before. */
  ghost predicate LinkedRow(rows: seq<Row>, i: int) {
    && 0 <= i < |rows|
    && rows[i].number == i + 1
    && rows[i].selfHash == SelfHash(rows[i])
    && rows[i].prevHash == (if i == 0 then None else Some(rows[i - 1].selfHash))
  }

  ghost predicate Linked(rows: seq<Row>) {
    forall i :: 0 <= i < |rows| ==> LinkedRow(rows, i)
  }

  /** A linked row whose stored payloads match their hashes. */
  ghost predicate ChainRow(rows: seq<Row>, i: int) {
    LinkedRow(rows, i) && Bound(rows[i])
  }

  ghost predicate IsChain(rows: seq<Row>) {
    forall i :: 0 <= i < |rows| ==> ChainRow(rows, i)
  }

  function TailOf(rows: seq<Row>): Tail {
    if rows == [] then FRESH else Tail(Some(rows[|rows| - 1].selfHash), |rows|)
  }

  ghost predicate BoundPayload(p: ActionPayload) {
    && (p.inputRedacted.Some? ==> PayloadHash(p.inputRedacted.value) == p.inputHash)
    && (p.outputRedacted.Some? ==> Some(PayloadHash(p.outputRedacted.value)) == p.outputHash)
  }

  /** Minting onto the tail of linked rows links the next one, whatever the payload. */
  lemma MintLinks(rows: seq<Row>, session: Id, newId: Id, p: ActionPayload)
    requires Linked(rows)
    ensures var m := Mint(TailOf(rows), session, newId, p);
            var longer := rows + [RowOf(session, p, m.seal)];
            Linked(longer) && m.tail == TailOf(longer)
  {
    var row := RowOf(session, p, Mint(TailOf(rows), session, newId, p).seal);
    var longer := rows + [row];
    forall i | 0 <= i < |longer| ensures LinkedRow(longer, i) {
      if i < |rows| {
        assert LinkedRow(rows, i);
        assert longer[i] == rows[i];
        assert 0 < i ==> longer[i - 1] == rows[i - 1];
      } else {
        assert row.selfHash == SelfHash(row);
        assert 0 < i ==> longer[i - 1] == rows[i - 1];
      }
    }
  }

  /** Minting onto the tail of a chain gives its next row. */
  lemma MintExtends(rows: seq<Row>, session: Id, newId: Id, p: ActionPayload)
    requires IsChain(rows) && BoundPayload(p)
    ensures var m := Mint(TailOf(rows), session, newId, p);
            var longer := rows + [RowOf(session, p, m.seal)];
            IsChain(longer) && m.tail == TailOf(longer)
  {
    forall i | 0 <= i < |rows| ensures LinkedRow(rows, i) {
      assert ChainRow(rows, i);
    }
    MintLinks(rows, session, newId, p);
    var longer := rows + [RowOf(session, p, Mint(TailOf(rows), session, newId, p).seal)];
    forall i | 0 <= i < |longer| ensures ChainRow(longer, i) {
      assert LinkedRow(longer, i);
      assert i < |rows| ==> ChainRow(rows, i) && longer[i] == rows[i];
    }
  }

  /** Sealing a run of payloads from a fresh state, one id for each. */
  function SealRun(session: Id, ids: seq<Id>, payloads: seq<ActionPayload>): (rows: seq<Row>)
    requires |ids| == |payloads|
    ensures |rows| == |payloads|
  {
    if payloads == [] then []
    else
      var n := |payloads| - 1;
      var before := SealRun(session, ids[..n], payloads[..n]);
      before + [RowOf(session, payloads[n], Mint(TailOf(before), session, ids[n], payloads[n]).seal)]
  }

  lemma {:induction false} SealRunIsChain(session: Id, ids: seq<Id>, payloads: seq<ActionPayload>)
    requires |ids| == |payloads| && forall p :: p in payloads ==> BoundPayload(p)
    ensures IsChain(SealRun(session, ids, payloads))
  {
    if payloads != [] {
      var n := |payloads| - 1;
      SealRunIsChain(session, ids[..n], payloads[..n]);
      MintExtends(SealRun(session, ids[..n], payloads[..n]), session, ids[n], payloads[n]);
    }
  }

  // ---------- Any part of a chain, in any order ----------

  ghost predicate PartOf(picked: seq<Line>, chain: seq<Row>) {
    Distinct(picked) && forall l :: l in picked ==> l.Full? && l.row in chain
  }

  lemma PartIsSound(chain: seq<Row>, picked: seq<Line>)
    requires IsChain(chain) && PartOf(picked, chain)
    ensures UniqueNumbers(picked) && Numbered(picked) && AllSound(picked)
  {
    forall l | l in picked ensures ChainRow(chain, SeqOf(l) - 1) && l == Full(chain[SeqOf(l) - 1]) {
      var i :| 0 <= i < |chain| && chain[i] == l.row;
      assert ChainRow(chain, i);
    }
    forall i, j | 0 <= i < j < |picked| ensures Seqs(picked)[i] != Seqs(picked)[j] {
      assert picked[i] in picked && picked[j] in picked;
    }
    forall l | l in picked ensures Sound(picked, l) {
      assert ChainRow(chain, SeqOf(l) - 1);
      forall p | p in picked && SeqOf(p) == SeqOf(l) - 1
        ensures p.Full? && OrNone(l.row.prevHash) == Some(p.row.selfHash)
      {
        assert ChainRow(chain, SeqOf(p) - 1);
      }
    }
  }

  /**
   Any non-empty part of a sealed chain, in any order, is never TAMPERED: it is
   VALID exactly when it is the records 1..k, and otherwise INCOMPLETE with the
   maximal absent runs and the least absent number.
   */
  lemma PartVerdict(chain: seq<Row>, picked: seq<Line>)
    requires IsChain(chain) && PartOf(picked, chain)
    ensures LocalResult(picked).verdict == Valid <==> forall n :: 1 <= n <= |picked| ==> n in Seqs(picked)
    ensures LocalResult(picked).verdict != Valid ==>
              var r := LocalResult(picked);
              && r.verdict == Incomplete
              && r.firstInvalid.Some? && r.firstInvalid.value in Absent(Seqs(picked))
              && forall x :: x in Absent(Seqs(picked)) ==> r.firstInvalid.value <= x
    ensures Encodes(LocalResult(picked).missing, Absent(Seqs(picked)))
  {
    PartIsSound(chain, picked);
    LocalMeaning(picked);
    ValidIff(picked);
  }

  /** In a part of a chain, number `n` is there exactly when row `n` is. */
  lemma PartNumbers(chain: seq<Row>, picked: seq<Line>)
    requires IsChain(chain) && PartOf(picked, chain)
    ensures forall n :: n in Seqs(picked) ==> 1 <= n <= |chain|
    ensures forall n :: 1 <= n <= |chain| ==> (n in Seqs(picked) <==> Full(chain[n - 1]) in picked)
  {
    NumbersOf(picked);
    forall l | l in picked ensures 1 <= SeqOf(l) <= |chain| && l == Full(chain[SeqOf(l) - 1]) {
      var i :| 0 <= i < |chain| && chain[i] == l.row;
      assert ChainRow(chain, i);
    }
    forall n | 1 <= n <= |chain| ensures n in Seqs(picked) <==> Full(chain[n - 1]) in picked {
      assert ChainRow(chain, n - 1);
    }
  }

  /** The numbers reported missing are those of the chain's rows below the largest present that are not there. */
  lemma MissingFromPart(chain: seq<Row>, picked: seq<Line>)
    requires IsChain(chain) && PartOf(picked, chain)
    ensures forall n :: Covers(LocalResult(picked).missing, n) <==>
              picked != [] && 1 <= n <= |chain| && n < MaxOf(Seqs(picked)) && Full(chain[n - 1]) !in picked
  {
    PartVerdict(chain, picked);
    PartNumbers(chain, picked);
    if picked != [] {
      assert MaxOf(Seqs(picked)) in Seqs(picked);
    }
  }

  lemma WholeIsPart(chain: seq<Row>)
    requires IsChain(chain)
    ensures PartOf(Lines(chain), chain)
  {
    var ls := Lines(chain);
    forall i, j | 0 <= i < j < |ls| ensures ls[i] != ls[j] {
      assert ChainRow(chain, i) && ChainRow(chain, j);
    }
    forall l | l in ls ensures l.Full? && l.row in chain {
      var i :| 0 <= i < |ls| && ls[i] == l;
      assert chain[i] in chain;
    }
  }

  lemma ChainAscends(chain: seq<Row>)
    requires IsChain(chain)
    ensures Ascending(Seqs(Lines(chain)))
  {
    forall i, j | 0 <= i < j < |chain| ensures Seqs(Lines(chain))[i] < Seqs(Lines(chain))[j] {
      assert ChainRow(chain, i) && ChainRow(chain, j);
    }
  }

  /** A whole chain verifies VALID. */
  lemma ChainIsValid(chain: seq<Row>)
    requires IsChain(chain)
    ensures LocalResult(Lines(chain)).verdict == Valid && StoreResult(chain).verdict == Valid
  {
    var ls := Lines(chain);
    WholeIsPart(chain);
    ChainAscends(chain);
    PartVerdict(chain, ls);
    forall n | 1 <= n <= |ls| ensures n in Seqs(ls) {
      assert ChainRow(chain, n - 1) && Seqs(ls)[n - 1] == n;
    }
    VerifiersAgree(chain, chain);
  }

  ghost predicate AllBound(rows: seq<Row>) {
    forall i :: 0 <= i < |rows| ==> Bound(rows[i])
  }

  lemma LinkedSound(rows: seq<Row>, i: nat)
    requires Linked(rows) && i < |rows|
    ensures Sound(Lines(rows), Lines(rows)[i]) <==> Bound(rows[i])
  {
    var ls := Lines(rows);
    assert LinkedRow(rows, i);
    assert 0 < i ==> LinkedRow(rows, i - 1) && ls[i - 1] in ls;
    forall p | p in ls && SeqOf(p) == i ensures 0 < i && p == ls[i - 1] {
      var j :| 0 <= j < |ls| && ls[j] == p;
      assert LinkedRow(rows, j);
    }
  }

  lemma LinkedNumbers(rows: seq<Row>)
    requires Linked(rows)
    ensures UniqueNumbers(Lines(rows)) && Numbered(Lines(rows)) && SortedLines(Lines(rows))
    ensures Absent(Seqs(Lines(rows))) == {} && Missing(Seqs(Lines(rows))) == []
    ensures forall l :: l in Lines(rows) ==> 1 <= SeqOf(l) <= |rows| && l == Lines(rows)[SeqOf(l) - 1]
  {
    var ls := Lines(rows);
    forall i | 0 <= i < |rows| ensures Seqs(ls)[i] == i + 1 {
      assert LinkedRow(rows, i);
    }
    forall l | l in ls ensures 1 <= SeqOf(l) <= |rows| && l == ls[SeqOf(l) - 1] {
      var i :| 0 <= i < |ls| && ls[i] == l;
      assert Seqs(ls)[i] == i + 1;
    }
    forall x ensures x !in Absent(Seqs(ls)) {
      assert 1 <= x <= |rows| ==> Seqs(ls)[x - 1] == x;
    }
    MissingEmptyIff(Seqs(ls));
    if rows != [] {
      assert Seqs(ls)[0] == 1;
      MissingEncodes(Seqs(ls));
    }
  }

  lemma BoundBelow(rows: seq<Row>, n: int, i: nat)
    requires Linked(rows) && FirstUnsound(Lines(rows), n) && i < |rows| && i + 1 < n
    ensures Bound(rows[i])
  {
    LinkedSound(rows, i);
    assert LinkedRow(rows, i);
    assert Lines(rows)[i] in Lines(rows);
  }

  lemma LineSound(rows: seq<Row>, l: Line)
    requires Linked(rows) && l in Lines(rows)
    ensures 1 <= SeqOf(l) <= |rows|
    ensures Sound(Lines(rows), l) <==> Bound(rows[SeqOf(l) - 1])
  {
    var i :| 0 <= i < |rows| && Lines(rows)[i] == l;
    assert LinkedRow(rows, i);
    LinkedSound(rows, i);
  }

  lemma UnsoundAt(rows: seq<Row>, n: int)
    requires Linked(rows) && FirstUnsound(Lines(rows), n)
    ensures 1 <= n <= |rows| && !Bound(rows[n - 1])
  {
    var ls := Lines(rows);
    var l :| l in ls && SeqOf(l) == n && !Sound(ls, l);
    LineSound(rows, l);
  }

  lemma LinkedUnsound(rows: seq<Row>, n: int)
    requires Linked(rows) && FirstUnsound(Lines(rows), n)
    ensures 1 <= n <= |rows| && !Bound(rows[n - 1]) && AllBound(rows[..n - 1])
  {
    UnsoundAt(rows, n);
    forall i | 0 <= i < n - 1 ensures Bound(rows[i]) {
      BoundBelow(rows, n, i);
    }
  }

  lemma LinkedAllSound(rows: seq<Row>)
    requires Linked(rows)
    ensures AllSound(Lines(rows)) <==> AllBound(rows)
  {
    var ls := Lines(rows);
    LinkedNumbers(rows);
    forall i | 0 <= i < |rows| ensures ls[i] in ls && (Sound(ls, ls[i]) <==> Bound(rows[i])) {
      LinkedSound(rows, i);
    }
  }

  /**
   Linked rows verify VALID if and only if every stored payload matches its hash;
   otherwise they are TAMPERED at the first row that does not, with nothing missing.
   */
  lemma LinkedVerdict(rows: seq<Row>)
    requires Linked(rows)
    ensures StoreResult(rows).verdict == Valid <==> AllBound(rows)
    ensures StoreResult(rows).missing == []
    ensures !AllBound(rows) ==>
              var r := StoreResult(rows);
              && r.verdict == Tampered && r.firstInvalid.Some?
              && 1 <= r.firstInvalid.value <= |rows| && !Bound(rows[r.firstInvalid.value - 1])
              && AllBound(rows[..r.firstInvalid.value - 1])
  {
    LinkedReport(rows);
    LinkedAllSound(rows);
    if !AllBound(rows) {
      LinkedUnsound(rows, StoreResult(rows).firstInvalid.value);
    }
  }

  lemma LinkedReport(rows: seq<Row>)
    requires Linked(rows)
    ensures var r := StoreResult(rows);
            && r.missing == []
            && (AllSound(Lines(rows)) ==> r.verdict == Valid)
            && (!AllSound(Lines(rows)) ==>
                  r.verdict == Tampered && r.firstInvalid.Some? && FirstUnsound(Lines(rows), r.firstInvalid.value))
  {
    LinkedNumbers(rows);
    VerifiersAgree(rows, rows);
    LocalMeaning(Lines(rows));
  }

  // ---------- Forgeries are located ----------

  lemma FirstUnsoundUnique(ls: seq<Line>, m: int, n: int)
    requires FirstUnsound(ls, m) && FirstUnsound(ls, n)
    ensures m == n
  {
  }

  /** Replacing one line keeps everything numbered below it sound, and the gaps as they were. */
  lemma ForgeryContext(chain: seq<Row>, picked: seq<Line>, k: nat, forged: Row)
    requires IsChain(chain) && PartOf(picked, chain) && k < |picked|
    requires forged.number == SeqOf(picked[k])
    ensures var fake := picked[k := Full(forged)];
            && UniqueNumbers(fake) && Numbered(fake) && Seqs(fake) == Seqs(picked)
            && forall l :: l in picked && SeqOf(l) < forged.number ==> l in fake && Sound(fake, l)
    ensures var fake := picked[k := Full(forged)];
            forall l :: l in fake && SeqOf(l) < forged.number ==> Sound(fake, l)
  {
    PartIsSound(chain, picked);
    var fake := picked[k := Full(forged)];
    assert Seqs(fake) == Seqs(picked);
    forall l | l in fake ensures l == Full(forged) || l in picked {
    }
    forall l | l in picked && SeqOf(l) < forged.number ensures l in fake {
      var i :| 0 <= i < |picked| && picked[i] == l;
      assert fake[i] == l;
    }
  }

  /**
   Rewriting one record of any part of a chain under its old number and self-hash
   is TAMPERED at exactly that record if and only if a canonical field changed or
   a payload no longer matches its hash; the gaps are reported either way.
   */
  lemma RewriteLocated(chain: seq<Row>, picked: seq<Line>, k: nat, forged: Row)
    requires IsChain(chain) && PartOf(picked, chain) && k < |picked| && picked[k].Full?
    requires forged.number == picked[k].row.number && forged.selfHash == picked[k].row.selfHash
    ensures var r := LocalResult(picked[k := Full(forged)]);
            && r.missing == LocalResult(picked).missing
            && (if CanonicalOf(forged) != CanonicalOf(picked[k].row) || !Bound(forged)
                then r.verdict == Tampered && r.firstInvalid == Some(forged.number)
                else r == LocalResult(picked))
  {
    var fake, original := picked[k := Full(forged)], picked[k].row;
    PartIsSound(chain, picked);
    ForgeryContext(chain, picked, k, forged);
    LocalMeaning(picked);
    LocalMeaning(fake);
    assert picked[k] in picked && Sound(picked, picked[k]);
    assert fake[k] in fake;
    SpoiltIff(original, forged);
    if CanonicalOf(forged) != CanonicalOf(original) || !Bound(forged) {
      SpoiltUnsound(fake, forged);
      FirstUnsoundUnique(fake, forged.number, LocalResult(fake).firstInvalid.value);
    } else {
      CoercionLosesOnlyEmpty(forged.prevHash, original.prevHash);
      HarmlessRewrite(picked, k, forged);
      SameReport(fake, picked);
    }
  }

  lemma SpoiltIff(original: Row, forged: Row)
    requires Hashed(original) && forged.selfHash == original.selfHash
    ensures CanonicalOf(forged) != CanonicalOf(original) || !Bound(forged) <==> !Hashed(forged) || !Kept(forged)
    ensures CanonicalOf(forged) == CanonicalOf(original) ==> forged.selfHash == SelfHash(forged)
  {
  }

  lemma SpoiltUnsound(ls: seq<Line>, row: Row)
    requires !Hashed(row) || !Kept(row)
    ensures !Sound(ls, Full(row))
  {
  }

  lemma HarmlessRewrite(picked: seq<Line>, k: nat, forged: Row)
    requires k < |picked| && picked[k].Full? && AllSound(picked) && UniqueNumbers(picked)
    requires forged.number == picked[k].row.number && forged.selfHash == picked[k].row.selfHash
    requires forged.selfHash == SelfHash(forged) && Bound(forged)
    requires OrNone(forged.prevHash) == OrNone(picked[k].row.prevHash)
    ensures AllSound(picked[k := Full(forged)])
  {
    var fake := picked[k := Full(forged)];
    forall l | l in fake ensures Sound(fake, l) {
      var i :| 0 <= i < |fake| && fake[i] == l;
      assert Sound(picked, picked[i]);
      forall p | p in fake && SeqOf(p) == SeqOf(l) - 1
        ensures p.Full? && OrNone(l.row.prevHash) == Some(p.row.selfHash)
      {
        var j :| 0 <= j < |fake| && fake[j] == p;
        assert picked[j] in picked && SeqOf(picked[j]) == SeqOf(picked[i]) - 1;
      }
    }
  }

  /** Two sound lists with the same numbers get the same report. */
  lemma SameReport(ls: seq<Line>, ks: seq<Line>)
    requires UniqueNumbers(ls) && Numbered(ls) && AllSound(ls)
    requires UniqueNumbers(ks) && Numbered(ks) && AllSound(ks)
    requires Seqs(ls) == Seqs(ks)
    ensures LocalResult(ls) == LocalResult(ks)
  {
    LocalMeaning(ls);
    LocalMeaning(ks);
  }

  /**
   Re-sealing one record with different content, under its old number and
   predecessor, is caught at the next record exactly when that record is there;
   otherwise the report does not change at all.
   */
  lemma ResealLocated(chain: seq<Row>, picked: seq<Line>, k: nat, forged: Row)
    requires IsChain(chain) && PartOf(picked, chain) && k < |picked| && picked[k].Full?
    requires forged.number == picked[k].row.number
    requires OrNone(forged.prevHash) == OrNone(picked[k].row.prevHash)
    requires forged.selfHash == SelfHash(forged) && Bound(forged)
    requires CanonicalOf(forged) != CanonicalOf(picked[k].row)
    ensures var r := LocalResult(picked[k := Full(forged)]);
            if forged.number + 1 in Seqs(picked)
            then r.verdict == Tampered && r.firstInvalid == Some(forged.number + 1)
                 && r.missing == LocalResult(picked).missing
            else r == LocalResult(picked)
  {
    var fake, original := picked[k := Full(forged)], picked[k].row;
    PartIsSound(chain, picked);
    ForgeryContext(chain, picked, k, forged);
    LocalMeaning(picked);
    LocalMeaning(fake);
    assert picked[k] in picked && Sound(picked, picked[k]);
    assert fake[k] == Full(forged) && fake[k] in fake;
    ResealContext(picked, k, forged);
    NumbersOf(picked);
    if forged.number + 1 in Seqs(picked) {
      var next :| next in picked && SeqOf(next) == forged.number + 1;
      assert Sound(picked, next);
      assert next in fake && !Sound(fake, next);
      assert FirstUnsound(fake, forged.number + 1);
      FirstUnsoundUnique(fake, forged.number + 1, LocalResult(fake).firstInvalid.value);
    } else {
      SameReport(fake, picked);
    }
  }

  lemma ResealContext(picked: seq<Line>, k: nat, forged: Row)
    requires k < |picked| && picked[k].Full? && AllSound(picked) && UniqueNumbers(picked)
    requires forged.number == picked[k].row.number
    requires OrNone(forged.prevHash) == OrNone(picked[k].row.prevHash)
    requires forged.selfHash == SelfHash(forged) && Bound(forged)
    ensures var fake := picked[k := Full(forged)];
            forall l :: l in fake && SeqOf(l) != forged.number + 1 ==> Sound(fake, l)
    ensures var fake := picked[k := Full(forged)];
            forall l :: l in picked && SeqOf(l) == forged.number + 1 ==> l in fake
    ensures var fake := picked[k := Full(forged)];
            forall l :: l in fake && SeqOf(l) == forged.number + 1 ==> l in picked
  {
    var fake := picked[k := Full(forged)];
    forall l | l in fake && SeqOf(l) != forged.number + 1 ensures Sound(fake, l) {
      var i :| 0 <= i < |fake| && fake[i] == l;
      assert Sound(picked, picked[i]);
      forall p | p in fake && SeqOf(p) == SeqOf(l) - 1
        ensures p.Full? && OrNone(l.row.prevHash) == Some(p.row.selfHash)
      {
        var j :| 0 <= j < |fake| && fake[j] == p;
        assert picked[j] in picked && SeqOf(picked[j]) == SeqOf(picked[i]) - 1;
      }
    }
    forall l | l in picked && SeqOf(l) == forged.number + 1 ensures l in fake {
      var i :| 0 <= i < |picked| && picked[i] == l;
      assert fake[i] == l;
    }
  }
}
