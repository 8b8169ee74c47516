/** `BufferedIngestClient` as an object, with its accounting as ghost state. */
module BufferedClient {
  import opened Common
  import opened Wire
  import opened Cloud
  import opened Buffered

  class BufferedIngestClient {
    const cfg: Settings
    var buffer: seq<Envelope>
    ghost var books: Books

    ghost predicate Valid()
      reads this
    {
      && Balanced(books) && Idle(books)
      && Waiting(books.arrived, books.queued, buffer)
    }

    /** As `Valid`, but a passthrough may be waiting for the flush. */
    ghost predicate Between()
      reads this
    {
      && Balanced(books) && books.inFlight == []
      && Waiting(books.arrived, books.queued, buffer)
    }

    constructor (cfg: Settings)
      ensures this.cfg == cfg && Valid() && books == EMPTY
    {
      this.cfg := cfg;
      buffer := [];
      books := EMPTY;
      EmptyBalanced();
    }

    /** The inner batch call, repeated for what is still unsent. */
    method SendBatchWithRetry(batch: seq<Envelope>, script: Script) returns (failed: seq<nat>, ghost order: seq<nat>)
      ensures failed == SendBatchUpTo(|batch|, script, Attempts(cfg.inner, cfg.maxRetries))
      ensures order == ConfirmedUpTo(|batch|, script, Attempts(cfg.inner, cfg.maxRetries))
    {
      failed, order := Indices(|batch|), [];
      var attempts := Attempts(cfg.inner, cfg.maxRetries);
      assert failed == SendBatchUpTo(|batch|, script, 0);
      for attempt := 0 to attempts
        invariant failed == SendBatchUpTo(|batch|, script, attempt)
        invariant order == ConfirmedUpTo(|batch|, script, attempt)
      {
        order := order + FinalOf(failed, BatchAt(script, attempt));
        failed := StillUnsent(failed, BatchAt(script, attempt));
        if failed == [] {
          order := NothingUnsent(|batch|, script, attempt + 1, attempts);
          return;
        }
      }
    }

    /** One envelope at a time, each with its own bounded retries. */
    method SendEach(batch: seq<Envelope>, script: Script) returns (failed: seq<nat>, ghost order: seq<nat>)
      ensures failed == SendEachUpTo(|batch|, script, Attempts(cfg.inner, cfg.maxRetries))
      ensures order == SentUpTo(|batch|, script, Attempts(cfg.inner, cfg.maxRetries))
    {
      failed, order := [], [];
      for i := 0 to |batch|
        invariant failed == SendEachUpTo(i, script, Attempts(cfg.inner, cfg.maxRetries))
        invariant order == SentUpTo(i, script, Attempts(cfg.inner, cfg.maxRetries))
      {
        var sent := SendWithRetry(i, script);
        if !sent {
          failed := failed + [i];
        } else {
          order := order + [i];
        }
      }
    }

    method SendWithRetry(i: nat, script: Script) returns (sent: bool)
      ensures sent == SentWithin(script, i, Attempts(cfg.inner, cfg.maxRetries))
    {
      for attempt := 0 to Attempts(cfg.inner, cfg.maxRetries)
        invariant !SentWithin(script, i, attempt)
      {
        if SingleAt(script, i, attempt) {
          return true;
        }
      }
      sent := false;
    }

    /** Forward a drained batch, in one call if the inner client takes batches. */
    method Send(batch: seq<Envelope>, script: Script) returns (failed: seq<nat>, ghost order: seq<nat>)
      ensures failed == FailedIn(|batch|, cfg, script) && order == OrderOf(|batch|, cfg, script)
    {
      if cfg.inner.hasBatch {
        failed, order := SendBatchWithRetry(batch, script);
      } else {
        failed, order := SendEach(batch, script);
      }
    }

    /** Drain, send, and put what failed back in front of what arrived meanwhile. */
    method Flush(script: Script, during: seq<Envelope>)
      requires Between()
      modifies this
      ensures Between() && books == FlushBooks(old(books), cfg, script, during)
    {
      FlushBalanced(books, cfg, script, during);
      if buffer == [] {
        return;
      }
      var batch := buffer;
      buffer := [];
      ghost var drained := Drain(books);
      DrainBalanced(books);
      ArriveAllBalanced(drained, during);
      ghost var landed := ArriveAllWaiting(drained, during);
      buffer := buffer + during;
      var failed, order := Send(batch, script);
      buffer := Select(batch, failed) + buffer;
      ghost var flying := ArriveAll(drained, during);
      FlushSplits(|batch|, cfg.inner, cfg.maxRetries, script);
      LandWaiting(flying, batch, during, failed, order);
      books := Land(flying, failed, order);
    }

    /** `through` is what the inner client does with a passthrough: answers, or raises. */
    method Handle(e: Envelope, script: Script, during: seq<Envelope>, through: Option<Response>) returns (reply: Reply)
      requires Valid()
      modifies this
      ensures Valid() && books == StepBooks(old(books), cfg, Op.Handle(e, script, during))
      ensures reply == if ShouldBuffer(e) then Queued else if through.Some? then Replied(through.value) else Raises
    {
      StepBalanced(books, cfg, Op.Handle(e, script, during));
      if ShouldBuffer(e) {
        ArriveBalanced(books, e);
        buffer := buffer + [e];
        books := Arrive(books, e);
        if |buffer| >= cfg.maxBufferSize {
          Flush(script, during);
        }
        return Queued;
      }
      HandInBalanced(books, e);
      books := HandIn(books, e);
      Flush(script, during);
      ThroughBalanced(books);
      books := Through(books);
      reply := if through.Some? then Replied(through.value) else Raises;
    }
  }

  /** `buffer` holds the queued arrivals. */
  ghost predicate Waiting(arrived: seq<Envelope>, queued: seq<nat>, buffer: seq<Envelope>) {
    |buffer| == |queued| && forall j :: 0 <= j < |queued| ==> queued[j] < |arrived| && buffer[j] == arrived[queued[j]]
  }

  lemma NothingMore(n: nat, script: Script, k: nat)
    requires SendBatchUpTo(n, script, k) == []
    ensures SendBatchUpTo(n, script, k + 1) == [] && ConfirmedUpTo(n, script, k + 1) == ConfirmedUpTo(n, script, k)
  {
    assert FinalOf([], BatchAt(script, k)) == [];
  }

  lemma {:induction false} NothingUnsent(n: nat, script: Script, k: nat, m: nat) returns (order: seq<nat>)
    requires k <= m && SendBatchUpTo(n, script, k) == []
    ensures SendBatchUpTo(n, script, m) == [] && order == ConfirmedUpTo(n, script, m)
    ensures order == ConfirmedUpTo(n, script, k)
  {
    if k == m {
      order := ConfirmedUpTo(n, script, k);
    } else {
      order := NothingUnsent(n, script, k, m - 1);
      NothingMore(n, script, m - 1);
    }
  }

  lemma ArriveWaiting(b: Books, e: Envelope, waiting: seq<Envelope>)
    requires Waiting(b.arrived, b.queued, waiting)
    ensures Waiting(Arrive(b, e).arrived, Arrive(b, e).queued, waiting + [e])
  {
  }

  lemma Regroup(before: seq<Envelope>, es: seq<Envelope>)
    requires es != []
    ensures before + es[..|es| - 1] + [es[|es| - 1]] == before + es
    ensures es[..|es| - 1] + [es[|es| - 1]] == es
  {
  }

  lemma {:induction false} ArriveAllWaiting(b: Books, es: seq<Envelope>) returns (after: Books)
    requires b.queued == []
    ensures after == ArriveAll(b, es) && after.arrived == b.arrived + es
    ensures Waiting(after.arrived, after.queued, es)
  {
    if es == [] {
      after := b;
    } else {
      var front, last := es[..|es| - 1], es[|es| - 1];
      var before := ArriveAllWaiting(b, front);
      after := Arrive(before, last);
      ArriveWaiting(before, last, front);
      Regroup(b.arrived, es);
    }
  }

  lemma LandWaiting(b: Books, batch: seq<Envelope>, waiting: seq<Envelope>, failed: seq<nat>, order: seq<nat>)
    requires Waiting(b.arrived, b.inFlight, batch) && Waiting(b.arrived, b.queued, waiting)
    requires Slots(failed, |batch|) && forall j :: 0 <= j < |order| ==> order[j] < |b.inFlight|
    ensures Waiting(b.arrived, Land(b, failed, order).queued, Select(batch, failed) + waiting)
  {
  }
}
