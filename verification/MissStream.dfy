/** The stream of a cache MISS: chunks go to the client and to an aggregator, which is saved when
    the stream is dropped, at whatever point that happens. */
module MissStream {
  import opened Machine

  type Bytes = seq<byte>

  datatype Agg = Stable(bytes: Bytes) | Taken | Poisoned

  /** What polling the upstream can yield, and what the client then gets. */
  datatype Upstream = Chunk(bytes: Bytes) | Broken | End | NotReady
  datatype Item = Data(bytes: Bytes) | BadGateway | Finished | Waiting

  function Forwarded(e: Upstream): Item {
    match e
    case Chunk(b) => Data(b)
    case Broken => BadGateway
    case End => Finished
    case NotReady => Waiting
  }

  function Polled(a: Agg, e: Upstream): Agg {
    match e
    case Chunk(b) => if a.Stable? then Stable(a.bytes + b) else a
    case Broken => Poisoned
    case _ => a
  }

  function PolledAll(a: Agg, es: seq<Upstream>): Agg {
    if es == [] then a else Polled(PolledAll(a, es[..|es| - 1]), es[|es| - 1])
  }

  lemma PolledMore(a: Agg, es: seq<Upstream>, e: Upstream)
    ensures PolledAll(a, es + [e]) == Polled(PolledAll(a, es), e)
  {
    assert (es + [e])[..|es|] == es;
  }

  /** The bytes of the chunks of a trace, in order. */
  function Chunks(es: seq<Upstream>): Bytes {
    if es == [] then [] else Chunks(es[..|es| - 1]) + Content(es[|es| - 1])
  }

  function Content(e: Upstream): Bytes {
    if e.Chunk? then e.bytes else []
  }

  /** What dropping a stream adds to the counters. */
  datatype Settlement = Settlement(misses: nat, failed: nat, bytes: nat)

  function SettlementOf(a: Agg): Settlement {
    match a
    case Stable(b) => Settlement(1, 0, |b|)
    case Poisoned => Settlement(0, 1, 0)
    case Taken => Settlement(0, 0, 0)
  }

  // ---------- what the client gets ----------

  function Items(es: seq<Upstream>): (items: seq<Item>)
    ensures |items| == |es|
  {
    seq(|es|, i requires 0 <= i < |es| => Forwarded(es[i]))
  }

  /** The bytes that a client has after these items, in order. */
  function Received(items: seq<Item>): Bytes {
    if items == [] then []
    else
      var last := items[|items| - 1];
      Received(items[..|items| - 1]) + if last.Data? then last.bytes else []
  }

  lemma {:induction false} ReceivedIsChunks(es: seq<Upstream>)
    ensures Received(Items(es)) == Chunks(es)
  {
    if es != [] {
      assert Items(es)[..|es| - 1] == Items(es[..|es| - 1]);
      ReceivedIsChunks(es[..|es| - 1]);
    }
  }

  /** For every upstream trace, what the client got, item by item, and what is saved: the same bytes
      when no error was polled, and the client saw a failure exactly when nothing is saved. */
  lemma ClientGetsWhatIsSaved(es: seq<Upstream>)
    ensures var items, agg := Items(es), PolledAll(Stable([]), es);
      && (agg.Stable? ==> agg.bytes == Received(items))
      && (agg.Poisoned? <==> BadGateway in items) && !agg.Taken?
      && forall i :: 0 <= i < |es| ==>
        && (items[i].Data? <==> es[i].Chunk?) && (items[i].Data? ==> items[i].bytes == es[i].bytes)
        && (items[i].BadGateway? <==> es[i].Broken?)
        && (items[i].Finished? <==> es[i].End?)
        && (items[i].Waiting? <==> es[i].NotReady?)
  {
    AfterTrace(es);
    ReceivedIsChunks(es);
    if BrokenIn(es) {
      var i :| 0 <= i < |es| && es[i].Broken?;
      assert Items(es)[i] == BadGateway;
    }
  }

  predicate BrokenIn(es: seq<Upstream>) {
    exists i :: 0 <= i < |es| && es[i].Broken?
  }

  /** The aggregator after any trace: everything forwarded, or poisoned, never taken. */
  lemma {:induction false} AfterTrace(es: seq<Upstream>)
    ensures PolledAll(Stable([]), es) == if BrokenIn(es) then Poisoned else Stable(Chunks(es))
  {
    if es != [] {
      var front := es[..|es| - 1];
      AfterTrace(front);
      assert BrokenIn(es) <==> BrokenIn(front) || es[|es| - 1].Broken? by {
        if BrokenIn(front) {
          var i :| 0 <= i < |front| && front[i].Broken?;
          assert es[i].Broken?;
        }
        if es[|es| - 1].Broken? {
          assert es[|es| - 1].Broken?;
        }
      }
    }
  }

  lemma {:induction false} PoisonIsAbsorbing(es: seq<Upstream>)
    ensures PolledAll(Poisoned, es) == Poisoned
  {
    if es != [] {
      PoisonIsAbsorbing(es[..|es| - 1]);
    }
  }

  lemma {:induction false} ChunksAppend(es: seq<Upstream>, more: seq<Upstream>)
    ensures Chunks(es + more) == Chunks(es) + Chunks(more)
  {
    if more == [] {
      assert es + more == es;
    } else {
      var front, e := more[..|more| - 1], more[|more| - 1];
      ChunksAppend(es, front);
      assert more == front + [e];
      AppendOne(es, front, e);
    }
  }

  lemma AppendOne(es: seq<Upstream>, front: seq<Upstream>, e: Upstream)
    requires Chunks(es + front) == Chunks(es) + Chunks(front)
    ensures Chunks(es + (front + [e])) == Chunks(es) + Chunks(front + [e])
  {
    Associates(es, front, [e]);
    ChunksMore(es + front, e);
    ChunksMore(front, e);
    Associates(Chunks(es), Chunks(front), Content(e));
  }

  lemma Associates<T>(a: seq<T>, b: seq<T>, c: seq<T>)
    ensures a + (b + c) == (a + b) + c
  {
  }

  lemma ChunksMore(es: seq<Upstream>, e: Upstream)
    ensures Chunks(es + [e]) == Chunks(es) + Content(e)
  {
    assert (es + [e])[..|es|] == es;
  }

  /** The bytes that are saved when the stream is dropped after `es`. */
  function SavedBytes(es: seq<Upstream>): Agg {
    PolledAll(Stable([]), es)
  }

  /** Dropped after `es`, when the upstream would still have yielded `rest`, the stream saves the
      whole body exactly when no error was polled and no bytes were left; what it saves otherwise
      is a proper prefix of the body. */
  lemma SavesWholeBody(es: seq<Upstream>, rest: seq<Upstream>)
    ensures SavedBytes(es) == Stable(Chunks(es + rest)) <==> !BrokenIn(es) && Chunks(rest) == []
    ensures SavedBytes(es).Stable? ==> SavedBytes(es).bytes <= Chunks(es + rest)
    ensures SavedBytes(es).Stable? && Chunks(rest) != [] ==> SavedBytes(es).bytes < Chunks(es + rest)
  {
    AfterTrace(es);
    ChunksAppend(es, rest);
    if Chunks(rest) == [] {
      assert Chunks(es) + [] == Chunks(es);
    } else {
      assert |Chunks(es + rest)| > |Chunks(es)|;
    }
  }

  /** What a whole life of a stream adds up to, dropped after any trace: one miss with the bytes the
      client got if no error was polled, else one failure and nothing saved. */
  lemma StreamSettlesOnce(es: seq<Upstream>)
    ensures SettlementOf(SavedBytes(es)) ==
            if BrokenIn(es) then Settlement(0, 1, 0) else Settlement(1, 0, |Chunks(es)|)
  {
    AfterTrace(es);
  }

  // ---------- the objects ----------

  class BytesAgg {
    var state: Agg

    constructor ()
      ensures state == Stable([])
    {
      state := Stable([]);
    }

    method Put(bytes: Bytes) returns (added: bool)
      modifies this
      ensures added <==> old(state).Stable?
      ensures state == if added then Stable(old(state).bytes + bytes) else old(state)
    {
      match state {
        case Stable(agg) =>
          state := Stable(agg + bytes);
          return true;
        case _ => return false;
      }
    }

    method Len() returns (n: nat)
      ensures n == if state.Stable? then |state.bytes| else 0
    {
      match state {
        case Stable(agg) => return |agg|;
        case _ => return 0;
      }
    }

    method Take() returns (taken: bool, bytes: Bytes)
      modifies this
      ensures taken <==> old(state).Stable?
      ensures taken ==> state == Taken && bytes == old(state).bytes
      ensures !taken ==> state == old(state)
    {
      match state {
        case Stable(agg) =>
          state := Taken;
          return true, agg;
        case _ => return false, [];
      }
    }

    method Poison()
      modifies this
      ensures state == Poisoned
    {
      state := Poisoned;
    }
  }
}
