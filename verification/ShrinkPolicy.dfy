/** When the client shrinks its cache, and what that guarantees over whole sequential runs. The
    thresholds are exact fractions of the configured maximum. */
module ShrinkPolicy {
  import opened Machine
  import opened Catalog
  import opened Store
  import opened Eviction
  import opened RocksModel
  import opened RocksCache
  import opened History

  /** What the policy relies on: the true size and the size the engine reports. */
  datatype Books = Books(actual: nat, counter: nat)

  datatype Posting = Added(len: nat) | Dropped | Recounted | Check(recounts: bool, shrinks: bool)

  /** Above 0.95 of the maximum. */
  predicate Over(n: nat, max: nat) {
    100 * n > 95 * max
  }

  /** 0.9 of the maximum, rounded down. */
  function Target(max: nat): nat {
    90 * max / 100
  }

  function MaxBytes(mebibytes: nat): nat {
    mebibytes * 1024 * 1024
  }

  /** The contract of a cache engine in sequential use: an overwrite may leave the counter too
      high, nothing leaves it too low, a recount and a shrink make it exact. */
  ghost predicate Keeps(b: Books, e: Posting, b': Books, max: nat) {
    match e
    case Added(len) => b'.counter == b.counter + len && b'.actual <= b.actual + len
    case Dropped => b'.counter == b.counter && b'.actual <= b.actual
    case Recounted => b' == Books(b.actual, b.actual)
    case Check(recounts, shrinks) =>
      var r := if recounts then Books(b.actual, b.actual) else b;
      shrinks == Over(r.counter, max) &&
      if shrinks then b'.actual == b'.counter <= Target(max) else b' == r
  }

  ghost predicate Ledger(bs: seq<Books>, es: seq<Posting>, max: nat) {
    |bs| == |es| + 1 && forall i :: 0 <= i < |es| ==> Keeps(bs[i], es[i], bs[i + 1], max)
  }

  function AddedBytes(es: seq<Posting>): nat {
    if es == [] then 0
    else AddedBytes(es[..|es| - 1]) + match es[|es| - 1] case Added(len) => len case _ => 0
  }

  lemma {:induction false} LedgerCovers(bs: seq<Books>, es: seq<Posting>, max: nat, n: nat)
    requires Ledger(bs, es, max) && bs[0].actual <= bs[0].counter && n <= |es|
    ensures bs[n].actual <= bs[n].counter
  {
    if n > 0 {
      LedgerCovers(bs, es, max, n - 1);
      assert Keeps(bs[n - 1], es[n - 1], bs[n], max);
    }
  }

  /** After every check the true size is at most 0.95 of the maximum, after a shrink at most 0.9. */
  lemma BoundAfterCheck(bs: seq<Books>, es: seq<Posting>, max: nat, n: nat)
    requires Ledger(bs, es, max) && bs[0].actual <= bs[0].counter
    requires n < |es| && es[n].Check?
    ensures 100 * bs[n + 1].actual <= 95 * max
    ensures es[n].shrinks ==> 100 * bs[n + 1].actual <= 90 * max
  {
    LedgerCovers(bs, es, max, n);
    assert Keeps(bs[n], es[n], bs[n + 1], max);
  }

  lemma {:induction false} GrowsByAdds(bs: seq<Books>, es: seq<Posting>, max: nat)
    requires Ledger(bs, es, max) && bs[0].actual <= bs[0].counter
    requires forall i :: 0 <= i < |es| ==> es[i].Check? ==> !es[i].shrinks
    ensures bs[|es|].counter <= bs[0].counter + AddedBytes(es)
  {
    if es != [] {
      var n := |es| - 1;
      GrowsByAdds(bs[..n + 1], es[..n], max);
      LedgerCovers(bs, es, max, n);
      assert Keeps(bs[n], es[n], bs[n + 1], max);
    }
  }

  /** Between two consecutive shrinks more than 0.05 of the maximum was added by saves. */
  lemma Hysteresis(bs: seq<Books>, es: seq<Posting>, max: nat, i: nat, j: nat)
    requires Ledger(bs, es, max) && bs[0].actual <= bs[0].counter
    requires i < j < |es| && es[i].Check? && es[i].shrinks && es[j].Check? && es[j].shrinks
    requires forall k :: i < k < j ==> es[k].Check? ==> !es[k].shrinks
    ensures 100 * AddedBytes(es[i + 1..j]) > 5 * max
  {
    assert Keeps(bs[i], es[i], bs[i + 1], max);
    LedgerCovers(bs, es, max, j);
    var mid, books := es[i + 1..j], bs[i + 1..j + 1];
    forall k | 0 <= k < |mid| ensures Keeps(books[k], mid[k], books[k + 1], max) {
      assert Keeps(bs[i + 1 + k], es[i + 1 + k], bs[i + 2 + k], max);
    }
    GrowsByAdds(books, mid, max);
    assert Keeps(bs[j], es[j], bs[j + 1], max);
  }

  // ---------- the RocksDB engine keeps the contract ----------

  /** One thing the client does with its cache: an operation of the engine, or the periodic check,
      which reports and then shrinks when the report is over the threshold. */
  datatype Turn = Serve(op: Op) | Tick(now: u64, later: u64, rounds: seq<Round>)

  ghost predicate Turns(c: Cache, t: Turn, c': Cache, max: nat) {
    match t
    case Serve(op) => !op.Shrink? && !op.Report? && Step(c, op, c')
    case Tick(now, later, rounds) =>
      var r := Reported(c, now, later);
      if Over(r.size, max) then Target(max) < TWO_64 && Shrunk(r, c', Target(max), rounds) else c' == r
  }

  ghost function BooksOf(c: Cache): Books {
    Books(MetaSum(c.f.meta), c.size)
  }

  ghost function PostingOf(c: Cache, t: Turn, max: nat): Posting {
    match t
    case Serve(Save(_, e)) => Added(e.bytesLen)
    case Serve(Recount(_)) => Recounted
    case Serve(_) => Dropped
    case Tick(now, later, _) => Check(Sub64(now, c.fetched) > HOUR, Over(Reported(c, now, later).size, max))
  }

  predicate FitsTurn(c: Cache, t: Turn) {
    t.Serve? ==> FitsCounter(c, t.op)
  }

  lemma TurnKeeps(c: Cache, t: Turn, c': Cache, max: nat)
    requires Turns(c, t, c', max) && Covers(c) && FitsTurn(c, t)
    ensures Keeps(BooksOf(c), PostingOf(c, t, max), BooksOf(c'), max) && Covers(c')
  {
    match t {
      case Serve(op) =>
        StepCovers(c, op, c');
        match op {
          case Save(k, e) => SumOfWrite(c.f, k, e);
          case Drop(k) => SumOfSubset(c.f.meta, {k});
          case Recount(_) => CatalogOfPurge(c.f);
          case _ =>
        }
      case Tick(now, later, rounds) =>
        var r := Reported(c, now, later);
        StepCovers(c, Report(now, later), r);
        CatalogOfPurge(c.f);
        NoWrap(MetaSum(c.f.meta));
        if Over(r.size, max) {
          StepCovers(r, Shrink(Target(max), rounds), c');
        }
    }
  }

  /** What a check reports: the counter, or the true size when the last recount is too old. */
  ghost function ReportedSize(c: Cache, now: u64): nat {
    if Sub64(now, c.fetched) > 3600000 then MetaSum(c.f.meta) else c.size
  }

  /** A shrink of a store that is not empty took one entry only, or stopped at once when the size was
      at most 0.9 of the maximum: with its last victim put back it would be above. */
  ghost predicate TookNoMore(before: Catalog, after: Catalog, max: nat) {
    before != map[] ==>
      exists k ::
        && k in before && k !in after
        && (after == before - {k} || 100 * (Bytes(after) + before[k].len) > 90 * max)
  }

  lemma ShrinkTakesNoMore(c: Cache, c': Cache, rounds: seq<Round>, max: nat)
    requires Covers(c) && Target(max) < TWO_64 && Shrunk(c, c', Target(max), rounds)
    ensures TookNoMore(CatalogOf(c.f.meta), CatalogOf(c'.f.meta), max)
  {
    var cat := CatalogOf(c.f.meta);
    if cat != map[] {
      EvictionMeetsTarget(cat, rounds, Target(max));
      ShrunkCatalog(c, c', Target(max), rounds);
      var k := LastVictim(cat, rounds, Target(max));
    }
  }

  /** A periodic check at most at 0.95 of the maximum leaves alone what loads see; above, it shrinks to
      0.9 of the maximum, and no further than it must. */
  lemma CheckIsMeasured(c: Cache, now: u64, later: u64, rounds: seq<Round>, c': Cache, max: nat)
    requires Turns(c, Tick(now, later, rounds), c', max) && Covers(c)
    ensures 100 * ReportedSize(c, now) <= 95 * max ==> View(c'.f) == View(c.f)
    ensures 100 * ReportedSize(c, now) > 95 * max ==>
      100 * MetaSum(c'.f.meta) <= 90 * max && TookNoMore(CatalogOf(c.f.meta), CatalogOf(c'.f.meta), max)
  {
    var r := Reported(c, now, later);
    ReportedIs(c, now, later);
    if Over(r.size, max) {
      StepCovers(r, Shrink(Target(max), rounds), c');
      ShrinkTakesNoMore(r, c', rounds, max);
    }
  }

  lemma ReportedIs(c: Cache, now: u64, later: u64)
    requires Covers(c)
    ensures var r := Reported(c, now, later);
      && Covers(r) && r.size == ReportedSize(c, now)
      && View(r.f) == View(c.f) && CatalogOf(r.f.meta) == CatalogOf(c.f.meta)
  {
    CatalogOfPurge(c.f);
    ViewOfPurge(c.f);
    NoWrap(MetaSum(c.f.meta));
  }

  ghost predicate TurnRun(cs: seq<Cache>, ts: seq<Turn>, max: nat) {
    && |cs| == |ts| + 1
    && forall i :: 0 <= i < |ts| ==> Turns(cs[i], ts[i], cs[i + 1], max) && FitsTurn(cs[i], ts[i])
  }

  lemma {:induction false} TurnRunCovers(cs: seq<Cache>, ts: seq<Turn>, max: nat, n: nat)
    requires TurnRun(cs, ts, max) && Covers(cs[0]) && n <= |ts|
    ensures Covers(cs[n])
  {
    if n > 0 {
      TurnRunCovers(cs, ts, max, n - 1);
      TurnKeeps(cs[n - 1], ts[n - 1], cs[n], max);
    }
  }

  ghost function PostingsOf(cs: seq<Cache>, ts: seq<Turn>, max: nat): seq<Posting>
    requires |cs| == |ts| + 1
  {
    seq(|ts|, i requires 0 <= i < |ts| => PostingOf(cs[i], ts[i], max))
  }

  /** Every sequential error-free run of the engine under the policy is a ledger, so the bound and
      the hysteresis hold of it. */
  lemma RunIsLedger(cs: seq<Cache>, ts: seq<Turn>, max: nat) returns (bs: seq<Books>)
    requires TurnRun(cs, ts, max) && Covers(cs[0])
    ensures Ledger(bs, PostingsOf(cs, ts, max), max) && bs[0].actual <= bs[0].counter
    ensures |bs| == |cs| && forall i :: 0 <= i < |cs| ==> bs[i] == BooksOf(cs[i])
  {
    bs := seq(|cs|, i requires 0 <= i < |cs| => BooksOf(cs[i]));
    var es := PostingsOf(cs, ts, max);
    forall i | 0 <= i < |es| ensures Keeps(bs[i], es[i], bs[i + 1], max) {
      TurnRunCovers(cs, ts, max, i);
      TurnKeeps(cs[i], ts[i], cs[i + 1], max);
    }
  }

  /** The bound, for the engine itself: after every periodic check. */
  lemma EngineStaysBounded(cs: seq<Cache>, ts: seq<Turn>, max: nat, n: nat)
    requires TurnRun(cs, ts, max) && Covers(cs[0]) && n < |ts| && ts[n].Tick?
    ensures 100 * MetaSum(cs[n + 1].f.meta) <= 95 * max
    ensures 100 * ReportedSize(cs[n], ts[n].now) > 95 * max ==> 100 * MetaSum(cs[n + 1].f.meta) <= 90 * max
  {
    var bs := RunIsLedger(cs, ts, max);
    BoundAfterCheck(bs, PostingsOf(cs, ts, max), max, n);
    TurnRunCovers(cs, ts, max, n);
    ReportedIs(cs[n], ts[n].now, ts[n].later);
  }

  /** And over whole runs no check takes more than it must. */
  lemma EngineIsMeasured(cs: seq<Cache>, ts: seq<Turn>, max: nat, n: nat)
    requires TurnRun(cs, ts, max) && Covers(cs[0]) && n < |ts| && ts[n].Tick?
    ensures 100 * ReportedSize(cs[n], ts[n].now) <= 95 * max ==> View(cs[n + 1].f) == View(cs[n].f)
    ensures 100 * ReportedSize(cs[n], ts[n].now) > 95 * max ==>
      TookNoMore(CatalogOf(cs[n].f.meta), CatalogOf(cs[n + 1].f.meta), max)
  {
    TurnRunCovers(cs, ts, max, n);
    CheckIsMeasured(cs[n], ts[n].now, ts[n].later, ts[n].rounds, cs[n + 1], max);
  }

  /** The hysteresis, for the engine itself: `i` and `j` are consecutive checks that shrink. */
  lemma EngineHysteresis(cs: seq<Cache>, ts: seq<Turn>, max: nat, i: nat, j: nat)
    requires TurnRun(cs, ts, max) && Covers(cs[0])
    requires i < j < |ts| && ts[i].Tick? && ts[j].Tick?
    requires var es := PostingsOf(cs, ts, max);
      es[i].shrinks && es[j].shrinks && forall k :: i < k < j ==> es[k].Check? ==> !es[k].shrinks
    ensures 100 * AddedBytes(PostingsOf(cs, ts, max)[i + 1..j]) > 5 * max
  {
    var bs := RunIsLedger(cs, ts, max);
    Hysteresis(bs, PostingsOf(cs, ts, max), max, i, j);
  }

  lemma ReportNeverGrows(c: Cache, c': Cache, now: u64, later: u64)
    requires c' == Reported(c, now, later) || OnlyRemoved(c.f, c'.f, Undecodable(c.f))
    ensures MetaSum(c'.f.meta) <= MetaSum(c.f.meta)
  {
    CatalogOfPurge(c.f);
    if OnlyRemoved(c.f, c'.f, Undecodable(c.f)) {
      OnlyRemovedFacts(c.f, c'.f, Undecodable(c.f));
    }
  }

  lemma ShrinkNeverGrows(c: Cache, c': Cache, until: u64, rounds: seq<Round>)
    requires Shrunk(c, c', until, rounds) || OnlyRemoved(c.f, c'.f, c.f.meta.Keys)
    ensures MetaSum(c'.f.meta) <= MetaSum(c.f.meta)
  {
    CatalogOfPurge(c.f);
    if OnlyRemoved(c.f, c'.f, c.f.meta.Keys) {
      OnlyRemovedFacts(c.f, c'.f, c.f.meta.Keys);
    } else {
      SumOfSubset(Purge(c.f).meta, DroppedKeys(rounds));
    }
  }

  /** The periodic check. Clock readings are parameters; a failed report reads as 0 and so never
      triggers a shrink. */
  method TryShrinkDb(cache: RocksCache, mebibytes: nat, now: u64, later: u64, t0: u64, t1: u64, t2: u64)
    returns (shrunk: bool, ghost rounds: seq<Round>)
    requires mebibytes < 0x1_0000_0000
    modifies cache, cache.db
    ensures cache.db.failures == old(cache.db.failures) ==>
      && Turns(old(cache.State()), Tick(now, later, rounds), cache.State(), MaxBytes(mebibytes))
      && (shrunk <==> Over(Reported(old(cache.State()), now, later).size, MaxBytes(mebibytes)))
    ensures cache.db.failures == old(cache.db.failures) && old(Covers(cache.State())) ==>
      && (shrunk <==> 100 * old(ReportedSize(cache.State(), now)) > 95 * (mebibytes * 1048576))
      && (!shrunk ==> View(cache.db.Content()) == old(View(cache.db.Content())))
      && (shrunk ==> 100 * MetaSum(cache.db.meta) <= 90 * (mebibytes * 1048576))
      && (shrunk ==> TookNoMore(CatalogOf(old(cache.db.meta)), CatalogOf(cache.db.meta), mebibytes * 1048576))
    ensures cache.db.failures >= old(cache.db.failures)
    ensures MetaSum(cache.db.meta) <= old(MetaSum(cache.db.meta))
  {
    rounds := [];
    ghost var c := cache.State();
    var dbSize := cache.Report(now, later);
    ghost var r := cache.State();
    ReportNeverGrows(c, r, now, later);
    var max := MaxBytes(mebibytes);
    shrunk := Over(dbSize, max);
    if shrunk {
      var newSize;
      newSize, rounds := cache.Shrink(Target(max), t0, t1, t2);
      ShrinkNeverGrows(r, cache.State(), Target(max), rounds);
    }
    if cache.db.failures == old(cache.db.failures) && Covers(c) {
      ReportedIs(c, now, later);
      CheckIsMeasured(c, now, later, rounds, cache.State(), max);
    }
  }
}
