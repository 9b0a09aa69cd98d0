/** The RocksDB engine as a value: both families, the cached byte counter and the time of the last
    recount, with the effect of every error-free operation. */
module RocksModel {
  import opened Machine
  import opened Codec
  import opened Catalog
  import opened Store
  import opened Eviction

  datatype Cache = Cache(f: Families, size: u64, fetched: u64)

  ghost function Recounted(c: Cache, now: u64): Cache {
    Cache(Purge(c.f), Wrap(MetaSum(Purge(c.f).meta)), now)
  }

  /** A report at `now`, which recounts when the last recount is more than an hour old. */
  ghost function Reported(c: Cache, now: u64, later: u64): Cache {
    if Sub64(now, c.fetched) > HOUR then Recounted(c, later) else c
  }

  function Saved(c: Cache, k: Key, e: Entry): Cache {
    Cache(Write(c.f, k, e), Add64(c.size, e.bytesLen), c.fetched)
  }

  /** An error-free shrink: a recount, then the rounds of the evictor. */
  ghost predicate Shrunk(c: Cache, c': Cache, until: u64, rounds: seq<Round>) {
    && Evicts(CatalogOf(c.f.meta), rounds, until)
    && c'.f == Remove(Purge(c.f), DroppedKeys(rounds))
    && c'.size == Wrap(MetaSum(c'.f.meta))
  }

  /** Unless the true size overflows 64 bits to begin with, a shrink leaves the counter equal to the
      sum of what remains, and at most the target; what loads see is what they saw, less the
      victims. */
  lemma ShrinkIsExact(c: Cache, c': Cache, until: u64, rounds: seq<Round>)
    requires Shrunk(c, c', until, rounds) && MetaSum(c.f.meta) < TWO_64
    ensures c'.size == MetaSum(c'.f.meta) <= until
    ensures View(c'.f) == View(c.f) - DroppedKeys(rounds)
  {
    ShrunkCatalog(c, c', until, rounds);
    EvictionMeetsTarget(CatalogOf(c.f.meta), rounds, until);
    NoWrap(MetaSum(c'.f.meta));
    ViewOfPurge(c.f);
    ViewOfRemove(Purge(c.f), DroppedKeys(rounds));
  }

  lemma ShrunkCatalog(c: Cache, c': Cache, until: u64, rounds: seq<Round>)
    requires Shrunk(c, c', until, rounds)
    ensures CatalogOf(c'.f.meta) == Left(CatalogOf(c.f.meta), rounds)
  {
    CatalogOfPurge(c.f);
    CatalogOfRemove(Purge(c.f).meta, DroppedKeys(rounds));
  }

  /** What a failed operation may have removed: keys from `ks` only, and no metadata whose image
      is still there. */
  ghost predicate OnlyRemoved(f: Families, g: Families, ks: set<Key>) {
    exists a: set<Key>, b: set<Key> :: a <= b <= ks && g == Families(f.images - b, f.meta - a)
  }

  lemma OnlyRemovedBy(f: Families, g: Families, a: set<Key>, b: set<Key>, ks: set<Key>)
    requires a <= b <= ks && g == Families(f.images - b, f.meta - a)
    ensures OnlyRemoved(f, g, ks)
  {
  }

  lemma RemovedTwice(f: Families, u: set<Key>, h: Families, ks: set<Key>, all: set<Key>)
    requires OnlyRemoved(Remove(f, u), h, ks) && u <= all && ks <= all
    ensures OnlyRemoved(f, h, all)
  {
    var g := Remove(f, u);
    var a: set<Key>, b: set<Key> :| a <= b <= ks && h == Families(g.images - b, g.meta - a);
    assert f.images - u - b == f.images - (u + b) && f.meta - u - a == f.meta - (u + a);
    OnlyRemovedBy(f, h, u + a, u + b, all);
  }

  lemma OnlyRemovedFacts(f: Families, g: Families, ks: set<Key>)
    requires OnlyRemoved(f, g, ks)
    ensures forall k :: k in View(g) ==> k in View(f) && View(g)[k] == View(f)[k]
    ensures forall k :: k in View(f) && k !in ks ==> k in View(g)
    ensures forall k :: k in g.images && k !in g.meta ==> k in f.images && k !in f.meta
    ensures MetaSum(g.meta) <= MetaSum(f.meta)
  {
    var a: set<Key>, b: set<Key> :| a <= b <= ks && g == Families(f.images - b, f.meta - a);
    SumOfSubset(f.meta, a);
  }

  lemma PurgeOfDecodable(f: Families)
    requires Undecodable(f) == {}
    ensures Purge(f) == f
  {
  }

  // ---------- the evictor, round by round ----------

  /** Where the evictor stands after rounds that did not meet the target. */
  ghost predicate Underway(f: Families, rounds: seq<Round>, until: u64, g: Families, sz: u64) {
    && Undecodable(f) == {}
    && AllFail(CatalogOf(f.meta), rounds, until)
    && g == Remove(f, DroppedKeys(rounds))
    && sz == Wrap(MetaSum(g.meta))
  }

  /** Where it stands when it stops. */
  ghost predicate Finished(f: Families, rounds: seq<Round>, until: u64, g: Families, sz: u64) {
    && Evicts(CatalogOf(f.meta), rounds, until)
    && g == Remove(f, DroppedKeys(rounds))
    && sz == Wrap(MetaSum(g.meta))
  }

  /** The effect of one round on the families. */
  ghost predicate RoundDone(g: Families, r: Round, until: u64, h: Families, sz: u64) {
    && RoundFits(CatalogOf(g.meta), r, until)
    && h == Remove(g, KeysOf(r.queue[..r.dropped]))
    && sz == SizeWithout(CatalogOf(g.meta), KeysOf(r.queue[..r.dropped]))
  }

  lemma DropsDone(g: Families, q: seq<Record>, d: nat, until: u64, h: Families, sz: u64)
    requires IsQueue(CatalogOf(g.meta), q) && 0 < d <= |q| && Unmet(CatalogOf(g.meta), q, d, until)
    requires h.images == g.images - KeysOf(q[..d]) && h.meta == g.meta - KeysOf(q[..d])
    requires sz == SizeWithout(CatalogOf(g.meta), KeysOf(q[..d]))
    ensures RoundDone(g, Round(q, d), until, h, sz)
  {
  }

  lemma Start(f: Families, until: u64, sz: u64)
    requires Undecodable(f) == {} && sz == Wrap(MetaSum(f.meta))
    ensures Underway(f, [], until, f, sz)
  {
  }

  lemma NothingLeft(f: Families, rounds: seq<Round>, until: u64, g: Families, sz: u64)
    requires Underway(f, rounds, until, g, sz) && IsQueue(CatalogOf(g.meta), [])
    ensures Finished(f, rounds, until, g, sz)
  {
  }

  lemma DroppedMore(f: Families, rounds: seq<Round>, g: Families, r: Round, h: Families)
    requires g == Remove(f, DroppedKeys(rounds))
    requires r.dropped <= |r.queue| && h == Remove(g, KeysOf(r.queue[..r.dropped]))
    ensures h == Remove(f, DroppedKeys(rounds + [r]))
  {
  }

  lemma NextRound(f: Families, rounds: seq<Round>, until: u64, g: Families, sz: u64, r: Round, h: Families, sz': u64)
    requires Underway(f, rounds, until, g, sz) && RoundDone(g, r, until, h, sz')
    requires sz' > until && r.dropped == |r.queue|
    ensures Underway(f, rounds + [r], until, h, sz')
  {
    assert r.queue[..r.dropped] == r.queue;
    CatalogOfRemove(f.meta, DroppedKeys(rounds));
    CatalogOfRemove(g.meta, KeysOf(r.queue[..r.dropped]));
    FailMore(CatalogOf(f.meta), rounds, r, until);
    DroppedMore(f, rounds, g, r, h);
  }

  lemma LastRound(f: Families, rounds: seq<Round>, until: u64, g: Families, sz: u64, r: Round, h: Families, sz': u64)
    requires Underway(f, rounds, until, g, sz) && RoundDone(g, r, until, h, sz')
    requires sz' <= until
    ensures Finished(f, rounds + [r], until, h, sz')
  {
    CatalogOfRemove(f.meta, DroppedKeys(rounds));
    CatalogOfRemove(g.meta, KeysOf(r.queue[..r.dropped]));
    LastMeets(CatalogOf(f.meta), rounds, r, until);
    DroppedMore(f, rounds, g, r, h);
  }

  lemma {:induction false} DroppedWereStored(cat: Catalog, rounds: seq<Round>, until: u64)
    requires AllFail(cat, rounds, until)
    ensures DroppedKeys(rounds) <= cat.Keys
  {
    if rounds != [] {
      var last := |rounds| - 1;
      FailPrefix(cat, rounds, until);
      DroppedWereStored(cat, rounds[..last], until);
      QueueKeys(Left(cat, rounds[..last]), rounds[last].queue);
      assert forall k :: k in KeysOf(rounds[last].queue[..rounds[last].dropped]) ==> k in KeysOf(rounds[last].queue);
    }
  }

  lemma QueueKeys(cat: Catalog, q: seq<Record>)
    requires IsQueue(cat, q)
    ensures KeysOf(q) <= cat.Keys
  {
    var _ := QueueMembers(cat, q);
  }

  /** A failure in a round, seen from the start of the call. */
  lemma FailedRound(f0: Families, rounds: seq<Round>, until: u64, g: Families, sz: u64, h: Families, ks: set<Key>)
    requires Underway(Purge(f0), rounds, until, g, sz)
    requires OnlyRemoved(g, h, ks) && ks <= g.meta.Keys
    ensures OnlyRemoved(f0, h, f0.meta.Keys)
  {
    DroppedWereStored(CatalogOf(Purge(f0).meta), rounds, until);
    RemoveMore(f0, Undecodable(f0), DroppedKeys(rounds));
    var u := Undecodable(f0) + DroppedKeys(rounds);
    assert g == Remove(f0, u) && u <= f0.meta.Keys;
    RemovedTwice(f0, u, h, ks, f0.meta.Keys);
  }
}
