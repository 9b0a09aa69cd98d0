/** Sequential, error-free runs of the RocksDB engine and the one map from byte keys to entries
    that they refine. */
module History {
  import opened Machine
  import opened Codec
  import opened Catalog
  import opened Store
  import opened Selection
  import opened Eviction
  import opened Fifo
  import opened RocksModel

  datatype Op =
    | Save(key: Key, entry: Entry)
    | Load(key: Key)
    | Drop(key: Key)
    | Recount(now: u64)
    | Report(now: u64, later: u64)
    | Shrink(until: u64, rounds: seq<Round>)

  /** The effect of one operation of the engine. */
  ghost predicate Step(c: Cache, op: Op, c': Cache) {
    match op
    case Save(k, e) => c' == Saved(c, k, e)
    case Load(_) => c' == c
    case Drop(k) => c' == c.(f := Remove(c.f, {k}))
    case Recount(now) => c' == Recounted(c, now)
    case Report(now, later) => c' == Reported(c, now, later)
    case Shrink(until, rounds) => Shrunk(c, c', until, rounds)
  }

  ghost predicate Run(cs: seq<Cache>, ops: seq<Op>) {
    |cs| == |ops| + 1 && forall i :: 0 <= i < |ops| ==> Step(cs[i], ops[i], cs[i + 1])
  }

  /** The same operation on one map. */
  function Apply(v: map<Key, Entry>, op: Op): map<Key, Entry> {
    match op
    case Save(k, e) => v[k := e]
    case Drop(k) => v - {k}
    case Shrink(_, rounds) => v - DroppedKeys(rounds)
    case _ => v
  }

  /** The last entry saved under `k` and not dropped or evicted since; `start` before any. */
  function LastSave(start: Option<Entry>, ops: seq<Op>, k: Key): Option<Entry> {
    if ops == [] then start
    else
      var before := LastSave(start, ops[..|ops| - 1], k);
      match ops[|ops| - 1]
      case Save(key, e) => if key == k then Some(e) else before
      case Drop(key) => if key == k then None else before
      case Shrink(_, rounds) => if k in DroppedKeys(rounds) then None else before
      case _ => before
  }

  /** Each operation acts on what a load sees as it would on one map. */
  lemma StepRefines(c: Cache, op: Op, c': Cache)
    requires Step(c, op, c')
    ensures View(c'.f) == Apply(View(c.f), op)
  {
    ViewOfPurge(c.f);
    match op {
      case Save(k, e) => ViewOfWrite(c.f, k, e);
      case Drop(k) => ViewOfRemove(c.f, {k});
      case Shrink(_, rounds) => ViewOfRemove(Purge(c.f), DroppedKeys(rounds));
      case _ =>
    }
  }

  /** After any run, a load of `k` sees exactly the last save under `k` not since dropped. */
  lemma {:induction false} LoadSeesLastSave(cs: seq<Cache>, ops: seq<Op>, k: Key)
    requires Run(cs, ops)
    ensures Lookup(View(cs[|ops|].f), k) == LastSave(Lookup(View(cs[0].f), k), ops, k)
  {
    if ops != [] {
      var n := |ops| - 1;
      LoadSeesLastSave(cs[..n + 1], ops[..n], k);
      StepRefines(cs[n], ops[n], cs[n + 1]);
    }
  }

  /** An operation that takes away what is stored under `k`. */
  predicate Removes(op: Op, k: Key) {
    match op
    case Drop(key) => key == k
    case Shrink(_, rounds) => k in DroppedKeys(rounds)
    case _ => false
  }

  /** An operation that leaves what is stored under `k` alone. */
  predicate Keeps(op: Op, k: Key) {
    !Removes(op, k) && (op.Save? ==> op.key != k)
  }

  lemma {:induction false} KeptSince(start: Option<Entry>, ops: seq<Op>, k: Key, at: nat, e: Entry)
    requires at < |ops| && ops[at] == Save(k, e)
    requires forall i :: at < i < |ops| ==> Keeps(ops[i], k)
    ensures LastSave(start, ops, k) == Some(e)
  {
    if at < |ops| - 1 {
      KeptSince(start, ops[..|ops| - 1], k, at, e);
    }
  }

  /** Every save under `k` was followed by a drop or an eviction of it. */
  ghost predicate AllRemoved(ops: seq<Op>, k: Key) {
    forall i :: 0 <= i < |ops| && ops[i].Save? && ops[i].key == k ==>
      exists j :: i < j < |ops| && Removes(ops[j], k)
  }

  lemma {:induction false} RemovedSince(ops: seq<Op>, k: Key)
    ensures LastSave(None, ops, k) == None <==> AllRemoved(ops, k)
  {
    if ops != [] {
      var n := |ops| - 1;
      var front := ops[..n];
      RemovedSince(front, k);
      if Removes(ops[n], k) {
        assert forall i :: 0 <= i < |ops| && ops[i].Save? ==> i < n < |ops| && Removes(ops[n], k);
      } else if ops[n].Save? && ops[n].key == k {
        assert !AllRemoved(ops, k);
      } else {
        RemovedBefore(ops, k);
      }
    }
  }

  lemma RemovedBefore(ops: seq<Op>, k: Key)
    requires ops != [] && Keeps(ops[|ops| - 1], k)
    ensures AllRemoved(ops, k) <==> AllRemoved(ops[..|ops| - 1], k)
  {
    var front := ops[..|ops| - 1];
    if AllRemoved(ops, k) {
      forall i | 0 <= i < |front| && front[i].Save? && front[i].key == k
        ensures exists j :: i < j < |front| && Removes(front[j], k)
      {
        assert ops[i].Save?;
        var j :| i < j < |ops| && Removes(ops[j], k);
        assert front[j] == ops[j];
      }
    }
    if AllRemoved(front, k) {
      forall i | 0 <= i < |ops| && ops[i].Save? && ops[i].key == k
        ensures exists j :: i < j < |ops| && Removes(ops[j], k)
      {
        assert front[i].Save?;
        var j :| i < j < |front| && Removes(front[j], k);
        assert ops[j] == front[j];
      }
    }
  }

  /** For image keys, on an engine opened on an empty database: what is loaded for an image is the
      last save, among those of the same bytes and flag, not since dropped or evicted. */
  lemma LoadSeesLastImage(cs: seq<Cache>, ops: seq<Op>, sha: Hash, key: ImageKey, saved: ImageKey, e: Entry, at: nat)
    requires Run(cs, ops) && cs[0].f == Families(map[], map[])
    requires at < |ops| && ops[at] == Save(BKey(sha, saved), e)
    requires forall i :: at < i < |ops| ==> Keeps(ops[i], BKey(sha, key))
    requires sha(Preimage(key)) == sha(Preimage(saved)) ==> Preimage(key) == Preimage(saved)
    requires key.saver == saved.saver && key.chapter + key.image == saved.chapter + saved.image
    ensures Lookup(View(cs[|ops|].f), BKey(sha, key)) == Some(e)
  {
    SharedSlot(sha, key, saved);
    LoadSeesLastSave(cs, ops, BKey(sha, key));
    KeptSince(None, ops, BKey(sha, key), at, e);
  }

  /** And nothing is loaded for an image exactly when every save under its byte key was followed by
      a drop or an eviction, in particular when there was none. */
  lemma NoImageIffRemoved(cs: seq<Cache>, ops: seq<Op>, sha: Hash, key: ImageKey)
    requires Run(cs, ops) && cs[0].f == Families(map[], map[])
    ensures Lookup(View(cs[|ops|].f), BKey(sha, key)) == None <==> AllRemoved(ops, BKey(sha, key))
  {
    LoadSeesLastSave(cs, ops, BKey(sha, key));
    RemovedSince(ops, BKey(sha, key));
  }

  // ---------- the counter ----------

  ghost predicate Covers(c: Cache) {
    MetaSum(c.f.meta) <= c.size
  }

  /** A save that does not overflow the counter. */
  predicate FitsCounter(c: Cache, op: Op) {
    op.Save? ==> c.size + op.entry.bytesLen < TWO_64
  }

  /** In sequential runs the counter never under-reports, and it is exact after a recount or a
      shrink. */
  lemma StepCovers(c: Cache, op: Op, c': Cache)
    requires Step(c, op, c') && Covers(c) && FitsCounter(c, op)
    ensures Covers(c')
    ensures op.Recount? || op.Shrink? ==> c'.size == MetaSum(c'.f.meta)
    ensures op.Shrink? ==> MetaSum(c'.f.meta) <= op.until
  {
    CatalogOfPurge(c.f);
    NoWrap(MetaSum(c.f.meta));
    match op {
      case Save(k, e) => SumOfWrite(c.f, k, e);
      case Drop(k) => SumOfSubset(c.f.meta, {k});
      case Shrink(until, rounds) =>
        ShrinkIsExact(c, c', until, rounds);
      case _ =>
    }
  }

  lemma {:induction false} RunCovers(cs: seq<Cache>, ops: seq<Op>, i: nat)
    requires Run(cs, ops) && Covers(cs[0]) && i <= |ops|
    requires forall j :: 0 <= j < i ==> FitsCounter(cs[j], ops[j])
    ensures Covers(cs[i])
  {
    if i > 0 {
      RunCovers(cs, ops, i - 1);
      StepCovers(cs[i - 1], ops[i - 1], cs[i]);
    }
  }

  ghost function Excess(c: Cache): int {
    c.size - MetaSum(c.f.meta)
  }

  /** How far the counter is above the true sum: an overwrite and a drop add the length of what they
      took, a recount and a shrink make it exact, nothing else changes it. */
  lemma StepExcess(c: Cache, op: Op, c': Cache)
    requires Step(c, op, c') && Covers(c) && FitsCounter(c, op)
    ensures op.Load? ==> Excess(c') == Excess(c)
    ensures op.Save? || op.Drop? ==> Excess(c') == Excess(c) + if op.key in c.f.meta then LenOf(c.f.meta[op.key]) else 0
    ensures op.Recount? || op.Shrink? ==> Excess(c') == 0
    ensures op.Report? ==> Excess(c') == if Sub64(op.now, c.fetched) > 3600000 then 0 else Excess(c)
  {
    StepCovers(c, op, c');
    CatalogOfPurge(c.f);
    NoWrap(MetaSum(c.f.meta));
    match op {
      case Save(k, e) => SumOfWrite(c.f, k, e);
      case Drop(k) => SumOfRemove(c.f.meta, k);
      case _ =>
    }
  }

  // ---------- ages ----------

  lemma StampOfView(f: Families, k: Key)
    requires k in View(f)
    ensures k in CatalogOf(f.meta)
    ensures CatalogOf(f.meta)[k] == Stamp(View(f)[k].saveTime, View(f)[k].bytesLen)
  {
  }

  /** Where evictions are first in, first out, whatever a shrink took is no newer than what it left. */
  lemma OldestGoFirst(c: Cache, c': Cache, until: u64, rounds: seq<Round>, v: Key, k: Key)
    requires Shrunk(c, c', until, rounds) && FifoEvictions(CatalogOf(c.f.meta))
    requires v in View(c.f) && v !in View(c'.f) && k in View(c'.f)
    ensures k in View(c.f) && View(c.f)[v].saveTime <= View(c.f)[k].saveTime
  {
    StepRefines(c, Shrink(until, rounds), c');
    assert v in DroppedKeys(rounds) && k !in DroppedKeys(rounds);
    StampOfView(c.f, v);
    StampOfView(c.f, k);
    NoOlderIsLeft(CatalogOf(c.f.meta), rounds, until, v, k);
  }

  lemma NoOlderIsLeft(cat: Catalog, rounds: seq<Round>, until: u64, v: Key, k: Key)
    requires FifoEvictions(cat) && Evicts(cat, rounds, until)
    requires v in cat && k in cat && v in DroppedKeys(rounds) && k !in DroppedKeys(rounds)
    ensures cat[v].saveTime <= cat[k].saveTime
  {
    NotOlder(cat, rounds, until, RecordOf(v, cat[v]), RecordOf(k, cat[k]));
  }

  lemma NotOlder(cat: Catalog, rounds: seq<Round>, until: u64, v: Record, k: Record)
    requires FifoEvictions(cat) && Evicts(cat, rounds, until)
    requires Stored(cat, v) && v.key in DroppedKeys(rounds) && Stored(cat, k) && k.key !in DroppedKeys(rounds)
    ensures !Older(k, v)
  {
    assert Stored(Left(cat, rounds), k);
  }

  /** So it is with at most 256 entries. */
  lemma SmallStoreOldestGoFirst(c: Cache, c': Cache, until: u64, rounds: seq<Round>, v: Key, k: Key)
    requires Shrunk(c, c', until, rounds) && |CatalogOf(c.f.meta)| <= 256
    requires v in View(c.f) && v !in View(c'.f) && k in View(c'.f)
    ensures k in View(c.f) && View(c.f)[v].saveTime <= View(c.f)[k].saveTime
  {
    SmallStoreIsFifo(CatalogOf(c.f.meta));
    OldestGoFirst(c, c', until, rounds, v, k);
  }

  /** `k` was last saved at `clock`, by operation `at`, and is still there. */
  ghost predicate SavedAt(ops: seq<Op>, sha: Hash, k: Key, clock: u128, at: nat) {
    && at < |ops| && ops[at].Save? && ops[at].key == k
    && (exists data, mime :: ops[at].entry == NewEntry(sha, data, mime, Some(clock)))
    && forall i :: at < i < |ops| ==> Keeps(ops[i], k)
  }

  lemma SavedIsSeen(cs: seq<Cache>, ops: seq<Op>, sha: Hash, k: Key, clock: u128, at: nat)
    requires Run(cs, ops) && SavedAt(ops, sha, k, clock, at)
    ensures k in View(cs[|ops|].f) && View(cs[|ops|].f)[k].saveTime == clock
  {
    LoadSeesLastSave(cs, ops, k);
    KeptSince(Lookup(View(cs[0].f), k), ops, k, at, ops[at].entry);
  }

  /** Over any run, what was saved at an earlier clock is older. */
  lemma ClockIsAge(cs: seq<Cache>, ops: seq<Op>, sha: Hash, k1: Key, t1: u128, i: nat, k2: Key, t2: u128, j: nat)
    requires Run(cs, ops) && SavedAt(ops, sha, k1, t1, i) && SavedAt(ops, sha, k2, t2, j) && t1 < t2
    ensures var cat := CatalogOf(cs[|ops|].f.meta);
      k1 in cat && k2 in cat && Older(RecordOf(k1, cat[k1]), RecordOf(k2, cat[k2]))
  {
    SavedIsSeen(cs, ops, sha, k1, t1, i);
    SavedIsSeen(cs, ops, sha, k2, t2, j);
    StampOfView(cs[|ops|].f, k1);
    StampOfView(cs[|ops|].f, k2);
  }

  /** And a shrink that takes the later save takes the earlier one too, where evictions are first in,
      first out. */
  lemma EarlierSaveGoesFirst(
    cs: seq<Cache>, ops: seq<Op>, sha: Hash, k1: Key, t1: u128, i: nat, k2: Key, t2: u128, j: nat,
    c': Cache, until: u64, rounds: seq<Round>)
    requires Run(cs, ops) && SavedAt(ops, sha, k1, t1, i) && SavedAt(ops, sha, k2, t2, j) && t1 < t2
    requires Shrunk(cs[|ops|], c', until, rounds) && FifoEvictions(CatalogOf(cs[|ops|].f.meta))
    ensures k1 in View(c'.f) ==> k2 in View(c'.f)
  {
    SavedIsSeen(cs, ops, sha, k1, t1, i);
    SavedIsSeen(cs, ops, sha, k2, t2, j);
    if k1 in View(c'.f) && k2 !in View(c'.f) {
      OldestGoFirst(cs[|ops|], c', until, rounds, k2, k1);
    }
  }
}
