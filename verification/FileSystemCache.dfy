/** The filesystem cache engine over a store that maps byte keys to records. The store's own
    evictor is a library: here it removes any records it likes. */
module FileSystemCache {
  import opened Machine
  import opened Codec
  import opened Catalog
  import opened Store
  import opened Totals
  import P = ShrinkPolicy

  type Records = map<Key, Blob>

  function SizeOf(v: Blob): u64 {
    Wrap(|v|)
  }

  ghost function Sizes(m: Records): map<Key, nat> {
    map k | k in m :: SizeOf(m[k])
  }

  ghost function TrueSize(m: Records): nat {
    Total(Sizes(m))
  }

  /** The true size is that of all records, byte for byte. */
  lemma TrueSizeIsBytes(m: Records)
    requires forall k :: k in m ==> |m[k]| < TWO_64
    ensures TrueSize(m) == Total(map k | k in m :: |m[k]|)
  {
    assert Sizes(m) == map k | k in m :: |m[k]|;
  }

  /** What a save adds: 72 bytes, the mime type and the image. */
  lemma AddedSize(total: u64, e: Entry)
    ensures Add64(total, SizeOf(Encode(e))) == Wrap(total + 72 + |e.mime| + |e.bytes|)
  {
    var n := |Encode(e)|;
    assert n == 72 + |e.mime| + |e.bytes| by { RecordLayout(e); }
    WrapIsModulo(n);
    WrapIsModulo(total + n);
  }

  datatype Fs = Fs(store: Records, total: u64, fetched: u64)

  ghost predicate Covers(c: Fs) {
    TrueSize(c.store) <= c.total
  }

  ghost function Counted(c: Fs): Fs {
    c.(total := Wrap(TrueSize(c.store)))
  }

  /** A size query at `now`: a recount when the last one is an hour old or older. */
  ghost function Queried(c: Fs, now: u64): Fs {
    if Sub64(now, c.fetched) >= HOUR then Counted(c).(fetched := now) else c
  }

  function Saved(c: Fs, k: Key, v: Blob): Fs {
    c.(store := c.store[k := v], total := Add64(c.total, SizeOf(v)))
  }

  /** A successful shrink: some records are gone and the counter is that of the rest. */
  ghost predicate Shrunk(c: Fs, c': Fs) {
    && c'.fetched == c.fetched && c' == Counted(c')
    && exists ks: set<Key> :: c'.store == c.store - ks
  }

  lemma ShrunkBy(c: Fs, c': Fs, ks: set<Key>)
    requires c'.store == c.store - ks && c'.fetched == c.fetched && c' == Counted(c')
    ensures Shrunk(c, c')
  {
  }

  lemma SizeOfPut(m: Records, k: Key, v: Blob)
    ensures TrueSize(m[k := v]) == TrueSize(m) - (if k in m then SizeOf(m[k]) else 0) + SizeOf(v)
  {
    assert Sizes(m[k := v]) == Sizes(m)[k := SizeOf(v)];
    Insert(Sizes(m), k, SizeOf(v));
  }

  lemma SizeOfSubset(m: Records, ks: set<Key>)
    ensures TrueSize(m - ks) <= TrueSize(m)
  {
    Monotone(Sizes(m - ks), Sizes(m));
  }

  ghost function BooksOf(c: Fs): P.Books {
    P.Books(TrueSize(c.store), c.total)
  }

  /** Saves, size queries and shrinks keep the contract of the shrink policy, so its bound and its
      hysteresis hold of this engine too when the evictor meets its target. The counter never
      under-reports; only overwrites make it too high. */
  lemma SaveKeeps(c: Fs, k: Key, v: Blob, max: nat)
    requires Covers(c) && c.total + SizeOf(v) < TWO_64
    ensures P.Keeps(BooksOf(c), P.Added(SizeOf(v)), BooksOf(Saved(c, k, v)), max)
    ensures Covers(Saved(c, k, v))
    ensures c.total == TrueSize(c.store) ==>
      Saved(c, k, v).total - TrueSize(Saved(c, k, v).store) == if k in c.store then SizeOf(c.store[k]) else 0
  {
    SizeOfPut(c.store, k, v);
  }

  lemma CheckKeeps(c: Fs, c': Fs, now: u64, max: nat)
    requires Covers(c)
    requires var r := Queried(c, now);
      if P.Over(r.total, max) then Shrunk(r, c') && TrueSize(c'.store) <= P.Target(max) else c' == r
    ensures var check := P.Check(Sub64(now, c.fetched) >= HOUR, P.Over(Queried(c, now).total, max));
      P.Keeps(BooksOf(c), check, BooksOf(c'), max)
    ensures Covers(c')
    ensures P.Over(Queried(c, now).total, max) ==> c'.total == TrueSize(c'.store)
  {
  }

  // ---------- sequential runs ----------

  /** A failed shrink may have removed records; a failed save changes nothing. */
  datatype Op = Save(key: Key, record: Blob) | Query(now: u64) | Shrink | FailedShrink

  ghost predicate Step(c: Fs, op: Op, c': Fs) {
    match op
    case Save(k, v) => c' == Saved(c, k, v)
    case Query(now) => c' == Queried(c, now)
    case Shrink => Shrunk(c, c')
    case FailedShrink =>
      c'.total == c.total && c'.fetched == c.fetched && exists ks: set<Key> :: c'.store == c.store - ks
  }

  ghost predicate Run(cs: seq<Fs>, ops: seq<Op>) {
    |cs| == |ops| + 1 && forall i :: 0 <= i < |ops| ==> Step(cs[i], ops[i], cs[i + 1])
  }

  /** The operation made the counter exact. */
  predicate Recounts(c: Fs, op: Op) {
    op.Shrink? || (op.Query? && Sub64(op.now, c.fetched) >= HOUR)
  }

  lemma StepCovers(c: Fs, op: Op, c': Fs)
    requires Step(c, op, c') && Covers(c)
    requires op.Save? ==> c.total + SizeOf(op.record) < TWO_64
    ensures Covers(c')
    ensures Recounts(c, op) ==> c'.total == TrueSize(c'.store)
  {
    NoWrap(TrueSize(c.store));
    NoWrap(TrueSize(c'.store));
    match op {
      case Save(k, v) => SizeOfPut(c.store, k, v);
      case Query(_) =>
      case _ =>
        var ks: set<Key> :| c'.store == c.store - ks;
        SizeOfSubset(c.store, ks);
    }
  }

  /** Between completed sequential operations the counter never under-reports, and it is exact
      after a successful shrink and after an hourly recount. */
  lemma {:induction false} CounterCovers(cs: seq<Fs>, ops: seq<Op>, n: nat)
    requires Run(cs, ops) && Covers(cs[0]) && n <= |ops|
    requires forall i :: 0 <= i < n && ops[i].Save? ==> cs[i].total + SizeOf(ops[i].record) < TWO_64
    ensures Covers(cs[n])
    ensures n > 0 && Recounts(cs[n - 1], ops[n - 1]) ==> cs[n].total == TrueSize(cs[n].store)
  {
    if n > 0 {
      CounterCovers(cs, ops, n - 1);
      StepCovers(cs[n - 1], ops[n - 1], cs[n]);
    }
  }

  datatype FsError = Forceps | Bincode

  class FileSystemCache {
    var store: Records
    var total: u64
    var lastFetch: u64
    const sha: Hash

    ghost function State(): Fs
      reads this
    {
      Fs(store, total, lastFetch)
    }

    constructor (store: Records, sha: Hash, now: u64)
      ensures State() == Counted(Fs(store, 0, now)) && this.sha == sha
    {
      this.store, this.total, this.lastFetch, this.sha := store, 0, now, sha;
      new;
      var _ := UpdateRealSize();
    }

    method UpdateRealSize() returns (sz: u64)
      modifies `total
      ensures State() == Counted(old(State())) && sz == total
    {
      sz := 0;
      var rest := store.Keys;
      assert store - rest == map[];
      while rest != {}
        invariant rest <= store.Keys && sz == Wrap(TrueSize(store - rest))
        decreases rest
      {
        var k :| k in rest;
        assert store - (rest - {k}) == (store - rest)[k := store[k]];
        SizeOfPut(store - rest, k, store[k]);
        WrapAdd(TrueSize(store - rest), SizeOf(store[k]));
        sz := Add64(sz, SizeOf(store[k]));
        rest := rest - {k};
      }
      assert store - rest == store;
      total := sz;
    }

    method FindSize(now: u64) returns (sz: u64)
      modifies `total, `lastFetch
      ensures State() == Queried(old(State()), now) && sz == total
      ensures Sub64(now, old(lastFetch)) < 3600000 ==> State() == old(State())
      ensures Sub64(now, old(lastFetch)) >= 3600000 ==> total == Wrap(TrueSize(store)) && lastFetch == now
    {
      if Sub64(now, lastFetch) >= HOUR {
        var _ := UpdateRealSize();
        lastFetch := now;
      }
      return total;
    }

    /** A failed write changes nothing, not even the counter. */
    method SaveToDb(key: ImageKey, mime: Text, data: Buffer, clock: Option<u128>) returns (ok: bool)
      modifies `store, `total
      ensures ok ==> State() == Saved(old(State()), BKey(sha, key), Encode(NewEntry(sha, data, mime, clock)))
      ensures ok ==>
        store == old(store)[BKey(sha, key) :=
          Encode(Entry(if clock.Some? then clock.value else 0, sha(data), mime, |data|, data))]
      ensures ok ==> total == Wrap(old(total) + 72 + |mime| + |data|)
      ensures !ok ==> State() == old(State())
    {
      var record := Encode(NewEntry(sha, data, mime, clock));
      ok := *;
      if ok {
        store := store[BKey(sha, key) := record];
        AddedSize(total, NewEntry(sha, data, mime, clock));
        total := Add64(total, SizeOf(record));
      }
    }

    /** A read that works finds the whole entry that was saved, and an error is all that is found of
        anything else; `failed` tells whether the store could not be read. */
    method ReadFromDb(key: ImageKey) returns (r: Result<Entry, FsError>, ghost failed: bool)
      ensures r.Err? && r.error.Forceps? <==> failed || BKey(sha, key) !in store
      ensures r.Err? && r.error.Bincode? ==> Decode(store[BKey(sha, key)]) == None
      ensures r.Ok? ==> Decode(store[BKey(sha, key)]) == Some(r.value)
      ensures forall e :: !failed && BKey(sha, key) in store && store[BKey(sha, key)] == Encode(e) ==> r == Ok(e)
    {
      var readable: bool := *;
      failed := !readable;
      if !readable || BKey(sha, key) !in store {
        return Err(Forceps), failed;
      }
      var bytes := store[BKey(sha, key)];
      forall e | bytes == Encode(e) ensures Decode(bytes) == Some(e) {
        DecodeEncode(e, []);
      }
      match Decode(bytes) {
        case Some(e) => return Ok(e), failed;
        case None => return Err(Bincode), failed;
      }
    }

    /** A failed eviction may have removed records, and leaves the counter as it was. */
    method Shrink(min: u64) returns (r: Result<u64, ()>)
      modifies `store, `total
      ensures r.Ok? ==> Shrunk(old(State()), State()) && r.value == total == Wrap(TrueSize(store))
      ensures r.Err? ==> total == old(total) && TrueSize(store) <= TrueSize(old(store))
    {
      var evicted: set<Key> := *;
      SizeOfSubset(store, evicted);
      store := store - evicted;
      var ok: bool := *;
      if !ok {
        return Err(());
      }
      var sz := UpdateRealSize();
      ShrunkBy(old(State()), State(), evicted);
      return Ok(sz);
    }
  }
}
