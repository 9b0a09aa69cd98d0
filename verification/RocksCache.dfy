/** The RocksDB cache engine: the two column families behind atomic calls that may fail, and the
    engine's own fields, updated in place. Clock readings are parameters. */
module RocksCache {
  import opened Machine
  import opened Codec
  import opened Catalog
  import opened Store
  import opened Selection
  import opened Eviction
  import opened RocksModel

  datatype CacheError = Rocks | Bincode

  /** The database: every call is atomic, and a call that fails changes nothing. `failures` counts
      the calls that failed. */
  class Database {
    var images: map<Key, Buffer>
    var meta: map<Key, Blob>
    ghost var failures: nat

    constructor (images: map<Key, Buffer>, meta: map<Key, Blob>)
      ensures Content() == Families(images, meta) && failures == 0
    {
      this.images, this.meta, this.failures := images, meta, 0;
    }

    ghost function Content(): Families
      reads this
    {
      Families(images, meta)
    }

    method DeleteImage(key: Key) returns (ok: bool)
      modifies this
      ensures failures == old(failures) + if ok then 0 else 1
      ensures Content() == old(Content()).(images := old(images) - if ok then {key} else {})
    {
      ok := *;
      if ok {
        images := images - {key};
      } else {
        failures := failures + 1;
      }
    }

    method DeleteMeta(key: Key) returns (ok: bool)
      modifies this
      ensures failures == old(failures) + if ok then 0 else 1
      ensures Content() == old(Content()).(meta := old(meta) - if ok then {key} else {})
    {
      ok := *;
      if ok {
        meta := meta - {key};
      } else {
        failures := failures + 1;
      }
    }

    method PutImage(key: Key, val: Buffer) returns (ok: bool)
      modifies this
      ensures failures == old(failures) + if ok then 0 else 1
      ensures Content() == old(Content()).(images := if ok then old(images)[key := val] else old(images))
    {
      ok := *;
      if ok {
        images := images[key := val];
      } else {
        failures := failures + 1;
      }
    }

    method PutMeta(key: Key, val: Blob) returns (ok: bool)
      modifies this
      ensures failures == old(failures) + if ok then 0 else 1
      ensures Content() == old(Content()).(meta := if ok then old(meta)[key := val] else old(meta))
    {
      ok := *;
      if ok {
        meta := meta[key := val];
      } else {
        failures := failures + 1;
      }
    }

    method GetImage(key: Key) returns (r: Result<Option<Buffer>, CacheError>)
      modifies `failures
      ensures failures == old(failures) + if r.Ok? then 0 else 1
      ensures r.Err? ==> r.error == Rocks
      ensures r.Ok? ==> r.value == if key in images then Some(images[key]) else None
    {
      var ok: bool := *;
      if ok {
        r := Ok(if key in images then Some(images[key]) else None);
      } else {
        failures := failures + 1;
        r := Err(Rocks);
      }
    }

    method GetMeta(key: Key) returns (r: Result<Option<Blob>, CacheError>)
      modifies `failures
      ensures failures == old(failures) + if r.Ok? then 0 else 1
      ensures r.Err? ==> r.error == Rocks
      ensures r.Ok? ==> r.value == if key in meta then Some(meta[key]) else None
    {
      var ok: bool := *;
      if ok {
        r := Ok(if key in meta then Some(meta[key]) else None);
      } else {
        failures := failures + 1;
        r := Err(Rocks);
      }
    }

    /** A snapshot of the metadata family, in key order. */
    method Iterate() returns (s: Scan)
      ensures Lists(meta, s)
    {
      s := [];
      var rest := meta.Keys;
      while rest != {}
        invariant rest <= meta.Keys && Lists(meta - rest, s)
        invariant forall x, y :: x in meta && x !in rest && y in rest ==> Precedes(x, y)
        decreases rest
      {
        var _ := FirstKey(rest);
        var k :| k in rest && forall x :: x in rest && x != k ==> Precedes(k, x);
        ListsMore(meta - rest, s, k, meta[k]);
        assert (meta - rest)[k := meta[k]] == meta - (rest - {k});
        s := s + [(k, meta[k])];
        rest := rest - {k};
      }
      assert meta - rest == meta;
    }
  }

  /** `sort_unstable_by` on save times: any sorted permutation will do. */
  method SortByAge(acc: seq<Record>) returns (q: seq<Record>)
    ensures SortedByAge(q) && multiset(q) == multiset(acc)
  {
    q := [];
    for i := 0 to |acc|
      invariant SortedByAge(q) && multiset(q) == multiset(acc[..i])
    {
      var p := |q|;
      while p > 0 && Older(acc[i], q[p - 1])
        invariant 0 <= p <= |q|
        invariant forall k :: p <= k < |q| ==> Older(acc[i], q[k])
      {
        p := p - 1;
      }
      assert acc[..i + 1] == acc[..i] + [acc[i]];
      InsertSorted(q, p, acc[i], q[..p] + [acc[i]] + q[p..]);
      InsertCounts(q, p, acc[i]);
      q := q[..p] + [acc[i]] + q[p..];
    }
    assert acc[..|acc|] == acc;
  }

  lemma InsertSorted(q: seq<Record>, p: nat, x: Record, r: seq<Record>)
    requires SortedByAge(q) && p <= |q| && r == q[..p] + [x] + q[p..]
    requires forall k :: p <= k < |q| ==> Older(x, q[k])
    requires p > 0 ==> !Older(x, q[p - 1])
    ensures SortedByAge(r)
  {
  }

  lemma InsertCounts(q: seq<Record>, p: nat, x: Record)
    requires p <= |q|
    ensures multiset(q[..p] + [x] + q[p..]) == multiset(q) + multiset{x}
  {
    assert q == q[..p] + q[p..];
  }

  class RocksCache {
    const db: Database
    const sha: Hash
    var dbSize: u64
    var lastFetch: u64

    ghost function State(): Cache
      reads this, db
    {
      Cache(db.Content(), dbSize, lastFetch)
    }

    /** The engine before its first recount. */
    constructor (db: Database, sha: Hash)
      ensures this.db == db && this.sha == sha
      ensures State() == Cache(db.Content(), 0, 0)
    {
      this.db, this.sha, this.dbSize, this.lastFetch := db, sha, 0, 0;
    }

    /** Opens the engine on what the database holds, with a first recount. */
    static method Open(db: Database, sha: Hash, now: u64) returns (r: Result<RocksCache, CacheError>)
      modifies db
      ensures db.failures >= old(db.failures) && (r.Ok? <==> db.failures == old(db.failures))
      ensures r.Ok? ==> fresh(r.value) && r.value.db == db && r.value.sha == sha
      ensures r.Ok? ==> r.value.State() == Recounted(Cache(old(db.Content()), 0, 0), now)
    {
      var c := new RocksCache(db, sha);
      var fetched := c.FetchRealSize(now);
      if fetched.Err? {
        return Err(fetched.error);
      }
      return Ok(c);
    }

    /** Deletes the image first, so that a failure in between leaves no uncounted image. */
    method DropEntry(key: Key) returns (r: Result<(), CacheError>)
      modifies db
      ensures db.failures >= old(db.failures) && (r.Ok? <==> db.failures == old(db.failures))
      ensures r.Ok? ==> db.images == old(db.images) - {key} && db.meta == old(db.meta) - {key}
      ensures r.Err? ==> db.meta == old(db.meta) && (db.images == old(db.images) || db.images == old(db.images) - {key})
    {
      var ok := db.DeleteImage(key);
      if !ok {
        return Err(Rocks);
      }
      ok := db.DeleteMeta(key);
      if !ok {
        return Err(Rocks);
      }
      return Ok(());
    }

    /** Recounts the metadata family and drops what cannot be decoded. */
    method FetchRealSize(now: u64) returns (r: Result<(), CacheError>)
      modifies this, db
      ensures db.failures >= old(db.failures) && (r.Ok? <==> db.failures == old(db.failures))
      ensures r.Ok? ==> State() == Recounted(old(State()), now)
      ensures r.Ok? ==> lastFetch == now && dbSize == Wrap(MetaSum(old(db.meta))) == Wrap(MetaSum(db.meta))
      ensures r.Ok? ==> forall k :: k in db.meta <==> k in old(db.meta) && Decode(old(db.meta)[k]).Some?
      ensures r.Ok? ==> forall k :: k in db.images <==>
        k in old(db.images) && (k in old(db.meta) ==> Decode(old(db.meta)[k]).Some?)
      ensures r.Err? ==> dbSize == old(dbSize) && lastFetch == old(lastFetch)
      ensures r.Err? ==> OnlyRemoved(old(db.Content()), db.Content(), Undecodable(old(db.Content())))
    {
      ghost var f := db.Content();
      var sz: u64 := 0;
      var iter := db.Iterate();
      for i := 0 to |iter|
        invariant db.images == f.images - BadKeys(iter[..i]) && db.meta == f.meta - BadKeys(iter[..i])
        invariant sz == Wrap(ScanSum(iter[..i]))
        invariant db.failures == old(db.failures)
        invariant dbSize == old(dbSize) && lastFetch == old(lastFetch)
      {
        var (key, val) := iter[i];
        BadStep(f, iter, i);
        WrappedScanStep(iter, i, sz);
        UndecodableLen(val);
        if Decodable(val) {
          sz := Add64(sz, LenOf(val));
          continue;
        }
        r := DropEntry(key);
        if r.Err? {
          HalfDropped(f, iter, i, db.Content());
          return;
        }
      }
      assert iter[..|iter|] == iter;
      BadKeysAreUndecodable(f, iter);
      ScanSumIsMetaSum(f.meta, iter);
      CatalogOfPurge(f);
      assert db.Content() == Purge(f);
      dbSize := sz;
      lastFetch := now;
      return Ok(());
    }

    /** The size of the database, recounted when the last recount is too old. */
    method GetDbSize(now: u64, later: u64) returns (r: Result<u64, CacheError>)
      modifies this, db
      ensures db.failures >= old(db.failures) && (r.Ok? <==> db.failures == old(db.failures))
      ensures r.Ok? ==> State() == Reported(old(State()), now, later) && r.value == dbSize
      ensures Sub64(now, old(lastFetch)) <= 3600000 ==> r.Ok? && State() == old(State())
      ensures Sub64(now, old(lastFetch)) > 3600000 && r.Ok? ==>
        lastFetch == later && dbSize == Wrap(MetaSum(old(db.meta)))
      ensures r.Err? ==> dbSize == old(dbSize) && lastFetch == old(lastFetch)
      ensures r.Err? ==> OnlyRemoved(old(db.Content()), db.Content(), Undecodable(old(db.Content())))
    {
      if Sub64(now, lastFetch) > HOUR {
        var fetched := FetchRealSize(later);
        CatalogOfPurge(old(db.Content()));
        if fetched.Err? {
          return Err(fetched.error);
        }
      }
      return Ok(dbSize);
    }

    /** Counts the length, then writes both records; both writes run even when one fails. */
    method SaveEntry(key: ImageKey, entry: Entry) returns (r: Result<(), CacheError>)
      modifies this, db
      ensures db.failures >= old(db.failures) && (r.Ok? <==> db.failures == old(db.failures))
      ensures r.Ok? ==> State() == Saved(old(State()), BKey(sha, key), entry)
      ensures r.Ok? ==>
        && db.images == old(db.images)[BKey(sha, key) := entry.bytes]
        && db.meta == old(db.meta)[BKey(sha, key) := Encode(entry.(bytes := []))]
      ensures dbSize == Add64(old(dbSize), entry.bytesLen) && lastFetch == old(lastFetch)
      ensures var w := Write(old(db.Content()), BKey(sha, key), entry);
        db.images in {old(db.images), w.images} && db.meta in {old(db.meta), w.meta}
    {
      var bkey := BKey(sha, key);
      var bytes := entry.bytes;
      var record := Encode(Blank(entry));
      dbSize := Add64(dbSize, entry.bytesLen);
      var imageDone := db.PutImage(bkey, bytes);
      var metaDone := db.PutMeta(bkey, record);
      r := if imageDone && metaDone then Ok(()) else Err(Rocks);
    }

    method LoadEntry(key: ImageKey) returns (r: Result<Option<Entry>, CacheError>)
      modifies db`failures
      ensures db.failures >= old(db.failures)
      ensures db.failures > old(db.failures) <==> r.Err? && r.error.Rocks?
      ensures r.Ok? ==> r.value == Lookup(View(db.Content()), BKey(sha, key))
      ensures r.Err? && r.error.Bincode? ==> Lookup(View(db.Content()), BKey(sha, key)).None?
      ensures db.failures == old(db.failures) ==>
        (r.Err? <==> BKey(sha, key) in db.images && BKey(sha, key) in Undecodable(db.Content()))
    {
      var bkey := BKey(sha, key);
      var data := db.GetImage(bkey);
      if data.Err? {
        return Err(data.error);
      }
      var meta := db.GetMeta(bkey);
      if meta.Err? {
        return Err(meta.error);
      }
      if data.value.Some? && meta.value.Some? {
        match Decode(meta.value.value) {
          case Some(entry) => return Ok(Some(entry.(bytes := data.value.value)));
          case None => return Err(Bincode);
        }
      }
      return Ok(None);
    }

    /** Fills `n` slots from a scan and sorts them, oldest first. */
    method FindTopEntries(n: nat) returns (r: Result<seq<Record>, CacheError>)
      modifies db
      ensures db.failures >= old(db.failures) && (r.Ok? <==> db.failures == old(db.failures))
      ensures r.Ok? ==> db.Content() == Purge(old(db.Content())) && IsTop(CatalogOf(old(db.meta)), n, r.value)
      ensures r.Err? ==> OnlyRemoved(old(db.Content()), db.Content(), Undecodable(old(db.Content())))
    {
      ghost var f := db.Content();
      var acc: seq<Record> := [];
      var iter := db.Iterate();
      for i := 0 to |iter|
        invariant db.images == f.images - BadKeys(iter[..i]) && db.meta == f.meta - BadKeys(iter[..i])
        invariant acc == Gather(Records(iter[..i]), n)
        invariant db.failures == old(db.failures)
      {
        var (key, val) := iter[i];
        BadStep(f, iter, i);
        GatherStep(iter, i, n);
        if !Decodable(val) {
          var dropped := DropEntry(key);
          if dropped.Err? {
            HalfDropped(f, iter, i, db.Content());
            return Err(dropped.error);
          }
          continue;
        }
        var entry := RecordOf(key, StampOf(val));
        if |acc| < n {
          acc := acc + [entry];
          continue;
        }
        var slot := FirstNewer(acc, entry);
        if slot < |acc| {
          acc := acc[slot := entry];
        }
      }
      assert iter[..|iter|] == iter;
      BadKeysAreUndecodable(f, iter);
      var q := SortByAge(acc);
      RecordsOf(f.meta, iter);
      return Ok(q);
    }

    /** The size the evictor starts from. The three clock readings are those of the recount, of the
        report and of its recount. */
    method ActualSize(t0: u64, t1: u64, t2: u64) returns (r: Result<u64, CacheError>)
      modifies this, db
      ensures db.failures >= old(db.failures) && (r.Ok? <==> db.failures == old(db.failures))
      ensures r.Ok? ==> db.Content() == Purge(old(db.Content())) && Undecodable(db.Content()) == {}
      ensures r.Ok? ==> r.value == dbSize == Wrap(MetaSum(db.meta)) && lastFetch in {t0, t2}
      ensures r.Err? ==> OnlyRemoved(old(db.Content()), db.Content(), Undecodable(old(db.Content())))
      ensures r.Err? ==> dbSize in {old(dbSize), Wrap(MetaSum(old(db.meta)))}
    {
      var fetched := FetchRealSize(t0);
      if fetched.Err? {
        return Err(fetched.error);
      }
      ghost var c := State();
      CatalogOfPurge(old(db.Content()));
      PurgeOfDecodable(c.f);
      r := GetDbSize(t1, t2);
      if r.Err? {
        TwoRemovals(old(db.Content()), c.f, db.Content());
      }
    }

    /** Drops the entries of a queue, in order, until the target is met or the queue used up. */
    method DropQueue(queue: seq<Record>, size: u64, until: u64)
      returns (r: Result<u64, CacheError>, ghost dropped: nat)
      requires IsQueue(CatalogOf(db.meta), queue) && queue != [] && size == Wrap(MetaSum(db.meta))
      modifies db
      ensures db.failures >= old(db.failures) && (r.Ok? <==> db.failures == old(db.failures))
      ensures r.Ok? ==> RoundDone(old(db.Content()), Round(queue, dropped), until, db.Content(), r.value)
      ensures r.Ok? ==> r.value <= until || dropped == |queue|
      ensures r.Err? ==> OnlyRemoved(old(db.Content()), db.Content(), KeysOf(queue))
    {
      ghost var f := db.Content();
      var sz := size;
      ghost var cat := CatalogOf(f.meta);
      assert KeysOf(queue[..0]) == {} && f.meta - {} == f.meta && f.images - {} == f.images && cat - {} == cat;
      for i := 0 to |queue|
        invariant db.images == f.images - KeysOf(queue[..i]) && db.meta == f.meta - KeysOf(queue[..i])
        invariant sz == SizeWithout(cat, KeysOf(queue[..i]))
        invariant Unmet(cat, queue, i + 1, until)
        invariant i > 0 ==> RoundDone(f, Round(queue, i), until, db.Content(), sz)
        invariant db.failures == old(db.failures)
      {
        var dropped := DropEntry(queue[i].key);
        DropStep(cat, queue, i);
        if dropped.Err? {
          HalfQueue(f, queue, i, db.Content());
          return Err(dropped.error), i;
        }
        MinusMore(f, KeysOf(queue[..i]), queue[i].key);
        sz := Sub64(sz, queue[i].len);
        DropsDone(f, queue, i + 1, until, db.Content(), sz);
        if sz <= until {
          return Ok(sz), i + 1;
        }
        UnmetMore(cat, queue, i + 1, until);
      }
      return Ok(sz), |queue|;
    }

    /** Drops entries, oldest first within a batch, until at most `until` bytes remain. */
    method EvictEntriesFifo(until: u64, t0: u64, t1: u64, t2: u64)
      returns (r: Result<u64, CacheError>, ghost rounds: seq<Round>)
      modifies this, db
      ensures db.failures >= old(db.failures) && (r.Ok? <==> db.failures == old(db.failures))
      ensures r.Ok? ==> Shrunk(old(State()), State(), until, rounds) && r.value == dbSize
      ensures r.Ok? ==> lastFetch in {t0, t2}
      ensures r.Err? ==> OnlyRemoved(old(db.Content()), db.Content(), old(db.meta).Keys)
      ensures r.Err? ==> dbSize in {old(dbSize), Wrap(MetaSum(old(db.meta)))}
    {
      rounds := [];
      ghost var f0 := db.Content();
      CatalogOfPurge(f0);
      var size := ActualSize(t0, t1, t2);
      if size.Err? {
        AllowMore(f0, db.Content(), Undecodable(f0), f0.meta.Keys);
        return Err(size.error), rounds;
      }
      ghost var f, start, fetched := db.Content(), dbSize, lastFetch;
      var sz: u64 := size.value;
      Start(f, until, sz);
      while true
        invariant Underway(f, rounds, until, db.Content(), sz)
        invariant db.failures == old(db.failures) && dbSize == start && lastFetch == fetched
        decreases |CatalogOf(db.meta)|
      {
        ghost var g := db.Content();
        StillDecodable(f, rounds, until, g, sz);
        var top := FindTopEntries(BATCH);
        if top.Err? {
          FailedRound(f0, rounds, until, g, sz, db.Content(), {});
          return Err(top.error), rounds;
        }
        var queue := top.value;
        if queue == [] {
          NothingLeft(f, rounds, until, g, sz);
          break;
        }
        ghost var dropped: nat;
        size, dropped := DropQueue(queue, sz, until);
        if size.Err? {
          QueueKeys(CatalogOf(g.meta), queue);
          FailedRound(f0, rounds, until, g, sz, db.Content(), KeysOf(queue));
          return Err(size.error), rounds;
        }
        ghost var round := Round(queue, dropped);
        if size.value <= until {
          LastRound(f, rounds, until, g, sz, round, db.Content(), size.value);
          sz, rounds := size.value, rounds + [round];
          break;
        }
        NextRound(f, rounds, until, g, sz, round, db.Content(), size.value);
        RoundShrinks(CatalogOf(g.meta), round, until);
        CatalogOfRemove(g.meta, KeysOf(queue[..dropped]));
        sz, rounds := size.value, rounds + [round];
      }
      dbSize := sz;
      return Ok(sz), rounds;
    }

    // ---------- the interface the rest of the client uses ----------

    method Load(key: ImageKey) returns (r: Option<Entry>)
      modifies db`failures
      ensures db.failures >= old(db.failures)
      ensures db.failures == old(db.failures) ==> r == Lookup(View(db.Content()), BKey(sha, key))
      ensures db.failures > old(db.failures) ==> r == None
    {
      var entry := LoadEntry(key);
      if entry.Err? {
        return None;
      }
      return entry.value;
    }

    method Save(key: ImageKey, mime: Text, data: Buffer, clock: Option<u128>) returns (ok: bool)
      modifies this, db
      ensures db.failures >= old(db.failures) && (ok <==> db.failures == old(db.failures))
      ensures ok ==> State() == Saved(old(State()), BKey(sha, key), NewEntry(sha, data, mime, clock))
      ensures ok ==>
        Lookup(View(db.Content()), BKey(sha, key)) ==
        Some(Entry(if clock.Some? then clock.value else 0, sha(data), mime, |data|, data))
      ensures dbSize == Add64(old(dbSize), |data|) && lastFetch == old(lastFetch)
    {
      var r := SaveEntry(key, NewEntry(sha, data, mime, clock));
      ViewOfWrite(old(db.Content()), BKey(sha, key), NewEntry(sha, data, mime, clock));
      return r.Ok?;
    }

    /** The reported size, 0 when it could not be found. */
    method Report(now: u64, later: u64) returns (n: u64)
      modifies this, db
      ensures db.failures >= old(db.failures)
      ensures db.failures == old(db.failures) ==> State() == Reported(old(State()), now, later) && n == dbSize
      ensures db.failures > old(db.failures) ==> n == 0 && dbSize == old(dbSize)
      ensures db.failures > old(db.failures) ==>
        OnlyRemoved(old(db.Content()), db.Content(), Undecodable(old(db.Content())))
    {
      var r := GetDbSize(now, later);
      return if r.Ok? then r.value else 0;
    }

    method Shrink(min: u64, t0: u64, t1: u64, t2: u64) returns (r: Result<u64, ()>, ghost rounds: seq<Round>)
      modifies this, db
      ensures db.failures >= old(db.failures) && (r.Ok? <==> db.failures == old(db.failures))
      ensures r.Ok? ==> Shrunk(old(State()), State(), min, rounds) && r.value == dbSize
      ensures r.Err? ==> OnlyRemoved(old(db.Content()), db.Content(), old(db.meta).Keys)
      ensures r.Err? ==> dbSize in {old(dbSize), Wrap(MetaSum(old(db.meta)))}
    {
      var size;
      size, rounds := EvictEntriesFifo(min, t0, t1, t2);
      r := match size case Ok(n) => Ok(n) case Err(_) => Err(());
    }
  }

  lemma StillDecodable(f: Families, rounds: seq<Round>, until: u64, g: Families, sz: u64)
    requires Underway(f, rounds, until, g, sz)
    ensures Purge(g) == g && Undecodable(g) == {}
  {
    PurgeOfDecodable(g);
  }

  lemma GatherStep(iter: Scan, i: nat, n: nat)
    requires i < |iter|
    ensures var acc, next := Gather(Records(iter[..i]), n), Gather(Records(iter[..i + 1]), n);
      next == if Decodable(iter[i].1) then Offer(acc, RecordOf(iter[i].0, StampOf(iter[i].1)), n) else acc
  {
    ScanStep(iter, i);
    if Decodable(iter[i].1) {
      GatherMore(Records(iter[..i]), RecordOf(iter[i].0, StampOf(iter[i].1)), n);
    }
  }

  lemma BadStep(f: Families, iter: Scan, i: nat)
    requires i < |iter|
    ensures var bad, next := BadKeys(iter[..i]), BadKeys(iter[..i + 1]);
      if Decodable(iter[i].1) then next == bad
      else
        && f.images - bad - {iter[i].0} == f.images - next
        && f.meta - bad - {iter[i].0} == f.meta - next
  {
    ScanStep(iter, i);
  }

  /** A scan that stopped at a failed drop. */
  lemma HalfDropped(f: Families, iter: Scan, i: nat, g: Families)
    requires Lists(f.meta, iter) && i < |iter| && !Decodable(iter[i].1)
    requires g.meta == f.meta - BadKeys(iter[..i])
    requires g.images == f.images - BadKeys(iter[..i]) || g.images == f.images - BadKeys(iter[..i]) - {iter[i].0}
    ensures OnlyRemoved(f, g, Undecodable(f))
  {
    var a := BadKeys(iter[..i]);
    BadSoFar(f, iter, i);
    if g.images == f.images - a {
      OnlyRemovedBy(f, g, a, a, Undecodable(f));
    } else {
      assert g.images == f.images - (a + {iter[i].0});
      OnlyRemovedBy(f, g, a, a + {iter[i].0}, Undecodable(f));
    }
  }

  lemma {:induction false} BadSoFar(f: Families, iter: Scan, i: nat)
    requires Lists(f.meta, iter) && i <= |iter|
    ensures BadKeys(iter[..i]) <= Undecodable(f)
  {
    if i > 0 {
      BadSoFar(f, iter, i - 1);
      ScanStep(iter, i - 1);
    }
  }

  lemma TwoRemovals(f: Families, g: Families, h: Families)
    requires g == Purge(f) && OnlyRemoved(g, h, Undecodable(g))
    ensures OnlyRemoved(f, h, Undecodable(f))
  {
    assert Undecodable(g) == {};
    RemovedTwice(f, Undecodable(f), h, Undecodable(g), Undecodable(f));
  }

  lemma MinusMore(f: Families, ks: set<Key>, k: Key)
    ensures f.images - ks - {k} == f.images - (ks + {k}) && f.meta - ks - {k} == f.meta - (ks + {k})
  {
  }

  /** A queue that stopped at a failed drop. */
  lemma HalfQueue(f: Families, q: seq<Record>, i: nat, g: Families)
    requires i < |q| && g.meta == f.meta - KeysOf(q[..i])
    requires g.images == f.images - KeysOf(q[..i]) || g.images == f.images - KeysOf(q[..i]) - {q[i].key}
    ensures OnlyRemoved(f, g, KeysOf(q))
  {
    var a := KeysOf(q[..i]);
    assert a <= KeysOf(q) && q[i].key in KeysOf(q);
    MinusMore(f, a, q[i].key);
    OnlyRemovedBy(f, g, a, if g.images == f.images - a then a else a + {q[i].key}, KeysOf(q));
  }

  lemma AllowMore(f: Families, g: Families, ks: set<Key>, more: set<Key>)
    requires OnlyRemoved(f, g, ks) && ks <= more
    ensures OnlyRemoved(f, g, more)
  {
  }
}
