/** The two column families as values: what a load sees of them, what the metadata adds up to,
    and how writes, drops and purges change both. */
module Store {
  import opened Machine
  import opened Codec
  import opened Catalog

  type Blob = seq<byte>
  type Scan = seq<(Key, Blob)>

  datatype Families = Families(images: map<Key, Buffer>, meta: map<Key, Blob>)

  predicate Decodable(v: Blob) {
    Decode(v).Some?
  }

  function StampOf(v: Blob): Stamp
    requires Decodable(v)
  {
    var e := Decode(v).value;
    Stamp(e.saveTime, e.bytesLen)
  }

  /** What counts of an item: the length of its entry, nothing when it cannot be decoded. */
  function LenOf(v: Blob): u64 {
    if Decodable(v) then StampOf(v).len else 0
  }

  function CatalogOf(meta: map<Key, Blob>): Catalog {
    map k | k in meta && Decodable(meta[k]) :: StampOf(meta[k])
  }

  /** The true size of the store: the sum of `bytes_len` over the metadata family. */
  ghost function MetaSum(meta: map<Key, Blob>): nat {
    Bytes(CatalogOf(meta))
  }

  /** What a load can return, per byte key. */
  function View(f: Families): map<Key, Entry> {
    map k | k in f.images && k in f.meta && Decodable(f.meta[k])
      :: Decode(f.meta[k]).value.(bytes := f.images[k])
  }

  function Lookup<V>(v: map<Key, V>, k: Key): Option<V> {
    if k in v then Some(v[k]) else None
  }

  function Write(f: Families, k: Key, e: Entry): Families {
    Families(f.images[k := e.bytes], f.meta[k := Encode(Blank(e))])
  }

  function Remove(f: Families, ks: set<Key>): Families {
    Families(f.images - ks, f.meta - ks)
  }

  function Undecodable(f: Families): set<Key> {
    set k | k in f.meta && !Decodable(f.meta[k])
  }

  function Purge(f: Families): Families {
    Remove(f, Undecodable(f))
  }

  // ---------- the view of a load ----------

  lemma ViewOfWrite(f: Families, k: Key, e: Entry)
    ensures View(Write(f, k, e)) == View(f)[k := e]
  {
    BlankRestore(e);
  }

  lemma ViewOfRemove(f: Families, ks: set<Key>)
    ensures View(Remove(f, ks)) == View(f) - ks
  {
  }

  lemma ViewOfPurge(f: Families)
    ensures View(Purge(f)) == View(f)
  {
  }

  // ---------- the catalog and the sum of the metadata ----------

  lemma EmptySum()
    ensures MetaSum(map[]) == 0
  {
  }

  lemma CatalogOfRemove(meta: map<Key, Blob>, ks: set<Key>)
    ensures CatalogOf(meta - ks) == CatalogOf(meta) - ks
  {
  }

  lemma CatalogOfPurge(f: Families)
    ensures CatalogOf(Purge(f).meta) == CatalogOf(f.meta)
    ensures MetaSum(Purge(f).meta) == MetaSum(f.meta)
    ensures Undecodable(Purge(f)) == {}
  {
  }

  lemma SumOfRemove(meta: map<Key, Blob>, k: Key)
    ensures MetaSum(meta - {k}) == MetaSum(meta) - (if k in meta then LenOf(meta[k]) else 0)
  {
    CatalogOfRemove(meta, {k});
    BytesOfRemove(CatalogOf(meta), k);
  }

  lemma SumOfPut(meta: map<Key, Blob>, k: Key, v: Blob)
    requires Decodable(v)
    ensures MetaSum(meta[k := v]) == MetaSum(meta) - (if k in meta then LenOf(meta[k]) else 0) + LenOf(v)
  {
    assert CatalogOf(meta[k := v]) == CatalogOf(meta)[k := StampOf(v)];
    BytesOfPut(CatalogOf(meta), k, StampOf(v));
  }

  lemma EncodedLen(e: Entry)
    ensures Decodable(Encode(Blank(e))) && LenOf(Encode(Blank(e))) == e.bytesLen
  {
    DecodeEncode(Blank(e), []);
  }

  lemma SumOfWrite(f: Families, k: Key, e: Entry)
    ensures MetaSum(Write(f, k, e).meta) ==
            MetaSum(f.meta) - (if k in f.meta then LenOf(f.meta[k]) else 0) + e.bytesLen
  {
    EncodedLen(e);
    SumOfPut(f.meta, k, Encode(Blank(e)));
  }

  lemma SumOfSubset(meta: map<Key, Blob>, ks: set<Key>)
    ensures MetaSum(meta - ks) <= MetaSum(meta)
  {
    CatalogOfRemove(meta, ks);
    BytesOfSubset(CatalogOf(meta), ks);
  }

  // ---------- scans ----------

  /** `s` lists every item of `m` exactly once, in key order. */
  ghost predicate Lists(m: map<Key, Blob>, s: Scan) {
    && (forall i :: 0 <= i < |s| ==> s[i].0 in m && m[s[i].0] == s[i].1)
    && (forall i, j :: 0 <= i < j < |s| ==> Precedes(s[i].0, s[j].0))
    && (forall k :: k in m ==> exists i :: 0 <= i < |s| && s[i].0 == k)
  }

  ghost function ScanSum(s: Scan): nat {
    if s == [] then 0 else ScanSum(s[..|s| - 1]) + LenOf(s[|s| - 1].1)
  }

  function BadKeys(s: Scan): set<Key> {
    if s == [] then {}
    else
      var (k, v) := s[|s| - 1];
      BadKeys(s[..|s| - 1]) + if Decodable(v) then {} else {k}
  }

  function Records(s: Scan): seq<Record> {
    if s == [] then []
    else
      var (k, v) := s[|s| - 1];
      Records(s[..|s| - 1]) + if Decodable(v) then [RecordOf(k, StampOf(v))] else []
  }

  lemma ListsLess(m: map<Key, Blob>, s: Scan)
    requires Lists(m, s) && s != []
    ensures Lists(m - {s[|s| - 1].0}, s[..|s| - 1])
    ensures forall i :: 0 <= i < |s| - 1 ==> s[i].0 != s[|s| - 1].0
  {
    PrecedesIsStrict(s[|s| - 1].0);
  }

  lemma ListsMore(m: map<Key, Blob>, s: Scan, k: Key, v: Blob)
    requires Lists(m, s) && k !in m
    requires forall x :: x in m ==> Precedes(x, k)
    ensures Lists(m[k := v], s + [(k, v)])
  {
    var s', m' := s + [(k, v)], m[k := v];
    forall i | 0 <= i < |s'| ensures s'[i].0 in m' && m'[s'[i].0] == s'[i].1 {
    }
    forall x | x in m' ensures exists i :: 0 <= i < |s'| && s'[i].0 == x {
      if x == k {
        assert s'[|s|].0 == x;
      } else {
        var i :| 0 <= i < |s| && s[i].0 == x;
        assert s'[i].0 == x;
      }
    }
  }

  lemma {:induction false} ScanSumIsMetaSum(m: map<Key, Blob>, s: Scan)
    requires Lists(m, s)
    ensures ScanSum(s) == MetaSum(m)
  {
    if s == [] {
      EmptySum();
    } else {
      ListsLess(m, s);
      ScanSumIsMetaSum(m - {s[|s| - 1].0}, s[..|s| - 1]);
      SumOfRemove(m, s[|s| - 1].0);
    }
  }

  /** One more item of a scan. */
  lemma ScanStep(s: Scan, i: nat)
    requires i < |s|
    ensures ScanSum(s[..i + 1]) == ScanSum(s[..i]) + LenOf(s[i].1)
    ensures Decodable(s[i].1) ==> BadKeys(s[..i + 1]) == BadKeys(s[..i])
    ensures Decodable(s[i].1) ==> Records(s[..i + 1]) == Records(s[..i]) + [RecordOf(s[i].0, StampOf(s[i].1))]
    ensures !Decodable(s[i].1) ==> BadKeys(s[..i + 1]) == BadKeys(s[..i]) + {s[i].0}
    ensures !Decodable(s[i].1) ==> Records(s[..i + 1]) == Records(s[..i])
  {
    assert s[..i + 1][..i] == s[..i];
  }

  lemma WrappedScanStep(s: Scan, i: nat, sz: u64)
    requires i < |s| && sz == Wrap(ScanSum(s[..i]))
    ensures Add64(sz, LenOf(s[i].1)) == Wrap(ScanSum(s[..i + 1]))
  {
    ScanStep(s, i);
    WrapAdd(ScanSum(s[..i]), LenOf(s[i].1));
  }

  lemma UndecodableLen(v: Blob)
    ensures !Decodable(v) ==> LenOf(v) == 0
  {
  }

  lemma RemoveMore(f: Families, a: set<Key>, b: set<Key>)
    ensures Remove(Remove(f, a), b) == Remove(f, a + b)
  {
  }

  lemma {:induction false} BadKeysOf(m: map<Key, Blob>, s: Scan, k: Key)
    requires Lists(m, s)
    ensures k in BadKeys(s) <==> k in m && !Decodable(m[k])
  {
    if s != [] {
      ListsLess(m, s);
      BadKeysOf(m - {s[|s| - 1].0}, s[..|s| - 1], k);
    }
  }

  lemma BadKeysAreUndecodable(f: Families, s: Scan)
    requires Lists(f.meta, s)
    ensures Remove(f, BadKeys(s)) == Purge(f)
  {
    assert BadKeys(s) == Undecodable(f) by {
      forall k ensures k in BadKeys(s) <==> k in Undecodable(f) {
        BadKeysOf(f.meta, s, k);
      }
    }
  }

  lemma {:induction false} RecordsHas(m: map<Key, Blob>, s: Scan, r: Record)
    requires Lists(m, s)
    ensures r in Records(s) <==> Stored(CatalogOf(m), r)
  {
    if s != [] {
      var (k, v) := s[|s| - 1];
      ListsLess(m, s);
      RecordsHas(m - {k}, s[..|s| - 1], r);
      StoredLess(m, k, v, r);
    }
  }

  lemma StoredLess(m: map<Key, Blob>, k: Key, v: Blob, r: Record)
    requires k in m && m[k] == v
    ensures Stored(CatalogOf(m), r) <==>
            Stored(CatalogOf(m - {k}), r) || (Decodable(v) && r == RecordOf(k, StampOf(v)))
  {
    CatalogOfRemove(m, {k});
  }

  /** The records of a listing are the decodable items, each once, in key order. */
  lemma {:induction false} RecordsOf(m: map<Key, Blob>, s: Scan)
    requires Lists(m, s)
    ensures Orders(CatalogOf(m), Records(s))
  {
    forall r ensures r in Records(s) <==> Stored(CatalogOf(m), r) {
      RecordsHas(m, s, r);
    }
    if s != [] {
      var (k, v) := s[|s| - 1];
      var s', m' := s[..|s| - 1], m - {k};
      ListsLess(m, s);
      RecordsOf(m', s');
      RecordsBefore(m', s', k);
      if Decodable(v) {
        OrderMore(Records(s'), RecordOf(k, StampOf(v)));
      }
    }
  }

  lemma OrderMore(t: seq<Record>, r: Record)
    requires InKeyOrder(t) && forall x :: x in t ==> Precedes(x.key, r.key)
    ensures InKeyOrder(t + [r])
  {
  }

  lemma RecordsBefore(m: map<Key, Blob>, s: Scan, k: Key)
    requires Lists(m, s) && Orders(CatalogOf(m), Records(s))
    requires forall i :: 0 <= i < |s| ==> Precedes(s[i].0, k)
    ensures forall r :: r in Records(s) ==> Precedes(r.key, k)
  {
    forall r | r in Records(s) ensures Precedes(r.key, k) {
      assert Stored(CatalogOf(m), r);
      var j :| 0 <= j < |s| && s[j].0 == r.key;
    }
  }
}
