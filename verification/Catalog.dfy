/** What the evictor reads of the metadata family: per key, the save time and the length of the
    decoded entry, and the key order in which a scan meets them. */
module Catalog {
  import opened Machine
  import opened Totals

  type Key = seq<byte>

  datatype Stamp = Stamp(saveTime: u128, len: u64)

  type Catalog = map<Key, Stamp>

  /** An item of a catalog, as the selection carries it. */
  datatype Record = Record(key: Key, saveTime: int, len: nat)

  function RecordOf(k: Key, s: Stamp): Record {
    Record(k, s.saveTime, s.len)
  }

  ghost predicate Stored(c: Catalog, r: Record) {
    r.key in c && r == RecordOf(r.key, c[r.key])
  }

  ghost predicate DistinctKeys(s: seq<Record>) {
    forall i, j :: 0 <= i < j < |s| ==> s[i].key != s[j].key
  }

  // ---------- the order of a scan ----------

  /** The order of the database's default comparator: byte by byte, a prefix first. */
  predicate Precedes(a: Key, b: Key) {
    b != [] && (a == [] || a[0] < b[0] || (a[0] == b[0] && Precedes(a[1..], b[1..])))
  }

  predicate InKeyOrder(s: seq<Record>) {
    forall i, j :: 0 <= i < j < |s| ==> Precedes(s[i].key, s[j].key)
  }

  /** `t` is the scan of a catalog: its items in key order. */
  ghost predicate Orders(c: Catalog, t: seq<Record>) {
    InKeyOrder(t) && forall r :: r in t <==> Stored(c, r)
  }

  lemma {:induction false} PrecedesIsStrict(a: Key)
    ensures !Precedes(a, a)
  {
    if a != [] {
      PrecedesIsStrict(a[1..]);
    }
  }

  lemma {:induction false} PrecedesIsTransitive(a: Key, b: Key, c: Key)
    requires Precedes(a, b) && Precedes(b, c)
    ensures Precedes(a, c)
  {
    if a != [] && a[0] == b[0] == c[0] {
      PrecedesIsTransitive(a[1..], b[1..], c[1..]);
    }
  }

  lemma {:induction false} PrecedesIsTotal(a: Key, b: Key)
    ensures a == b || Precedes(a, b) || Precedes(b, a)
  {
    if a != [] && b != [] && a[0] == b[0] {
      PrecedesIsTotal(a[1..], b[1..]);
      assert a == [a[0]] + a[1..] && b == [b[0]] + b[1..];
    }
  }

  /** The order is that of the first byte in which two keys differ. */
  lemma {:induction false} PrecedesAtFirstDifference(a: Key, b: Key)
    ensures Precedes(a, b) <==>
            exists n: nat :: n <= |a| && n < |b| && a[..n] == b[..n] && (n == |a| || a[n] < b[n])
  {
    if a != [] && b != [] && a[0] == b[0] {
      PrecedesAtFirstDifference(a[1..], b[1..]);
      var a', b' := a[1..], b[1..];
      if n: nat :| n <= |a'| && n < |b'| && a'[..n] == b'[..n] && (n == |a'| || a'[n] < b'[n]) {
        assert a[..n + 1] == [a[0]] + a'[..n] && b[..n + 1] == [b[0]] + b'[..n];
      }
      if n: nat :| n <= |a| && n < |b| && a[..n] == b[..n] && (n == |a| || a[n] < b[n]) {
        assert a[1..][..n - 1] == a[..n][1..] && b[1..][..n - 1] == b[..n][1..];
      }
    } else if Precedes(a, b) {
      assert a[..0] == b[..0];
    }
  }

  /** What a scan yields next. */
  lemma {:induction false} FirstKey(ks: set<Key>) returns (k: Key)
    requires ks != {}
    ensures k in ks && forall x :: x in ks && x != k ==> Precedes(k, x)
  {
    k :| k in ks;
    if ks - {k} == {} {
      assert forall x :: x in ks && x != k ==> x in ks - {k};
    } else {
      var f := FirstKey(ks - {k});
      PrecedesIsTotal(k, f);
      if Precedes(f, k) {
        k := f;
      } else {
        forall x | x in ks && x != k ensures Precedes(k, x) {
          if x != f {
            PrecedesIsTransitive(k, f, x);
          }
        }
      }
    }
  }

  lemma KeyOrderIsDistinct(s: seq<Record>)
    requires InKeyOrder(s)
    ensures DistinctKeys(s)
  {
    forall i, j | 0 <= i < j < |s| ensures s[i].key != s[j].key {
      PrecedesIsStrict(s[i].key);
    }
  }

  lemma ScanFront(c: Catalog, t: seq<Record>)
    requires Orders(c, t) && t != []
    ensures Orders(c - {t[|t| - 1].key}, t[..|t| - 1])
  {
    KeyOrderIsDistinct(t);
    var last := t[|t| - 1];
    assert last in t;
    forall r ensures r in t[..|t| - 1] <==> Stored(c - {last.key}, r) {
      assert r in t <==> Stored(c, r);
    }
  }

  /** Every store has a scan. */
  lemma {:induction false} ScanOf(c: Catalog) returns (t: seq<Record>)
    ensures Orders(c, t)
    decreases |c.Keys|
  {
    if c == map[] {
      t := [];
    } else {
      var k := FirstKey(c.Keys);
      assert (c - {k}).Keys == c.Keys - {k};
      assert |c.Keys - {k}| == |c.Keys| - 1;
      var rest := ScanOf(c - {k});
      t := [RecordOf(k, c[k])] + rest;
      forall i | 0 <= i < |rest| ensures Precedes(k, rest[i].key) {
        assert Stored(c - {k}, rest[i]);
      }
    }
  }

  /** It has one scan only. */
  lemma {:induction false} OneScan(c: Catalog, s: seq<Record>, t: seq<Record>)
    requires Orders(c, s) && Orders(c, t)
    ensures s == t
  {
    if s == [] {
      assert forall r :: r in multiset(t) <==> r in t;
      assert multiset(t) == multiset{};
      assert |t| == |multiset(t)|;
    } else {
      var x := s[|s| - 1];
      assert x in s && x in t;
      var y := t[|t| - 1];
      assert y in t && y in s;
      var i :| 0 <= i < |t| && t[i] == x;
      var j :| 0 <= j < |s| && s[j] == y;
      if x.key != y.key {
        PrecedesIsTransitive(x.key, y.key, x.key);
        PrecedesIsStrict(x.key);
      }
      assert x == y;
      ScanFront(c, s);
      ScanFront(c, t);
      OneScan(c - {x.key}, s[..|s| - 1], t[..|t| - 1]);
    }
  }

  ghost function Lens(c: Catalog): map<Key, nat> {
    map k | k in c :: c[k].len
  }

  /** The sum of all lengths. */
  ghost function Bytes(c: Catalog): nat {
    Total(Lens(c))
  }

  lemma BytesOfEmpty()
    ensures Bytes(map[]) == 0
  {
  }

  lemma BytesOfRemove(c: Catalog, k: Key)
    ensures Bytes(c - {k}) == Bytes(c) - if k in c then c[k].len else 0
  {
    if k in c {
      assert Lens(c - {k}) == Lens(c) - {k};
      Remove(Lens(c), k);
    } else {
      assert c - {k} == c;
    }
  }

  lemma BytesOfPut(c: Catalog, k: Key, s: Stamp)
    ensures Bytes(c[k := s]) == Bytes(c) - (if k in c then c[k].len else 0) + s.len
  {
    assert Lens(c[k := s]) == Lens(c)[k := s.len];
    Insert(Lens(c), k, s.len);
  }

  lemma BytesOfSubset(c: Catalog, ks: set<Key>)
    ensures Bytes(c - ks) <= Bytes(c)
  {
    Monotone(Lens(c - ks), Lens(c));
  }
}
