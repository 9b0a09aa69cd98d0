/** Where the promise to drop the oldest entries first ends: stores whose entries can fall on their
    keys so that an eviction keeps an older entry than one it drops. */
module FifoLimits {
  import opened Machine
  import opened Catalog
  import opened Selection
  import opened Exactness
  import opened Eviction
  import opened Fifo

  // ---------- dealing keeps the size ----------

  function LenSum(s: seq<Record>): nat {
    if s == [] then 0 else LenSum(s[..|s| - 1]) + s[|s| - 1].len
  }

  lemma {:induction false} BytesOfScan(c: Catalog, t: seq<Record>)
    requires Orders(c, t)
    ensures Bytes(c) == LenSum(t)
  {
    if t == [] {
      assert forall k :: k in c ==> Stored(c, RecordOf(k, c[k]));
      assert c == map[];
      BytesOfEmpty();
    } else {
      var r := t[|t| - 1];
      assert r in t;
      ScanFront(c, t);
      BytesOfScan(c - {r.key}, t[..|t| - 1]);
      BytesOfRemove(c, r.key);
    }
  }

  lemma {:induction false} LenSumWithout(p: seq<Record>, i: nat)
    requires i < |p|
    ensures LenSum(p) == LenSum(p[..i] + p[i + 1..]) + p[i].len
  {
    var n := |p| - 1;
    if i == n {
      assert p[..i] + p[i + 1..] == p[..n];
    } else {
      LenSumWithout(p[..n], i);
      assert (p[..i] + p[i + 1..])[..n - 1] == p[..n][..i] + p[..n][i + 1..];
    }
  }

  lemma TakenOut(front: seq<Record>, x: Record, p: seq<Record>, i: nat)
    requires i < |p| && p[i] == x && multiset(p) == multiset(front + [x])
    ensures multiset(p[..i] + p[i + 1..]) == multiset(front)
  {
    assert p == p[..i] + [x] + p[i + 1..];
    assert multiset(p[..i] + p[i + 1..]) == multiset(p) - multiset{x};
    assert multiset(front) == multiset(front + [x]) - multiset{x};
  }

  lemma {:induction false} LenSumShuffled(s: seq<Record>, p: seq<Record>)
    requires multiset(p) == multiset(s)
    ensures LenSum(p) == LenSum(s)
  {
    SameMembers(s, p);
    if s != [] {
      var n := |s| - 1;
      assert s == s[..n] + [s[n]];
      assert s[n] in p;
      var i :| 0 <= i < |p| && p[i] == s[n];
      TakenOut(s[..n], s[n], p, i);
      LenSumWithout(p, i);
      LenSumShuffled(s[..n], p[..i] + p[i + 1..]);
    }
  }

  lemma {:induction false} LenSumMoved(p: seq<Record>, t: seq<Record>)
    requires |t| == |p| && forall i :: 0 <= i < |t| ==> t[i].len == p[i].len
    ensures LenSum(t) == LenSum(p)
  {
    if t != [] {
      LenSumMoved(p[..|p| - 1], t[..|t| - 1]);
    }
  }

  /** All entries have a length, and the store does not overflow the counter. */
  ghost predicate Sized(c: Catalog) {
    Bytes(c) < TWO_64 && forall k :: k in c ==> c[k].len > 0
  }

  lemma DealtSized(cat: Catalog, s: seq<Record>, p: seq<Record>, dealt: Catalog)
    requires Orders(cat, s) && Sized(cat) && multiset(p) == multiset(s) && |p| == |s|
    requires Orders(dealt, Onto(s, p))
    ensures Sized(dealt)
  {
    BytesOfScan(cat, s);
    BytesOfScan(dealt, Onto(s, p));
    LenSumShuffled(s, p);
    LenSumMoved(p, Onto(s, p));
    SameMembers(s, p);
    forall k | k in dealt ensures dealt[k].len > 0 {
      assert Stored(dealt, RecordOf(k, dealt[k]));
      var i :| 0 <= i < |p| && Onto(s, p)[i] == RecordOf(k, dealt[k]);
      assert p[i] in p;
      assert Stored(cat, p[i]);
    }
  }

  // ---------- batches that come first and in order ----------

  /** Nothing short of dropping all of `gone` meets the target. */
  ghost predicate AllNeeded(c: Catalog, gone: set<Key>, until: u64) {
    forall ks: set<Key> :: ks < gone ==> SizeWithout(c, ks) > until
  }

  lemma AllAreNeeded(c: Catalog, gone: set<Key>, until: u64)
    requires Sized(c) && gone <= c.Keys && until == SizeWithout(c, gone)
    ensures AllNeeded(c, gone, until)
  {
    forall ks: set<Key> | ks < gone ensures SizeWithout(c, ks) > until {
      var k :| k in gone && k !in ks;
      BytesOfSubset(c, ks);
      BytesOfSubset(c, gone);
      assert (c - ks)[k] == c[k];
      BytesOfRemove(c - ks, k);
      assert c - gone == (c - ks - {k}) - gone;
      BytesOfSubset(c - ks - {k}, gone);
      NoWrap(Bytes(c - ks));
      NoWrap(Bytes(c - gone));
    }
  }

  lemma {:induction false} NothingReplaced(u: seq<Record>, n: nat)
    requires n <= |u| && forall i, j :: 0 <= i < n <= j < |u| ==> !Older(u[j], u[i])
    ensures Gather(u, n) == u[..n]
  {
    if |u| == n {
      GatherShort(u, n);
      assert u[..n] == u;
    } else {
      NothingReplaced(u[..|u| - 1], n);
      assert u[..|u| - 1][..n] == u[..n];
    }
  }

  lemma ScanSuffix(c: Catalog, t: seq<Record>, a: nat)
    requires Orders(c, t) && a <= |t|
    ensures Orders(c - KeysOf(t[..a]), t[a..])
  {
    KeyOrderIsDistinct(t);
    assert t == t[..a] + t[a..];
    forall r ensures r in t[a..] <==> Stored(c - KeysOf(t[..a]), r) {
      assert r in t <==> r in t[..a] || r in t[a..];
      if r in t[a..] {
        var i :| a <= i < |t| && t[i] == r;
        assert r.key !in KeysOf(t[..a]);
      }
    }
  }

  /** Entries that come first in the scan, in order of age and older than the rest, are what each
      batch takes. */
  ghost predicate InOrderTo(t: seq<Record>, a: nat) {
    a <= |t| && forall i, j :: 0 <= i < j < |t| && i < a ==> !Older(t[j], t[i])
  }

  lemma FirstBatch(c: Catalog, u: seq<Record>)
    requires Orders(c, u) && InOrderTo(u, BATCH)
    ensures IsQueue(c, u[..BATCH])
  {
    NothingReplaced(u, BATCH);
    assert SortedByAge(u[..BATCH]);
  }

  lemma KeysOfSum(a: seq<Record>, b: seq<Record>)
    ensures KeysOf(a + b) == KeysOf(a) + KeysOf(b)
  {
  }

  lemma DroppedMore(rounds: seq<Round>, q: seq<Record>)
    ensures DroppedKeys(rounds + [Round(q, |q|)]) == DroppedKeys(rounds) + KeysOf(q)
  {
    assert (rounds + [Round(q, |q|)])[..|rounds|] == rounds;
    assert q[..|q|] == q;
  }

  /** A queue of which every drop is needed is used up but for its last drop without meeting the
      target. */
  lemma UnmetThroughout(c: Catalog, before: set<Key>, q: seq<Record>, gone: set<Key>, until: u64)
    requires AllNeeded(c, gone, until) && DistinctKeys(q) && before + KeysOf(q) <= gone
    requires forall r :: r in q ==> r.key !in before
    ensures Unmet(c - before, q, |q|, until)
  {
    forall d | 0 < d < |q| ensures SizeWithout(c - before, KeysOf(q[..d])) > until {
      var ks := before + KeysOf(q[..d]);
      assert q[d] in q && q[d].key in gone && q[d].key !in ks;
      assert ks < gone;
      assert c - before - KeysOf(q[..d]) == c - ks;
    }
  }

  lemma {:induction false} DrainsInOrder(c: Catalog, t: seq<Record>, n: nat, gone: set<Key>, until: u64)
    returns (rounds: seq<Round>)
    requires Orders(c, t) && InOrderTo(t, BATCH * n)
    requires AllNeeded(c, gone, until) && KeysOf(t[..BATCH * n]) < gone
    ensures AllFail(c, rounds, until) && DroppedKeys(rounds) == KeysOf(t[..BATCH * n])
  {
    if n == 0 {
      rounds := [];
    } else {
      var a := BATCH * (n - 1);
      var q := t[a..][..BATCH];
      assert t[..a + BATCH] == t[..a] + q;
      KeysOfSum(t[..a], q);
      rounds := DrainsInOrder(c, t, n - 1, gone, until);
      ScanSuffix(c, t, a);
      FirstBatch(Left(c, rounds), t[a..]);
      BatchFails(c, rounds, t, a, q, gone, until);
      FailMore(c, rounds, Round(q, |q|), until);
      DroppedMore(rounds, q);
      rounds := rounds + [Round(q, |q|)];
    }
  }

  lemma BatchFails(c: Catalog, rounds: seq<Round>, t: seq<Record>, a: nat, q: seq<Record>, gone: set<Key>, until: u64)
    requires InKeyOrder(t) && a + BATCH <= |t| && q == t[a..][..BATCH]
    requires DroppedKeys(rounds) == KeysOf(t[..a]) && IsQueue(Left(c, rounds), q)
    requires AllNeeded(c, gone, until) && KeysOf(t[..a]) + KeysOf(q) < gone
    ensures RoundFails(Left(c, rounds), Round(q, |q|), until)
  {
    KeyOrderIsDistinct(t);
    var before := KeysOf(t[..a]);
    forall r | r in q ensures r.key !in before {
      var i :| 0 <= i < |q| && q[i] == r;
      assert q[i] == t[a + i];
    }
    UnmetThroughout(c, before, q, gone, until);
    assert c - before - KeysOf(q) == c - (before + KeysOf(q));
  }

  // ---------- an eviction that keeps an older entry ----------

  /** If the selection goes wrong after batches that came in order, an eviction that ends with that
      selection keeps an entry older than one it drops. */
  lemma KeepsOlder(c: Catalog, t: seq<Record>, n: nat)
    requires Orders(c, t) && Sized(c) && InOrderTo(t, BATCH * n)
    requires !ExactTop(t[BATCH * n..], Gather(t[BATCH * n..], BATCH))
    ensures !FifoEvictions(c)
  {
    var a := BATCH * n;
    var u := t[a..];
    var q := Sorted(Gather(u, BATCH));
    SameMembers(Gather(u, BATCH), q);
    var k, v :| k in u && k !in Gather(u, BATCH) && v in Gather(u, BATCH) && Older(k, v);
    var m := c - KeysOf(t[..a]);
    ScanSuffix(c, t, a);
    assert IsQueue(m, q);
    var _ := QueueMembers(m, q);
    var gone := KeysOf(t[..a]) + KeysOf(q);
    var until := SizeWithout(c, gone);
    SubsetOfKeys(c, t, a, q);
    AllAreNeeded(c, gone, until);
    assert v.key in gone && v.key !in KeysOf(t[..a]);
    var rounds := DrainsInOrder(c, t, n, gone, until);
    LastQueue(c, rounds, KeysOf(t[..a]), q, gone, until);
    DroppedMore(rounds, q);
    KeyAbsent(m, q, k);
    WasStored(c, m, v, k);
    BreaksFifo(c, rounds + [Round(q, |q|)], until, v, k);
  }

  lemma WasStored(c: Catalog, m: Catalog, v: Record, k: Record)
    requires Stored(m, v) && Stored(m, k) && forall x :: x in m ==> x in c && m[x] == c[x]
    ensures Stored(c, v) && Stored(c, k)
  {
  }

  lemma BreaksFifo(c: Catalog, rounds: seq<Round>, until: u64, v: Record, k: Record)
    requires Evicts(c, rounds, until) && Stored(c, v) && v.key in DroppedKeys(rounds)
    requires Stored(c, k) && k.key !in DroppedKeys(rounds) && Older(k, v)
    ensures !FifoEvictions(c)
  {
    assert Stored(Left(c, rounds), k);
  }

  lemma SubsetOfKeys(c: Catalog, t: seq<Record>, a: nat, q: seq<Record>)
    requires Orders(c, t) && a <= |t| && forall r :: r in q ==> Stored(c - KeysOf(t[..a]), r)
    ensures KeysOf(t[..a]) + KeysOf(q) <= c.Keys
  {
    forall r | r in t[..a] ensures r.key in c {
      assert r in t;
    }
  }

  lemma LastQueue(c: Catalog, rounds: seq<Round>, before: set<Key>, q: seq<Record>, gone: set<Key>, until: u64)
    requires AllFail(c, rounds, until) && DroppedKeys(rounds) == before
    requires IsQueue(c - before, q) && q != [] && gone == before + KeysOf(q)
    requires AllNeeded(c, gone, until) && until == SizeWithout(c, gone)
    ensures Evicts(c, rounds + [Round(q, |q|)], until)
  {
    var _ := QueueMembers(c - before, q);
    QueueIsDistinct(c - before, q);
    forall r | r in q ensures r.key !in before {
      assert Stored(c - before, r);
    }
    UnmetThroughout(c, before, q, gone, until);
    assert q[..|q|] == q;
    assert c - before - KeysOf(q) == c - gone;
    LastMeets(c, rounds, Round(q, |q|), until);
  }

  /** The entries of a ranking, dealt so that full batches come first and in order and the rest in an
      order that the selection gets wrong. */
  lemma BadDeal(cat: Catalog, s: seq<Record>, q: seq<Record>, n: nat) returns (dealt: Catalog, t: seq<Record>)
    requires Orders(cat, s) && Ranks(cat, q) && Sized(cat)
    requires BATCH * n < |q| && !Benign(q[BATCH * n..], BATCH)
    ensures Orders(dealt, t) && Dealt(s, t) && !FifoEvictions(dealt)
  {
    var p := BadPermutation(q, BATCH * n);
    KeyOrderIsDistinct(s);
    SameRecords(q, s);
    SameMembers(s, p);
    t := Onto(s, p);
    dealt := DealtCatalog(cat, s, p);
    DealtSized(cat, s, p, dealt);
    BadOnKeys(p, t, BATCH * n);
    KeepsOlder(dealt, t, n);
  }

  lemma BadPermutation(q: seq<Record>, a: nat) returns (p: seq<Record>)
    requires SortedByAge(q) && DistinctKeys(q) && a < |q| && !Benign(q[a..], BATCH)
    ensures multiset(p) == multiset(q) && |p| == |q|
    ensures InOrderTo(p, a) && !ExactTop(p[a..], Gather(p[a..], BATCH))
  {
    var w := LosingPermutation(q[a..], BATCH);
    SameMembers(q[a..], w);
    p := q[..a] + w;
    assert q == q[..a] + q[a..];
    assert p[a..] == w && p[..a] == q[..a];
    FrontStaysOldest(q, p, a);
  }

  lemma FrontStaysOldest(q: seq<Record>, p: seq<Record>, a: nat)
    requires SortedByAge(q) && a <= |q| == |p| && p[..a] == q[..a] && forall r :: r in p[a..] ==> r in q[a..]
    ensures InOrderTo(p, a)
  {
    forall i, j | 0 <= i < j < |p| && i < a ensures !Older(p[j], p[i]) {
      assert p[i] == p[..a][i] == q[i];
      if j < a {
        assert p[j] == p[..a][j] == q[j];
      } else {
        assert p[j] in p[a..];
        var l :| a <= l < |q| && q[l] == p[j];
      }
    }
  }

  lemma BadOnKeys(p: seq<Record>, t: seq<Record>, a: nat)
    requires InOrderTo(p, a) && !ExactTop(p[a..], Gather(p[a..], BATCH))
    requires TimesAgree(p, t) && InKeyOrder(t)
    ensures InOrderTo(t, a) && !ExactTop(t[a..], Gather(t[a..], BATCH))
  {
    KeyOrderIsDistinct(t);
    StaysInexact(p[a..], t[a..], BATCH);
  }

  /** Every eviction drops oldest first, however the entries of the store fall on its keys, if and
      only if what is left of its ranking after each full batch is benign. */
  lemma EvictionIsFifoIffBenign(cat: Catalog, s: seq<Record>, q: seq<Record>)
    requires Orders(cat, s) && Ranks(cat, q) && Sized(cat)
    ensures AlwaysFifo(s) <==> BenignThroughout(q)
  {
    if BenignThroughout(q) {
      forall dealt, t | Orders(dealt, t) && Dealt(s, t) ensures FifoEvictions(dealt) {
        DealtIsFifo(cat, s, q, dealt, t);
      }
    } else {
      var n := FirstBad(q);
      var dealt, t := BadDeal(cat, s, q, n);
    }
  }

  ghost predicate AlwaysFifo(s: seq<Record>) {
    forall dealt, t :: Orders(dealt, t) && Dealt(s, t) ==> FifoEvictions(dealt)
  }

  lemma FirstBad(q: seq<Record>) returns (n: nat)
    requires !BenignThroughout(q)
    ensures BATCH * n < |q| && !Benign(q[BATCH * n..], BATCH)
  {
    var j :| 0 <= j < |q| && j % BATCH == 0 && !Benign(q[j..], BATCH);
    n := j / BATCH;
  }

  lemma DealtIsFifo(cat: Catalog, s: seq<Record>, q: seq<Record>, dealt: Catalog, t: seq<Record>)
    requires Orders(cat, s) && Ranks(cat, q) && BenignThroughout(q) && Orders(dealt, t) && Dealt(s, t)
    ensures FifoEvictions(dealt)
  {
    var r := Ranking(dealt);
    KeyOrderIsDistinct(s);
    KeyOrderIsDistinct(t);
    SameRecords(q, s);
    SameRecords(r, t);
    ShuffledSameTimes(q, s);
    DealtSameTimes(s, t);
    ShuffledSameTimes(r, t);
    SortedOnce(q, r);
    forall j | 0 <= j < |r| && j % BATCH == 0 ensures Benign(r[j..], BATCH) {
      AgreeBenign(q[j..], r[j..]);
    }
    EvictionIsFifo(dealt, r);
  }

  // ---------- a store that fails ----------

  /** The `i`th of a series of 32-byte keys. */
  function ExampleKey(i: nat): Key
    requires i < 0x10000
  {
    [i / 256, i % 256] + seq(30, _ => 0)
  }

  /** In key order: an entry of time 5, 255 entries of time 10, an entry of time 3. */
  function Example(i: nat): Record
    requires i < 0x10000
  {
    Record(ExampleKey(i), if i == 0 then 5 else if i < BATCH then 10 else 3, 1)
  }

  lemma ExampleInOrder(t: seq<Record>)
    requires |t| <= 0x10000 && forall i :: 0 <= i < |t| ==> t[i] == Example(i)
    ensures InKeyOrder(t)
  {
    forall i, j | 0 <= i < j < |t| ensures Precedes(t[i].key, t[j].key) {
      var a, b := ExampleKey(i), ExampleKey(j);
      assert a[0] == i / 256 && a[1] == i % 256 && b[0] == j / 256 && b[1] == j % 256;
      assert a[1..][0] == a[1] && b[1..][0] == b[1];
    }
  }

  lemma ExampleSelection(t: seq<Record>)
    requires IsExample(t)
    ensures Gather(t, BATCH) == t[..BATCH][0 := t[BATCH]]
  {
    GatherShort(t[..BATCH], BATCH);
    assert t == t[..BATCH] + [t[BATCH]];
    GatherMore(t[..BATCH], t[BATCH], BATCH);
    assert t[..BATCH][0].saveTime == 5;
  }

  /** A store of 257 entries whose second oldest entry no round ever takes: it stays while entries
      that are newer go. */
  lemma SecondOldestIsKept() returns (c: Catalog, kept: Record)
    ensures |c| == 257 && forall k :: k in c ==> |k| == 32
    ensures Stored(c, kept) && kept.saveTime == 5 && forall r :: Stored(c, r) && Older(r, kept) ==> r.saveTime == 3
    ensures forall q: seq<Record> :: IsQueue(c, q) ==>
      kept !in q && |q| == 256 && q[0].saveTime == 3 && q[1].saveTime == 10
    ensures !FifoRounds(c)
  {
    var t;
    c, t := ExampleCatalog();
    kept := t[0];
    ExampleStored(c, t);
    ScanSize(c, t);
    forall q: seq<Record> | IsQueue(c, q)
      ensures kept !in q && |q| == 256 && q[0].saveTime == 3 && q[1].saveTime == 10
    {
      ExampleQueue(c, t, q);
    }
    ExampleIsInexact(t);
    FifoIffExact(c, t);
  }

  ghost predicate IsExample(t: seq<Record>) {
    |t| == BATCH + 1 && forall i :: 0 <= i < |t| ==> t[i] == Example(i)
  }

  lemma ExampleCatalog() returns (c: Catalog, t: seq<Record>)
    ensures IsExample(t) && Orders(c, t)
  {
    t := seq(BATCH + 1, i requires 0 <= i < BATCH + 1 => Example(i));
    ExampleInOrder(t);
    c := CatalogOfScan(t);
  }

  lemma ExampleStored(c: Catalog, t: seq<Record>)
    requires IsExample(t) && Orders(c, t)
    ensures forall k :: k in c ==> |k| == 32
    ensures Stored(c, t[0]) && forall r :: Stored(c, r) && Older(r, t[0]) ==> r.saveTime == 3
  {
    assert t[0] in t;
    forall k | k in c ensures |k| == 32 {
      assert RecordOf(k, c[k]) in t;
    }
    forall r | Stored(c, r) && Older(r, t[0]) ensures r.saveTime == 3 {
      assert r in t;
    }
  }

  lemma ExampleIsInexact(t: seq<Record>)
    requires IsExample(t) && InKeyOrder(t)
    ensures !ExactTop(t, Gather(t, BATCH))
  {
    ExampleSelection(t);
    KeyOrderIsDistinct(t);
    var acc := t[..BATCH][0 := t[BATCH]];
    assert acc[1] == t[1] && t[1] in acc && t[0] !in acc && t[0] in t;
  }

  lemma ExampleQueue(c: Catalog, t: seq<Record>, q: seq<Record>)
    requires IsExample(t)
    requires Orders(c, t) && IsQueue(c, q)
    ensures t[0] !in q && |q| == BATCH && q[0].saveTime == 3 && q[1].saveTime == 10
  {
    var t' := QueueMembers(c, q);
    OneScan(c, t, t');
    ExampleSelection(t);
    KeyOrderIsDistinct(t);
    QueueIsDistinct(c, q);
    QueueHeadIsOldest(c, q);
    assert t[BATCH] in t && Stored(c, t[BATCH]);
    assert q[0] in q && q[1] in q;
  }
}
