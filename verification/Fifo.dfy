/** When the evictor keeps its promise to drop the oldest entries first: in one round, and over a
    whole eviction. */
module Fifo {
  import opened Machine
  import opened Catalog
  import opened Selection
  import opened Exactness
  import opened Eviction

  // ---------- one round ----------

  /** A round over this store never keeps an entry older than one it drops, wherever in the queue it
      stops. */
  ghost predicate FifoRounds(cat: Catalog) {
    forall q: seq<Record>, d: nat, v: Record, k: Record ::
      IsQueue(cat, q) && d <= |q| && v in q[..d] && Stored(cat, k) && k.key !in KeysOf(q[..d]) ==> !Older(k, v)
  }

  lemma SortedSplit(q: seq<Record>, d: nat, v: Record, k: Record)
    requires SortedByAge(q) && d <= |q| && v in q[..d] && k in q && k !in q[..d]
    ensures !Older(k, v)
  {
  }

  /** From the queue of an exact selection, what stays is no older than what goes. */
  lemma ExactQueueIsFifo(cat: Catalog, t: seq<Record>, q: seq<Record>, d: nat, v: Record, k: Record)
    requires Orders(cat, t) && ExactTop(t, Gather(t, BATCH)) && IsQueue(cat, q) && d <= |q|
    requires v in q[..d] && Stored(cat, k) && k.key !in KeysOf(q[..d])
    ensures !Older(k, v)
  {
    if k in q {
      SortedSplit(q, d, v, k);
    } else {
      var t' := QueueMembers(cat, q);
      OneScan(cat, t, t');
      assert v in q;
    }
  }

  lemma {:induction false} Sorted(acc: seq<Record>) returns (q: seq<Record>)
    ensures SortedByAge(q) && multiset(q) == multiset(acc)
  {
    if acc == [] {
      q := [];
    } else {
      var i := OldestOf(acc);
      var rest := acc[..i] + acc[i + 1..];
      assert acc == acc[..i] + [acc[i]] + acc[i + 1..];
      var tail := Sorted(rest);
      q := [acc[i]] + tail;
      forall r | r in tail ensures !Older(r, acc[i]) {
        assert r in multiset(tail);
        assert r in multiset(rest);
        assert r in acc[..i] || r in acc[i + 1..];
      }
    }
  }

  lemma KeyAbsent(cat: Catalog, q: seq<Record>, k: Record)
    requires (forall r :: r in q ==> Stored(cat, r)) && Stored(cat, k) && k !in q
    ensures k.key !in KeysOf(q)
  {
  }

  lemma KeptWhileOlder(cat: Catalog, t: seq<Record>, q: seq<Record>, v: Record, k: Record)
    requires Orders(cat, t) && SortedByAge(q) && multiset(q) == multiset(Gather(t, BATCH))
    requires k in t && k !in Gather(t, BATCH) && v in Gather(t, BATCH) && Older(k, v)
    ensures !FifoRounds(cat)
  {
    assert IsQueue(cat, q);
    var _ := QueueMembers(cat, q);
    SameMembers(Gather(t, BATCH), q);
    assert q[..|q|] == q && v in q[..|q|];
    KeyAbsent(cat, q, k);
  }

  /** Dropping oldest first, as the evictor promises, holds of every round over a store if and only
      if the selection from its scan is exact. */
  lemma FifoIffExact(cat: Catalog, t: seq<Record>)
    requires Orders(cat, t)
    ensures FifoRounds(cat) <==> ExactTop(t, Gather(t, BATCH))
  {
    if ExactTop(t, Gather(t, BATCH)) {
      forall q: seq<Record>, d: nat, v: Record, k: Record |
        IsQueue(cat, q) && d <= |q| && v in q[..d] && Stored(cat, k) && k.key !in KeysOf(q[..d])
        ensures !Older(k, v)
      {
        ExactQueueIsFifo(cat, t, q, d, v, k);
      }
    } else {
      var q := Sorted(Gather(t, BATCH));
      var k, v :| k in t && k !in Gather(t, BATCH) && v in Gather(t, BATCH) && Older(k, v);
      KeptWhileOlder(cat, t, q, v, k);
    }
  }

  /** The store that results when the entries of another are dealt anew to its keys. */
  lemma DealtCatalog(cat: Catalog, s: seq<Record>, p: seq<Record>) returns (dealt: Catalog)
    requires Orders(cat, s) && multiset(p) == multiset(s) && |p| == |s|
    ensures Orders(dealt, Onto(s, p))
  {
    var t := Onto(s, p);
    SameMembers(s, p);
    forall i | 0 <= i < |p| ensures Stored(cat, p[i]) {
      assert p[i] in p;
    }
    dealt := CatalogOfScan(t);
  }

  lemma {:induction false} CatalogOfScan(t: seq<Record>) returns (c: Catalog)
    requires InKeyOrder(t)
    requires forall i :: 0 <= i < |t| ==> 0 <= t[i].saveTime < TWO_128 && t[i].len < TWO_64
    ensures Orders(c, t)
  {
    if t == [] {
      c := map[];
    } else {
      var n := |t| - 1;
      var front := CatalogOfScan(t[..n]);
      KeyOrderIsDistinct(t);
      var s := Stamp(t[n].saveTime, t[n].len);
      c := front[t[n].key := s];
      OneMore(front, t, s, c);
    }
  }

  lemma OneMore(front: Catalog, t: seq<Record>, s: Stamp, c: Catalog)
    requires t != [] && DistinctKeys(t) && t[|t| - 1] == RecordOf(t[|t| - 1].key, s)
    requires forall r :: r in t[..|t| - 1] <==> Stored(front, r)
    requires c == front[t[|t| - 1].key := s]
    ensures forall r :: r in t <==> Stored(c, r)
  {
    var n := |t| - 1;
    assert t == t[..n] + [t[n]];
    forall r ensures r in t <==> Stored(c, r) {
      if r.key == t[n].key {
        assert r !in t[..n];
      } else {
        assert Stored(c, r) <==> Stored(front, r);
      }
    }
  }

  /** Every round over a store drops oldest first, however the entries fall on the keys, if and only
      if there are at most 256 of them, or fewer than three save times, or 256 entries at one of the
      two oldest save times. */
  lemma FifoIffBenign(cat: Catalog, s: seq<Record>)
    requires Orders(cat, s)
    ensures (forall dealt, t :: Orders(dealt, t) && Dealt(s, t) ==> FifoRounds(dealt)) <==> Benign(s, 256)
  {
    if Benign(s, BATCH) {
      forall dealt, t | Orders(dealt, t) && Dealt(s, t) ensures FifoRounds(dealt) {
        ExactIffBenign(s, BATCH);
        FifoIffExact(dealt, t);
      }
    } else {
      var t := ExactOnlyIfBenign(s, BATCH);
      var p: seq<Record> :| multiset(p) == multiset(s) && |p| == |s| && t == Onto(s, p);
      var dealt := DealtCatalog(cat, s, p);
      FifoIffExact(dealt, t);
    }
  }

  // ---------- the ranking of a store ----------

  /** The entries of a store, oldest first. */
  ghost predicate Ranks(cat: Catalog, q: seq<Record>) {
    DistinctKeys(q) && SortedByAge(q) && forall r :: r in q <==> Stored(cat, r)
  }

  lemma DistinctAlike(cat: Catalog, s: seq<Record>, t: seq<Record>)
    requires DistinctKeys(s) && multiset(t) == multiset(s)
    requires forall r :: r in s ==> Stored(cat, r)
    ensures DistinctKeys(t) && forall r :: r in t ==> Stored(cat, r)
  {
    SameMembers(s, t);
    forall i, j | 0 <= i < j < |t| ensures t[i].key != t[j].key {
      if t[i] == t[j] {
        CountsOnce(s, t[i]);
        CountsTwice(t, i, j);
      } else {
        assert t[i] in t && t[j] in t;
        assert Stored(cat, t[i]) && Stored(cat, t[j]);
      }
    }
  }

  lemma Ranking(cat: Catalog) returns (q: seq<Record>)
    ensures Ranks(cat, q)
  {
    var t := ScanOf(cat);
    KeyOrderIsDistinct(t);
    q := Sorted(t);
    DistinctAlike(cat, t, q);
    SameMembers(t, q);
  }

  lemma SameRecords(a: seq<Record>, b: seq<Record>)
    requires DistinctKeys(a) && DistinctKeys(b) && forall r :: r in a <==> r in b
    ensures multiset(a) == multiset(b)
  {
    forall r ensures multiset(a)[r] == multiset(b)[r] {
      CountsOnce(a, r);
      CountsOnce(b, r);
      assert r in multiset(a) <==> r in a;
      assert r in multiset(b) <==> r in b;
    }
  }

  lemma {:induction false} SortedOnce(a: seq<Record>, b: seq<Record>)
    requires SortedByAge(a) && SortedByAge(b) && SameTimes(a, b)
    ensures TimesAgree(a, b)
  {
    if a != [] {
      var n := |a| - 1;
      SameLast(a, b);
      forall v ensures |WithTime(a[..n], v)| == |WithTime(b[..n], v)| {
        assert |WithTime(a, v)| == |WithTime(b, v)|;
      }
      SortedOnce(a[..n], b[..n]);
    }
  }

  lemma SameLast(a: seq<Record>, b: seq<Record>)
    requires SortedByAge(a) && SortedByAge(b) && SameTimes(a, b) && a != []
    ensures a[|a| - 1].saveTime == b[|a| - 1].saveTime
  {
    var n := |a| - 1;
    assert a[n] in a && b[n] in b;
    var x := SameTimeMember(a, b, b[n]);
    var y := SameTimeMember(b, a, a[n]);
    var i :| 0 <= i < |a| && a[i] == x;
    var j :| 0 <= j < |b| && b[j] == y;
    assert i == n || !Older(a[n], a[i]);
    assert j == n || !Older(b[n], b[j]);
  }

  lemma RankingsAgree(cat: Catalog, a: seq<Record>, b: seq<Record>)
    requires Ranks(cat, a) && Ranks(cat, b)
    ensures TimesAgree(a, b)
  {
    SameRecords(a, b);
    ShuffledSameTimes(a, b);
    SortedOnce(a, b);
  }

  lemma RankBenign(cat: Catalog, t: seq<Record>, q: seq<Record>)
    requires Orders(cat, t) && Ranks(cat, q) && Benign(q, BATCH)
    ensures ExactTop(t, Gather(t, BATCH))
  {
    KeyOrderIsDistinct(t);
    SameRecords(q, t);
    ShuffledSameTimes(q, t);
    BenignAlike(q, t, BATCH);
    BenignIsExact(t, BATCH);
  }

  /** A round takes all entries of a store that has at most 256, and 256 of any other. */
  lemma BatchSize(cat: Catalog, q: seq<Record>)
    requires IsQueue(cat, q)
    ensures |q| == if |cat| < 256 then |cat| else 256
    ensures |cat| <= 256 ==> forall r :: Stored(cat, r) ==> r in q
  {
    var t := QueueMembers(cat, q);
    ScanSize(cat, t);
    if |cat| <= 256 {
      GatherShort(t, BATCH);
    }
  }

  lemma ScanSize(cat: Catalog, t: seq<Record>)
    requires Orders(cat, t)
    ensures |cat| == |t|
  {
    KeyOrderIsDistinct(t);
    OneKeyEach(t);
    forall k ensures k in KeysOf(t) <==> k in cat.Keys {
      if k in cat {
        assert RecordOf(k, cat[k]) in t;
      }
    }
    assert KeysOf(t) == cat.Keys;
  }

  // ---------- a whole eviction ----------

  /** What is left after each full batch of a store is benign. */
  ghost predicate BenignThroughout(q: seq<Record>) {
    forall j :: 0 <= j < |q| && j % BATCH == 0 ==> Benign(q[j..], BATCH)
  }

  /** A round that uses up its queue over a benign store takes the front of the ranking. */
  lemma TakesFront(m: Catalog, q: seq<Record>, queue: seq<Record>, rest: seq<Record>)
    requires Ranks(m, q) && Benign(q, BATCH) && IsQueue(m, queue) && Ranks(m - KeysOf(queue), rest)
    ensures TimesAgree(queue + rest, q)
    ensures rest != [] ==> |queue| == BATCH
  {
    var all := queue + rest;
    var t := QueueMembers(m, queue);
    RankBenign(m, t, q);
    QueueIsDistinct(m, queue);
    forall x, y | x in queue && y in rest ensures x.key != y.key && !Older(y, x) {
      RestIsNewer(m, t, queue, x, y);
    }
    forall r ensures r in all <==> Stored(m, r) {
      QueueOrRest(m, queue, rest, r);
    }
    JoinRanks(queue, rest);
    RankingsAgree(m, all, q);
    KeyOrderIsDistinct(t);
    SameRecords(all, t);
    SameMembers(all, t);
  }

  lemma RestIsNewer(m: Catalog, t: seq<Record>, queue: seq<Record>, x: Record, y: Record)
    requires Orders(m, t) && ExactTop(t, Gather(t, BATCH)) && IsQueue(m, queue)
    requires x in queue && Stored(m - KeysOf(queue), y)
    ensures x.key != y.key && !Older(y, x)
  {
    assert queue[..|queue|] == queue;
    ExactQueueIsFifo(m, t, queue, |queue|, x, y);
  }

  lemma JoinRanks(a: seq<Record>, b: seq<Record>)
    requires SortedByAge(a) && SortedByAge(b) && DistinctKeys(a) && DistinctKeys(b)
    requires forall x, y :: x in a && y in b ==> x.key != y.key && !Older(y, x)
    ensures SortedByAge(a + b) && DistinctKeys(a + b)
  {
  }

  lemma QueueOrRest(m: Catalog, queue: seq<Record>, rest: seq<Record>, r: Record)
    requires (forall x :: x in queue ==> Stored(m, x)) && forall x :: x in rest <==> Stored(m - KeysOf(queue), x)
    ensures r in queue + rest <==> Stored(m, r)
  {
    if Stored(m, r) && r.key in KeysOf(queue) {
      var w :| w in queue && w.key == r.key;
    }
  }

  /** Before each round what is left is what the ranking says: full batches are gone from its
      front. */
  lemma {:induction false} RankingLeft(cat: Catalog, q: seq<Record>, rounds: seq<Round>, until: u64, i: nat)
    returns (rest: seq<Record>)
    requires Ranks(cat, q) && BenignThroughout(q) && Evicts(cat, rounds, until) && i < |rounds|
    ensures Ranks(Left(cat, rounds[..i]), rest)
    ensures BATCH * i < |q| && TimesAgree(rest, q[BATCH * i..]) && Benign(rest, BATCH)
  {
    if i == 0 {
      assert Left(cat, rounds[..0]) == cat;
      rest := q;
      RoundAt(cat, rounds, until, i);
      NotEmpty(cat, rounds[0], until, rest);
      assert q[0..] == q;
    } else {
      var before := RankingLeft(cat, q, rounds, until, i - 1);
      rest := NextRanking(cat, rounds, until, i, before);
      BehindFront(q, BATCH * (i - 1), rounds[i - 1].queue, rest, before);
      BenignAt(q, i);
      AgreeBenign(q[BATCH * i..], rest);
    }
  }

  lemma BenignAt(q: seq<Record>, i: nat)
    requires BenignThroughout(q) && BATCH * i < |q|
    ensures Benign(q[BATCH * i..], BATCH)
  {
    var j := BATCH * i;
    assert j % BATCH == 0;
  }

  lemma NextRanking(cat: Catalog, rounds: seq<Round>, until: u64, i: nat, before: seq<Record>)
    returns (rest: seq<Record>)
    requires Evicts(cat, rounds, until) && 0 < i < |rounds|
    requires Ranks(Left(cat, rounds[..i - 1]), before) && Benign(before, BATCH)
    ensures Ranks(Left(cat, rounds[..i]), rest) && rest != []
    ensures |rounds[i - 1].queue| == BATCH && TimesAgree(rounds[i - 1].queue + rest, before)
  {
    FullRound(cat, rounds, until, i - 1);
    rest := Ranking(Left(cat, rounds[..i]));
    TakesFront(Left(cat, rounds[..i - 1]), before, rounds[i - 1].queue, rest);
    RoundAt(cat, rounds, until, i);
    NotEmpty(Left(cat, rounds[..i]), rounds[i], until, rest);
  }

  lemma AgreeBenign(a: seq<Record>, b: seq<Record>)
    requires TimesAgree(a, b) && Benign(a, BATCH)
    ensures Benign(b, BATCH)
  {
    forall v ensures |WithTime(a, v)| == |WithTime(b, v)| {
      AgreeSameTimes(a, b, v);
    }
    BenignAlike(a, b, BATCH);
  }

  lemma BehindFront(q: seq<Record>, j: nat, queue: seq<Record>, rest: seq<Record>, before: seq<Record>)
    requires j < |q| && TimesAgree(before, q[j..]) && TimesAgree(queue + rest, before)
    ensures j + |queue| <= |q| && TimesAgree(rest, q[j + |queue|..])
  {
    forall i | 0 <= i < |rest| ensures rest[i].saveTime == q[j + |queue| + i].saveTime {
      assert (queue + rest)[|queue| + i] == rest[i];
    }
  }

  lemma NotEmpty(m: Catalog, r: Round, until: u64, rest: seq<Record>)
    requires RoundFits(m, r, until) && Ranks(m, rest)
    ensures rest != []
  {
    var _ := QueueMembers(m, r.queue);
    assert r.queue[0] in r.queue;
  }

  /** Every round but the last uses up its queue. */
  lemma FullRound(cat: Catalog, rounds: seq<Round>, until: u64, i: nat)
    requires Evicts(cat, rounds, until) && i < |rounds| - 1
    ensures RoundFits(Left(cat, rounds[..i]), rounds[i], until)
    ensures Left(cat, rounds[..i + 1]) == Left(cat, rounds[..i]) - KeysOf(rounds[i].queue)
  {
    if RanDry(cat, rounds, until) {
      EmptyExit(cat, rounds, until);
    } else {
      EarlierRound(cat, rounds, until, i);
    }
    assert rounds[..i + 1][..i] == rounds[..i];
    LeftLast(cat, rounds[..i + 1]);
    assert rounds[i].queue[..rounds[i].dropped] == rounds[i].queue;
  }

  lemma {:induction false} DroppedAt(rounds: seq<Round>, k: Key) returns (i: nat)
    requires k in DroppedKeys(rounds)
    ensures i < |rounds| && rounds[i].dropped <= |rounds[i].queue|
    ensures k in KeysOf(rounds[i].queue[..rounds[i].dropped])
  {
    i := |rounds| - 1;
    if !(rounds[i].dropped <= |rounds[i].queue| && k in KeysOf(rounds[i].queue[..rounds[i].dropped])) {
      i := DroppedAt(rounds[..i], k);
    }
  }

  lemma {:induction false} DroppedPrefix(rounds: seq<Round>, i: nat)
    requires i <= |rounds|
    ensures DroppedKeys(rounds[..i]) <= DroppedKeys(rounds)
    ensures i < |rounds| && rounds[i].dropped <= |rounds[i].queue| ==>
      KeysOf(rounds[i].queue[..rounds[i].dropped]) <= DroppedKeys(rounds)
  {
    if i == |rounds| {
      assert rounds[..i] == rounds;
    } else {
      assert rounds[..|rounds| - 1][..i] == rounds[..i];
      DroppedPrefix(rounds[..|rounds| - 1], i);
    }
  }

  lemma VictimAt(cat: Catalog, rounds: seq<Round>, until: u64, v: Record) returns (i: nat)
    requires Evicts(cat, rounds, until)
    requires Stored(cat, v) && v.key in DroppedKeys(rounds)
    ensures i < |rounds| && RoundFits(Left(cat, rounds[..i]), rounds[i], until)
    ensures v in rounds[i].queue[..rounds[i].dropped]
  {
    i := DroppedAt(rounds, v.key);
    RoundAt(cat, rounds, until, i);
    var m, r := Left(cat, rounds[..i]), rounds[i];
    var w :| w in r.queue[..r.dropped] && w.key == v.key;
    var _ := QueueMembers(m, r.queue);
    assert w in r.queue;
    assert Stored(m, w);
  }

  lemma SurvivorAt(cat: Catalog, rounds: seq<Round>, i: nat, k: Record)
    requires i < |rounds| && 0 < rounds[i].dropped <= |rounds[i].queue|
    requires Stored(Left(cat, rounds), k)
    ensures Stored(Left(cat, rounds[..i]), k)
    ensures k.key !in KeysOf(rounds[i].queue[..rounds[i].dropped])
  {
    DroppedPrefix(rounds, i);
  }

  /** Over a whole eviction no survivor is older than a victim. */
  ghost predicate FifoEvictions(cat: Catalog) {
    forall rounds: seq<Round>, until: u64, v: Record, k: Record ::
      Evicts(cat, rounds, until) && Stored(cat, v) && v.key in DroppedKeys(rounds) && Stored(Left(cat, rounds), k)
      ==> !Older(k, v)
  }

  /** If what is left of a store after each full batch is benign, every survivor of an eviction is no
      older than every victim. */
  lemma EvictionIsFifo(cat: Catalog, q: seq<Record>)
    requires Ranks(cat, q) && BenignThroughout(q)
    ensures FifoEvictions(cat)
  {
    forall rounds: seq<Round>, until: u64, v: Record, k: Record |
      Evicts(cat, rounds, until) && Stored(cat, v) && v.key in DroppedKeys(rounds) && Stored(Left(cat, rounds), k)
      ensures !Older(k, v)
    {
      var i := VictimAt(cat, rounds, until, v);
      SurvivorAt(cat, rounds, i, k);
      var m := Left(cat, rounds[..i]);
      var rest := RankingLeft(cat, q, rounds, until, i);
      var t := QueueMembers(m, rounds[i].queue);
      RankBenign(m, t, rest);
      ExactQueueIsFifo(m, t, rounds[i].queue, rounds[i].dropped, v, k);
    }
  }

  lemma {:induction false} OneKeyEach(t: seq<Record>)
    requires DistinctKeys(t)
    ensures |KeysOf(t)| == |t|
  {
    if t != [] {
      var n := |t| - 1;
      OneKeyEach(t[..n]);
      NextKey(t, n);
      assert t[..n + 1] == t;
    }
  }

  /** With at most 256 entries at the start, every survivor is no older than every victim. */
  lemma SmallStoreIsFifo(cat: Catalog)
    requires |cat| <= 256
    ensures FifoEvictions(cat)
  {
    var q := Ranking(cat);
    OneKeyEach(q);
    forall k | k in KeysOf(q) ensures k in cat.Keys {
      var r :| r in q && r.key == k;
      assert Stored(cat, r);
    }
    Subset(KeysOf(q), cat.Keys);
    EvictionIsFifo(cat, q);
  }

  /** So too with fewer than three save times, whatever the number of entries. */
  lemma FewTimesIsFifo(cat: Catalog)
    requires forall x, y, z :: Stored(cat, x) && Stored(cat, y) && Stored(cat, z) ==> !(Older(x, y) && Older(y, z))
    ensures FifoEvictions(cat)
  {
    var q := Ranking(cat);
    forall j | 0 <= j < |q| && j % BATCH == 0 ensures Benign(q[j..], BATCH) {
      assert forall r :: r in q[j..] ==> r in q;
      assert FewerThanThreeTimes(q[j..]);
    }
    EvictionIsFifo(cat, q);
  }
}
