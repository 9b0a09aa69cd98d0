/** What an error-free eviction may do to a catalog, as a relation over its rounds, and
    what follows for every such eviction. A round builds one queue and drops a prefix of it. */
module Eviction {
  import opened Machine
  import opened Catalog
  import opened Selection
  import opened Exactness

  const BATCH: nat := 256

  datatype Round = Round(queue: seq<Record>, dropped: nat)

  ghost predicate SortedByAge(q: seq<Record>) {
    forall i, j :: 0 <= i < j < |q| ==> !Older(q[j], q[i])
  }

  /** `q` is the sorted selection from the scan; ties may be in any order. */
  ghost predicate IsTop(cat: Catalog, n: nat, q: seq<Record>) {
    SortedByAge(q) && exists t :: Orders(cat, t) && multiset(q) == multiset(Gather(t, n))
  }

  ghost predicate IsQueue(cat: Catalog, q: seq<Record>) {
    IsTop(cat, BATCH, q)
  }

  function KeysOf(q: seq<Record>): set<Key> {
    set r | r in q :: r.key
  }

  function DroppedKeys(rounds: seq<Round>): set<Key> {
    if rounds == [] then {}
    else
      var r := rounds[|rounds| - 1];
      DroppedKeys(rounds[..|rounds| - 1]) +
      if r.dropped <= |r.queue| then KeysOf(r.queue[..r.dropped]) else {}
  }

  function Left(cat: Catalog, rounds: seq<Round>): Catalog {
    cat - DroppedKeys(rounds)
  }

  /** The evictor's `sz`, after the keys `ks` are gone. */
  ghost function SizeWithout(cat: Catalog, ks: set<Key>): u64 {
    Wrap(Bytes(cat - ks))
  }

  /** None of the first drops of a queue, short of `d` of them, met the target. */
  ghost predicate Unmet(cat: Catalog, q: seq<Record>, d: nat, until: u64)
    requires d <= |q| + 1
  {
    forall j :: 0 < j < d ==> SizeWithout(cat, KeysOf(q[..j])) > until
  }

  lemma UnmetMore(cat: Catalog, q: seq<Record>, d: nat, until: u64)
    requires d <= |q| && Unmet(cat, q, d, until)
    requires d > 0 ==> SizeWithout(cat, KeysOf(q[..d])) > until
    ensures Unmet(cat, q, d + 1, until)
  {
  }

  /** One round: at least one drop, and the target not met before the last one. */
  ghost predicate RoundFits(cat: Catalog, r: Round, until: u64) {
    && IsQueue(cat, r.queue)
    && 0 < r.dropped <= |r.queue|
    && Unmet(cat, r.queue, r.dropped, until)
  }

  /** A round that used up its queue and did not meet the target. */
  ghost predicate RoundFails(cat: Catalog, r: Round, until: u64) {
    && RoundFits(cat, r, until)
    && r.dropped == |r.queue|
    && SizeWithout(cat, KeysOf(r.queue)) > until
  }

  ghost predicate FailsAt(cat: Catalog, rounds: seq<Round>, until: u64, i: nat)
    requires i < |rounds|
  {
    RoundFails(Left(cat, rounds[..i]), rounds[i], until)
  }

  ghost predicate AllFail(cat: Catalog, rounds: seq<Round>, until: u64) {
    forall i :: 0 <= i < |rounds| ==> FailsAt(cat, rounds, until, i)
  }

  lemma FailsAlike(cat: Catalog, a: seq<Round>, b: seq<Round>, until: u64, i: nat)
    requires i < |a| && i < |b| && a[..i + 1] == b[..i + 1]
    ensures FailsAt(cat, a, until, i) == FailsAt(cat, b, until, i)
  {
    assert a[i] == a[..i + 1][i] && b[i] == b[..i + 1][i];
    assert a[..i] == a[..i + 1][..i] && b[..i] == b[..i + 1][..i];
  }

  /** The exit on an empty queue. */
  ghost predicate RanDry(cat: Catalog, rounds: seq<Round>, until: u64) {
    AllFail(cat, rounds, until) && IsQueue(Left(cat, rounds), [])
  }

  /** The exit after a drop that met the target. */
  ghost predicate MetTarget(cat: Catalog, rounds: seq<Round>, until: u64) {
    rounds != [] &&
    var last := |rounds| - 1;
    var before, r := Left(cat, rounds[..last]), rounds[last];
    && AllFail(cat, rounds[..last], until)
    && RoundFits(before, r, until)
    && SizeWithout(before, KeysOf(r.queue[..r.dropped])) <= until
  }

  ghost predicate Evicts(cat: Catalog, rounds: seq<Round>, until: u64) {
    RanDry(cat, rounds, until) || MetTarget(cat, rounds, until)
  }

  // ---------- queues ----------

  lemma QueueMembers(cat: Catalog, q: seq<Record>) returns (t: seq<Record>)
    requires IsQueue(cat, q)
    ensures Orders(cat, t) && multiset(q) == multiset(Gather(t, BATCH))
    ensures forall r :: r in q <==> r in Gather(t, BATCH)
    ensures forall r :: r in q ==> Stored(cat, r)
    ensures |q| == |Gather(t, BATCH)|
  {
    t :| Orders(cat, t) && multiset(q) == multiset(Gather(t, BATCH));
    GatherIsPart(t, BATCH);
    SameMembers(Gather(t, BATCH), q);
  }

  /** A queue is empty exactly when there is nothing to evict. */
  lemma EmptyQueue(cat: Catalog, q: seq<Record>)
    requires IsQueue(cat, q)
    ensures q == [] <==> cat == map[]
  {
    var t := QueueMembers(cat, q);
    if cat != map[] {
      var k :| k in cat;
      assert Stored(cat, RecordOf(k, cat[k]));
    }
    if q != [] {
      assert Stored(cat, q[0]);
    }
  }

  /** The first record of a queue is globally oldest. */
  lemma QueueHeadIsOldest(cat: Catalog, q: seq<Record>)
    requires IsQueue(cat, q) && q != []
    ensures forall r :: Stored(cat, r) ==> !Older(r, q[0])
  {
    var t := QueueMembers(cat, q);
    var o := HoldsOldest(t, BATCH);
    var i :| 0 <= i < |q| && q[i] == o;
    assert i == 0 || !Older(q[i], q[0]);
  }

  lemma {:induction false} CountsOnce(s: seq<Record>, r: Record)
    requires DistinctKeys(s)
    ensures multiset(s)[r] <= 1
  {
    if s != [] {
      var s', x := s[..|s| - 1], s[|s| - 1];
      CountsOnce(s', r);
      assert s == s' + [x];
      assert r == x ==> r !in s';
      assert r in multiset(s') <==> r in s';
    }
  }

  lemma CountsTwice(q: seq<Record>, i: nat, j: nat)
    requires i < j < |q| && q[i] == q[j]
    ensures multiset(q)[q[i]] >= 2
  {
    assert q == q[..j] + [q[j]] + q[j + 1..];
    assert q[i] in q[..j];
    assert multiset(q) == multiset(q[..j]) + multiset{q[j]} + multiset(q[j + 1..]);
  }

  lemma QueueIsDistinct(cat: Catalog, q: seq<Record>)
    requires IsQueue(cat, q)
    ensures DistinctKeys(q)
  {
    var t := QueueMembers(cat, q);
    KeyOrderIsDistinct(t);
    GatherIsPart(t, BATCH);
    forall i, j | 0 <= i < j < |q| ensures q[i].key != q[j].key {
      if q[i].key == q[j].key {
        assert Stored(cat, q[i]) && Stored(cat, q[j]);
        CountsOnce(t, q[i]);
        CountsTwice(q, i, j);
      }
    }
  }

  lemma VictimKey(cat: Catalog, q: seq<Record>, i: nat)
    requires IsQueue(cat, q) && i < |q|
    ensures KeysOf(q[..i + 1]) == KeysOf(q[..i]) + {q[i].key} && q[i].key !in KeysOf(q[..i])
    ensures q[i].key in cat && q[i].len == cat[q[i].key].len
  {
    QueueIsDistinct(cat, q);
    NextKey(q, i);
    var _ := QueueMembers(cat, q);
    assert q[i] in q;
    assert Stored(cat, q[i]);
  }

  lemma NextKey(q: seq<Record>, i: nat)
    requires DistinctKeys(q) && i < |q|
    ensures KeysOf(q[..i + 1]) == KeysOf(q[..i]) + {q[i].key} && q[i].key !in KeysOf(q[..i])
  {
  }

  /** One more drop from a queue: the size falls by exactly the length of the victim, and does not
      underflow unless the true size overflows 64 bits to begin with. */
  lemma DropStep(cat: Catalog, q: seq<Record>, i: nat)
    requires IsQueue(cat, q) && i < |q|
    ensures var ks, next := KeysOf(q[..i]), KeysOf(q[..i + 1]);
      && next == ks + {q[i].key}
      && q[i].len <= Bytes(cat - ks) && q[i].len < TWO_64
      && Sub64(SizeWithout(cat, ks), q[i].len) == SizeWithout(cat, next)
      && (Bytes(cat) < TWO_64 ==> q[i].len <= SizeWithout(cat, ks))
  {
    VictimKey(cat, q, i);
    OneLess(cat, KeysOf(q[..i]), q[i].key);
    BytesOfSubset(cat, KeysOf(q[..i]));
    NoWrap(Bytes(cat - KeysOf(q[..i])));
  }

  lemma OneLess(cat: Catalog, ks: set<Key>, k: Key)
    requires k in cat && k !in ks
    ensures cat[k].len <= Bytes(cat - ks)
    ensures Sub64(SizeWithout(cat, ks), cat[k].len) == SizeWithout(cat, ks + {k})
  {
    assert (cat - ks)[k] == cat[k];
    BytesOfRemove(cat - ks, k);
    assert cat - ks - {k} == cat - (ks + {k});
    WrapSub(Bytes(cat - ks), cat[k].len);
  }

  // ---------- rounds ----------

  lemma LeftLast(cat: Catalog, rounds: seq<Round>)
    requires rounds != []
    ensures var last := |rounds| - 1;
      var r := rounds[last];
      r.dropped <= |r.queue| ==>
        Left(cat, rounds) == Left(cat, rounds[..last]) - KeysOf(r.queue[..r.dropped])
  {
  }

  lemma RoundShrinks(cat: Catalog, r: Round, until: u64)
    requires RoundFits(cat, r, until)
    ensures |cat - KeysOf(r.queue[..r.dropped])| < |cat|
  {
    var _ := QueueMembers(cat, r.queue);
    var v := r.queue[0];
    assert v in r.queue && Stored(cat, v);
    assert v in r.queue[..r.dropped] by {
      assert r.queue[..r.dropped][0] == v;
    }
    assert v.key in KeysOf(r.queue[..r.dropped]);
    var rest := cat - KeysOf(r.queue[..r.dropped]);
    assert rest.Keys < cat.Keys by {
      assert v.key in cat.Keys && v.key !in rest.Keys;
    }
    SmallerSet(rest.Keys, cat.Keys);
  }

  lemma SmallerSet<T>(a: set<T>, b: set<T>)
    requires a < b
    ensures |a| < |b|
  {
    var x :| x in b && x !in a;
    assert |b| == |b - {x}| + 1;
    Subset(a, b - {x});
  }

  lemma {:induction false} Subset<T>(a: set<T>, b: set<T>)
    requires a <= b
    ensures |a| <= |b|
    decreases |a|
  {
    if a != {} {
      var x :| x in a;
      Subset(a - {x}, b - {x});
    }
  }

  lemma FailMore(cat: Catalog, rounds: seq<Round>, r: Round, until: u64)
    requires AllFail(cat, rounds, until) && RoundFails(Left(cat, rounds), r, until)
    ensures AllFail(cat, rounds + [r], until)
  {
    var next := rounds + [r];
    forall i | 0 <= i < |rounds| ensures FailsAt(cat, next, until, i) {
      assert rounds[..i + 1] == next[..i + 1];
      FailsAlike(cat, rounds, next, until, i);
    }
    assert next[..|rounds|] == rounds;
  }

  lemma LastMeets(cat: Catalog, rounds: seq<Round>, r: Round, until: u64)
    requires AllFail(cat, rounds, until) && RoundFits(Left(cat, rounds), r, until)
    requires SizeWithout(Left(cat, rounds), KeysOf(r.queue[..r.dropped])) <= until
    ensures MetTarget(cat, rounds + [r], until)
  {
  }

  lemma FailPrefix(cat: Catalog, rounds: seq<Round>, until: u64)
    requires AllFail(cat, rounds, until) && rounds != []
    ensures AllFail(cat, rounds[..|rounds| - 1], until)
    ensures RoundFails(Left(cat, rounds[..|rounds| - 1]), rounds[|rounds| - 1], until)
  {
    var front := rounds[..|rounds| - 1];
    assert FailsAt(cat, rounds, until, |front|);
    forall i | 0 <= i < |front| ensures FailsAt(cat, front, until, i) {
      assert front[..i + 1] == rounds[..i + 1];
      FailsAlike(cat, rounds, front, until, i);
    }
  }

  /** The number of metadata entries strictly falls each round. */
  lemma {:induction false} RoundsShrink(cat: Catalog, rounds: seq<Round>, until: u64)
    requires AllFail(cat, rounds, until)
    ensures |Left(cat, rounds)| + |rounds| <= |cat|
  {
    if rounds == [] {
      assert Left(cat, rounds) == cat;
    } else {
      var last := |rounds| - 1;
      FailPrefix(cat, rounds, until);
      RoundsShrink(cat, rounds[..last], until);
      RoundShrinks(Left(cat, rounds[..last]), rounds[last], until);
      LeftLast(cat, rounds);
    }
  }

  lemma UnmetIsAbove(cat: Catalog, rounds: seq<Round>, until: u64)
    requires AllFail(cat, rounds, until) && rounds != []
    ensures Wrap(Bytes(Left(cat, rounds))) > until
  {
    var last := |rounds| - 1;
    var m, r := Left(cat, rounds[..last]), rounds[last];
    LeftLast(cat, rounds);
    assert FailsAt(cat, rounds, until, last);
    assert r.queue[..r.dropped] == r.queue;
  }

  /** The empty-queue exit is taken on an empty store only. */
  lemma EmptyExit(cat: Catalog, rounds: seq<Round>, until: u64)
    requires RanDry(cat, rounds, until)
    ensures rounds == [] && cat == map[] && Left(cat, rounds) == map[]
  {
    EmptyQueue(Left(cat, rounds), []);
    if rounds != [] {
      UnmetIsAbove(cat, rounds, until);
      BytesOfEmpty();
    }
  }

  // ---------- what every eviction achieves ----------

  /** The size the evictor ends with is at most the target, and the true size too unless it had
      overflowed 64 bits to begin with. A non-empty store loses at least one entry. */
  lemma EvictionMeetsTarget(cat: Catalog, rounds: seq<Round>, until: u64)
    requires Evicts(cat, rounds, until)
    ensures Wrap(Bytes(Left(cat, rounds))) <= until
    ensures Bytes(cat) < TWO_64 ==> Bytes(Left(cat, rounds)) <= until
    ensures |rounds| <= |cat|
    ensures rounds == [] <==> cat == map[]
  {
    if RanDry(cat, rounds, until) {
      DryExit(cat, rounds, until);
    } else {
      TargetExit(cat, rounds, until);
    }
    BytesOfSubset(cat, DroppedKeys(rounds));
    NoWrap(Bytes(Left(cat, rounds)));
  }

  lemma DryExit(cat: Catalog, rounds: seq<Round>, until: u64)
    requires RanDry(cat, rounds, until)
    ensures Wrap(Bytes(Left(cat, rounds))) == 0 && rounds == [] && cat == map[]
  {
    EmptyExit(cat, rounds, until);
    BytesOfEmpty();
  }

  lemma TargetExit(cat: Catalog, rounds: seq<Round>, until: u64)
    requires MetTarget(cat, rounds, until)
    ensures Wrap(Bytes(Left(cat, rounds))) <= until && 0 < |rounds| <= |cat|
  {
    var last := |rounds| - 1;
    LeftLast(cat, rounds);
    RoundsShrink(cat, rounds[..last], until);
    RoundShrinks(Left(cat, rounds[..last]), rounds[last], until);
  }

  /** The metadata just before the last drop. */
  ghost function BeforeLastDrop(cat: Catalog, rounds: seq<Round>): Catalog
    requires rounds != [] && 0 < rounds[|rounds| - 1].dropped <= |rounds[|rounds| - 1].queue|
  {
    var r := rounds[|rounds| - 1];
    Left(cat, rounds[..|rounds| - 1]) - KeysOf(r.queue[..r.dropped - 1])
  }

  lemma UnmetInRound(cat: Catalog, r: Round, until: u64)
    requires RoundFits(cat, r, until) && r.dropped > 1
    ensures Wrap(Bytes(cat - KeysOf(r.queue[..r.dropped - 1]))) > until
  {
  }

  lemma UnmetBeforeLastDrop(cat: Catalog, rounds: seq<Round>, until: u64)
    requires MetTarget(cat, rounds, until)
    requires |rounds| > 1 || rounds[0].dropped > 1
    ensures Wrap(Bytes(BeforeLastDrop(cat, rounds))) > until
  {
    var last := |rounds| - 1;
    var m, r := Left(cat, rounds[..last]), rounds[last];
    if r.dropped == 1 {
      assert BeforeLastDrop(cat, rounds) == m;
      UnmetIsAbove(cat, rounds[..last], until);
    } else {
      UnmetInRound(m, r, until);
    }
  }

  /** Putting back the last victim would exceed the target, unless it was the only one. */
  lemma NoOvershoot(cat: Catalog, rounds: seq<Round>, until: u64)
    requires Evicts(cat, rounds, until) && rounds != []
    ensures 0 < rounds[|rounds| - 1].dropped <= |rounds[|rounds| - 1].queue|
    ensures (|rounds| == 1 && rounds[0].dropped == 1) || Wrap(Bytes(BeforeLastDrop(cat, rounds))) > until
  {
    if RanDry(cat, rounds, until) {
      EmptyExit(cat, rounds, until);
    } else if |rounds| > 1 || rounds[0].dropped > 1 {
      UnmetBeforeLastDrop(cat, rounds, until);
    }
  }

  /** The last victim: the only one, or the size would have stayed above the target without it. */
  lemma LastVictim(cat: Catalog, rounds: seq<Round>, until: u64) returns (k: Key)
    requires Evicts(cat, rounds, until) && rounds != [] && Bytes(cat) < TWO_64
    ensures k in cat && k !in Left(cat, rounds)
    ensures Left(cat, rounds) == cat - {k} || Bytes(Left(cat, rounds)) + cat[k].len > until
  {
    NoOvershoot(cat, rounds, until);
    var last := |rounds| - 1;
    var m, r := Left(cat, rounds[..last]), rounds[last];
    RoundAt(cat, rounds, until, last);
    VictimKey(m, r.queue, r.dropped - 1);
    k := r.queue[r.dropped - 1].key;
    LeftLast(cat, rounds);
    OneBefore(cat, DroppedKeys(rounds[..last]), KeysOf(r.queue[..r.dropped - 1]), k);
    NoWrap(Bytes(BeforeLastDrop(cat, rounds)));
  }

  lemma OneBefore(cat: Catalog, a: set<Key>, b: set<Key>, k: Key)
    requires k in cat && k !in a && k !in b
    ensures Bytes(cat - a - b) == Bytes(cat - a - (b + {k})) + cat[k].len && Bytes(cat - a - b) <= Bytes(cat)
    ensures a == b == {} ==> cat - a - (b + {k}) == cat - {k}
  {
    var before := cat - a - b;
    assert cat - a - (b + {k}) == before - {k} && before[k] == cat[k];
    BytesOfRemove(before, k);
    assert before == cat - (a + b);
    BytesOfSubset(cat, a + b);
  }

  /** Victims of a round go in order of age, and the first of them is globally oldest. */
  lemma BatchIsFifo(cat: Catalog, rounds: seq<Round>, until: u64, i: nat)
    requires Evicts(cat, rounds, until) && i < |rounds|
    ensures SortedByAge(rounds[i].queue) && 0 < rounds[i].dropped <= |rounds[i].queue|
    ensures forall r :: Stored(Left(cat, rounds[..i]), r) ==> !Older(r, rounds[i].queue[0])
  {
    RoundAt(cat, rounds, until, i);
    QueueHeadIsOldest(Left(cat, rounds[..i]), rounds[i].queue);
  }

  /** Every round fits the metadata it found. */
  lemma RoundAt(cat: Catalog, rounds: seq<Round>, until: u64, i: nat)
    requires Evicts(cat, rounds, until) && i < |rounds|
    ensures RoundFits(Left(cat, rounds[..i]), rounds[i], until)
  {
    if RanDry(cat, rounds, until) {
      assert FailsAt(cat, rounds, until, i);
    } else if i < |rounds| - 1 {
      EarlierRound(cat, rounds, until, i);
    }
  }

  lemma EarlierRound(cat: Catalog, rounds: seq<Round>, until: u64, i: nat)
    requires i < |rounds| - 1 && AllFail(cat, rounds[..|rounds| - 1], until)
    ensures RoundFails(Left(cat, rounds[..i]), rounds[i], until)
  {
    var front := rounds[..|rounds| - 1];
    assert front[..i + 1] == rounds[..i + 1];
    FailsAlike(cat, rounds, front, until, i);
    assert FailsAt(cat, front, until, i);
  }
}
