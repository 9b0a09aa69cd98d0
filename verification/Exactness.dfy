/** When the selection is what its documentation says, the `n` oldest entries. A scan goes in key
    order and keys are digests, so the question is which lists of save times give an exact answer
    however they fall on the keys. */
module Exactness {
  import opened Catalog
  import opened Selection

  /** No entry left out is strictly older than one returned. */
  ghost predicate ExactTop(s: seq<Record>, q: seq<Record>) {
    forall x, y :: x in s && x !in q && y in q ==> !Older(x, y)
  }

  /** The entries of `p`, moved in order to the keys of `s`. */
  function Onto(s: seq<Record>, p: seq<Record>): (t: seq<Record>)
    requires |p| == |s|
    ensures |t| == |s|
  {
    seq(|s|, i requires 0 <= i < |s| => p[i].(key := s[i].key))
  }

  /** `t` holds the entries of `s`, dealt anew to the same keys. */
  ghost predicate Dealt(s: seq<Record>, t: seq<Record>) {
    exists p: seq<Record> :: multiset(p) == multiset(s) && |p| == |s| && t == Onto(s, p)
  }

  ghost predicate AlwaysExact(s: seq<Record>, n: nat) {
    forall t: seq<Record> :: Dealt(s, t) ==> ExactTop(t, Gather(t, n))
  }

  function WithTime(s: seq<Record>, v: int): seq<Record> {
    if s == [] then []
    else
      var x := s[|s| - 1];
      WithTime(s[..|s| - 1], v) + if x.saveTime == v then [x] else []
  }

  ghost predicate FewerThanThreeTimes(s: seq<Record>) {
    forall x, y, z :: x in s && y in s && z in s ==> !(Older(x, y) && Older(y, z))
  }

  /** At least `n` entries share the save time `v`, which is the oldest or the second oldest. */
  ghost predicate Crowded(s: seq<Record>, n: nat, v: int) {
    |WithTime(s, v)| >= n &&
    forall x, y :: x in s && y in s && Older(x, y) ==> y.saveTime >= v
  }

  ghost predicate Benign(s: seq<Record>, n: nat) {
    |s| <= n || FewerThanThreeTimes(s) || exists v :: Crowded(s, n, v)
  }

  // ---------- a benign store gives an exact answer ----------

  function NotAfter(acc: seq<Record>, v: int): (c: nat)
    ensures c <= |acc|
    ensures c == |acc| ==> forall r :: r in acc ==> r.saveTime <= v
  {
    if acc == [] then 0
    else NotAfter(acc[..|acc| - 1], v) + if acc[|acc| - 1].saveTime <= v then 1 else 0
  }

  lemma {:induction false} NotAfterAll(acc: seq<Record>, v: int)
    requires forall r :: r in acc ==> r.saveTime <= v
    ensures NotAfter(acc, v) == |acc|
  {
    if acc != [] {
      NotAfterAll(acc[..|acc| - 1], v);
    }
  }

  lemma {:induction false} NotAfterUpdate(acc: seq<Record>, i: nat, x: Record, v: int)
    requires i < |acc| && Older(x, acc[i])
    ensures NotAfter(acc[i := x], v) >= NotAfter(acc, v)
    ensures x.saveTime <= v < acc[i].saveTime ==> NotAfter(acc[i := x], v) > NotAfter(acc, v)
  {
    var last := |acc| - 1;
    if i == last {
      assert acc[i := x][..last] == acc[..last];
    } else {
      NotAfterUpdate(acc[..last], i, x, v);
      assert acc[i := x][..last] == acc[..last][i := x];
    }
  }

  lemma OfferKeepsCrowd(acc: seq<Record>, x: Record, n: nat, v: int)
    requires |acc| <= n
    ensures NotAfter(Offer(acc, x, n), v) >= NotAfter(acc, v)
    ensures x.saveTime == v ==> NotAfter(Offer(acc, x, n), v) > NotAfter(acc, v) || NotAfter(acc, v) == n
  {
    if |acc| < n {
      assert (acc + [x])[..|acc|] == acc;
    } else if FirstNewer(acc, x) < n {
      NotAfterUpdate(acc, FirstNewer(acc, x), x, v);
    } else if x.saveTime == v {
      NotAfterAll(acc, v);
    }
  }

  /** Of `n` or more entries with one save time, enough stay to fill every slot with entries that
      are not newer. */
  lemma {:induction false} CrowdStays(s: seq<Record>, n: nat, v: int)
    ensures NotAfter(Gather(s, n), v) >= n || NotAfter(Gather(s, n), v) >= |WithTime(s, v)|
  {
    if s != [] {
      CrowdStays(s[..|s| - 1], n, v);
      OfferKeepsCrowd(Gather(s[..|s| - 1], n), s[|s| - 1], n, v);
    }
  }

  lemma BenignIsExact(t: seq<Record>, n: nat)
    requires n > 0 && Benign(t, n)
    ensures ExactTop(t, Gather(t, n))
  {
    var q := Gather(t, n);
    forall x, y | x in t && x !in q && y in q ensures !Older(x, y) {
      GatherIsPart(t, n);
      if |t| <= n {
        GatherShort(t, n);
        assert false;
      } else if Older(x, y) {
        var i: nat :| i < |t| && t[i] == x;
        var j := Fate(t, n, i);
        if TurnedAway(t, n, i) {
          TurnedAwayIsNewer(t, n, i);
          assert false;
        } else {
          var _ := DisplacedIsNewer(t, n, i, j);
          assert Older(t[j], x) && Older(x, y);
          var v :| Crowded(t, n, v);
          CrowdStays(t, n, v);
        }
      }
    }
  }

  // ---------- any other store can be dealt to its keys so that it gives a wrong one ----------

  function After(s: seq<Record>, v: int): seq<Record> {
    if s == [] then []
    else
      var x := s[|s| - 1];
      After(s[..|s| - 1], v) + if x.saveTime > v then [x] else []
  }

  lemma {:induction false} WithTimeCounts(s: seq<Record>, v: int, r: Record)
    ensures multiset(WithTime(s, v))[r] == if r.saveTime == v then multiset(s)[r] else 0
  {
    if s != [] {
      WithTimeCounts(s[..|s| - 1], v, r);
      assert s == s[..|s| - 1] + [s[|s| - 1]];
    }
  }

  lemma {:induction false} AfterCounts(s: seq<Record>, v: int, r: Record)
    ensures multiset(After(s, v))[r] == if r.saveTime > v then multiset(s)[r] else 0
  {
    if s != [] {
      AfterCounts(s[..|s| - 1], v, r);
      assert s == s[..|s| - 1] + [s[|s| - 1]];
    }
  }

  lemma FilterMembers(s: seq<Record>, v: int)
    ensures forall r :: r in WithTime(s, v) <==> r in s && r.saveTime == v
    ensures forall r :: r in After(s, v) <==> r in s && r.saveTime > v
  {
  }

  lemma {:induction false} WithTimeDistinct(s: seq<Record>, v: int)
    requires DistinctKeys(s)
    ensures DistinctKeys(WithTime(s, v))
  {
    if s != [] {
      var s', w := s[..|s| - 1], WithTime(s[..|s| - 1], v);
      WithTimeDistinct(s', v);
      FilterMembers(s', v);
      forall i | 0 <= i < |w| ensures w[i].key != s[|s| - 1].key {
        assert w[i] in s';
      }
    }
  }

  lemma SplitByTime(s: seq<Record>, t1: int, t2: int)
    requires t1 < t2
    requires forall r :: r in s ==> r.saveTime == t1 || r.saveTime >= t2
    ensures multiset(s) == multiset(WithTime(s, t1)) + multiset(WithTime(s, t2)) + multiset(After(s, t2))
    ensures |s| == |WithTime(s, t1)| + |WithTime(s, t2)| + |After(s, t2)|
  {
    var a, b, c := multiset(WithTime(s, t1)), multiset(WithTime(s, t2)), multiset(After(s, t2));
    forall r ensures multiset(s)[r] == (a + b + c)[r] {
      WithTimeCounts(s, t1, r);
      WithTimeCounts(s, t2, r);
      AfterCounts(s, t2, r);
      if multiset(s)[r] > 0 {
        assert r in multiset(s);
        assert r in s;
      }
    }
    assert multiset(s) == a + b + c;
    assert |multiset(s)| == |a| + |b| + |c|;
  }

  lemma TakeNext(init: seq<Record>, olds: seq<Record>, m: nat, t1: int, t2: int)
    requires t1 < t2 && |olds| == m > 0 && m <= |init|
    requires init[m - 1].saveTime == t2
    requires forall r :: r in olds ==> r.saveTime == t1
    ensures Replace(olds[..m - 1] + init[m - 1..], olds[m - 1]) == olds + init[m..]
  {
  }

  /** Entries of the oldest time that come one after the other to slots of the second oldest time
      take these slots from the left. */
  lemma {:induction false} TakeFromLeft(init: seq<Record>, olds: seq<Record>, t1: int, t2: int, c: nat)
    requires t1 < t2 && |olds| <= c <= |init|
    requires forall i :: 0 <= i < c ==> init[i].saveTime == t2
    requires forall r :: r in olds ==> r.saveTime == t1
    ensures Gather(init + olds, |init|) == olds + init[|olds|..]
  {
    var n, m := |init|, |olds|;
    if m == 0 {
      GatherShort(init, n);
      assert init + olds == init;
    } else {
      var x := olds[m - 1];
      TakeFromLeft(init, olds[..m - 1], t1, t2, c);
      assert init + olds == (init + olds[..m - 1]) + [x];
      GatherMore(init + olds[..m - 1], x, n);
      TakeNext(init, olds, m, t1, t2);
    }
  }

  ghost predicate Wrong(acc: seq<Record>, t2: int, lost: Record) {
    |acc| > 1 && lost !in acc && acc[0].saveTime < t2 == lost.saveTime
    < acc[|acc| - 1].saveTime
  }

  /** Entries newer than `t2` cannot repair a wrong accumulator. */
  lemma {:induction false} StaysWrong(s: seq<Record>, tail: seq<Record>, n: nat, t2: int, lost: Record)
    requires |s| >= n && Wrong(Gather(s, n), t2, lost)
    requires forall r :: r in tail ==> r.saveTime > t2
    ensures Wrong(Gather(s + tail, n), t2, lost)
  {
    if tail == [] {
      assert s + tail == s;
    } else {
      var x := tail[|tail| - 1];
      StaysWrong(s, tail[..|tail| - 1], n, t2, lost);
      assert (s + tail)[..|s + tail| - 1] == s + tail[..|tail| - 1];
    }
  }

  /** The scan order that loses an entry: `a2` holds the second oldest time, `a1` the oldest, `q`
      everything newer. */
  lemma BadOrder(a1: seq<Record>, a2: seq<Record>, q: seq<Record>, n: nat, t1: int, t2: int) returns (t: seq<Record>)
    requires t1 < t2
    requires forall r :: r in a1 ==> r.saveTime == t1
    requires forall r :: r in a2 ==> r.saveTime == t2
    requires forall r :: r in q ==> r.saveTime > t2
    requires 0 < |a1| < n && 0 < |a2| < n && q != [] && DistinctKeys(a2)
    requires |a1| + |a2| + |q| > n
    ensures multiset(t) == multiset(a1) + multiset(a2) + multiset(q)
    ensures Wrong(Gather(t, n), t2, a2[0]) && a2[0] in t
  {
    var l := |a1| + |a2|;
    var k := if l < n then n - l + 1 else 1;
    var i := |a1| - (l + k - n);
    t := ((a2 + (a1[..i] + q[..k])) + a1[i..]) + q[k..];
    Shuffle(a1, a2, q, i, k);
    LostAfterReplacing(a1, a2, q, i, k, n, t1, t2);
    StaysWrong((a2 + (a1[..i] + q[..k])) + a1[i..], q[k..], n, t2, a2[0]);
    assert t[0] == a2[0];
  }

  lemma LostAfterReplacing(a1: seq<Record>, a2: seq<Record>, q: seq<Record>, i: nat, k: nat, n: nat, t1: int, t2: int)
    requires t1 < t2
    requires forall r :: r in a1 ==> r.saveTime == t1
    requires forall r :: r in a2 ==> r.saveTime == t2
    requires forall r :: r in q ==> r.saveTime > t2
    requires DistinctKeys(a2) && i < |a1| && |a1| - i <= |a2| && 0 < k <= |q| && |a2| + i + k == n
    ensures Wrong(Gather((a2 + (a1[..i] + q[..k])) + a1[i..], n), t2, a2[0])
  {
    var u, late, j := a1[..i] + q[..k], a1[i..], |a1| - i;
    assert forall r :: r in late ==> r in a1;
    TakeFromLeft(a2 + u, late, t1, t2, |a2|);
    assert (a2 + u)[j..] == a2[j..] + u;
    IsWrong(a1, a2, q, i, k, t1, t2);
  }

  lemma IsWrong(a1: seq<Record>, a2: seq<Record>, q: seq<Record>, i: nat, k: nat, t1: int, t2: int)
    requires t1 < t2
    requires forall r :: r in a1 ==> r.saveTime == t1
    requires forall r :: r in a2 ==> r.saveTime == t2
    requires forall r :: r in q ==> r.saveTime > t2
    requires DistinctKeys(a2) && i < |a1| && |a1| - i <= |a2| && 0 < k <= |q|
    ensures Wrong(a1[i..] + (a2[|a1| - i..] + (a1[..i] + q[..k])), t2, a2[0])
  {
    var acc := a1[i..] + (a2[|a1| - i..] + (a1[..i] + q[..k]));
    assert a2[0] in a2;
    LostFrom(a1, a2, q, a1[i..], a1[..i] + q[..k], |a1| - i);
    assert acc[0] == a1[i] && acc[|acc| - 1] == q[k - 1];
  }

  lemma Shuffle(a1: seq<Record>, a2: seq<Record>, q: seq<Record>, i: nat, k: nat)
    requires i <= |a1| && k <= |q|
    ensures multiset(((a2 + (a1[..i] + q[..k])) + a1[i..]) + q[k..]) == multiset(a1) + multiset(a2) + multiset(q)
  {
    assert a1 == a1[..i] + a1[i..] && q == q[..k] + q[k..];
  }

  lemma LostFrom(a1: seq<Record>, a2: seq<Record>, q: seq<Record>, late: seq<Record>, u: seq<Record>, j: nat)
    requires 0 < j <= |a2| && DistinctKeys(a2)
    requires a2[0] !in a1 && a2[0] !in q
    requires forall r :: r in late ==> r in a1
    requires forall r :: r in u ==> r in a1 || r in q
    ensures a2[0] !in late + (a2[j..] + u)
  {
  }

  lemma TwoOldest(s: seq<Record>, x: Record, y: Record) returns (first: Record, second: Record)
    requires x in s && y in s && Older(x, y)
    ensures first in s && second in s && Older(first, second)
    ensures forall r :: r in s ==> r.saveTime == first.saveTime || r.saveTime >= second.saveTime
  {
    var i := OldestOf(s);
    first := s[i];
    var newer := After(s, first.saveTime);
    FilterMembers(s, first.saveTime);
    assert y in newer;
    var k := OldestOf(newer);
    second := newer[k];
    assert second in newer;
  }

  lemma LosingPermutation(s: seq<Record>, n: nat) returns (t: seq<Record>)
    requires n > 0 && DistinctKeys(s) && !Benign(s, n)
    ensures multiset(t) == multiset(s) && !ExactTop(t, Gather(t, n))
  {
    var x, y, z :| x in s && y in s && z in s && Older(x, y) && Older(y, z);
    var first, second := TwoOldest(s, x, y);
    var t1, t2 := first.saveTime, second.saveTime;
    assert |WithTime(s, t1)| < n by {
      assert !Crowded(s, n, t1);
    }
    assert |WithTime(s, t2)| < n by {
      assert !Crowded(s, n, t2);
    }
    t := LosingOrder(s, n, first, second, z);
    WrongIsInexact(t, Gather(t, n), t2, WithTime(s, t2)[0]);
  }

  lemma WrongIsInexact(t: seq<Record>, g: seq<Record>, t2: int, lost: Record)
    requires lost in t && Wrong(g, t2, lost)
    ensures !ExactTop(t, g)
  {
    assert g[|g| - 1] in g && Older(lost, g[|g| - 1]);
  }

  lemma LosingOrder(s: seq<Record>, n: nat, first: Record, second: Record, z: Record) returns (t: seq<Record>)
    requires n < |s| && DistinctKeys(s)
    requires first in s && second in s && z in s && Older(first, second) && Older(second, z)
    requires forall r :: r in s ==> r.saveTime == first.saveTime || r.saveTime >= second.saveTime
    requires |WithTime(s, first.saveTime)| < n && |WithTime(s, second.saveTime)| < n
    ensures multiset(t) == multiset(s)
    ensures var a2 := WithTime(s, second.saveTime);
      a2 != [] && a2[0] in t && Wrong(Gather(t, n), second.saveTime, a2[0])
  {
    var t1, t2 := first.saveTime, second.saveTime;
    var a1, a2, q := WithTime(s, t1), WithTime(s, t2), After(s, t2);
    SplitByTime(s, t1, t2);
    FilterMembers(s, t1);
    FilterMembers(s, t2);
    WithTimeDistinct(s, t2);
    assert first in a1 && second in a2 && z in q;
    t := BadOrder(a1, a2, q, n, t1, t2);
  }

  /** Slot by slot, the entries of `a` and of `b` at the same places. */
  ghost predicate SamePlaces(a: seq<Record>, b: seq<Record>, acc: seq<Record>, bcc: seq<Record>, at: seq<nat>) {
    && |a| == |b| && |acc| == |bcc| == |at|
    && forall k :: 0 <= k < |at| ==> at[k] < |a| && acc[k] == a[at[k]] && bcc[k] == b[at[k]]
  }

  /** The selection reads save times only: on two lists with the same times it keeps the entries at
      the same places. */
  lemma {:induction false} KeepsPlaces(a: seq<Record>, b: seq<Record>, n: nat) returns (at: seq<nat>)
    requires TimesAgree(a, b)
    ensures SamePlaces(a, b, Gather(a, n), Gather(b, n), at)
  {
    if a == [] {
      at := [];
    } else {
      var m := |a| - 1;
      var at' := KeepsPlaces(a[..m], b[..m], n);
      at := OfferKeepsPlaces(a, b, m, Gather(a[..m], n), Gather(b[..m], n), at', n);
    }
  }

  lemma OfferKeepsPlaces(
    a: seq<Record>, b: seq<Record>, m: nat, acc: seq<Record>, bcc: seq<Record>, at: seq<nat>, n: nat)
    returns (next: seq<nat>)
    requires TimesAgree(a, b) && m < |a| && SamePlaces(a[..m], b[..m], acc, bcc, at)
    ensures SamePlaces(a, b, Offer(acc, a[m], n), Offer(bcc, b[m], n), next)
  {
    SameFirstNewer(acc, bcc, a[m], b[m]);
    var i := FirstNewer(acc, a[m]);
    next := if |at| < n then at + [m] else if i < |at| then at[i := m] else at;
  }

  ghost predicate TimesAgree(a: seq<Record>, b: seq<Record>) {
    |a| == |b| && forall i :: 0 <= i < |a| ==> a[i].saveTime == b[i].saveTime
  }

  lemma {:induction false} SameFirstNewer(a: seq<Record>, b: seq<Record>, x: Record, y: Record)
    requires TimesAgree(a, b) && x.saveTime == y.saveTime
    ensures FirstNewer(a, x) == FirstNewer(b, y)
  {
    if a != [] {
      SameFirstNewer(a[1..], b[1..], x, y);
    }
  }

  /** A wrong answer stays wrong on other keys. */
  lemma StaysInexact(a: seq<Record>, b: seq<Record>, n: nat)
    requires TimesAgree(a, b) && DistinctKeys(b)
    requires !ExactTop(a, Gather(a, n))
    ensures !ExactTop(b, Gather(b, n))
  {
    var at := KeepsPlaces(a, b, n);
    var x, y :| x in a && x !in Gather(a, n) && y in Gather(a, n) && Older(x, y);
    LostAtPlace(a, b, Gather(a, n), Gather(b, n), at, x, y);
  }

  lemma LostAtPlace(
    a: seq<Record>, b: seq<Record>, acc: seq<Record>, bcc: seq<Record>, at: seq<nat>, x: Record, y: Record)
    requires TimesAgree(a, b) && DistinctKeys(b) && SamePlaces(a, b, acc, bcc, at)
    requires x in a && x !in acc && y in acc && Older(x, y)
    ensures !ExactTop(b, bcc)
  {
    var i :| 0 <= i < |a| && a[i] == x;
    var k :| 0 <= k < |at| && acc[k] == y;
    assert b[i] in b && bcc[k] in bcc && Older(b[i], bcc[k]);
    assert b[i] !in bcc;
  }

  /** Any other store can be dealt to its keys so that an entry is left out that is strictly older
      than a returned one. */
  lemma ExactOnlyIfBenign(s: seq<Record>, n: nat) returns (t: seq<Record>)
    requires n > 0 && InKeyOrder(s) && !Benign(s, n)
    ensures Dealt(s, t) && InKeyOrder(t) && !ExactTop(t, Gather(t, n))
  {
    KeyOrderIsDistinct(s);
    var p := LosingPermutation(s, n);
    SameMembers(s, p);
    t := Onto(s, p);
    StaysInexact(p, t, n);
  }

  /** The documented promise, "the best n", holds of a store however its entries fall on its keys if
      and only if the store fits in the accumulator, or has fewer than three save times, or has at
      least `n` entries with one of its two oldest save times. */
  lemma ExactIffBenign(s: seq<Record>, n: nat)
    requires n > 0 && InKeyOrder(s)
    ensures AlwaysExact(s, n) <==> Benign(s, n)
  {
    if Benign(s, n) {
      forall t: seq<Record> | Dealt(s, t) ensures ExactTop(t, Gather(t, n)) {
        DealtSameTimes(s, t);
        BenignAlike(s, t, n);
        BenignIsExact(t, n);
      }
    } else {
      var t := ExactOnlyIfBenign(s, n);
    }
  }

  // ---------- what depends on save times only ----------

  ghost predicate SameTimes(s: seq<Record>, t: seq<Record>) {
    |s| == |t| && forall v :: |WithTime(s, v)| == |WithTime(t, v)|
  }

  lemma {:induction false} AgreeSameTimes(a: seq<Record>, b: seq<Record>, v: int)
    requires TimesAgree(a, b)
    ensures |WithTime(a, v)| == |WithTime(b, v)|
  {
    if a != [] {
      AgreeSameTimes(a[..|a| - 1], b[..|b| - 1], v);
    }
  }

  lemma ShuffledSameTimes(s: seq<Record>, t: seq<Record>)
    requires multiset(t) == multiset(s)
    ensures SameTimes(s, t)
  {
    SameMembers(s, t);
    forall v ensures |WithTime(s, v)| == |WithTime(t, v)| {
      SameCount(s, t, v);
    }
  }

  lemma DealtSameTimes(s: seq<Record>, t: seq<Record>)
    requires Dealt(s, t)
    ensures SameTimes(s, t)
  {
    var p: seq<Record> :| multiset(p) == multiset(s) && |p| == |s| && t == Onto(s, p);
    ShuffledSameTimes(s, p);
    forall v ensures |WithTime(s, v)| == |WithTime(t, v)| {
      AgreeSameTimes(p, t, v);
    }
  }

  lemma SameTimeMember(s: seq<Record>, t: seq<Record>, x: Record) returns (y: Record)
    requires SameTimes(s, t) && x in t
    ensures y in s && y.saveTime == x.saveTime
  {
    FilterMembers(s, x.saveTime);
    FilterMembers(t, x.saveTime);
    assert x in WithTime(t, x.saveTime);
    y := WithTime(s, x.saveTime)[0];
    assert y in WithTime(s, x.saveTime);
  }

  lemma FewTimesAlike(s: seq<Record>, t: seq<Record>)
    requires SameTimes(s, t) && FewerThanThreeTimes(s)
    ensures FewerThanThreeTimes(t)
  {
    forall x, y, z | x in t && y in t && z in t ensures !(Older(x, y) && Older(y, z)) {
      var x' := SameTimeMember(s, t, x);
      var y' := SameTimeMember(s, t, y);
      var z' := SameTimeMember(s, t, z);
    }
  }

  lemma CrowdedAlike(s: seq<Record>, t: seq<Record>, n: nat, v: int)
    requires SameTimes(s, t) && Crowded(s, n, v)
    ensures Crowded(t, n, v)
  {
    forall x, y | x in t && y in t && Older(x, y) ensures y.saveTime >= v {
      var x' := SameTimeMember(s, t, x);
      var y' := SameTimeMember(s, t, y);
    }
  }

  lemma BenignAlike(s: seq<Record>, t: seq<Record>, n: nat)
    requires SameTimes(s, t) && Benign(s, n)
    ensures Benign(t, n)
  {
    if FewerThanThreeTimes(s) {
      FewTimesAlike(s, t);
    } else if v :| Crowded(s, n, v) {
      CrowdedAlike(s, t, n, v);
    }
  }

  lemma SameMembers(s: seq<Record>, t: seq<Record>)
    requires multiset(t) == multiset(s)
    ensures |t| == |s| && forall r :: r in t <==> r in s
  {
    assert |t| == |multiset(t)| && |s| == |multiset(s)|;
    forall r ensures r in t <==> r in s {
      assert r in t <==> r in multiset(t);
      assert r in s <==> r in multiset(s);
    }
  }

  lemma SameCount(s: seq<Record>, t: seq<Record>, v: int)
    requires multiset(t) == multiset(s)
    ensures |WithTime(t, v)| == |WithTime(s, v)|
  {
    forall r ensures multiset(WithTime(t, v))[r] == multiset(WithTime(s, v))[r] {
      WithTimeCounts(s, v, r);
      WithTimeCounts(t, v, r);
    }
    assert multiset(WithTime(t, v)) == multiset(WithTime(s, v));
    assert |WithTime(t, v)| == |multiset(WithTime(t, v))|;
    assert |WithTime(s, v)| == |multiset(WithTime(s, v))|;
  }

  /** With two slots and save times 5, 10, 3 the selection returns the entries of times 3 and 10. */
  lemma NotTheBestTwo(a: Record, b: Record, c: Record)
    requires a.saveTime == 5 && b.saveTime == 10 && c.saveTime == 3
    ensures Gather([a, b, c], 2) == [c, b] && !ExactTop([a, b, c], [c, b])
  {
    GatherShort([a, b], 2);
    assert [a, b, c][..2] == [a, b];
    assert FirstNewer([a, b], c) == 0;
    assert a in [a, b, c] && a !in [c, b] && b in [c, b] && Older(a, b);
  }
}
