/** The accumulator of `find_top_entries` under the comparator of the evictor: the first slot that
    holds a strictly newer entry is overwritten, whatever the later slots hold. */
module Selection {
  import opened Catalog

  predicate Older(a: Record, b: Record) {
    a.saveTime < b.saveTime
  }

  /** The first slot that holds an entry strictly newer than `x`, |acc| when there is none. */
  function FirstNewer(acc: seq<Record>, x: Record): (i: nat)
    ensures i <= |acc|
    ensures forall j :: 0 <= j < i ==> !Older(x, acc[j])
    ensures i < |acc| ==> Older(x, acc[i])
  {
    if acc == [] then 0
    else if Older(x, acc[0]) then 0
    else 1 + FirstNewer(acc[1..], x)
  }

  function Replace(acc: seq<Record>, x: Record): (r: seq<Record>)
    ensures |r| == |acc|
  {
    var i := FirstNewer(acc, x);
    if i < |acc| then acc[i := x] else acc
  }

  function Offer(acc: seq<Record>, x: Record, n: nat): seq<Record> {
    if |acc| < n then acc + [x] else Replace(acc, x)
  }

  function Gather(s: seq<Record>, n: nat): (acc: seq<Record>)
    ensures |acc| == if |s| < n then |s| else n
  {
    if s == [] then [] else Offer(Gather(s[..|s| - 1], n), s[|s| - 1], n)
  }

  lemma GatherMore(s: seq<Record>, x: Record, n: nat)
    ensures Gather(s + [x], n) == Offer(Gather(s, n), x, n)
  {
  }

  // ---------- the loop as filters in series ----------

  /** A running minimum that starts at `c`: what it holds after `s`, and what it let through. */
  function Kept(c: Record, s: seq<Record>): Record {
    if s == [] then c
    else
      var k, x := Kept(c, s[..|s| - 1]), s[|s| - 1];
      if Older(x, k) then x else k
  }

  function Passed(c: Record, s: seq<Record>): seq<Record> {
    if s == [] then []
    else
      var x := s[|s| - 1];
      Passed(c, s[..|s| - 1]) + if Older(x, Kept(c, s[..|s| - 1])) then [] else [x]
  }

  /** One filter per slot, each fed with what the filters before it let through. */
  function InSeries(slots: seq<Record>, s: seq<Record>): (r: seq<Record>)
    ensures |r| == |slots|
  {
    if slots == [] then []
    else [Kept(slots[0], s)] + InSeries(slots[1..], Passed(slots[0], s))
  }

  /** A filter holds the oldest of its initial entry and its input, the first to come among
      equally old ones. */
  lemma {:induction false} KeptIsOldest(c: Record, s: seq<Record>) returns (at: nat)
    ensures at <= |s| && Kept(c, s) == ([c] + s)[at]
    ensures forall i :: 0 <= i <= |s| ==> !Older(([c] + s)[i], Kept(c, s))
    ensures forall i :: 0 <= i < at ==> Older(Kept(c, s), ([c] + s)[i])
  {
    if s == [] {
      at := 0;
    } else {
      var s' := s[..|s| - 1];
      at := KeptIsOldest(c, s');
      assert forall i :: 0 <= i <= |s'| ==> ([c] + s)[i] == ([c] + s')[i];
      if Older(s[|s| - 1], Kept(c, s')) {
        at := |s|;
      }
    }
  }

  lemma {:induction false} SeriesStep(slots: seq<Record>, s: seq<Record>, x: Record)
    ensures InSeries(slots, s + [x]) == Replace(InSeries(slots, s), x)
  {
    if slots != [] {
      assert (s + [x])[..|s|] == s;
      var k := Kept(slots[0], s);
      var below := InSeries(slots[1..], Passed(slots[0], s));
      assert InSeries(slots, s)[0] == k && InSeries(slots, s)[1..] == below;
      var passed := Passed(slots[0], s);
      if Older(x, k) {
        assert Passed(slots[0], s + [x]) == passed + [] == passed;
        assert InSeries(slots, s + [x]) == [x] + below;
      } else {
        assert Passed(slots[0], s + [x]) == passed + [x];
        SeriesStep(slots[1..], passed, x);
        assert InSeries(slots, s + [x]) == [k] + Replace(below, x);
      }
      assert InSeries(slots, s) == [k] + below;
    }
  }

  lemma {:induction false} SeriesEmpty(slots: seq<Record>)
    ensures InSeries(slots, []) == slots
  {
    if slots != [] {
      SeriesEmpty(slots[1..]);
    }
  }

  lemma {:induction false} GatherShort(s: seq<Record>, n: nat)
    requires |s| <= n
    ensures Gather(s, n) == s
  {
    if s != [] {
      var s', x := s[..|s| - 1], s[|s| - 1];
      GatherShort(s', n);
      GatherMore(s', x, n);
      assert s == s' + [x];
    }
  }

  /** The entry-by-entry loop and the slot-by-slot formulation give the same array. */
  lemma {:induction false} GatherIsInSeries(s: seq<Record>, n: nat)
    requires n <= |s|
    ensures Gather(s, n) == InSeries(s[..n], s[n..])
  {
    if |s| == n {
      GatherShort(s, n);
      SeriesEmpty(s);
      assert s[..n] == s && s[n..] == [];
    } else {
      var s', x := s[..|s| - 1], s[|s| - 1];
      calc {
        Gather(s, n);
        Replace(Gather(s', n), x);
        { GatherIsInSeries(s', n); assert s'[..n] == s[..n]; }
        Replace(InSeries(s[..n], s'[n..]), x);
        { SeriesStep(s[..n], s'[n..], x); }
        InSeries(s[..n], s'[n..] + [x]);
        { assert s[n..] == s'[n..] + [x]; }
        InSeries(s[..n], s[n..]);
      }
    }
  }

  // ---------- soundness ----------

  /** Entry `i` came to a full accumulator and replaced nothing. */
  ghost predicate TurnedAway(s: seq<Record>, n: nat, i: nat) {
    i < |s| && n <= i && FirstNewer(Gather(s[..i], n), s[i]) == n
  }

  /** Entry `j` overwrote the slot that held entry `i`. */
  ghost predicate Displaced(s: seq<Record>, n: nat, i: nat, j: nat) {
    i < j < |s| && n <= j &&
    var k := FirstNewer(Gather(s[..j], n), s[j]);
    k < n && Gather(s[..j], n)[k] == s[i]
  }

  /** A slot never gets newer. */
  lemma {:induction false} SlotsAge(s: seq<Record>, n: nat, m: nat, k: nat)
    requires m <= |s| && k < |Gather(s[..m], n)|
    ensures k < |Gather(s, n)| && !Older(Gather(s[..m], n)[k], Gather(s, n)[k])
  {
    if m == |s| {
      assert s[..m] == s;
    } else {
      SlotsAge(s[..|s| - 1], n, m, k);
      assert s[..|s| - 1][..m] == s[..m];
    }
  }

  lemma {:induction false} GatherIsPart(s: seq<Record>, n: nat)
    ensures multiset(Gather(s, n)) <= multiset(s)
    ensures forall r :: r in Gather(s, n) ==> r in s
  {
    if s != [] {
      var s', x := s[..|s| - 1], s[|s| - 1];
      GatherIsPart(s', n);
      assert s == s' + [x];
      var acc := Gather(s', n);
      if |acc| >= n && FirstNewer(acc, x) < |acc| {
        var i := FirstNewer(acc, x);
        assert multiset(acc[i := x]) == multiset(acc) - multiset{acc[i]} + multiset{x};
      }
      assert multiset(Gather(s, n)) <= multiset(s);
      forall r | r in Gather(s, n) ensures r in s {
        assert r in multiset(Gather(s, n));
      }
    }
  }

  /** An entry that is held when one more is offered stays held or is displaced by it. */
  lemma HeldOrDisplaced(acc: seq<Record>, x: Record, n: nat, r: Record)
    requires |acc| <= n && r in acc
    ensures r in Offer(acc, x, n) || (|acc| == n && FirstNewer(acc, x) < n && acc[FirstNewer(acc, x)] == r)
  {
    var k :| 0 <= k < |acc| && acc[k] == r;
    if |acc| < n || FirstNewer(acc, x) != k {
      assert Offer(acc, x, n)[k] == r;
    }
  }

  lemma OfferedOrTurnedAway(acc: seq<Record>, x: Record, n: nat)
    requires |acc| <= n
    ensures x in Offer(acc, x, n) || (|acc| == n && FirstNewer(acc, x) == n)
  {
    if |acc| < n {
      assert Offer(acc, x, n)[|acc|] == x;
    } else if FirstNewer(acc, x) < n {
      assert Offer(acc, x, n)[FirstNewer(acc, x)] == x;
    }
  }

  /** Every entry ends in the result, was turned away, or was displaced. */
  lemma {:induction false} Fate(s: seq<Record>, n: nat, i: nat) returns (j: nat)
    requires i < |s|
    ensures s[i] in Gather(s, n) || TurnedAway(s, n, i) || Displaced(s, n, i, j)
  {
    j := 0;
    var last := |s| - 1;
    var s', x := s[..last], s[last];
    if i == last {
      OfferedOrTurnedAway(Gather(s', n), x, n);
    } else {
      j := Fate(s', n, i);
      if TurnedAway(s', n, i) {
        assert s'[..i] == s[..i];
      } else if Displaced(s', n, i, j) {
        assert s'[..j] == s[..j];
      } else {
        HeldOrDisplaced(Gather(s', n), x, n, s[i]);
        j := last;
      }
    }
  }

  /** An entry turned away is no older than any returned one. */
  lemma TurnedAwayIsNewer(s: seq<Record>, n: nat, i: nat)
    requires TurnedAway(s, n, i)
    ensures forall r :: r in Gather(s, n) ==> !Older(s[i], r)
  {
    forall k | 0 <= k < |Gather(s, n)| ensures !Older(s[i], Gather(s, n)[k]) {
      SlotsAge(s, n, i, k);
    }
  }

  /** A displaced entry is strictly newer than the one that displaced it and than some returned
      one. */
  lemma DisplacedIsNewer(s: seq<Record>, n: nat, i: nat, j: nat) returns (r: Record)
    requires Displaced(s, n, i, j)
    ensures Older(s[j], s[i])
    ensures r in Gather(s, n) && Older(r, s[i])
  {
    var k := FirstNewer(Gather(s[..j], n), s[j]);
    assert s[..j + 1][..j] == s[..j];
    assert Gather(s[..j + 1], n)[k] == s[j];
    SlotsAge(s, n, j + 1, k);
    r := Gather(s, n)[k];
  }

  /** The soundness of the selection: how many, which, and what became of the others. */
  lemma SelectionIsSound(s: seq<Record>, n: nat)
    requires n > 0
    ensures |Gather(s, n)| == if |s| < n then |s| else n
    ensures multiset(Gather(s, n)) <= multiset(s)
    ensures forall i: nat :: i < |s| && s[i] !in Gather(s, n) ==>
      TurnedAway(s, n, i) || exists j: nat :: Displaced(s, n, i, j)
    ensures forall i: nat, r :: TurnedAway(s, n, i) && r in Gather(s, n) ==> !Older(s[i], r)
    ensures forall i: nat, j: nat :: Displaced(s, n, i, j) ==> exists r :: r in Gather(s, n) && Older(r, s[i])
    ensures s != [] ==> exists r :: r in Gather(s, n) && forall x :: x in s ==> !Older(x, r)
  {
    GatherIsPart(s, n);
    forall i: nat | i < |s| && s[i] !in Gather(s, n)
      ensures TurnedAway(s, n, i) || exists j: nat :: Displaced(s, n, i, j)
    {
      var j := Fate(s, n, i);
    }
    forall i: nat | TurnedAway(s, n, i) ensures forall r :: r in Gather(s, n) ==> !Older(s[i], r) {
      TurnedAwayIsNewer(s, n, i);
    }
    forall i: nat, j: nat | Displaced(s, n, i, j) ensures exists r :: r in Gather(s, n) && Older(r, s[i]) {
      var r := DisplacedIsNewer(s, n, i, j);
    }
    if s != [] {
      var r := HoldsOldest(s, n);
    }
  }

  lemma OldestOf(s: seq<Record>) returns (at: nat)
    requires s != []
    ensures at < |s| && forall i :: 0 <= i < |s| ==> !Older(s[i], s[at])
  {
    at := 0;
    for k := 1 to |s|
      invariant at < k && forall i :: 0 <= i < k ==> !Older(s[i], s[at])
    {
      if Older(s[k], s[at]) {
        at := k;
      }
    }
  }

  /** The result holds an entry with the globally oldest save time. */
  lemma HoldsOldest(s: seq<Record>, n: nat) returns (r: Record)
    requires n > 0 && s != []
    ensures r in Gather(s, n) && forall x :: x in s ==> !Older(x, r)
  {
    var i := OldestOf(s);
    r := s[i];
    if r !in Gather(s, n) {
      var j := Fate(s, n, i);
      if TurnedAway(s, n, i) {
        TurnedAwayIsNewer(s, n, i);
        r := Gather(s, n)[0];
      } else {
        assert Displaced(s, n, i, j);
        var _ := DisplacedIsNewer(s, n, i, j);
        assert false;
      }
    }
  }
}
