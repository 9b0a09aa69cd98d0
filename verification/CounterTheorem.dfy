/** The byte counter against the true sum, in every interleaving of saves, drops and recounts. */
module CounterTheorem {
  import opened Machine
  import opened Codec
  import opened Catalog
  import opened Store
  import opened Totals
  import opened Interleaving

  type Saves = map<nat, SaveOp>

  /** The length of a save whose add came before the latest recount's store and whose metadata
      put came after that recount's scan. */
  function MissedLen(o: SaveOp, snap: nat, store: nat): nat {
    if o.meta.Done? && o.addAt < store && o.metaAt > snap then o.entry.bytesLen else 0
  }

  function LateLen(o: SaveOp, snap: nat): nat {
    if o.meta.Done? && o.metaAt > snap then o.entry.bytesLen else 0
  }

  function PendingLen(o: SaveOp, store: nat): nat {
    if o.meta.Pending? && o.addAt > store then o.entry.bytesLen else 0
  }

  function MissedMap(saves: Saves, snap: nat, store: nat): map<nat, nat> {
    map i | i in saves :: MissedLen(saves[i], snap, store)
  }

  function LateMap(saves: Saves, snap: nat): map<nat, nat> {
    map i | i in saves :: LateLen(saves[i], snap)
  }

  function PendingMap(saves: Saves, store: nat): map<nat, nat> {
    map i | i in saves :: PendingLen(saves[i], store)
  }

  ghost function Missed(s: State): nat {
    Total(MissedMap(s.saves, s.lastSnap, s.lastStore))
  }

  // ---------- how one save changes the sums ----------

  lemma MissedUpdate(saves: Saves, i: nat, o: SaveOp, snap: nat, store: nat)
    ensures Total(MissedMap(saves[i := o], snap, store)) == Total(MissedMap(saves, snap, store))
      - (if i in saves then MissedLen(saves[i], snap, store) else 0) + MissedLen(o, snap, store)
  {
    assert MissedMap(saves[i := o], snap, store) == MissedMap(saves, snap, store)[i := MissedLen(o, snap, store)];
    Insert(MissedMap(saves, snap, store), i, MissedLen(o, snap, store));
  }

  lemma LateUpdate(saves: Saves, i: nat, o: SaveOp, snap: nat)
    ensures Total(LateMap(saves[i := o], snap)) == Total(LateMap(saves, snap))
      - (if i in saves then LateLen(saves[i], snap) else 0) + LateLen(o, snap)
  {
    assert LateMap(saves[i := o], snap) == LateMap(saves, snap)[i := LateLen(o, snap)];
    Insert(LateMap(saves, snap), i, LateLen(o, snap));
  }

  lemma PendingUpdate(saves: Saves, i: nat, o: SaveOp, store: nat)
    ensures Total(PendingMap(saves[i := o], store)) == Total(PendingMap(saves, store))
      - (if i in saves then PendingLen(saves[i], store) else 0) + PendingLen(o, store)
  {
    assert PendingMap(saves[i := o], store) == PendingMap(saves, store)[i := PendingLen(o, store)];
    Insert(PendingMap(saves, store), i, PendingLen(o, store));
  }

  // ---------- the invariant ----------

  /** Every step has its own time. */
  ghost predicate Timed(s: State) {
    && s.lastSnap <= s.lastStore < s.now
    && (forall i :: i in s.saves ==> 0 < s.saves[i].addAt < s.now && s.saves[i].addAt != s.lastStore)
    && (forall i :: i in s.saves && s.saves[i].meta.Done? ==> s.saves[i].addAt < s.saves[i].metaAt < s.now)
    && (forall r :: r in s.recounts ==> 0 < s.recounts[r].snapAt < s.now)
  }

  /** The true sum is covered by the bytes ever added. */
  ghost predicate Funded(s: State) {
    MetaSum(s.f.meta) + Total(PendingMap(s.saves, 0)) <= s.total
  }

  /** The scan of an open recount misses only what was put after it. */
  ghost predicate ScanCovers(s: State, r: nat)
    requires r in s.recounts
  {
    MetaSum(s.f.meta) <= s.recounts[r].sum + Total(LateMap(s.saves, s.recounts[r].snapAt))
    && s.recounts[r].sum <= s.total
  }

  /** The counter misses only the saves that the latest recount missed; what is added and not yet
      put is already in it. */
  ghost predicate CounterCovers(s: State) {
    MetaSum(s.f.meta) + Total(PendingMap(s.saves, s.lastStore)) <= s.size + Missed(s) && s.size <= s.total
  }

  ghost predicate Inv(s: State) {
    Timed(s) && Funded(s) && CounterCovers(s) && forall r :: r in s.recounts ==> ScanCovers(s, r)
  }

  lemma InitialInv(s: State)
    requires Initial(s) && s.total < TWO_64
    ensures Inv(s)
  {
  }

  lemma AddTimed(s: State, i: nat, k: Key, entry: Entry)
    requires Timed(s) && i !in s.saves
    ensures Timed(ApplyAdd(s, i, k, entry))
  {
  }

  lemma AddInv(s: State, i: nat, k: Key, entry: Entry)
    requires Inv(s) && i !in s.saves && s.total + entry.bytesLen < TWO_64
    ensures Inv(ApplyAdd(s, i, k, entry))
  {
    AddTimed(s, i, k, entry);
    var o := SaveOp(k, entry, s.now, Pending, Pending, 0);
    PendingUpdate(s.saves, i, o, 0);
    PendingUpdate(s.saves, i, o, s.lastStore);
    MissedUpdate(s.saves, i, o, s.lastSnap, s.lastStore);
    forall r | r in s.recounts ensures ScanCovers(ApplyAdd(s, i, k, entry), r) {
      assert ScanCovers(s, r);
      LateUpdate(s.saves, i, o, s.recounts[r].snapAt);
    }
  }

  lemma PutImageInv(s: State, i: nat, ok: bool)
    requires Inv(s) && i in s.saves && s.saves[i].image.Pending?
    ensures Inv(ApplyPutImage(s, i, ok))
  {
    var t := ApplyPutImage(s, i, ok);
    PendingUpdate(s.saves, i, t.saves[i], 0);
    PendingUpdate(s.saves, i, t.saves[i], s.lastStore);
    MissedUpdate(s.saves, i, t.saves[i], s.lastSnap, s.lastStore);
    forall r | r in s.recounts ensures ScanCovers(t, r) {
      assert ScanCovers(s, r);
      PutImageScan(s, i, ok, r);
    }
  }

  lemma PutImageScan(s: State, i: nat, ok: bool, r: nat)
    requires i in s.saves && r in s.recounts && ScanCovers(s, r)
    ensures ScanCovers(ApplyPutImage(s, i, ok), r)
  {
    LateUpdate(s.saves, i, ApplyPutImage(s, i, ok).saves[i], s.recounts[r].snapAt);
  }

  lemma PutMetaScan(s: State, i: nat, ok: bool, r: nat)
    requires Timed(s) && i in s.saves && s.saves[i].meta.Pending? && r in s.recounts && ScanCovers(s, r)
    ensures ScanCovers(ApplyPutMeta(s, i, ok), r)
  {
    PutMetaSum(s, i, ok);
    LateUpdate(s.saves, i, ApplyPutMeta(s, i, ok).saves[i], s.recounts[r].snapAt);
  }

  lemma PutMetaFunded(s: State, i: nat, ok: bool)
    requires Timed(s) && Funded(s) && CounterCovers(s) && i in s.saves && s.saves[i].meta.Pending?
    ensures Funded(ApplyPutMeta(s, i, ok)) && CounterCovers(ApplyPutMeta(s, i, ok))
  {
    var o := ApplyPutMeta(s, i, ok).saves[i];
    PutMetaSum(s, i, ok);
    PendingUpdate(s.saves, i, o, 0);
    PendingUpdate(s.saves, i, o, s.lastStore);
    MissedUpdate(s.saves, i, o, s.lastSnap, s.lastStore);
  }

  lemma PutMetaTimed(s: State, i: nat, ok: bool)
    requires Timed(s) && i in s.saves && s.saves[i].meta.Pending?
    ensures Timed(ApplyPutMeta(s, i, ok))
  {
  }

  lemma PutMetaSum(s: State, i: nat, ok: bool)
    requires i in s.saves
    ensures MetaSum(ApplyPutMeta(s, i, ok).f.meta) <= MetaSum(s.f.meta) + if ok then s.saves[i].entry.bytesLen else 0
  {
    var o := s.saves[i];
    EncodedLen(o.entry);
    SumOfPut(s.f.meta, o.key, Encode(Blank(o.entry)));
  }

  lemma PutMetaInv(s: State, i: nat, ok: bool)
    requires Inv(s) && i in s.saves && s.saves[i].meta.Pending?
    ensures Inv(ApplyPutMeta(s, i, ok))
  {
    var t := ApplyPutMeta(s, i, ok);
    PutMetaTimed(s, i, ok);
    PutMetaFunded(s, i, ok);
    forall r | r in s.recounts ensures ScanCovers(t, r) {
      assert ScanCovers(s, r);
      PutMetaScan(s, i, ok, r);
    }
  }

  lemma PublishTimed(s: State, i: nat)
    requires Timed(s) && i in s.recounts
    ensures Timed(ApplyPublish(s, i))
  {
  }

  lemma PublishInv(s: State, i: nat)
    requires Inv(s) && i in s.recounts
    ensures Inv(ApplyPublish(s, i))
  {
    var t := ApplyPublish(s, i);
    PublishTimed(s, i);
    PublishSums(s, i);
    assert ScanCovers(s, i);
    forall r | r in t.recounts ensures ScanCovers(t, r) {
      assert ScanCovers(s, r);
    }
  }

  /** At a store nothing is pending any more, and what is missed is what the scan was late for. */
  lemma PublishSums(s: State, i: nat)
    requires Timed(s) && i in s.recounts
    ensures var snap := s.recounts[i].snapAt;
      MissedMap(s.saves, snap, s.now) == LateMap(s.saves, snap) && Total(PendingMap(s.saves, s.now)) == 0
  {
    Zero(PendingMap(s.saves, s.now));
  }

  lemma SnapshotInv(s: State, i: nat)
    requires Inv(s) && i !in s.recounts && s.total < TWO_64
    ensures Inv(ApplySnapshot(s, i))
  {
    var t := ApplySnapshot(s, i);
    forall r | r in t.recounts ensures ScanCovers(t, r) {
      if r != i {
        assert ScanCovers(s, r);
      }
    }
  }

  lemma DropInv(s: State, e: Event)
    requires Inv(s) && Enabled(s, e) && (e.DelImage? || e.DelMeta?)
    ensures Inv(Apply(s, e))
  {
    var t := Apply(s, e);
    if e.DelMeta? {
      SumOfSubset(s.f.meta, {s.drops[e.id]});
    }
    forall r | r in t.recounts ensures ScanCovers(t, r) {
      assert ScanCovers(s, r);
    }
  }

  lemma LoadInv(s: State, e: Event)
    requires Inv(s) && Enabled(s, e) && (e.StartLoad? || e.ReadImage? || e.ReadMeta?)
    ensures Inv(ApplyLoad(s, e))
  {
    var t := ApplyLoad(s, e);
    forall r | r in t.recounts ensures ScanCovers(t, r) {
      assert ScanCovers(s, r);
    }
  }

  lemma StepInv(s: State, e: Event, t: State)
    requires Inv(s) && Step(s, e, t) && t.total < TWO_64
    ensures Inv(t)
  {
    match e {
      case Add(i, k, entry) => AddInv(s, i, k, entry);
      case PutImage(i, ok) => PutImageInv(s, i, ok);
      case PutMeta(i, ok) => PutMetaInv(s, i, ok);
      case Snapshot(i) => SnapshotInv(s, i);
      case Publish(i) => PublishInv(s, i);
      case DelImage(_, _, _) => DropInv(s, e);
      case DelMeta(_, _) => DropInv(s, e);
      case _ => LoadInv(s, e);
    }
  }

  lemma TotalGrows(s: State, e: Event, t: State)
    requires Step(s, e, t)
    ensures s.total <= t.total
  {
  }

  lemma {:induction false} RunInv(ss: seq<State>, es: seq<Event>, n: nat)
    requires Run(ss, es) && n <= |es| && ss[n].total < TWO_64
    ensures Inv(ss[n])
  {
    if n == 0 {
      InitialInv(ss[0]);
    } else {
      assert Step(ss[n - 1], es[n - 1], ss[n]);
      TotalGrows(ss[n - 1], es[n - 1], ss[n]);
      RunInv(ss, es, n - 1);
      StepInv(ss[n - 1], es[n - 1], ss[n]);
    }
  }

  /** In every interleaving, as long as the bytes ever added fit in 64 bits, the true sum exceeds
      the counter by at most the lengths of the saves that the latest recount missed. */
  lemma CounterBound(ss: seq<State>, es: seq<Event>, n: nat) returns (missed: map<nat, nat>)
    requires Run(ss, es) && n <= |es| && ss[n].total < TWO_64
    ensures var s := ss[n];
      && (forall i :: i in missed <==>
          i in s.saves && s.saves[i].meta.Done? && s.saves[i].addAt < s.lastStore && s.lastSnap < s.saves[i].metaAt)
      && (forall i :: i in missed ==> missed[i] == s.saves[i].entry.bytesLen)
      && MetaSum(s.f.meta) <= s.size + Total(missed)
    ensures Dated(ss[n], es[..n])
  {
    RunInv(ss, es, n);
    RunIsDated(ss, es, n);
    var s := ss[n];
    var all := MissedMap(s.saves, s.lastSnap, s.lastStore);
    var others := set i | i in s.saves
        && !(s.saves[i].meta.Done? && s.saves[i].addAt < s.lastStore && s.lastSnap < s.saves[i].metaAt);
    DropZeros(all, others);
    missed := all - others;
  }

  // ---------- without overlap ----------

  /** No save is between its add and its metadata put while a recount is open. */
  ghost predicate NoOverlap(s: State) {
    s.recounts != map[] ==> forall i :: i in s.saves ==> !s.saves[i].meta.Pending?
  }

  ghost predicate NothingMissed(s: State) {
    && (forall i :: i in s.saves && s.saves[i].meta.Pending? ==> s.saves[i].addAt > s.lastStore)
    && (forall i, r :: i in s.saves && r in s.recounts && s.saves[i].meta.Done? ==>
        s.saves[i].metaAt < s.recounts[r].snapAt)
    && (forall i :: i in s.saves && s.saves[i].meta.Done? && s.saves[i].addAt < s.lastStore ==>
        s.saves[i].metaAt < s.lastSnap)
  }

  lemma StepTimed(s: State, e: Event, t: State)
    requires Timed(s) && Step(s, e, t)
    ensures Timed(t)
  {
    match e {
      case Add(i, k, entry) => AddTimed(s, i, k, entry);
      case PutMeta(i, ok) => PutMetaTimed(s, i, ok);
      case Publish(i) => PublishTimed(s, i);
      case _ =>
    }
  }

  lemma AddMissesNothing(s: State, i: nat, k: Key, entry: Entry)
    requires Timed(s) && NothingMissed(s) && i !in s.saves && NoOverlap(ApplyAdd(s, i, k, entry))
    ensures NothingMissed(ApplyAdd(s, i, k, entry))
  {
  }

  lemma PutMetaMissesNothing(s: State, i: nat, ok: bool)
    requires Timed(s) && NothingMissed(s) && NoOverlap(s) && i in s.saves && s.saves[i].meta.Pending?
    ensures NothingMissed(ApplyPutMeta(s, i, ok))
  {
  }

  lemma PublishMissesNothing(s: State, i: nat)
    requires Timed(s) && NothingMissed(s) && NoOverlap(s) && i in s.recounts
    ensures NothingMissed(ApplyPublish(s, i))
  {
  }

  lemma StepMissesNothing(s: State, e: Event, t: State)
    requires Timed(s) && NothingMissed(s) && NoOverlap(s) && Step(s, e, t) && NoOverlap(t)
    ensures NothingMissed(t)
  {
    match e {
      case Add(i, k, entry) => AddMissesNothing(s, i, k, entry);
      case PutMeta(i, ok) => PutMetaMissesNothing(s, i, ok);
      case Publish(i) => PublishMissesNothing(s, i);
      case _ =>
    }
  }

  lemma {:induction false} RunMissesNothing(ss: seq<State>, es: seq<Event>, n: nat)
    requires Run(ss, es) && n <= |es|
    requires forall i :: 0 <= i <= n ==> NoOverlap(ss[i])
    ensures Timed(ss[n]) && NothingMissed(ss[n])
  {
    if n > 0 {
      RunMissesNothing(ss, es, n - 1);
      assert Step(ss[n - 1], es[n - 1], ss[n]);
      StepTimed(ss[n - 1], es[n - 1], ss[n]);
      StepMissesNothing(ss[n - 1], es[n - 1], ss[n]);
    }
  }

  /** With no recount overlapping a save, the counter never under-reports, at any step. */
  lemma NeverUnderReports(ss: seq<State>, es: seq<Event>, n: nat)
    requires Run(ss, es) && n <= |es| && ss[n].total < TWO_64
    requires forall i :: 0 <= i <= n ==> NoOverlap(ss[i])
    ensures MetaSum(ss[n].f.meta) <= ss[n].size
  {
    RunInv(ss, es, n);
    RunMissesNothing(ss, es, n);
    Zero(MissedMap(ss[n].saves, ss[n].lastSnap, ss[n].lastStore));
  }

  /** With overlap it can, and the bound is reached: a save that starts and finishes between the
      scan and the store of a recount is forgotten. */
  lemma OverlapUnderReports(k: Key, entry: Entry) returns (ss: seq<State>, es: seq<Event>)
    requires entry.bytesLen > 0
    ensures Run(ss, es) && |es| == 4
    ensures MetaSum(ss[4].f.meta) == entry.bytesLen && ss[4].size == 0 && Missed(ss[4]) == entry.bytesLen
  {
    var o := SaveOp(k, entry, 2, Pending, Done, 3);
    ss, es := OverlapRun(k, entry);
    OneItem(k, entry);
    OneMissed(o);
    assert ss[4].f.meta == map[][k := Encode(Blank(entry))];
  }

  lemma OverlapRun(k: Key, entry: Entry) returns (ss: seq<State>, es: seq<Event>)
    ensures Run(ss, es) && |es| == 4
    ensures ss[4].f.meta == map[k := Encode(Blank(entry))] && ss[4].size == 0
    ensures ss[4].saves == map[0 := SaveOp(k, entry, 2, Pending, Done, 3)]
    ensures ss[4].lastSnap == 1 && ss[4].lastStore == 4
  {
    EmptySum();
    var s0 := State(Families(map[], map[]), 0, map[], map[], map[], map[], 1, 0, 0, 0);
    var s1 := ApplySnapshot(s0, 0);
    var s2 := ApplyAdd(s1, 0, k, entry);
    var s3 := ApplyPutMeta(s2, 0, true);
    var s4 := ApplyPublish(s3, 0);
    ss, es := [s0, s1, s2, s3, s4], [Snapshot(0), Add(0, k, entry), PutMeta(0, true), Publish(0)];
    assert Step(s0, es[0], s1) && Step(s1, es[1], s2) && Step(s2, es[2], s3) && Step(s3, es[3], s4);
  }

  lemma OneItem(k: Key, entry: Entry)
    ensures MetaSum(map[][k := Encode(Blank(entry))]) == entry.bytesLen
  {
    EmptySum();
    EncodedLen(entry);
    SumOfPut(map[], k, Encode(Blank(entry)));
  }

  lemma OneMissed(o: SaveOp)
    requires o.meta.Done? && o.addAt == 2 && o.metaAt == 3
    ensures Total(MissedMap(map[0 := o], 1, 4)) == o.entry.bytesLen
  {
    assert MissedMap(map[], 1, 4) == map[];
    MissedUpdate(map[], 0, o, 1, 4);
    assert map[][0 := o] == map[0 := o];
  }
}
