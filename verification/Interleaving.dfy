/** The RocksDB engine under concurrency: saves, drops, recounts and loads, each cut into the
    atomic steps that other operations can come between. The steps are those of the database
    calls and of the counter; the final store of a running eviction is not among them. */
module Interleaving {
  import opened Machine
  import opened Codec
  import opened Catalog
  import opened Store

  datatype Phase = Pending | Done | Failed

  /** A save after its counter add at time `addAt`; the two puts settle in either order. */
  datatype SaveOp = SaveOp(key: Key, entry: Entry, addAt: nat, image: Phase, meta: Phase, metaAt: nat)

  /** A recount after its scan, before its store. */
  datatype RecountOp = RecountOp(snapAt: nat, sum: u64)

  /** A load and what its two reads have found so far. */
  datatype LoadOp = LoadOp(key: Key, image: Option<Option<Buffer>>, meta: Option<Option<Blob>>)

  /** `drops` holds the drops that have deleted the image and not yet tried the metadata. `saves`
      keeps every save ever begun. `total` is the initial size plus every length ever added. */
  datatype State = State(
    f: Families, size: u64,
    saves: map<nat, SaveOp>, drops: map<nat, Key>, recounts: map<nat, RecountOp>, loads: map<nat, LoadOp>,
    now: nat, lastSnap: nat, lastStore: nat, total: nat)

  datatype Event =
    | Add(id: nat, key: Key, entry: Entry)
    | PutImage(id: nat, ok: bool)
    | PutMeta(id: nat, ok: bool)
    | DelImage(id: nat, key: Key, ok: bool)
    | DelMeta(id: nat, ok: bool)
    | Snapshot(id: nat)
    | Publish(id: nat)
    | StartLoad(id: nat, key: Key)
    | ReadImage(id: nat)
    | ReadMeta(id: nat)

  predicate Enabled(s: State, e: Event) {
    match e
    case Add(i, _, _) => i !in s.saves
    case PutImage(i, _) => i in s.saves && s.saves[i].image.Pending?
    case PutMeta(i, _) => i in s.saves && s.saves[i].meta.Pending?
    case DelImage(i, _, _) => i !in s.drops
    case DelMeta(i, _) => i in s.drops
    case Snapshot(i) => i !in s.recounts
    case Publish(i) => i in s.recounts
    case StartLoad(i, _) => i !in s.loads
    case ReadImage(i) => i in s.loads && s.loads[i].image.None?
    case ReadMeta(i) => i in s.loads && s.loads[i].meta.None?
  }

  function ApplyAdd(s: State, i: nat, k: Key, entry: Entry): State {
    s.(saves := s.saves[i := SaveOp(k, entry, s.now, Pending, Pending, 0)],
       size := Add64(s.size, entry.bytesLen), total := s.total + entry.bytesLen, now := s.now + 1)
  }

  function ApplyPutImage(s: State, i: nat, ok: bool): State
    requires i in s.saves
  {
    var o := s.saves[i];
    s.(saves := s.saves[i := o.(image := if ok then Done else Failed)],
       f := if ok then s.f.(images := s.f.images[o.key := o.entry.bytes]) else s.f, now := s.now + 1)
  }

  function ApplyPutMeta(s: State, i: nat, ok: bool): State
    requires i in s.saves
  {
    var o := s.saves[i];
    s.(saves := s.saves[i := if ok then o.(meta := Done, metaAt := s.now) else o.(meta := Failed)],
       f := if ok then s.f.(meta := s.f.meta[o.key := Encode(Blank(o.entry))]) else s.f, now := s.now + 1)
  }

  function ApplyDelImage(s: State, i: nat, k: Key, ok: bool): State {
    s.(drops := if ok then s.drops[i := k] else s.drops,
       f := if ok then s.f.(images := s.f.images - {k}) else s.f, now := s.now + 1)
  }

  function ApplyDelMeta(s: State, i: nat, ok: bool): State
    requires i in s.drops
  {
    s.(drops := s.drops - {i},
       f := if ok then s.f.(meta := s.f.meta - {s.drops[i]}) else s.f, now := s.now + 1)
  }

  ghost function ApplySnapshot(s: State, i: nat): State {
    s.(recounts := s.recounts[i := RecountOp(s.now, Wrap(MetaSum(s.f.meta)))], now := s.now + 1)
  }

  function ApplyPublish(s: State, i: nat): State
    requires i in s.recounts
  {
    s.(recounts := s.recounts - {i}, size := s.recounts[i].sum,
       lastSnap := s.recounts[i].snapAt, lastStore := s.now, now := s.now + 1)
  }

  function ApplyLoad(s: State, e: Event): State
    requires Enabled(s, e) && (e.StartLoad? || e.ReadImage? || e.ReadMeta?)
  {
    var l := match e
      case StartLoad(_, k) => LoadOp(k, None, None)
      case ReadImage(i) => s.loads[i].(image := Some(Lookup(s.f.images, s.loads[i].key)))
      case ReadMeta(i) => s.loads[i].(meta := Some(Lookup(s.f.meta, s.loads[i].key)));
    s.(loads := s.loads[e.id := l], now := s.now + 1)
  }

  ghost function Apply(s: State, e: Event): State
    requires Enabled(s, e)
  {
    match e
    case Add(i, k, entry) => ApplyAdd(s, i, k, entry)
    case PutImage(i, ok) => ApplyPutImage(s, i, ok)
    case PutMeta(i, ok) => ApplyPutMeta(s, i, ok)
    case DelImage(i, k, ok) => ApplyDelImage(s, i, k, ok)
    case DelMeta(i, ok) => ApplyDelMeta(s, i, ok)
    case Snapshot(i) => ApplySnapshot(s, i)
    case Publish(i) => ApplyPublish(s, i)
    case _ => ApplyLoad(s, e)
  }

  ghost predicate Step(s: State, e: Event, t: State) {
    Enabled(s, e) && t == Apply(s, e)
  }

  /** Right after the engine was opened, or after any recount with nothing in flight. */
  ghost predicate Initial(s: State) {
    && s.saves == map[] && s.drops == map[] && s.recounts == map[] && s.loads == map[]
    && s.now == 1 && s.lastSnap == s.lastStore == 0
    && s.total == MetaSum(s.f.meta) && s.size == Wrap(s.total)
  }

  ghost predicate Run(ss: seq<State>, es: seq<Event>) {
    && |ss| == |es| + 1 && Initial(ss[0])
    && forall i :: 0 <= i < |es| ==> Step(ss[i], es[i], ss[i + 1])
  }

  // ---------- operations that are alone ----------

  /** A save whose steps nothing comes between writes what the sequential engine writes. */
  lemma SaveAlone(s: State, i: nat, k: Key, e: Entry, imageFirst: bool) returns (t: State)
    requires i !in s.saves
    ensures var a := ApplyAdd(s, i, k, e);
      t == if imageFirst then ApplyPutMeta(ApplyPutImage(a, i, true), i, true)
           else ApplyPutImage(ApplyPutMeta(a, i, true), i, true)
    ensures t.f == Write(s.f, k, e) && t.size == Add64(s.size, e.bytesLen)
  {
    var a := ApplyAdd(s, i, k, e);
    t := if imageFirst then ApplyPutMeta(ApplyPutImage(a, i, true), i, true)
         else ApplyPutImage(ApplyPutMeta(a, i, true), i, true);
  }

  lemma DropAlone(s: State, i: nat, k: Key)
    requires i !in s.drops
    ensures ApplyDelMeta(ApplyDelImage(s, i, k, true), i, true).f == Remove(s.f, {k})
    ensures ApplyDelMeta(ApplyDelImage(s, i, k, true), i, true).size == s.size
  {
  }

  lemma RecountAlone(s: State, i: nat)
    requires i !in s.recounts
    ensures ApplyPublish(ApplySnapshot(s, i), i).f == s.f
    ensures ApplyPublish(ApplySnapshot(s, i), i).size == Wrap(MetaSum(s.f.meta))
  {
  }

  // ---------- when things happened ----------

  function AddedBytes(es: seq<Event>): nat {
    if es == [] then 0 else AddedBytes(es[..|es| - 1]) + if es[|es| - 1].Add? then es[|es| - 1].entry.bytesLen else 0
  }

  /** The times in a state are those of the events of its run: step `j` happens at time `j + 1`. */
  ghost predicate Dated(s: State, es: seq<Event>) {
    s.now == |es| + 1 && SavesDated(s, es) && RecountsDated(s, es) && StoreDated(s, es)
  }

  ghost predicate SavesDated(s: State, es: seq<Event>) {
    forall i :: i in s.saves ==>
      && 0 < s.saves[i].addAt <= |es| && es[s.saves[i].addAt - 1] == Add(i, s.saves[i].key, s.saves[i].entry)
      && (s.saves[i].meta.Done? ==> 0 < s.saves[i].metaAt <= |es| && es[s.saves[i].metaAt - 1] == PutMeta(i, true))
  }

  ghost predicate RecountsDated(s: State, es: seq<Event>) {
    forall r :: r in s.recounts ==> 0 < s.recounts[r].snapAt <= |es| && es[s.recounts[r].snapAt - 1] == Snapshot(r)
  }

  /** The latest store of a recount, and the scan of that recount; 0 before any. */
  ghost predicate StoreDated(s: State, es: seq<Event>) {
    && s.lastStore <= |es| && (forall j :: s.lastStore <= j < |es| ==> !es[j].Publish?)
    && (s.lastStore == 0 ==> s.lastSnap == 0)
    && (s.lastStore > 0 ==>
        && es[s.lastStore - 1].Publish? && 0 < s.lastSnap < s.lastStore
        && es[s.lastSnap - 1] == Snapshot(es[s.lastStore - 1].id))
  }

  lemma {:induction false} RunIsDated(ss: seq<State>, es: seq<Event>, n: nat)
    requires Run(ss, es) && n <= |es|
    ensures Dated(ss[n], es[..n])
  {
    if n > 0 {
      RunIsDated(ss, es, n - 1);
      assert es[..n] == es[..n - 1] + [es[n - 1]];
      StepDated(ss[n - 1], es[..n - 1], es[n - 1], ss[n], es[..n]);
    }
  }

  lemma StepDated(s: State, es: seq<Event>, e: Event, t: State, more: seq<Event>)
    requires Dated(s, es) && Step(s, e, t) && more == es + [e]
    ensures Dated(t, more)
  {
    SaveStepDated(s, es, e, t, more);
    RecountStepDated(s, es, e, t, more);
    StoreStepDated(s, es, e, t, more);
    TotalStep(s, e, t);
  }

  lemma TotalStep(s: State, e: Event, t: State)
    requires Step(s, e, t)
    ensures t.now == s.now + 1 && t.total == s.total + if e.Add? then e.entry.bytesLen else 0
  {
  }

  /** `total` is the initial size and all lengths added since. */
  lemma {:induction false} TotalIsAdded(ss: seq<State>, es: seq<Event>, n: nat)
    requires Run(ss, es) && n <= |es|
    ensures ss[n].total == MetaSum(ss[0].f.meta) + AddedBytes(es[..n])
  {
    if n > 0 {
      TotalIsAdded(ss, es, n - 1);
      assert es[..n][..n - 1] == es[..n - 1];
      TotalStep(ss[n - 1], es[n - 1], ss[n]);
    }
  }

  lemma SaveStepDated(s: State, es: seq<Event>, e: Event, t: State, more: seq<Event>)
    requires s.now == |es| + 1 && SavesDated(s, es) && Step(s, e, t) && more == es + [e]
    ensures SavesDated(t, more)
  {
    forall i | i in t.saves
      ensures 0 < t.saves[i].addAt <= |more| && more[t.saves[i].addAt - 1] == Add(i, t.saves[i].key, t.saves[i].entry)
      ensures t.saves[i].meta.Done? ==>
        0 < t.saves[i].metaAt <= |more| && more[t.saves[i].metaAt - 1] == PutMeta(i, true)
    {
      assert i in s.saves || e == Add(i, t.saves[i].key, t.saves[i].entry);
    }
  }

  lemma RecountStepDated(s: State, es: seq<Event>, e: Event, t: State, more: seq<Event>)
    requires s.now == |es| + 1 && RecountsDated(s, es) && Step(s, e, t) && more == es + [e]
    ensures RecountsDated(t, more)
  {
    forall r | r in t.recounts
      ensures 0 < t.recounts[r].snapAt <= |more| && more[t.recounts[r].snapAt - 1] == Snapshot(r)
    {
      assert r in s.recounts || e == Snapshot(r);
    }
  }

  lemma StoreStepDated(s: State, es: seq<Event>, e: Event, t: State, more: seq<Event>)
    requires s.now == |es| + 1 && RecountsDated(s, es) && StoreDated(s, es) && Step(s, e, t) && more == es + [e]
    ensures StoreDated(t, more)
  {
    if e.Publish? {
      assert t.lastStore == |more| && more[|es|] == e;
    } else {
      assert t.lastStore == s.lastStore && t.lastSnap == s.lastSnap;
    }
  }

  // ---------- what a load finds ----------

  lemma {:induction false} ImageReadAt(ss: seq<State>, es: seq<Event>, n: nat, l: nat) returns (a: nat)
    requires Run(ss, es) && n <= |es| && l in ss[n].loads && ss[n].loads[l].image.Some?
    ensures a < n && es[a] == ReadImage(l)
    ensures ss[n].loads[l].image == Some(Lookup(ss[a].f.images, ss[n].loads[l].key))
  {
    assert Step(ss[n - 1], es[n - 1], ss[n]);
    a := n - 1;
    if es[n - 1] != ReadImage(l) {
      a := ImageReadAt(ss, es, n - 1, l);
    }
  }

  lemma {:induction false} MetaReadAt(ss: seq<State>, es: seq<Event>, n: nat, l: nat) returns (b: nat)
    requires Run(ss, es) && n <= |es| && l in ss[n].loads && ss[n].loads[l].meta.Some?
    ensures b < n && es[b] == ReadMeta(l)
    ensures ss[n].loads[l].meta == Some(Lookup(ss[b].f.meta, ss[n].loads[l].key))
  {
    assert Step(ss[n - 1], es[n - 1], ss[n]);
    b := n - 1;
    if es[n - 1] != ReadMeta(l) {
      b := MetaReadAt(ss, es, n - 1, l);
    }
  }
}
