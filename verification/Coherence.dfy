/** Images and metadata are written, deleted and read separately. What loads return, and which
    keys the two families hold, in every interleaving. */
module Coherence {
  import opened Machine
  import opened Codec
  import opened Catalog
  import opened Store
  import opened Totals
  import opened Interleaving

  /** The image that belongs under a byte key: its bytes and its mime type. */
  type Content = Key -> (Buffer, Text)

  /** An entry that describes the image under `k`, whatever its save time. */
  ghost predicate Describes(sha: Hash, c: Content, k: Key, e: Entry) {
    e.bytesLen == |c(k).0| && e.checksum == sha(c(k).0) && e.mime == c(k).1
  }

  ghost predicate GoodMeta(sha: Hash, c: Content, k: Key, v: Blob) {
    Decode(v).Some? && Describes(sha, c, k, Decode(v).value)
  }

  /** Every save under one byte key carries the same bytes and mime type. */
  ghost predicate SameContent(sha: Hash, c: Content, e: Event) {
    e.Add? ==> exists clock :: e.entry == NewEntry(sha, c(e.key).0, c(e.key).1, clock)
  }

  ghost predicate Good(sha: Hash, c: Content, f: Families) {
    && (forall k :: k in f.images ==> f.images[k] == c(k).0)
    && (forall k :: k in f.meta ==> GoodMeta(sha, c, k, f.meta[k]))
  }

  ghost predicate GoodSave(sha: Hash, c: Content, o: SaveOp) {
    o.entry.bytes == c(o.key).0 && Describes(sha, c, o.key, o.entry)
  }

  ghost predicate GoodLoad(sha: Hash, c: Content, l: LoadOp) {
    && (l.image.Some? && l.image.value.Some? ==> l.image.value.value == c(l.key).0)
    && (l.meta.Some? && l.meta.value.Some? ==> GoodMeta(sha, c, l.key, l.meta.value.value))
  }

  ghost predicate Coherent(sha: Hash, c: Content, s: State) {
    && Good(sha, c, s.f)
    && (forall i :: i in s.saves ==> GoodSave(sha, c, s.saves[i]))
    && (forall i :: i in s.loads ==> GoodLoad(sha, c, s.loads[i]))
  }

  /** What a load that has done both reads returns. */
  function Loaded(l: LoadOp): Option<Entry> {
    if l.image.Some? && l.meta.Some? && l.image.value.Some? && l.meta.value.Some? && Decode(l.meta.value.value).Some?
    then Some(Decode(l.meta.value.value).value.(bytes := l.image.value.value))
    else None
  }

  /** In every interleaving a load that has done both reads returns what the engine held under its key
      at the later read, unless the image or the metadata read first was replaced in between. */
  lemma LoadFindsWhatIsThere(ss: seq<State>, es: seq<Event>, n: nat, l: nat) returns (a: nat, b: nat)
    requires Run(ss, es) && n <= |es| && l in ss[n].loads
    requires ss[n].loads[l].image.Some? && ss[n].loads[l].meta.Some?
    ensures a < n && b < n && es[a] == ReadImage(l) && es[b] == ReadMeta(l)
    ensures var k := ss[n].loads[l].key;
      && (Lookup(ss[a].f.images, k) == Lookup(ss[b].f.images, k) ==>
          Loaded(ss[n].loads[l]) == Lookup(View(ss[b].f), k))
      && (Lookup(ss[a].f.meta, k) == Lookup(ss[b].f.meta, k) ==>
          Loaded(ss[n].loads[l]) == Lookup(View(ss[a].f), k))
  {
    a := ImageReadAt(ss, es, n, l);
    b := MetaReadAt(ss, es, n, l);
    PairIsView(ss[a].f, ss[b].f, ss[n].loads[l]);
  }

  lemma PairIsView(f: Families, g: Families, l: LoadOp)
    requires l.image == Some(Lookup(f.images, l.key)) && l.meta == Some(Lookup(g.meta, l.key))
    ensures Lookup(f.images, l.key) == Lookup(g.images, l.key) ==> Loaded(l) == Lookup(View(g), l.key)
    ensures Lookup(f.meta, l.key) == Lookup(g.meta, l.key) ==> Loaded(l) == Lookup(View(f), l.key)
  {
  }

  lemma EncodedIsGood(sha: Hash, c: Content, k: Key, e: Entry)
    requires Describes(sha, c, k, e)
    ensures GoodMeta(sha, c, k, Encode(Blank(e)))
  {
    DecodeEncode(Blank(e), []);
  }

  lemma PutMetaCoherent(sha: Hash, c: Content, s: State, i: nat, ok: bool)
    requires Coherent(sha, c, s) && i in s.saves
    ensures Coherent(sha, c, ApplyPutMeta(s, i, ok))
  {
    assert GoodSave(sha, c, s.saves[i]);
    EncodedIsGood(sha, c, s.saves[i].key, s.saves[i].entry);
  }

  lemma LoadCoherent(sha: Hash, c: Content, s: State, e: Event)
    requires Coherent(sha, c, s) && Enabled(s, e) && (e.StartLoad? || e.ReadImage? || e.ReadMeta?)
    ensures Coherent(sha, c, ApplyLoad(s, e))
  {
  }

  lemma StepCoherent(sha: Hash, c: Content, s: State, e: Event, t: State)
    requires Coherent(sha, c, s) && Step(s, e, t) && SameContent(sha, c, e)
    ensures Coherent(sha, c, t)
  {
    match e {
      case Add(i, _, _) =>
        assert GoodSave(sha, c, t.saves[i]);
      case PutImage(i, _) =>
        assert GoodSave(sha, c, s.saves[i]);
      case PutMeta(i, ok) => PutMetaCoherent(sha, c, s, i, ok);
      case StartLoad(_, _) => LoadCoherent(sha, c, s, e);
      case ReadImage(_) => LoadCoherent(sha, c, s, e);
      case ReadMeta(_) => LoadCoherent(sha, c, s, e);
      case _ =>
    }
  }

  lemma {:induction false} RunCoherent(sha: Hash, c: Content, ss: seq<State>, es: seq<Event>, n: nat)
    requires Run(ss, es) && n <= |es| && Good(sha, c, ss[0].f)
    requires forall i :: 0 <= i < n ==> SameContent(sha, c, es[i])
    ensures Coherent(sha, c, ss[n])
  {
    if n > 0 {
      RunCoherent(sha, c, ss, es, n - 1);
      assert Step(ss[n - 1], es[n - 1], ss[n]);
      StepCoherent(sha, c, ss[n - 1], es[n - 1], ss[n]);
    }
  }

  /** If every save under one byte key carries the same image, then in every interleaving, even on
      one key, an entry returned by a load is consistent in itself and is that image. */
  lemma LoadsAreConsistent(sha: Hash, c: Content, ss: seq<State>, es: seq<Event>, n: nat, l: nat)
    requires Run(ss, es) && n <= |es| && Good(sha, c, ss[0].f)
    requires forall i :: 0 <= i < n ==> SameContent(sha, c, es[i])
    requires l in ss[n].loads
    ensures var r := Loaded(ss[n].loads[l]);
      r.Some? ==>
        r.value.bytesLen == |r.value.bytes| && r.value.checksum == sha(r.value.bytes)
        && r.value.bytes == c(ss[n].loads[l].key).0 && r.value.mime == c(ss[n].loads[l].key).1
  {
    RunCoherent(sha, c, ss, es, n);
    assert GoodLoad(sha, c, ss[n].loads[l]);
  }

  /** An entry whose length and checksum are those of its bytes, as every new entry is. */
  ghost predicate SelfConsistent(sha: Hash, e: Entry) {
    e.bytesLen == |e.bytes| && e.checksum == sha(e.bytes)
  }

  /** Two saves under one key whose images differ in length or checksum can leave a pair of records
      that is not consistent. */
  lemma MixedSavesDisagree(sha: Hash, k: Key, a: Entry, b: Entry) returns (ss: seq<State>, es: seq<Event>)
    requires SelfConsistent(sha, a) && SelfConsistent(sha, b)
    requires |a.bytes| != |b.bytes| || sha(a.bytes) != sha(b.bytes)
    ensures Run(ss, es) && |es| == 6
    ensures var v := View(ss[6].f); k in v && !SelfConsistent(sha, v[k])
  {
    ss, es := MixedRun(k, a, b);
    DecodeEncode(Blank(a), []);
    assert k in View(ss[6].f);
  }

  lemma MixedRun(k: Key, a: Entry, b: Entry) returns (ss: seq<State>, es: seq<Event>)
    ensures Run(ss, es) && |es| == 6
    ensures ss[6].f == Families(map[k := b.bytes], map[k := Encode(Blank(a))])
  {
    var s0, s2 := TwoAdds(k, a, b);
    var s1 := ApplyAdd(s0, 0, k, a);
    var s3 := ApplyPutImage(s2, 0, true);
    var s4 := ApplyPutImage(s3, 1, true);
    var s5 := ApplyPutMeta(s4, 1, true);
    var s6 := ApplyPutMeta(s5, 0, true);
    ss := [s0, s1, s2, s3, s4, s5, s6];
    es := [Add(0, k, a), Add(1, k, b), PutImage(0, true), PutImage(1, true), PutMeta(1, true), PutMeta(0, true)];
    assert Step(s2, es[2], s3) && Step(s3, es[3], s4) && Step(s4, es[4], s5) && Step(s5, es[5], s6);
    assert s6.f.images == map[k := b.bytes] && s6.f.meta == map[k := Encode(Blank(a))];
  }

  lemma TwoAdds(k: Key, a: Entry, b: Entry) returns (s: State, t: State)
    ensures Initial(s) && s.f == Families(map[], map[])
    ensures Step(s, Add(0, k, a), ApplyAdd(s, 0, k, a)) && Step(ApplyAdd(s, 0, k, a), Add(1, k, b), t)
    ensures t.f == s.f
    ensures t.saves == map[0 := SaveOp(k, a, 1, Pending, Pending, 0), 1 := SaveOp(k, b, 2, Pending, Pending, 0)]
  {
    EmptySum();
    s := State(Families(map[], map[]), 0, map[], map[], map[], map[], 1, 0, 0, 0);
    t := ApplyAdd(ApplyAdd(s, 0, k, a), 1, k, b);
  }

  // ---------- which keys the two families hold ----------

  predicate InFlight(o: SaveOp) {
    o.image.Pending? || o.meta.Pending?
  }

  /** No write and drop of one key overlap, and no put fails. */
  ghost predicate Disjoint(s: State, e: Event) {
    match e
    case Add(_, k, _) => forall d :: d in s.drops ==> s.drops[d] != k
    case DelImage(_, k, _) => forall i :: i in s.saves && s.saves[i].key == k ==> !InFlight(s.saves[i])
    case PutImage(_, ok) => ok
    case PutMeta(_, ok) => ok
    case _ => true
  }

  /** A save in flight under `k` that has put its image and not yet its metadata. */
  ghost predicate ImageFirst(s: State, k: Key) {
    exists i :: i in s.saves && s.saves[i].key == k && s.saves[i].image.Done? && s.saves[i].meta.Pending?
  }

  ghost predicate MetaFirst(s: State, k: Key) {
    exists i :: i in s.saves && s.saves[i].key == k && s.saves[i].meta.Done? && s.saves[i].image.Pending?
  }

  ghost predicate Dropping(s: State, k: Key) {
    exists d :: d in s.drops && s.drops[d] == k
  }

  /** What a save in flight has put is there. */
  ghost predicate PutsHold(s: State) {
    forall i :: i in s.saves && InFlight(s.saves[i]) ==>
      && !s.saves[i].image.Failed? && !s.saves[i].meta.Failed?
      && (s.saves[i].image.Done? ==> s.saves[i].key in s.f.images)
      && (s.saves[i].meta.Done? ==> s.saves[i].key in s.f.meta)
      && !Dropping(s, s.saves[i].key)
  }

  ghost predicate DropsHold(s: State) {
    forall d :: d in s.drops ==> s.drops[d] !in s.f.images
  }

  /** Every image without metadata belongs to a save in flight. */
  ghost predicate NoOrphanImage(s: State) {
    forall k :: k in s.f.images && k !in s.f.meta ==> ImageFirst(s, k)
  }

  ghost predicate Tidy(s: State) {
    PutsHold(s) && DropsHold(s) && NoOrphanImage(s)
  }

  lemma AddTidy(s: State, i: nat, k: Key, entry: Entry)
    requires Tidy(s) && i !in s.saves && Disjoint(s, Add(i, k, entry))
    ensures Tidy(ApplyAdd(s, i, k, entry))
  {
    var t := ApplyAdd(s, i, k, entry);
    assert !Dropping(t, k);
    forall x | x in t.f.images && x !in t.f.meta ensures ImageFirst(t, x) {
      assert ImageFirst(s, x);
      var j :| j in s.saves && s.saves[j].key == x && s.saves[j].image.Done? && s.saves[j].meta.Pending?;
      assert t.saves[j] == s.saves[j];
    }
    forall j | j in t.saves && InFlight(t.saves[j]) ensures !Dropping(t, t.saves[j].key) {
      if j != i {
        assert !Dropping(s, s.saves[j].key);
      }
    }
  }

  lemma PutImageTidy(s: State, i: nat)
    requires Tidy(s) && i in s.saves && s.saves[i].image.Pending?
    ensures Tidy(ApplyPutImage(s, i, true))
  {
    var t := ApplyPutImage(s, i, true);
    assert !Dropping(s, s.saves[i].key);
    forall x | x in t.f.images && x !in t.f.meta ensures ImageFirst(t, x) {
      if x == s.saves[i].key {
        assert t.saves[i].image.Done? && t.saves[i].meta.Pending?;
      } else {
        assert ImageFirst(s, x);
        var j :| j in s.saves && s.saves[j].key == x && s.saves[j].image.Done? && s.saves[j].meta.Pending?;
        assert t.saves[j] == s.saves[j];
      }
    }
    forall j | j in t.saves && InFlight(t.saves[j]) ensures !Dropping(t, t.saves[j].key) {
      assert !Dropping(s, s.saves[j].key);
    }
  }

  lemma PutMetaTidy(s: State, i: nat)
    requires Tidy(s) && i in s.saves && s.saves[i].meta.Pending?
    ensures Tidy(ApplyPutMeta(s, i, true))
  {
    var t := ApplyPutMeta(s, i, true);
    forall x | x in t.f.images && x !in t.f.meta ensures ImageFirst(t, x) {
      assert ImageFirst(s, x);
      var j :| j in s.saves && s.saves[j].key == x && s.saves[j].image.Done? && s.saves[j].meta.Pending?;
      assert t.saves[j] == s.saves[j];
    }
    forall j | j in t.saves && InFlight(t.saves[j]) ensures !Dropping(t, t.saves[j].key) {
      assert !Dropping(s, s.saves[j].key);
    }
  }

  lemma DelImageTidy(s: State, i: nat, k: Key, ok: bool)
    requires Tidy(s) && i !in s.drops && Disjoint(s, DelImage(i, k, ok))
    ensures Tidy(ApplyDelImage(s, i, k, ok))
  {
  }

  lemma DelMetaTidy(s: State, i: nat, ok: bool)
    requires Tidy(s) && i in s.drops
    ensures Tidy(ApplyDelMeta(s, i, ok))
  {
  }

  lemma SameStoreTidy(s: State, t: State)
    requires Tidy(s) && t.f == s.f && t.saves == s.saves && t.drops == s.drops
    ensures Tidy(t)
  {
  }

  lemma StepTidy(s: State, e: Event, t: State)
    requires Tidy(s) && Step(s, e, t) && Disjoint(s, e)
    ensures Tidy(t)
  {
    match e {
      case Add(i, k, entry) => AddTidy(s, i, k, entry);
      case PutImage(i, _) => PutImageTidy(s, i);
      case PutMeta(i, _) => PutMetaTidy(s, i);
      case DelImage(i, k, ok) => DelImageTidy(s, i, k, ok);
      case DelMeta(i, ok) => DelMetaTidy(s, i, ok);
      case _ => SameStoreTidy(s, t);
    }
  }

  /** In runs where writes and drops of one key do not overlap and puts do not fail, every image
      key without metadata is the key of a save in flight, even when deletes fail half way. */
  lemma {:induction false} OrphansAreInFlight(ss: seq<State>, es: seq<Event>, n: nat)
    requires Run(ss, es) && n <= |es| && ss[0].f.images.Keys <= ss[0].f.meta.Keys
    requires forall i :: 0 <= i < n ==> Disjoint(ss[i], es[i])
    ensures Tidy(ss[n])
    ensures forall k :: k in ss[n].f.images && k !in ss[n].f.meta ==>
      exists i :: i in ss[n].saves && ss[n].saves[i].key == k && InFlight(ss[n].saves[i])
  {
    if n > 0 {
      OrphansAreInFlight(ss, es, n - 1);
      assert Step(ss[n - 1], es[n - 1], ss[n]);
      StepTidy(ss[n - 1], es[n - 1], ss[n]);
    }
    forall k | k in ss[n].f.images && k !in ss[n].f.meta
      ensures exists i :: i in ss[n].saves && ss[n].saves[i].key == k && InFlight(ss[n].saves[i])
    {
      assert ImageFirst(ss[n], k);
    }
  }

  // ---------- at rest ----------

  /** Every metadata item without an image belongs to a save in flight or to a drop half done. */
  ghost predicate NoOrphanMeta(s: State) {
    forall k :: k in s.f.meta && k !in s.f.images ==> MetaFirst(s, k) || Dropping(s, k)
  }

  lemma OneSaveMeta(s: State, t: State, i: nat, k: Key)
    requires NoOrphanMeta(s) && t.drops == s.drops && t.saves.Keys == s.saves.Keys + {i}
    requires forall j :: j in s.saves && j != i ==> t.saves[j] == s.saves[j]
    requires i in s.saves ==> s.saves[i].key == k
    requires forall x :: x in t.f.meta && x !in t.f.images && x != k ==> x in s.f.meta && x !in s.f.images
    requires k in t.f.meta && k !in t.f.images ==> MetaFirst(t, k) || Dropping(t, k)
    ensures NoOrphanMeta(t)
  {
  }

  lemma AddMeta(s: State, i: nat, k: Key, entry: Entry)
    requires NoOrphanMeta(s) && i !in s.saves
    ensures NoOrphanMeta(ApplyAdd(s, i, k, entry))
  {
    var t := ApplyAdd(s, i, k, entry);
    if k in t.f.meta && k !in t.f.images {
      if MetaFirst(s, k) {
        var j :| j in s.saves && s.saves[j].key == k && s.saves[j].meta.Done? && s.saves[j].image.Pending?;
        assert t.saves[j] == s.saves[j];
      } else {
        assert Dropping(s, k);
      }
    }
    OneSaveMeta(s, t, i, k);
  }

  lemma PutMetaMeta(s: State, i: nat)
    requires Tidy(s) && NoOrphanMeta(s) && i in s.saves && s.saves[i].meta.Pending?
    ensures NoOrphanMeta(ApplyPutMeta(s, i, true))
  {
    var t := ApplyPutMeta(s, i, true);
    if s.saves[i].key !in t.f.images {
      assert t.saves[i].meta.Done? && t.saves[i].image.Pending?;
    }
    OneSaveMeta(s, t, i, s.saves[i].key);
  }

  lemma DropMeta(s: State, e: Event, t: State)
    requires NoOrphanMeta(s) && Step(s, e, t) && (e.DelImage? || (e.DelMeta? && e.ok))
    ensures NoOrphanMeta(t)
  {
    forall x | x in t.f.meta && x !in t.f.images ensures MetaFirst(t, x) || Dropping(t, x) {
      if e.DelImage? && e.ok && x == e.key {
        assert t.drops[e.id] == x;
      } else if MetaFirst(s, x) {
        assert t.saves == s.saves;
      } else {
        var d :| d in s.drops && s.drops[d] == x;
        assert d in t.drops && t.drops[d] == x;
      }
    }
  }

  lemma StepMeta(s: State, e: Event, t: State)
    requires Tidy(s) && NoOrphanMeta(s) && Step(s, e, t) && Disjoint(s, e)
    requires e.DelMeta? ==> e.ok
    ensures NoOrphanMeta(t)
  {
    match e {
      case Add(i, k, entry) => AddMeta(s, i, k, entry);
      case PutImage(i, _) => OneSaveMeta(s, t, i, s.saves[i].key);
      case PutMeta(i, _) => PutMetaMeta(s, i);
      case DelImage(_, _, _) => DropMeta(s, e, t);
      case DelMeta(_, _) => DropMeta(s, e, t);
      case _ =>
        forall x | x in t.f.meta && x !in t.f.images ensures MetaFirst(t, x) || Dropping(t, x) {
          assert MetaFirst(s, x) || Dropping(s, x);
        }
    }
  }

  lemma {:induction false} RunMeta(ss: seq<State>, es: seq<Event>, n: nat)
    requires Run(ss, es) && n <= |es| && ss[0].f.images.Keys == ss[0].f.meta.Keys
    requires forall i :: 0 <= i < n ==> Disjoint(ss[i], es[i]) && (es[i].DelMeta? ==> es[i].ok)
    ensures NoOrphanMeta(ss[n])
  {
    if n > 0 {
      RunMeta(ss, es, n - 1);
      OrphansAreInFlight(ss, es, n - 1);
      assert Step(ss[n - 1], es[n - 1], ss[n]);
      StepMeta(ss[n - 1], es[n - 1], ss[n]);
    }
  }

  ghost predicate AtRest(s: State) {
    s.drops == map[] && forall i :: i in s.saves ==> !InFlight(s.saves[i])
  }

  function ImageLens(images: map<Key, Buffer>): map<Key, nat> {
    map k | k in images :: |images[k]|
  }

  /** At rest, without failed puts and failed metadata deletes, both families hold the same keys. */
  lemma SameKeysAtRest(ss: seq<State>, es: seq<Event>, n: nat)
    requires Run(ss, es) && n <= |es| && ss[0].f.images.Keys == ss[0].f.meta.Keys
    requires forall i :: 0 <= i < n ==> Disjoint(ss[i], es[i]) && (es[i].DelMeta? ==> es[i].ok)
    requires AtRest(ss[n])
    ensures ss[n].f.images.Keys == ss[n].f.meta.Keys
  {
    RunMeta(ss, es, n);
    OrphansAreInFlight(ss, es, n);
    assert forall k :: !MetaFirst(ss[n], k) && !Dropping(ss[n], k) && !ImageFirst(ss[n], k);
  }

  // ---------- lengths ----------

  /** Saves of one key that overlap are of the same length. */
  ghost predicate SameLength(s: State, e: Event) {
    e.Add? ==>
      && e.entry.bytesLen == |e.entry.bytes|
      && forall i :: i in s.saves && s.saves[i].key == e.key && InFlight(s.saves[i]) ==>
        s.saves[i].entry.bytesLen == e.entry.bytesLen
  }

  /** What a save in flight has put has its length. */
  ghost predicate PutsFit(f: Families, o: SaveOp) {
    && o.entry.bytesLen == |o.entry.bytes|
    && (o.image.Done? ==> o.key in f.images && |f.images[o.key]| == o.entry.bytesLen)
    && (o.meta.Done? ==> o.key in f.meta && LenOf(f.meta[o.key]) == o.entry.bytesLen)
  }

  ghost predicate LengthsHold(s: State) {
    && (forall i :: i in s.saves && InFlight(s.saves[i]) ==> PutsFit(s.f, s.saves[i]))
    && (forall i, j :: i in s.saves && j in s.saves && InFlight(s.saves[i]) && InFlight(s.saves[j]) ==>
        s.saves[i].key == s.saves[j].key ==> s.saves[i].entry.bytesLen == s.saves[j].entry.bytesLen)
    && (forall k :: k in s.f.images && k in s.f.meta && LenOf(s.f.meta[k]) != |s.f.images[k]| ==>
        ImageFirst(s, k) || MetaFirst(s, k))
  }

  /** A save half done stays half done when another one is touched. */
  lemma HalfDoneStays(s: State, t: State, i: nat, k: Key)
    requires forall j :: j in s.saves && j != i ==> j in t.saves && t.saves[j] == s.saves[j]
    requires i in s.saves ==> s.saves[i].key != k
    requires ImageFirst(s, k) || MetaFirst(s, k)
    ensures ImageFirst(t, k) || MetaFirst(t, k)
  {
    var j :| j in s.saves && s.saves[j].key == k &&
      ((s.saves[j].image.Done? && s.saves[j].meta.Pending?) || (s.saves[j].meta.Done? && s.saves[j].image.Pending?));
    assert t.saves[j] == s.saves[j];
  }

  lemma AddLengths(s: State, i: nat, k: Key, entry: Entry)
    requires LengthsHold(s) && i !in s.saves && SameLength(s, Add(i, k, entry))
    ensures LengthsHold(ApplyAdd(s, i, k, entry))
  {
    var t := ApplyAdd(s, i, k, entry);
    forall x | x in t.f.images && x in t.f.meta && LenOf(t.f.meta[x]) != |t.f.images[x]|
      ensures ImageFirst(t, x) || MetaFirst(t, x)
    {
      HalfDoneStays(s, t, i, x);
    }
  }

  /** A put of save `i` that leaves what it wrote, and nothing else, of the save's length. */
  lemma PutLengths(s: State, t: State, i: nat)
    requires LengthsHold(s) && i in s.saves && InFlight(s.saves[i])
    requires t.saves.Keys == s.saves.Keys && forall j :: j in s.saves && j != i ==> t.saves[j] == s.saves[j]
    requires var o, o' := s.saves[i], t.saves[i];
      && o'.key == o.key && o'.entry == o.entry && PutsFit(t.f, o')
      && (InFlight(o') ==> (o'.image.Done? && o'.meta.Pending?) || (o'.meta.Done? && o'.image.Pending?))
      && (!InFlight(o') ==> o'.image.Done? && o'.meta.Done?)
      && (o.image.Done? ==> o'.image.Done?) && (o.meta.Done? ==> o'.meta.Done?)
    requires var k := s.saves[i].key;
      && (forall x :: x != k ==> (x in t.f.images <==> x in s.f.images) && (x in t.f.meta <==> x in s.f.meta))
      && (forall x :: x != k && x in s.f.images ==> t.f.images[x] == s.f.images[x])
      && (forall x :: x != k && x in s.f.meta ==> t.f.meta[x] == s.f.meta[x])
      && (t.f.images == s.f.images || t.saves[i].image.Done?)
      && (t.f.meta == s.f.meta || t.saves[i].meta.Done?)
    ensures LengthsHold(t)
  {
    forall j | j in t.saves && InFlight(t.saves[j]) ensures PutsFit(t.f, t.saves[j]) {
      if j != i {
        assert PutsFit(s.f, s.saves[j]);
      }
    }
    forall x | x in t.f.images && x in t.f.meta && LenOf(t.f.meta[x]) != |t.f.images[x]|
      ensures ImageFirst(t, x) || MetaFirst(t, x)
    {
      if x == s.saves[i].key {
        assert InFlight(t.saves[i]);
      } else {
        HalfDoneStays(s, t, i, x);
      }
    }
  }

  lemma PutImageLengths(s: State, i: nat)
    requires Tidy(s) && LengthsHold(s) && i in s.saves && s.saves[i].image.Pending?
    ensures LengthsHold(ApplyPutImage(s, i, true))
  {
    assert PutsFit(s.f, s.saves[i]);
    PutLengths(s, ApplyPutImage(s, i, true), i);
  }

  lemma PutMetaLengths(s: State, i: nat)
    requires Tidy(s) && LengthsHold(s) && i in s.saves && s.saves[i].meta.Pending?
    ensures LengthsHold(ApplyPutMeta(s, i, true))
  {
    assert PutsFit(s.f, s.saves[i]);
    EncodedLen(s.saves[i].entry);
    PutLengths(s, ApplyPutMeta(s, i, true), i);
  }

  /** Other steps only remove records, and none of a key with a save in flight. */
  lemma OtherLengths(s: State, t: State)
    requires LengthsHold(s) && t.saves == s.saves
    requires t.f.images.Keys <= s.f.images.Keys && t.f.meta.Keys <= s.f.meta.Keys
    requires forall k :: k in t.f.images ==> t.f.images[k] == s.f.images[k]
    requires forall k :: k in t.f.meta ==> t.f.meta[k] == s.f.meta[k]
    requires forall i :: i in s.saves && InFlight(s.saves[i]) ==>
      (s.saves[i].key in s.f.images ==> s.saves[i].key in t.f.images)
      && (s.saves[i].key in s.f.meta ==> s.saves[i].key in t.f.meta)
    ensures LengthsHold(t)
  {
    forall i | i in t.saves && InFlight(t.saves[i]) ensures PutsFit(t.f, t.saves[i]) {
      assert PutsFit(s.f, s.saves[i]);
    }
    forall k | k in t.f.images && k in t.f.meta && LenOf(t.f.meta[k]) != |t.f.images[k]|
      ensures ImageFirst(t, k) || MetaFirst(t, k)
    {
      assert ImageFirst(s, k) || MetaFirst(s, k);
    }
  }

  lemma DropLengths(s: State, e: Event, t: State)
    requires Tidy(s) && LengthsHold(s) && Step(s, e, t) && Disjoint(s, e) && (e.DelImage? || e.DelMeta?)
    ensures LengthsHold(t)
  {
    forall i | i in s.saves && InFlight(s.saves[i])
      ensures s.saves[i].key in s.f.images ==> s.saves[i].key in t.f.images
      ensures s.saves[i].key in s.f.meta ==> s.saves[i].key in t.f.meta
    {
      assert !Dropping(s, s.saves[i].key);
    }
    OtherLengths(s, t);
  }

  lemma StepLengths(s: State, e: Event, t: State)
    requires Tidy(s) && LengthsHold(s) && Step(s, e, t) && Disjoint(s, e) && SameLength(s, e)
    ensures LengthsHold(t)
  {
    match e {
      case Add(i, k, entry) => AddLengths(s, i, k, entry);
      case PutImage(i, _) => PutImageLengths(s, i);
      case PutMeta(i, _) => PutMetaLengths(s, i);
      case DelImage(_, _, _) => DropLengths(s, e, t);
      case DelMeta(_, _) => DropLengths(s, e, t);
      case _ => OtherLengths(s, t);
    }
  }

  /** In both families or not, a key that is in both has one length. */
  ghost predicate LengthsAgree(f: Families) {
    forall k :: k in f.images && k in f.meta ==> LenOf(f.meta[k]) == |f.images[k]|
  }

  lemma {:induction false} RunLengths(ss: seq<State>, es: seq<Event>, n: nat)
    requires Run(ss, es) && n <= |es| && ss[0].f.images.Keys == ss[0].f.meta.Keys && LengthsAgree(ss[0].f)
    requires forall i :: 0 <= i < n ==> Disjoint(ss[i], es[i]) && SameLength(ss[i], es[i])
    ensures LengthsHold(ss[n])
  {
    if n > 0 {
      RunLengths(ss, es, n - 1);
      OrphansAreInFlight(ss, es, n - 1);
      assert Step(ss[n - 1], es[n - 1], ss[n]);
      StepLengths(ss[n - 1], es[n - 1], ss[n]);
    }
  }

  /** At rest the images hold exactly as many bytes as the metadata says, whatever saves overwrote
      each other, as long as saves of one key that overlapped were of the same length. */
  lemma SameBytesAtRest(ss: seq<State>, es: seq<Event>, n: nat)
    requires Run(ss, es) && n <= |es| && ss[0].f.images.Keys == ss[0].f.meta.Keys && LengthsAgree(ss[0].f)
    requires forall i :: 0 <= i < n ==> Disjoint(ss[i], es[i]) && (es[i].DelMeta? ==> es[i].ok)
    requires forall i :: 0 <= i < n ==> SameLength(ss[i], es[i])
    requires AtRest(ss[n])
    ensures LengthsAgree(ss[n].f)
    ensures Total(ImageLens(ss[n].f.images)) == MetaSum(ss[n].f.meta)
  {
    SameKeysAtRest(ss, es, n);
    RunLengths(ss, es, n);
    assert forall k :: !MetaFirst(ss[n], k) && !ImageFirst(ss[n], k);
    LengthsAddUp(ss[n].f);
  }

  lemma LengthsAddUp(f: Families)
    requires LengthsAgree(f) && f.images.Keys == f.meta.Keys
    ensures Total(ImageLens(f.images)) == MetaSum(f.meta)
  {
    var undecodable := f.images.Keys - CatalogOf(f.meta).Keys;
    DropZeros(ImageLens(f.images), undecodable);
    assert ImageLens(f.images) - undecodable == Lens(CatalogOf(f.meta));
  }

  /** In particular when all saves of a key carry the same image, however they overlap. */
  lemma SameImageSameBytes(sha: Hash, c: Content, ss: seq<State>, es: seq<Event>, n: nat)
    requires Run(ss, es) && n <= |es| && ss[0].f.images.Keys == ss[0].f.meta.Keys
    requires Good(sha, c, ss[0].f)
    requires forall i :: 0 <= i < n ==> Disjoint(ss[i], es[i]) && (es[i].DelMeta? ==> es[i].ok)
    requires forall i :: 0 <= i < n ==> SameContent(sha, c, es[i])
    requires AtRest(ss[n])
    ensures Total(ImageLens(ss[n].f.images)) == MetaSum(ss[n].f.meta)
  {
    forall i | 0 <= i < n ensures SameLength(ss[i], es[i]) {
      RunCoherent(sha, c, ss, es, i);
      SameImageSameLength(sha, c, ss[i], es[i]);
    }
    SameBytesAtRest(ss, es, n);
  }

  lemma SameImageSameLength(sha: Hash, c: Content, s: State, e: Event)
    requires Coherent(sha, c, s) && SameContent(sha, c, e)
    ensures SameLength(s, e)
  {
    if e.Add? {
      forall i | i in s.saves && s.saves[i].key == e.key ensures s.saves[i].entry.bytesLen == e.entry.bytesLen {
        assert GoodSave(sha, c, s.saves[i]);
      }
    }
  }
}
