/** The account of all requests: every counter of the service, driven by any interleaving of
    requests that run to their end. */
module Requests {
  import opened Codec
  import opened MissStream

  // ---------- the gate ----------

  datatype Gate = BadArchive | BadToken | NoToken | Admitted(key: ImageKey)

  /** The token of a path: none, one that verifies, or one that does not. */
  datatype Token = Absent | Valid | Invalid

  // ---------- the retries ----------

  /** How an attempt to reach the upstream ends. */
  datatype Reply = Unanswered | Status(code: nat)

  /** Polls the upstream until an attempt is answered or `retry` attempts were made; `attempts` tells
      how each attempt would end. */
  method StartPollUpstreamRetry(attempts: nat -> Reply, retry: nat) returns (res: Reply, count: nat)
    ensures 0 < count <= if retry == 0 then 1 else retry
    ensures res == attempts(count - 1)
    ensures forall i :: 0 <= i < count - 1 ==> attempts(i).Unanswered?
    ensures res.Unanswered? ==> count >= retry
  {
    count := 0;
    while true
      invariant count == 0 || count < retry
      invariant forall i :: 0 <= i < count ==> attempts(i).Unanswered?
      decreases retry - count
    {
      res := attempts(count);
      count := count + 1;
      if res.Status? || count >= retry {
        return;
      }
    }
  }

  // ---------- all requests together ----------

  datatype Phase = Loading | Fetching | Open(agg: Agg)

  datatype State = State(
    requests: nat, dropped: nat, hits: nat, misses: nat, failed: nat, notFound: nat,
    up: nat, down: nat, cached: nat, live: map<nat, Phase>)

  datatype Event =
    | Arrive(id: nat, gate: Gate)
    | Hit(id: nat, len: nat, browserCached: bool)
    | Miss(id: nat)
    | Answered(id: nat, reply: Reply)
    | Poll(id: nat, item: Upstream)
    | DropStream(id: nat)

  const START := State(0, 0, 0, 0, 0, 0, 0, 0, 0, map[])

  predicate Enabled(s: State, e: Event) {
    match e
    case Arrive(i, _) => i !in s.live
    case Hit(i, _, _) => i in s.live && s.live[i].Loading?
    case Miss(i) => i in s.live && s.live[i].Loading?
    case Answered(i, _) => i in s.live && s.live[i].Fetching?
    case Poll(i, _) => i in s.live && s.live[i].Open?
    case DropStream(i) => i in s.live && s.live[i].Open?
  }

  function ApplyAnswer(s: State, i: nat, reply: Reply): State {
    match reply
    case Unanswered => s.(failed := s.failed + 1, live := s.live - {i})
    case Status(code) =>
      if code == 200 then s.(live := s.live[i := Open(Stable([]))])
      else if code == 404 then s.(notFound := s.notFound + 1, live := s.live - {i})
      else s.(failed := s.failed + 1, live := s.live - {i})
  }

  function ApplySettle(s: State, i: nat, d: Settlement): State {
    s.(misses := s.misses + d.misses, failed := s.failed + d.failed, up := s.up + d.bytes,
       down := s.down + d.bytes, cached := s.cached + d.bytes, live := s.live - {i})
  }

  function Apply(s: State, e: Event): State
    requires Enabled(s, e)
  {
    match e
    case Arrive(i, gate) =>
      if gate.Admitted? then s.(requests := s.requests + 1, live := s.live[i := Loading])
      else s.(dropped := s.dropped + 1)
    case Hit(i, len, browserCached) =>
      s.(hits := s.hits + 1, up := if browserCached then s.up else s.up + len, live := s.live - {i})
    case Miss(i) => s.(live := s.live[i := Fetching])
    case Answered(i, reply) => ApplyAnswer(s, i, reply)
    case Poll(i, item) => s.(live := s.live[i := Open(Polled(s.live[i].agg, item))])
    case DropStream(i) => ApplySettle(s, i, SettlementOf(s.live[i].agg))
  }

  /** Every admitted request is in exactly one place. */
  ghost predicate Conserved(s: State) {
    && s.requests == s.hits + s.misses + s.failed + s.notFound + |s.live|
    && s.down == s.cached <= s.up
    && forall i :: i in s.live && s.live[i].Open? ==> !s.live[i].agg.Taken?
  }

  ghost predicate Step(s: State, e: Event, t: State) {
    Enabled(s, e) && t == Apply(s, e)
  }

  ghost predicate Run(ss: seq<State>, es: seq<Event>) {
    && |ss| == |es| + 1 && ss[0] == START
    && forall i :: 0 <= i < |es| ==> Step(ss[i], es[i], ss[i + 1])
  }

  lemma Sizes<K, V>(m: map<K, V>, k: K, v: V)
    ensures k in m ==> |m - {k}| == |m| - 1 && |m[k := v]| == |m|
    ensures k !in m ==> |m[k := v]| == |m| + 1
  {
  }

  lemma StepConserves(s: State, e: Event, t: State)
    requires Conserved(s) && Step(s, e, t)
    ensures Conserved(t)
  {
    Sizes(s.live, e.id, Loading);
    Sizes(s.live, e.id, Fetching);
    match e {
      case Answered(i, _) => Sizes(s.live, i, Open(Stable([])));
      case Poll(i, item) => Sizes(s.live, i, Open(Polled(s.live[i].agg, item)));
      case _ =>
    }
  }

  /** In every reachable state the admitted requests are the hits, the misses, the failures, the
      404 replies of the upstream and the requests still open, and the bytes downloaded are those
      handed to the cache, at most the bytes uploaded. */
  lemma {:induction false} RequestsAreConserved(ss: seq<State>, es: seq<Event>, n: nat)
    requires Run(ss, es) && n <= |es|
    ensures Conserved(ss[n])
    ensures var s := ss[n];
      s.requests == s.hits + s.misses + s.failed + s.notFound + |s.live| && s.down == s.cached <= s.up
  {
    if n > 0 {
      RequestsAreConserved(ss, es, n - 1);
      StepConserves(ss[n - 1], es[n - 1], ss[n]);
    }
  }

  // ---------- what each counter counts ----------

  /** The events of a run that meet a condition. */
  ghost function Count(es: seq<Event>, p: Event -> bool): nat {
    if es == [] then 0 else Count(es[..|es| - 1], p) + if p(es[|es| - 1]) then 1 else 0
  }

  /** The bytes of the hits that were sent to their clients. */
  function SentBytes(es: seq<Event>): nat {
    if es == [] then 0
    else
      var e := es[|es| - 1];
      SentBytes(es[..|es| - 1]) + if e.Hit? && !e.browserCached then e.len else 0
  }

  /** Every counter is the number of events it stands for: requests those admitted and dropped those
      turned away, 404 replies the misses answered with 404, failures and misses the other answers
      but 200 and the streams dropped; the bytes uploaded are those of hits sent and of streams
      saved. */
  lemma {:induction false} CountersCount(ss: seq<State>, es: seq<Event>, n: nat)
    requires Run(ss, es) && n <= |es|
    ensures ss[n].requests == Count(es[..n], (e: Event) => e.Arrive? && e.gate.Admitted?)
    ensures ss[n].dropped == Count(es[..n], (e: Event) => e.Arrive? && !e.gate.Admitted?)
    ensures ss[n].hits == Count(es[..n], (e: Event) => e.Hit?)
    ensures ss[n].notFound == Count(es[..n], (e: Event) => e.Answered? && e.reply == Status(404))
    ensures ss[n].misses + ss[n].failed == Count(es[..n], (e: Event) => e.DropStream?)
      + Count(es[..n], (e: Event) => e.Answered? && e.reply != Status(200) && e.reply != Status(404))
    ensures ss[n].up == ss[n].down + SentBytes(es[..n])
  {
    if n > 0 {
      CountersCount(ss, es, n - 1);
      RequestsAreConserved(ss, es, n - 1);
      assert es[..n][..n - 1] == es[..n - 1];
      StepCounts(ss[n - 1], es[n - 1], ss[n]);
    }
  }

  lemma StepCounts(s: State, e: Event, t: State)
    requires Conserved(s) && Step(s, e, t)
    ensures t.requests == s.requests + if e.Arrive? && e.gate.Admitted? then 1 else 0
    ensures t.dropped == s.dropped + if e.Arrive? && !e.gate.Admitted? then 1 else 0
    ensures t.hits == s.hits + if e.Hit? then 1 else 0
    ensures t.notFound == s.notFound + if e.Answered? && e.reply == Status(404) then 1 else 0
    ensures t.misses + t.failed == s.misses + s.failed + (if e.DropStream? then 1 else 0)
      + if e.Answered? && e.reply != Status(200) && e.reply != Status(404) then 1 else 0
    ensures t.up - t.down == s.up - s.down + if e.Hit? && !e.browserCached then e.len else 0
  {
  }

  // ---------- what each stream saw ----------

  /** What request `i` has polled from its upstream since it was last answered. */
  function Polls(es: seq<Event>, i: nat): seq<Upstream> {
    if es == [] then []
    else
      var e, before := es[|es| - 1], Polls(es[..|es| - 1], i);
      if e.Answered? && e.id == i then [] else if e.Poll? && e.id == i then before + [e.item] else before
  }

  /** An open stream has aggregated its trace. */
  lemma {:induction false} OpenStreamIsTrace(ss: seq<State>, es: seq<Event>, n: nat, i: nat)
    requires Run(ss, es) && n <= |es| && i in ss[n].live && ss[n].live[i].Open?
    ensures ss[n].live[i].agg == PolledAll(Stable([]), Polls(es[..n], i))
  {
    if n > 0 {
      assert es[..n][..n - 1] == es[..n - 1];
      if i in ss[n - 1].live && ss[n - 1].live[i].Open? {
        OpenStreamIsTrace(ss, es, n - 1, i);
      }
      OpenStep(ss[n - 1], es[n - 1], ss[n], es[..n], i);
    }
  }

  lemma OpenStep(s: State, e: Event, t: State, es: seq<Event>, i: nat)
    requires Step(s, e, t) && es != [] && es[|es| - 1] == e && i in t.live && t.live[i].Open?
    requires var before := Polls(es[..|es| - 1], i);
      i in s.live && s.live[i].Open? ==> s.live[i].agg == PolledAll(Stable([]), before)
    ensures t.live[i].agg == PolledAll(Stable([]), Polls(es, i))
  {
    if e.Poll? && e.id == i {
      PolledMore(Stable([]), Polls(es[..|es| - 1], i), e.item);
    } else if e.id == i {
      assert e.Answered?;
    } else {
      assert t.live[i] == s.live[i];
    }
  }

  /** Each open stream settles into exactly one of miss or failed when dropped: a miss with all bytes
      its client received if no error was polled since the upstream answered, else a failure. */
  lemma StreamSettlesOnce(ss: seq<State>, es: seq<Event>, n: nat, i: nat)
    requires Run(ss, es) && n < |es| && es[n] == DropStream(i)
    ensures i !in ss[n + 1].live
    ensures var s, t, polls := ss[n], ss[n + 1], Polls(es[..n], i);
      if BrokenIn(polls) then
        t.misses == s.misses && t.failed == s.failed + 1 && t.up == s.up && t.down == s.down
      else
        && t.misses == s.misses + 1 && t.failed == s.failed
        && t.up == s.up + |Received(Items(polls))| && t.down == s.down + |Received(Items(polls))|
  {
    assert Step(ss[n], es[n], ss[n + 1]);
    OpenStreamIsTrace(ss, es, n, i);
    AfterTrace(Polls(es[..n], i));
    ReceivedIsChunks(Polls(es[..n], i));
  }

  // ---------- the objects ----------

  function SavedTotal(saves: seq<(ImageKey, Bytes)>): nat {
    if saves == [] then 0 else SavedTotal(saves[..|saves| - 1]) + |saves[|saves| - 1].1|
  }

  lemma SavedMore(saves: seq<(ImageKey, Bytes)>, key: ImageKey, bytes: Bytes)
    ensures SavedTotal(saves + [(key, bytes)]) == SavedTotal(saves) + |bytes|
  {
    assert (saves + [(key, bytes)])[..|saves|] == saves;
  }

  /** The counters, and the saves asked of the cache. The upstream's 404 replies and the requests
      still open have no counter of their own. */
  class GlobalState {
    var requests: nat
    var dropped: nat
    var hits: nat
    var misses: nat
    var failed: nat
    var bytesUp: nat
    var bytesDown: nat
    var saves: seq<(ImageKey, Bytes)>
    ghost var notFound: nat
    ghost var live: map<nat, Phase>

    ghost function Account(): State
      reads this
    {
      State(requests, dropped, hits, misses, failed, notFound, bytesUp, bytesDown, SavedTotal(saves), live)
    }

    constructor ()
      ensures Account() == START && saves == []
    {
      requests, dropped, hits, misses, failed, bytesUp, bytesDown := 0, 0, 0, 0, 0, 0, 0;
      saves, notFound, live := [], 0, map[];
    }
  }

  lemma GivenMore(given: seq<Item>, item: Item)
    ensures Received(given + [item]) == Received(given) + if item.Data? then item.bytes else []
    ensures BadGateway in given + [item] <==> BadGateway in given || item == BadGateway
  {
    assert (given + [item])[..|given|] == given;
  }

  /** The stream of request `id`, from the reply of the upstream until it is dropped. */
  class ChunkedUpstreamPoll {
    const agg: BytesAgg
    const gs: GlobalState
    const key: ImageKey
    ghost const id: nat
    ghost var given: seq<Item>

    /** `given` is what the client was given so far: what is aggregated is what it received, unless
        it saw a failure. */
    ghost predicate Valid()
      reads this, agg, gs
    {
      && id in gs.live && gs.live[id] == Open(agg.state)
      && agg.state == if BadGateway in given then Poisoned else Stable(Received(given))
    }

    constructor (gs: GlobalState, key: ImageKey, ghost id: nat)
      ensures this.gs == gs && this.key == key && this.id == id
      ensures fresh(agg) && agg.state == Stable([]) && given == []
    {
      this.gs, this.key, this.id, this.given := gs, key, id, [];
      agg := new BytesAgg();
    }

    method PollNext(e: Upstream) returns (item: Item)
      requires Valid()
      modifies this, agg, gs`live
      ensures Valid() && given == old(given) + [item]
      ensures e.Chunk? ==> item == Data(e.bytes)
      ensures e.Broken? ==> item == BadGateway
      ensures e.End? ==> item == Finished
      ensures e.NotReady? ==> item == Waiting
      ensures agg.state == Polled(old(agg.state), e)
      ensures gs.Account() == Apply(old(gs.Account()), Poll(id, e))
    {
      match e {
        case Chunk(bytes) =>
          var _ := agg.Put(bytes);
          item := Data(bytes);
        case Broken =>
          agg.Poison();
          item := BadGateway;
        case End =>
          var _ := agg.Len();
          item := Finished;
        case NotReady =>
          item := Waiting;
      }
      GivenMore(given, item);
      given := given + [item];
      gs.live := gs.live[id := Open(agg.state)];
    }

    /** Saves what the client received, and counts a miss and these bytes; a stream in which the client
        saw a failure counts as a failed request. */
    method Drop()
      requires Valid()
      modifies agg, gs
      ensures agg.state == if old(agg.state).Stable? then Taken else old(agg.state)
      ensures gs.saves == old(gs.saves) + if BadGateway in given then [] else [(key, Received(given))]
      ensures BadGateway in given ==>
        && gs.failed == old(gs.failed) + 1 && gs.misses == old(gs.misses)
        && gs.bytesUp == old(gs.bytesUp) && gs.bytesDown == old(gs.bytesDown)
      ensures BadGateway !in given ==>
        && gs.failed == old(gs.failed) && gs.misses == old(gs.misses) + 1
        && gs.bytesUp == old(gs.bytesUp) + |Received(given)| && gs.bytesDown == old(gs.bytesDown) + |Received(given)|
      ensures gs.Account() == Apply(old(gs.Account()), DropStream(id))
    {
      gs.live := gs.live - {id};
      var taken, bytes := agg.Take();
      if !taken {
        if agg.state.Poisoned? {
          gs.failed := gs.failed + 1;
        }
        return;
      }
      SavedMore(gs.saves, key, bytes);
      gs.saves := gs.saves + [(key, bytes)];
      gs.misses := gs.misses + 1;
      gs.bytesUp := gs.bytesUp + |bytes|;
      gs.bytesDown := gs.bytesDown + |bytes|;
    }
  }

  // ---------- the handlers ----------

  /** The gate of a request: archive type first, then the token unless tokens are skipped. Only a
      request that passes is counted. */
  method MdService(
    gs: GlobalState, ghost id: nat, archive: string, chapter: Text, image: Text, skipTokens: bool, token: Token)
    returns (gate: Gate)
    requires id !in gs.live
    modifies gs
    ensures gs.Account() == Apply(old(gs.Account()), Arrive(id, gate)) && gs.saves == old(gs.saves)
    ensures gate.Admitted? <==> archive in {"data", "data-saver"} && (skipTokens || token.Valid?)
    ensures gate.Admitted? ==> gate.key == ImageKey(chapter, image, archive == "data-saver")
    ensures gate.BadArchive? <==> archive !in {"data", "data-saver"}
    ensures gate.NoToken? ==> token.Absent?
    ensures gate.BadToken? ==> token.Invalid?
    ensures gs.requests == old(gs.requests) + if gate.Admitted? then 1 else 0
    ensures gs.dropped == old(gs.dropped) + if gate.Admitted? then 0 else 1
  {
    if archive != "data" && archive != "data-saver" {
      gs.dropped := gs.dropped + 1;
      return BadArchive;
    }
    var saver := archive == "data-saver";
    if !skipTokens {
      match token {
        case Valid =>
        case Invalid =>
          gs.dropped := gs.dropped + 1;
          return BadToken;
        case Absent =>
          gs.dropped := gs.dropped + 1;
          return NoToken;
      }
    }
    gs.requests := gs.requests + 1;
    gs.live := gs.live[id := Loading];
    return Admitted(ImageKey(chapter, image, saver));
  }

  /** A hit: the bytes go to the client, and are counted, unless it has them already. */
  method HandleCacheHit(gs: GlobalState, ghost id: nat, bytes: Bytes, browserCached: bool) returns (body: Bytes)
    requires Enabled(gs.Account(), Hit(id, |bytes|, browserCached))
    modifies gs
    ensures gs.Account() == Apply(old(gs.Account()), Hit(id, |bytes|, browserCached)) && gs.saves == old(gs.saves)
    ensures body == if browserCached then [] else bytes
    ensures gs.hits == old(gs.hits) + 1 && gs.bytesUp == old(gs.bytesUp) + |body| && gs.bytesDown == old(gs.bytesDown)
  {
    body := [];
    if !browserCached {
      body := bytes;
      gs.bytesUp := gs.bytesUp + |bytes|;
    }
    gs.hits := gs.hits + 1;
    gs.live := gs.live - {id};
  }

  /** A miss: three attempts to reach the upstream, then its status. The reply is the first attempt
      that was answered, or the third when none was. */
  method HandleCacheMiss(gs: GlobalState, ghost id: nat, key: ImageKey, attempts: nat -> Reply)
    returns (reply: Reply, stream: ChunkedUpstreamPoll?)
    requires Enabled(gs.Account(), Miss(id))
    modifies gs
    ensures reply ==
            if attempts(0).Status? then attempts(0)
            else if attempts(1).Status? then attempts(1)
            else attempts(2)
    ensures gs.Account() == Apply(Apply(old(gs.Account()), Miss(id)), Answered(id, reply)) && gs.saves == old(gs.saves)
    ensures stream != null <==> reply == Status(200)
    ensures stream != null ==>
      && fresh(stream) && fresh(stream.agg) && stream.gs == gs && stream.key == key && stream.id == id
      && stream.Valid() && stream.given == []
    ensures gs.notFound == old(gs.notFound) + if reply == Status(404) then 1 else 0
    ensures gs.failed == old(gs.failed) + if reply != Status(200) && reply != Status(404) then 1 else 0
    ensures gs.misses == old(gs.misses) && gs.bytesUp == old(gs.bytesUp) && gs.bytesDown == old(gs.bytesDown)
  {
    var count;
    reply, count := StartPollUpstreamRetry(attempts, 3);
    stream := null;
    match reply {
      case Unanswered =>
        gs.failed := gs.failed + 1;
      case Status(code) =>
        if code == 200 {
          stream := new ChunkedUpstreamPoll(gs, key, id);
          gs.live := gs.live[id := Open(Stable([]))];
          return;
        }
        if code == 404 {
          gs.notFound := gs.notFound + 1;
        } else {
          gs.failed := gs.failed + 1;
        }
    }
    gs.live := gs.live - {id};
  }
}
