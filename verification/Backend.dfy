/** What the client keeps of its pings: the certificate, the token key and the verifier, and the
    certificate it serves. The replies of the API are arbitrary. */
module Backend {
  import opened Machine

  type Key = seq<byte>

  datatype Tls = Tls(createdAt: string, privateKey: string, certificate: string)

  /** A reply that could be read; the two flags tell whether its URLs parse. */
  datatype PingResponse = PingResponse(tokenKey: string, tls: Option<Tls>, imageServerParses: bool, urlParses: bool)

  datatype PingStore = PingStore(tls: Tls, tokenKey: string)

  /** `decode` is base64 decoding and key parsing in one. */
  type Decoder = string -> Option<Key>

  datatype Client = Client(info: Option<PingStore>, verifier: Option<Key>, served: Option<Tls>)

  /** How a turn with a ping ends: an error that is logged, a panic, or the certificate of the
      reply. */
  datatype Outcome = PingFailed | Panicked | Pinged(crt: Option<Tls>)

  /** The state as it was, what a reply makes of the ping info, and whether it panics first. */
  function TlsOf(c: Client, r: PingResponse): Option<Tls> {
    if r.tls.Some? then r.tls else if c.info.Some? then Some(c.info.value.tls) else None
  }

  predicate Panics(c: Client, r: PingResponse) {
    TlsOf(c, r).None? || !r.imageServerParses || !r.urlParses
  }

  predicate NewKey(c: Client, r: PingResponse) {
    c.info.None? || c.info.value.tokenKey != r.tokenKey
  }

  /** Everything a ping needs to reach the server with its certificate. */
  predicate Applies(d: Decoder, c: Client, r: PingResponse) {
    !NewKey(c, r) || d(r.tokenKey).Some?
  }

  /** `None` stands for a request that failed. */
  function Ping(d: Decoder, c: Client, reply: Option<PingResponse>): (Client, Outcome) {
    match reply
    case None => (c, PingFailed)
    case Some(r) =>
      if Panics(c, r) then (c, Panicked)
      else
        var c1 := c.(info := Some(PingStore(TlsOf(c, r).value, r.tokenKey)));
        if !NewKey(c, r) then (c1, Pinged(r.tls))
        else match d(r.tokenKey)
          case None => (c1, PingFailed)
          case Some(k) => (c1.(verifier := Some(k)), Pinged(r.tls))
  }

  /** One turn of the main loop; a new certificate respawns the server, and a failed respawn
      panics. */
  function Turn(d: Decoder, c: Client, reply: Option<PingResponse>, respawns: bool): (Client, bool) {
    var (c1, out) := Ping(d, c, reply);
    match out
    case Panicked => (c1, false)
    case PingFailed => (c1, true)
    case Pinged(None) => (c1, true)
    case Pinged(Some(crt)) => if respawns then (c1.(served := Some(crt)), true) else (c1, false)
  }

  /** The first ping, before the loop: anything but a certificate and a good key panics. */
  function Boot(d: Decoder, r: PingResponse): Option<Client> {
    var (c, out) := Ping(d, Client(None, None, None), Some(r));
    if out.Pinged? && out.crt.Some? then Some(c.(served := out.crt)) else None
  }

  function NextCreatedAt(c: Client): Option<string> {
    if c.info.Some? then Some(c.info.value.tls.createdAt) else None
  }

  /** The first ping succeeds exactly when it brings a certificate, both URLs parse and the key
      decodes; the client then holds and serves what it brought. */
  lemma BootsIff(d: Decoder, r: PingResponse)
    ensures Boot(d, r).Some? <==> r.tls.Some? && r.imageServerParses && r.urlParses && d(r.tokenKey).Some?
    ensures Boot(d, r).Some? ==>
      Boot(d, r).value == Client(Some(PingStore(r.tls.value, r.tokenKey)), d(r.tokenKey), r.tls)
  {
  }

  /** Once booted, a turn ends the client exactly when the reply has a URL that does not parse, or
      brings a certificate, with a key that is not new or decodes, and the server fails to respawn. */
  lemma TurnEndsIff(d: Decoder, c: Client, reply: Option<PingResponse>, respawns: bool)
    requires c.info.Some?
    ensures reply.None? ==> Turn(d, c, reply, respawns).1
    ensures reply.Some? ==>
      var r := reply.value;
      !Turn(d, c, reply, respawns).1 <==>
      (!r.imageServerParses || !r.urlParses
       || (!respawns && r.tls.Some? && (r.tokenKey == c.info.value.tokenKey || d(r.tokenKey).Some?)))
  {
  }

  // ---------- runs ----------

  /** A run that did not panic. */
  ghost predicate Run(d: Decoder, first: PingResponse, cs: seq<Client>, rs: seq<Option<PingResponse>>) {
    && |cs| == |rs| + 1 && Boot(d, first) == Some(cs[0])
    && forall i :: 0 <= i < |rs| ==> Turn(d, cs[i], rs[i], true) == (cs[i + 1], true)
  }

  /** The latest certificate received. */
  function LatestTls(first: PingResponse, rs: seq<Option<PingResponse>>): Option<Tls> {
    if rs == [] then first.tls
    else match rs[|rs| - 1]
      case Some(r) => if r.tls.Some? then r.tls else LatestTls(first, rs[..|rs| - 1])
      case None => LatestTls(first, rs[..|rs| - 1])
  }

  /** The latest token key received. */
  function LatestKey(first: PingResponse, rs: seq<Option<PingResponse>>): string {
    if rs == [] then first.tokenKey
    else match rs[|rs| - 1]
      case Some(r) => r.tokenKey
      case None => LatestKey(first, rs[..|rs| - 1])
  }

  ghost predicate Tracks(d: Decoder, c: Client, tls: Option<Tls>, key: string) {
    && tls.Some? && c.info == Some(PingStore(tls.value, key))
    && c.verifier.Some? && (d(key).Some? ==> c.verifier == d(key))
  }

  lemma {:induction false} RunTracks(d: Decoder, first: PingResponse, cs: seq<Client>, rs: seq<Option<PingResponse>>)
    requires Run(d, first, cs, rs)
    ensures Tracks(d, cs[|rs|], LatestTls(first, rs), LatestKey(first, rs))
  {
    if rs != [] {
      var n := |rs| - 1;
      RunTracks(d, first, cs[..n + 1], rs[..n]);
      assert Turn(d, cs[n], rs[n], true) == (cs[n + 1], true);
    }
  }

  /** After any sequence of turns, failed pings and bad keys included, the ping info holds the
      latest certificate, which decides the creation time sent next, and the latest key; the
      verifier key is the decoded key if and only if that key decodes. */
  lemma PingInfoIsLatest(d: Decoder, first: PingResponse, cs: seq<Client>, rs: seq<Option<PingResponse>>)
    requires Run(d, first, cs, rs)
    ensures var c, tls, key := cs[|rs|], LatestTls(first, rs), LatestKey(first, rs);
      && tls.Some? && c.info == Some(PingStore(tls.value, key))
      && NextCreatedAt(c) == Some(tls.value.createdAt)
      && (c.verifier == d(key) <==> d(key).Some?)
  {
    RunTracks(d, first, cs, rs);
  }

  predicate Brings(reply: Option<PingResponse>) {
    reply.Some? && reply.value.tls.Some?
  }

  /** A turn that brings a certificate serves it exactly when it was served before or the ping gets
      as far as the server; any other turn leaves the served certificate alone. */
  lemma ServedAfterTurn(d: Decoder, c: Client, reply: Option<PingResponse>)
    requires c.served.Some? && (reply.Some? ==> !Panics(c, reply.value))
    ensures var (c', on) := Turn(d, c, reply, true);
      && on && (!Brings(reply) ==> c'.served == c.served)
      && (Brings(reply) ==>
        (c'.served == reply.value.tls <==> reply.value.tls == c.served || Applies(d, c, reply.value)))
  {
  }

  /** The last turn that brought a certificate, |rs| when none did. */
  function LastBrought(rs: seq<Option<PingResponse>>): (i: nat)
    ensures i <= |rs|
    ensures i < |rs| ==> Brings(rs[i]) && forall j :: i < j < |rs| ==> !Brings(rs[j])
    ensures i == |rs| ==> forall j :: 0 <= j < |rs| ==> !Brings(rs[j])
  {
    if rs == [] then 0
    else if Brings(rs[|rs| - 1]) then |rs| - 1
    else
      var i := LastBrought(rs[..|rs| - 1]);
      if i == |rs| - 1 then |rs| else i
  }

  /** After any run the served certificate is the latest one received if and only if the last reply
      that brought one brought the one already served, or came with a key that was not new or that
      decodes. */
  lemma {:induction false} ServedIffApplied(
    d: Decoder, first: PingResponse, cs: seq<Client>, rs: seq<Option<PingResponse>>)
    requires Run(d, first, cs, rs)
    ensures cs[|rs|].served.Some?
    ensures var i := LastBrought(rs);
      cs[|rs|].served == LatestTls(first, rs) <==>
      i == |rs| || rs[i].value.tls == cs[i].served || Applies(d, cs[i], rs[i].value)
  {
    if rs != [] {
      var n := |rs| - 1;
      ServedIffApplied(d, first, cs[..n + 1], rs[..n]);
      RunTracks(d, first, cs[..n + 1], rs[..n]);
      assert Turn(d, cs[n], rs[n], true) == (cs[n + 1], true);
      ServedAfterTurn(d, cs[n], rs[n]);
    }
  }

  /** Over a whole run in which every new key decodes, the served certificate is the latest one
      after each turn. */
  lemma {:induction false} ServedIsLatest(
    d: Decoder, first: PingResponse, cs: seq<Client>, rs: seq<Option<PingResponse>>)
    requires Run(d, first, cs, rs)
    requires forall i :: 0 <= i < |rs| && rs[i].Some? ==> Applies(d, cs[i], rs[i].value)
    ensures cs[|rs|].served == LatestTls(first, rs) && cs[|rs|].verifier == d(LatestKey(first, rs))
  {
    if rs != [] {
      var n := |rs| - 1;
      ServedIsLatest(d, first, cs[..n + 1], rs[..n]);
      RunTracks(d, first, cs[..n + 1], rs[..n]);
      assert Turn(d, cs[n], rs[n], true) == (cs[n + 1], true);
    }
  }

  /** A certificate that arrives together with a key that does not decode is stored, so the API
      will not send it again, but never served: the server keeps the old one, and the verifier the
      old key, for as long as the replies repeat that key without a certificate. */
  lemma {:induction false} LostCertificate(d: Decoder, c: Client, lost: Tls, bad: string, n: nat)
    returns (c': Client)
    requires c.info.Some? && c.served.Some? && c.served.value != lost
    requires c.info.value.tokenKey != bad && d(bad) == None
    ensures Repeats(d, Turn(d, c, Some(PingResponse(bad, Some(lost), true, true)), true).0, bad, n) == c'
    ensures c'.served == c.served && c'.info == Some(PingStore(lost, bad)) && c'.verifier == c.verifier
  {
    if n == 0 {
      c' := c.(info := Some(PingStore(lost, bad)));
    } else {
      c' := LostCertificate(d, c, lost, bad, n - 1);
    }
  }

  /** `n` further turns whose replies repeat `key` and bring no certificate. */
  function Repeats(d: Decoder, c: Client, key: string, n: nat): Client {
    if n == 0 then c else Turn(d, Repeats(d, c, key, n - 1), Some(PingResponse(key, None, true, true)), true).0
  }

  // ---------- the objects ----------

  class Application {
    var info: Option<PingStore>
    var verifier: Option<Key>
    var served: Option<Tls>
    const decode: Decoder

    ghost function State(): Client
      reads this
    {
      Client(info, verifier, served)
    }

    constructor (decode: Decoder)
      ensures State() == Client(None, None, None) && this.decode == decode
    {
      this.info, this.verifier, this.served, this.decode := None, None, None, decode;
    }

    /** Stores the reply; tells whether its key is new. A panic leaves the store as it was. */
    method UpdateFromResponse(res: PingResponse) returns (panicked: bool, newKey: bool)
      modifies `info
      ensures panicked <==> (res.tls.None? && old(info).None?) || !res.imageServerParses || !res.urlParses
      ensures panicked ==> info == old(info)
      ensures !panicked ==>
        info == Some(PingStore(if res.tls.Some? then res.tls.value else old(info).value.tls, res.tokenKey))
      ensures newKey <==> old(info).None? || old(info).value.tokenKey != res.tokenKey
    {
      newKey := match info case Some(x) => x.tokenKey != res.tokenKey case None => true;
      var tls := match res.tls
        case Some(t) => Some(t)
        case None => (match info case Some(x) => Some(x.tls) case None => None);
      if tls.None? || !res.imageServerParses || !res.urlParses {
        return true, newKey;
      }
      info := Some(PingStore(tls.value, res.tokenKey));
      return false, newKey;
    }

    method PingBackend(reply: Option<PingResponse>) returns (out: Outcome)
      modifies `info, `verifier
      ensures (State(), out) == Ping(decode, old(State()), reply)
      ensures reply.None? ==> out == PingFailed && State() == old(State())
      ensures reply.Some? && !out.Panicked? ==>
        var isNew := old(info).None? || old(info).value.tokenKey != reply.value.tokenKey;
        && out == (if isNew && decode(reply.value.tokenKey).None? then PingFailed else Pinged(reply.value.tls))
        && verifier == (if isNew && out.Pinged? then decode(reply.value.tokenKey) else old(verifier))
    {
      if reply.None? {
        return PingFailed;
      }
      var res := reply.value;
      var panicked, newKey := UpdateFromResponse(res);
      if panicked {
        return Panicked;
      }
      if newKey {
        var key := decode(res.tokenKey);
        if key.None? {
          return PingFailed;
        }
        verifier := key;
      }
      return Pinged(res.tls);
    }

    /** The certificate part of a turn of the main loop. */
    method RunTurn(reply: Option<PingResponse>, respawns: bool) returns (on: bool)
      modifies this
      ensures (State(), on) == Turn(decode, old(State()), reply, respawns)
      ensures on && reply.Some? && reply.value.tls.Some? ==>
        var isNew := old(info).None? || old(info).value.tokenKey != reply.value.tokenKey;
        served == if isNew && decode(reply.value.tokenKey).None? then old(served) else reply.value.tls
      ensures !on || reply.None? || reply.value.tls.None? ==> served == old(served)
    {
      var out := PingBackend(reply);
      match out {
        case Panicked => return false;
        case PingFailed => return true;
        case Pinged(crt) =>
          if crt.Some? {
            if !respawns {
              return false;
            }
            served := crt;
          }
          return true;
      }
    }
  }
}
