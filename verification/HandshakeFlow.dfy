/** The message flow of a client handshake below TLS 1.3 (section 7.3 of RFC 5246, and section 4.2.4
    of RFC 6347 for the HelloVerifyRequest): the reference that the state machine is proved against. */
module HandshakeFlow {

  datatype Kind =
    | ClientHello | HelloVerifyRequest | ServerHello | Certificate | CertificateStatus | ServerKeyExchange
    | CertificateRequest | ServerHelloDone | ClientKeyExchange | CertificateVerify | NextProto | ChannelId
    | Finished | NewSessionTicket | Other

  /** What one handshake looks like from outside: messages each way, ChangeCipherSpecs and the key
      changes that go with them, and the two checks of the server's identity. */
  datatype Mark =
    | Out(kind: Kind) | In(kind: Kind)
    | OutChange | WriteKeys | InChange | ReadKeys
    | PeerVerified | KeySigned

  type Flow = seq<Mark>

  /** What the two sides chose along the way */
  datatype Choices = Choices(cookie: bool, resumed: bool, certAuth: bool, needsKey: bool, status: bool, serverKey: bool,
                             requested: bool, clientCert: bool, proved: bool, nextProto: bool, channelId: bool,
                             ticket: bool)

  function Opt(b: bool, m: Mark): Flow {
    if b then [m] else []
  }

  function Hellos(c: Choices): Flow {
    [Out(ClientHello)] + (if c.cookie then [In(HelloVerifyRequest), Out(ClientHello)] else [])
  }

  function ServerIdentity(c: Choices): Flow {
    Opt(c.certAuth, In(Certificate)) + Opt(c.status, In(CertificateStatus)) + Opt(c.certAuth, PeerVerified)
  }

  function ServerKey(c: Choices): Flow {
    if c.serverKey then Opt(c.certAuth, KeySigned) + [In(ServerKeyExchange)] else []
  }

  function ServerFlight(c: Choices): Flow {
    ServerIdentity(c) + ServerKey(c) + Opt(c.requested, In(CertificateRequest)) + [In(ServerHelloDone)]
  }

  function ClientKeys(c: Choices): Flow {
    Opt(c.clientCert, Out(Certificate)) + [Out(ClientKeyExchange)] + Opt(c.proved, Out(CertificateVerify))
  }

  function ClientFinish(c: Choices): Flow {
    [OutChange, WriteKeys] + Opt(c.nextProto, Out(NextProto)) + Opt(c.channelId, Out(ChannelId)) + [Out(Finished)]
  }

  function ServerFinish(c: Choices): Flow {
    Opt(c.ticket, In(NewSessionTicket)) + [InChange, ReadKeys, In(Finished)]
  }

  /** The whole handshake: client first in a full one, server first in a resumed one. */
  function Complete(c: Choices): Flow {
    if c.resumed then Hellos(c) + [In(ServerHello)] + ServerFinish(c) + ClientFinish(c)
    else Hellos(c) + [In(ServerHello)] + ServerFlight(c) + ClientKeys(c) + ClientFinish(c) + ServerFinish(c)
  }

  // ---- what a flow says ----

  function Count(f: Flow, m: Mark): nat {
    if f == [] then 0 else (if f[0] == m then 1 else 0) + Count(f[1..], m)
  }

  lemma {:induction false} CountAppend(f: Flow, g: Flow, m: Mark)
    ensures Count(f + g, m) == Count(f, m) + Count(g, m)
  {
    if f == [] {
      assert f + g == g;
    } else {
      assert (f + g)[1..] == f[1..] + g;
      CountAppend(f[1..], g, m);
    }
  }

  /** Every m in f has an earlier `before`. */
  ghost predicate After(f: Flow, m: Mark, before: Mark) {
    forall i :: 0 <= i < |f| && f[i] == m ==> before in f[..i]
  }

  lemma AfterAppend(f: Flow, g: Flow, m: Mark, before: Mark)
    requires After(f, m, before)
    requires before in f || After(g, m, before)
    ensures After(f + g, m, before)
  {
    forall i | 0 <= i < |f + g| && (f + g)[i] == m ensures before in (f + g)[..i] {
      if i < |f| {
        assert (f + g)[..i] == f[..i];
      } else {
        assert (f + g)[..i] == f + g[..i - |f|];
      }
    }
  }

  /** Piecewise: m is absent, or comes after `before`. */
  lemma AfterNone(f: Flow, m: Mark, before: Mark)
    requires m !in f
    ensures After(f, m, before)
  {
  }

  lemma {:induction false} CountNone(f: Flow, m: Mark)
    requires m !in f
    ensures Count(f, m) == 0
  {
    if f != [] { CountNone(f[1..], m); }
  }

  /** The last mark of a flow that has it nowhere else */
  lemma LastOnly(f: Flow, m: Mark, before: Mark)
    requires m !in f && before in f
    ensures Count(f + [m], m) == 1 && After(f + [m], m, before)
  {
    CountAppend(f, [m], m);
    CountNone(f, m);
    assert Count([m], m) == 1 + Count([], m) by { assert [m][1..] == []; }
    AfterNone(f, m, before);
    AfterAppend(f, [m], m, before);
  }

  // ---- either side's end of the handshake ----

  /** Before ClientFinish and ServerFinish there is no Finished, and no key was changed. */
  ghost predicate NotFinished(f: Flow) {
    && Out(Finished) !in f && In(Finished) !in f
    && OutChange !in f && WriteKeys !in f && InChange !in f && ReadKeys !in f
  }

  lemma BeginningNotFinished(c: Choices)
    ensures NotFinished(Hellos(c) + [In(ServerHello)])
    ensures NotFinished(Hellos(c) + [In(ServerHello)] + ServerFlight(c) + ClientKeys(c))
  {
    assert NotFinished(ServerIdentity(c)) && NotFinished(ServerKey(c));
    assert NotFinished(ServerFlight(c)) && NotFinished(ClientKeys(c)) && NotFinished(Hellos(c));
  }

  ghost predicate ClientPart(f: Flow) {
    && Count(f, Out(Finished)) == 1 && Count(f, OutChange) == 1 && Count(f, WriteKeys) == 1
    && After(f, Out(Finished), WriteKeys) && After(f, WriteKeys, OutChange)
    && In(Finished) !in f && InChange !in f && ReadKeys !in f
  }

  ghost predicate ServerPart(f: Flow) {
    && Count(f, In(Finished)) == 1 && Count(f, InChange) == 1 && Count(f, ReadKeys) == 1
    && After(f, In(Finished), ReadKeys) && After(f, ReadKeys, InChange)
    && Out(Finished) !in f && OutChange !in f && WriteKeys !in f
  }

  /** What the client may send between its new keys and its Finished changes nothing about them. */
  lemma BetweenKeysAndFinished(extra: Flow)
    requires NotFinished(extra)
    ensures ClientPart([OutChange] + [WriteKeys] + extra + [Out(Finished)])
  {
    var g := [OutChange] + [WriteKeys] + extra;
    assert g[1] == WriteKeys;
    LastOnly(g, Out(Finished), WriteKeys);
    var rest := extra + [Out(Finished)];
    Two(OutChange, WriteKeys, rest);
    assert g + [Out(Finished)] == [OutChange] + [WriteKeys] + rest;
  }

  /** In its part, each side changes its keys once, after its ChangeCipherSpec and before its Finished. */
  lemma ClientFinishOrder(c: Choices)
    ensures ClientPart(ClientFinish(c))
  {
    var proto, id := Opt(c.nextProto, Out(NextProto)), Opt(c.channelId, Out(ChannelId));
    BetweenKeysAndFinished(proto + id);
    assert ClientFinish(c) == [OutChange] + [WriteKeys] + (proto + id) + [Out(Finished)];
  }

  lemma ServerFinishOrder(c: Choices)
    ensures ServerPart(ServerFinish(c))
  {
    var g := Opt(c.ticket, In(NewSessionTicket)) + [InChange, ReadKeys];
    assert g[|g| - 1] == ReadKeys;
    LastOnly(g, In(Finished), ReadKeys);
    assert ServerFinish(c) == g + [In(Finished)];
    var t := Opt(c.ticket, In(NewSessionTicket));
    Two(InChange, ReadKeys, [In(Finished)]);
    assert ServerFinish(c) == t + ([InChange] + [ReadKeys] + [In(Finished)]);
    CountNone(t, InChange);
    CountNone(t, ReadKeys);
    CountAppend(t, [InChange] + [ReadKeys] + [In(Finished)], InChange);
    CountAppend(t, [InChange] + [ReadKeys] + [In(Finished)], ReadKeys);
    AfterAppend(t, [InChange] + [ReadKeys] + [In(Finished)], ReadKeys, InChange);
  }

  lemma Two(a: Mark, b: Mark, rest: Flow)
    requires a != b && a !in rest && b !in rest
    ensures var f := [a] + [b] + rest;
            Count(f, a) == 1 && Count(f, b) == 1 && After(f, b, a)
  {
    var f := [a] + [b] + rest;
    assert f[1..] == [b] + rest && f[1..][1..] == rest;
    CountNone(rest, a);
    CountNone(rest, b);
    forall i | 0 <= i < |f| && f[i] == b ensures a in f[..i] {
      assert i == 1 && f[..i][0] == a;
    }
  }

  /** What each side does to finish, put after a flow that has nothing of it */
  ghost predicate FinishedOnce(f: Flow) {
    && Count(f, Out(Finished)) == 1 && Count(f, In(Finished)) == 1
    && Count(f, OutChange) == 1 && Count(f, InChange) == 1 && Count(f, WriteKeys) == 1 && Count(f, ReadKeys) == 1
    && After(f, Out(Finished), WriteKeys) && After(f, WriteKeys, OutChange)
    && After(f, In(Finished), ReadKeys) && After(f, ReadKeys, InChange)
  }

  lemma InMiddle(a: Flow, b: Flow, d: Flow, m: Mark, before: Mark)
    requires m !in a && m !in d && After(b, m, before)
    ensures Count(a + b + d, m) == Count(b, m) && After(a + b + d, m, before)
  {
    CountAppend(a + b, d, m);
    CountAppend(a, b, m);
    CountNone(a, m);
    CountNone(d, m);
    AfterNone(a, m, before);
    AfterNone(d, m, before);
    AfterAppend(a, b, m, before);
    AfterAppend(a + b, d, m, before);
  }

  lemma AtEnd(a: Flow, b: Flow, d: Flow, m: Mark, before: Mark)
    requires m !in a && m !in b && After(d, m, before)
    ensures Count(a + b + d, m) == Count(d, m) && After(a + b + d, m, before)
  {
    CountAppend(a + b, d, m);
    CountNone(a + b, m);
    AfterNone(a + b, m, before);
    AfterAppend(a + b, d, m, before);
  }

  lemma CountedOnce(f: Flow, m: Mark)
    requires Count(f, m) == 1
    ensures m in f
  {
    if m !in f { CountNone(f, m); }
  }

  /** Each side sends one Finished, after its own and only change of keys: the client first in a full
      handshake, the server first in a resumed one. */
  lemma {:induction false} FinishedOnceEach(c: Choices)
    ensures FinishedOnce(Complete(c))
    ensures if c.resumed then After(Complete(c), Out(Finished), In(Finished))
            else After(Complete(c), In(Finished), Out(Finished))
  {
    BeginningNotFinished(c);
    ClientFinishOrder(c);
    ServerFinishOrder(c);
    var client, server := ClientFinish(c), ServerFinish(c);
    if c.resumed {
      ResumedOrder(Hellos(c) + [In(ServerHello)], client, server);
    } else {
      FullOrder(Hellos(c) + [In(ServerHello)] + ServerFlight(c) + ClientKeys(c), client, server);
    }
  }

  lemma FullOrder(a: Flow, client: Flow, server: Flow)
    requires NotFinished(a) && ClientPart(client) && ServerPart(server)
    ensures FinishedOnce(a + client + server) && After(a + client + server, In(Finished), Out(Finished))
  {
    InMiddle(a, client, server, Out(Finished), WriteKeys);
    InMiddle(a, client, server, WriteKeys, OutChange);
    Sum(a, client, server, OutChange);
    AtEnd(a, client, server, In(Finished), ReadKeys);
    AtEnd(a, client, server, ReadKeys, InChange);
    Sum(a, client, server, InChange);
    CountedOnce(client, Out(Finished));
    AfterNone(a + client, In(Finished), Out(Finished));
    AfterAppend(a + client, server, In(Finished), Out(Finished));
  }

  lemma ResumedOrder(a: Flow, client: Flow, server: Flow)
    requires NotFinished(a) && ClientPart(client) && ServerPart(server)
    ensures FinishedOnce(a + server + client) && After(a + server + client, Out(Finished), In(Finished))
  {
    InMiddle(a, server, client, In(Finished), ReadKeys);
    InMiddle(a, server, client, ReadKeys, InChange);
    Sum(a, server, client, InChange);
    AtEnd(a, server, client, Out(Finished), WriteKeys);
    AtEnd(a, server, client, WriteKeys, OutChange);
    Sum(a, server, client, OutChange);
    CountedOnce(server, In(Finished));
    AfterNone(a + server, Out(Finished), In(Finished));
    AfterAppend(a + server, client, Out(Finished), In(Finished));
  }

  lemma Sum(a: Flow, b: Flow, d: Flow, m: Mark)
    requires m !in a
    ensures m !in b ==> Count(a + b + d, m) == Count(d, m)
    ensures m !in d ==> Count(a + b + d, m) == Count(b, m)
  {
    CountAppend(a + b, d, m);
    CountAppend(a, b, m);
    CountNone(a, m);
    if m !in b { CountNone(b, m); }
    if m !in d { CountNone(d, m); }
  }

  // ---- the client's key exchange ----

  /** In a full handshake the one ClientKeyExchange comes after the server's certificate was verified and,
      if there was a ServerKeyExchange, after its signature was. */
  lemma KeyExchangeAfterChecks(c: Choices)
    requires !c.resumed
    ensures Count(Complete(c), Out(ClientKeyExchange)) == 1
    ensures c.certAuth ==> After(Complete(c), Out(ClientKeyExchange), PeerVerified)
    ensures c.certAuth && c.serverKey ==> After(Complete(c), Out(ClientKeyExchange), KeySigned)
    ensures c.serverKey ==> After(Complete(c), Out(ClientKeyExchange), In(ServerKeyExchange))
  {
    var m := Out(ClientKeyExchange);
    var a := Hellos(c) + [In(ServerHello)] + ServerFlight(c);
    var b := ClientKeys(c);
    var d := ClientFinish(c) + ServerFinish(c);
    assert Complete(c) == a + b + d;
    assert m !in ServerIdentity(c) && m !in ServerKey(c) && m !in ServerFlight(c) && m !in a;
    assert m !in ClientFinish(c) && m !in ServerFinish(c) && m !in d;
    KeysOnce(c);
    Sum(a, b, d, m);
    ChecksDone(c);
    forall before | before in a ensures After(a + b + d, m, before) {
      AfterNone(a, m, before);
      AfterNone(d, m, before);
      AfterAppend(a, b, m, before);
      AfterAppend(a + b, d, m, before);
    }
  }

  lemma KeysOnce(c: Choices)
    ensures Count(ClientKeys(c), Out(ClientKeyExchange)) == 1
  {
    var a, b, d := Opt(c.clientCert, Out(Certificate)), [Out(ClientKeyExchange)], Opt(c.proved, Out(CertificateVerify));
    Sum(a, b, d, Out(ClientKeyExchange));
    assert b[1..] == [];
  }

  lemma ChecksDone(c: Choices)
    ensures var a := Hellos(c) + [In(ServerHello)] + ServerFlight(c);
            && (c.certAuth ==> PeerVerified in a) && (c.certAuth && c.serverKey ==> KeySigned in a)
            && (c.serverKey ==> In(ServerKeyExchange) in a)
  {
    assert c.certAuth ==> PeerVerified in Opt(c.certAuth, PeerVerified);
    assert c.certAuth ==> PeerVerified in ServerIdentity(c);
    assert c.serverKey ==> In(ServerKeyExchange) in [In(ServerKeyExchange)];
    assert c.serverKey ==> In(ServerKeyExchange) in ServerKey(c);
    assert c.certAuth && c.serverKey ==> KeySigned in Opt(c.certAuth, KeySigned);
    assert c.certAuth && c.serverKey ==> KeySigned in ServerKey(c);
  }
}
