/** What the invariant of the client's state machine says about whole runs. */
module HandshakeRuns {
  import opened Basics
  import opened HandshakeFlow
  import opened ClientHandshake
  import opened HandshakeSteps

  function AsFlow(f: Marks): Flow {
    if f.NoMarks? then [] else AsFlow(f.before) + [f.last]
  }

  lemma Plus(f: Marks, b: bool, m: Mark)
    ensures AsFlow(Add(f, b, m)) == AsFlow(f) + Opt(b, m)
  {
  }

  // ---- the flow, part by part ----

  lemma HelloFlow(c: Choices)
    ensures AsFlow(Through(READ_SERVER_HELLO, c)) == Hellos(c)
  {
    assert Through(1, c) == Next(NoMarks, Out(ClientHello));
    assert AsFlow(Through(1, c)) == [Out(ClientHello)];
    var f := Through(1, c);
    Plus(f, c.cookie, In(HelloVerifyRequest));
    Plus(Add(f, c.cookie, In(HelloVerifyRequest)), c.cookie, Out(ClientHello));
  }

  lemma IdentityFlow(c: Choices)
    requires !c.resumed
    ensures AsFlow(Through(READ_SERVER_KEY_EXCHANGE, c)) == Hellos(c) + [In(ServerHello)] + ServerIdentity(c)
  {
    HelloFlow(c);
    var f := Through(4, c);
    assert AsFlow(f) == Hellos(c) + [In(ServerHello)];
    Plus(f, c.certAuth, In(Certificate));
    Plus(Through(5, c), c.status, In(CertificateStatus));
    Plus(Through(6, c), c.certAuth, PeerVerified);
  }

  lemma ServerFlow(c: Choices)
    requires !c.resumed
    ensures AsFlow(Through(SEND_CLIENT_CERTIFICATE, c)) == Hellos(c) + [In(ServerHello)] + ServerFlight(c)
  {
    IdentityFlow(c);
    var f, h := Through(7, c), Hellos(c) + [In(ServerHello)];
    Plus(f, c.serverKey && c.certAuth, KeySigned);
    Plus(Add(f, c.serverKey && c.certAuth, KeySigned), c.serverKey, In(ServerKeyExchange));
    assert AsFlow(Through(8, c)) == h + (ServerIdentity(c) + ServerKey(c));
    Plus(Through(8, c), c.requested, In(CertificateRequest));
    assert AsFlow(Through(9, c)) == h + (ServerIdentity(c) + ServerKey(c) + Opt(c.requested, In(CertificateRequest)));
    assert Through(10, c) == Next(Through(9, c), In(ServerHelloDone));
  }

  lemma ClientFlow(c: Choices)
    requires !c.resumed
    ensures AsFlow(Through(SEND_CLIENT_FINISHED, c)) ==
              Hellos(c) + [In(ServerHello)] + ServerFlight(c) + ClientKeys(c)
  {
    ServerFlow(c);
    var h := Hellos(c) + [In(ServerHello)] + ServerFlight(c);
    Plus(Through(10, c), c.clientCert, Out(Certificate));
    assert Through(12, c) == Next(Through(11, c), Out(ClientKeyExchange));
    Plus(Through(12, c), c.proved, Out(CertificateVerify));
    assert AsFlow(Through(13, c)) ==
           h + Opt(c.clientCert, Out(Certificate)) + [Out(ClientKeyExchange)] + Opt(c.proved, Out(CertificateVerify));
    assert AsFlow(Through(13, c)) == h + ClientKeys(c);
  }

  lemma ClientFinishFlow(c: Choices, f: Marks)
    ensures AsFlow(Enter(FINISH_FLIGHT, c, f)) == AsFlow(f) + ClientFinish(c)
  {
    var g := Next(Next(f, OutChange), WriteKeys);
    assert AsFlow(g) == AsFlow(f) + [OutChange, WriteKeys];
    Plus(g, c.nextProto, Out(NextProto));
    Plus(Add(g, c.nextProto, Out(NextProto)), c.channelId, Out(ChannelId));
  }

  lemma ServerFinishFlow(c: Choices, f: Marks)
    ensures AsFlow(Next(Next(Next(Add(f, c.ticket, In(NewSessionTicket)), InChange), ReadKeys), In(Finished))) ==
              AsFlow(f) + ServerFinish(c)
  {
    Plus(f, c.ticket, In(NewSessionTicket));
    var g := Add(f, c.ticket, In(NewSessionTicket));
    assert AsFlow(Next(Next(g, InChange), ReadKeys)) == AsFlow(g) + [InChange] + [ReadKeys];
    assert ServerFinish(c) == Opt(c.ticket, In(NewSessionTicket)) + [InChange] + [ReadKeys] + [In(Finished)];
  }

  /** A machine that is done went through the whole flow, and nothing else. */
  lemma DoneIsComplete(c: Choices)
    ensures AsFlow(Through(DONE, c)) == Complete(c)
  {
    assert Through(19, c) == Through(18, c);
    if c.resumed {
      HelloFlow(c);
      assert Through(15, c) == Next(Through(3, c), In(ServerHello));
      ServerFinishFlow(c, Through(15, c));
      assert Through(17, c) == Next(Next(Through(16, c), InChange), ReadKeys);
      assert Through(13, c) == Next(Through(17, c), In(Finished));
      ClientFinishFlow(c, Through(13, c));
      assert Through(18, c) == Through(14, c);
    } else {
      ClientFlow(c);
      ClientFinishFlow(c, Through(13, c));
      assert Through(15, c) == Through(14, c);
      ServerFinishFlow(c, Through(15, c));
      assert Through(17, c) == Next(Next(Through(16, c), InChange), ReadKeys);
      assert Through(18, c) == Next(Through(17, c), In(Finished));
    }
  }

  /** What is done by a state stays done. */
  lemma {:induction false} ThroughGrows(s: State, c: Choices)
    requires c.resumed ==> !(4 <= s <= 12)
    ensures AsFlow(Through(s, c)) <= AsFlow(Through(DONE, c))
    decreases Rank(s, c.resumed)
  {
    if s < DONE {
      var t := Following(s, c.resumed);
      ThroughGrows(t, c);
      NextGrows(s, c);
      PrefixFlow(Through(s, c), Through(t, c));
    }
  }

  lemma {:induction false} PrefixFlow(a: Marks, b: Marks)
    requires Precedes(a, b)
    ensures AsFlow(a) <= AsFlow(b)
  {
    if a != b { PrefixFlow(a, b.before); }
  }

  // ---- the handshake's promises ----

  /** What a finished handshake has behind it: the complete flow, with one Finished each way over all that
      was exchanged before it, and a hash of everything. */
  ghost predicate Completed(h: Hs) {
    var all := h.state == DONE && AsFlow(Shape(h.log)) == Complete(h.choices) && FinishedOnce(AsFlow(Shape(h.log)))
               && LogOk(h.log) && h.hash == Some(Exchanged(h.log));
    all
  }

  /** A finished handshake has exactly one Finished each way, each after its own change of keys, in the
      order that the kind of handshake has; each is over everything exchanged before it; and the
      transcript is everything exchanged. */
  lemma {:induction false} DoneMeansFinished(h: Hs)
    requires Good(h) && h.state == DONE
    ensures AsFlow(Shape(h.log)) == Complete(h.choices) && FinishedOnce(AsFlow(Shape(h.log)))
    ensures if h.session then After(AsFlow(Shape(h.log)), Out(Finished), In(Finished))
            else After(AsFlow(Shape(h.log)), In(Finished), Out(Finished))
    ensures LogOk(h.log) && h.hash == Some(Exchanged(h.log)) && Completed(h)
  {
    DoneIsComplete(h.choices);
    FinishedOnceEach(h.choices);
  }

  /** At every moment of every run, errors included, what was exchanged is a beginning of the complete
      flow. */
  lemma UnderwayIsBeginning(h: Hs)
    requires Underway(h)
    ensures AsFlow(Shape(h.log)) <= Complete(h.choices)
  {
    DoneIsComplete(h.choices);
    if h.state < DONE {
      var t := Following(h.state, h.choices.resumed);
      PrefixFlow(Shape(h.log), Through(t, h.choices));
      if !(h.choices.resumed && t == 4) { ThroughGrows(t, h.choices); }
    }
  }

  /** Until the client's part begins there is no ClientKeyExchange. */
  lemma NoKeysYet(h: Hs)
    requires Underway(h) && !h.choices.resumed && h.state <= SEND_CLIENT_CERTIFICATE
    ensures Out(ClientKeyExchange) !in AsFlow(Shape(h.log))
  {
    var t, c := Following(h.state, false), h.choices;
    PrefixFlow(Shape(h.log), Through(t, c));
    ThroughReaches(t, c);
    ServerFlow(c);
    Plus(Through(10, c), c.clientCert, Out(Certificate));
    NotInServerFlight(c);
    assert Out(ClientKeyExchange) !in AsFlow(Through(11, c));
  }

  lemma NotInServerFlight(c: Choices)
    ensures Out(ClientKeyExchange) !in Hellos(c) + [In(ServerHello)] + ServerFlight(c)
  {
    var m := Out(ClientKeyExchange);
    assert m !in Hellos(c) && m !in ServerIdentity(c) && m !in ServerKey(c);
    assert m !in ServerFlight(c);
  }

  lemma {:induction false} ThroughReaches(s: State, c: Choices)
    requires !c.resumed && s <= SEND_CLIENT_KEY_EXCHANGE
    ensures AsFlow(Through(s, c)) <= AsFlow(Through(SEND_CLIENT_KEY_EXCHANGE, c))
    decreases SEND_CLIENT_KEY_EXCHANGE - s
  {
    if s < SEND_CLIENT_KEY_EXCHANGE {
      NextGrows(s, c);
      PrefixFlow(Through(s, c), Through(s + 1, c));
      ThroughReaches(s + 1, c);
    }
  }

  /** At every moment of every run of a full handshake, errors included: no ClientKeyExchange before the
      server's certificate was verified, nor before its key was received and its signature verified if
      the cipher needs one. */
  lemma NoKeyExchangeBeforeChecks(h: Hs)
    requires Underway(h) && !h.choices.resumed
    ensures var f := AsFlow(Shape(h.log));
            && (h.choices.certAuth ==> After(f, Out(ClientKeyExchange), PeerVerified))
            && (h.choices.certAuth && h.choices.needsKey ==> After(f, Out(ClientKeyExchange), KeySigned))
            && (h.choices.needsKey ==> After(f, Out(ClientKeyExchange), In(ServerKeyExchange)))
  {
    var f, c, m := AsFlow(Shape(h.log)), h.choices, Out(ClientKeyExchange);
    if h.state <= SEND_CLIENT_CERTIFICATE {
      NoKeysYet(h);
      AfterNone(f, m, PeerVerified);
      AfterNone(f, m, KeySigned);
      AfterNone(f, m, In(ServerKeyExchange));
    } else {
      UnderwayIsBeginning(h);
      KeyExchangeAfterChecks(c);
      if c.certAuth { AfterPrefix(f, Complete(c), m, PeerVerified); }
      if c.needsKey { AfterPrefix(f, Complete(c), m, In(ServerKeyExchange)); }
      if c.certAuth && c.needsKey { AfterPrefix(f, Complete(c), m, KeySigned); }
    }
  }

  /** A resumed handshake has no ClientKeyExchange at all. */
  lemma NoKeyExchangeWhenResumed(h: Hs)
    requires Underway(h) && h.choices.resumed
    ensures Out(ClientKeyExchange) !in AsFlow(Shape(h.log))
  {
    UnderwayIsBeginning(h);
    var c := h.choices;
    assert Out(ClientKeyExchange) !in ClientFinish(c) && Out(ClientKeyExchange) !in ServerFinish(c);
    assert Out(ClientKeyExchange) !in Complete(c);
  }

  /** At every moment of every run, errors included: a Finished comes after its side's change of keys, that
      change after its ChangeCipherSpec, and the two Finished in the order of the kind of handshake. */
  lemma NoFinishedBeforeKeys(h: Hs)
    requires Underway(h)
    ensures var f := AsFlow(Shape(h.log));
            && After(f, Out(Finished), WriteKeys) && After(f, WriteKeys, OutChange)
            && After(f, In(Finished), ReadKeys) && After(f, ReadKeys, InChange)
            && (if h.choices.resumed then After(f, Out(Finished), In(Finished))
                else After(f, In(Finished), Out(Finished)))
  {
    var f, g := AsFlow(Shape(h.log)), Complete(h.choices);
    UnderwayIsBeginning(h);
    FinishedOnceEach(h.choices);
    AfterPrefix(f, g, Out(Finished), WriteKeys);
    AfterPrefix(f, g, WriteKeys, OutChange);
    AfterPrefix(f, g, In(Finished), ReadKeys);
    AfterPrefix(f, g, ReadKeys, InChange);
    if h.choices.resumed {
      AfterPrefix(f, g, Out(Finished), In(Finished));
    } else {
      AfterPrefix(f, g, In(Finished), Out(Finished));
    }
  }

  lemma AfterPrefix(f: Flow, g: Flow, m: Mark, before: Mark)
    requires f <= g && After(g, m, before)
    ensures After(f, m, before)
  {
    forall i | 0 <= i < |f| && f[i] == m ensures before in f[..i] {
      assert g[i] == m && g[..i] == f[..i];
    }
  }

  /** Each Finished in the record covers what the record had before it: nothing left out, nothing twice. */
  lemma {:induction false} FinishedCovers(log: History, at: History)
    requires LogOk(log) && Extends(at, log) && at.Then?
    ensures at.last.Sent? && at.last.msg.kind == Finished ==> at.last.msg.body == Mac(true, Exchanged(at.before))
    ensures at.last.Received? && at.last.msg.kind == Finished ==> at.last.msg.body == Mac(false, Exchanged(at.before))
  {
    if at != log { FinishedCovers(log.before, at); }
  }

  /** What counts as verified about the server was found to be good. */
  lemma {:induction false} VerifiedMeansGood(log: History)
    requires LogOk(log)
    ensures PeerVerified in AsFlow(Shape(log)) ==> PeerOf(log).certificateOk
    ensures KeySigned in AsFlow(Shape(log)) ==> PeerOf(log).keyOk
  {
    if log.Then? { VerifiedMeansGood(log.before); }
  }

  /** At every moment of every run of a full handshake with a server that has a certificate, errors included:
      a ClientKeyExchange is sent only if that certificate is good, and the server's key as well if the cipher
      needs one. */
  lemma KeyExchangeMeansGoodPeer(h: Hs)
    requires Underway(h) && LogOk(h.log) && !h.choices.resumed && h.choices.certAuth
    requires Out(ClientKeyExchange) in AsFlow(Shape(h.log))
    ensures PeerOf(h.log).certificateOk && (h.choices.needsKey ==> PeerOf(h.log).keyOk)
  {
    var f := AsFlow(Shape(h.log));
    NoKeyExchangeBeforeChecks(h);
    VerifiedMeansGood(h.log);
    var i :| 0 <= i < |f| && f[i] == Out(ClientKeyExchange);
    assert PeerVerified in f[..i] && (h.choices.needsKey ==> KeySigned in f[..i]);
  }

  // ---- no dead ends ----

  /** One successful step of the machine, to the state that comes next */
  ghost predicate Moves(v: Hs, w: Hs) {
    var all :=
      && Good(v) && Good(w) && Extends(v.log, w.log) && Rank(w.state, w.session) < Rank(v.state, v.session)
      && v.state < DONE
      && (Stepped(v, w, Ok) || Stepped(v, w, Flush) || Stepped(v, w, ReadChangeCipherSpec))
      && (w.state == Following(v.state, w.session) || (v.state == ENTER_EARLY_DATA && w.state == READ_SERVER_HELLO));
    all
  }

  /** It is what the state's own method promises. */
  ghost predicate Goes(dtls: bool, a: Stage, b: Stage) {
    Moves(a.hs, b.hs) && Does(dtls, a, b)
  }

  function Any(kind: Kind): Message {
    Message(kind, Plain(0))
  }

  lemma HelloOnwards(dtls: bool, v: Hs, expected: bool) returns (w: Hs)
    requires Good(v) && v.state <= READ_SERVER_HELLO
    ensures Moves(v, w) && EarlyStep(dtls, v, w, expected)
  {
    if v.state == START_CONNECT {
      SaysHello(v, true, Any(ClientHello));
      w := GoTo(AddMessage(v.(session := v.session && true), Any(ClientHello)), ENTER_EARLY_DATA, v.choices);
    } else if v.state == ENTER_EARLY_DATA && dtls {
      AwaitsRequest(v);
      w := GoTo(v, READ_HELLO_VERIFY_REQUEST, v.choices);
    } else if v.state <= READ_HELLO_VERIFY_REQUEST {
      AwaitsHello(v);
      w := GoTo(v, READ_SERVER_HELLO, v.choices.(cookie := false));
    } else {
      w := ServerHelloOnwards(v);
    }
  }

  lemma ServerHelloOnwards(v: Hs) returns (w: Hs)
    requires Good(v) && v.state == READ_SERVER_HELLO
    ensures Moves(v, w) && ReadsServerHello(v, w)
  {
    var d := Settle(v.choices, false, true, true, false, false);
    HearsHello(v, false, false, Any(ServerHello), d);
    Heard(v, false, false, Any(ServerHello), d);
    w := GoTo(Hear(v, false, false, true, Any(ServerHello)), AfterHello(false), d);
  }

  lemma ServerOnwards(dtls: bool, v: Hs, expected: bool) returns (w: Hs)
    requires Good(v) && READ_SERVER_CERTIFICATE <= v.state <= READ_SERVER_HELLO_DONE
    requires PeerOf(v.log) == Peer(true, true)
    ensures Moves(v, w) && EarlyStep(dtls, v, w, expected)
  {
    if v.state == READ_SERVER_CERTIFICATE {
      w := CertificateOnwards(v);
    } else if v.state == READ_CERTIFICATE_STATUS {
      NoStatus(v);
      w := GoTo(v, VERIFY_SERVER_CERTIFICATE, v.choices.(status := false));
    } else if v.state == VERIFY_SERVER_CERTIFICATE {
      w := VerifyOnwards(v);
    } else if v.state == READ_SERVER_KEY_EXCHANGE {
      w := KeyOnwards(v);
    } else if v.state == READ_CERTIFICATE_REQUEST {
      w := RequestOnwards(v);
    } else {
      w := DoneOnwards(v);
    }
  }

  lemma CertificateOnwards(v: Hs) returns (w: Hs)
    requires Good(v) && v.state == READ_SERVER_CERTIFICATE
    ensures Moves(v, w) && ReadsServerCertificate(v, w)
  {
    if v.choices.certAuth {
      Takes(v, Any(Certificate), READ_CERTIFICATE_STATUS, v.choices);
      w := GoTo(NextMessage(Update(v, Any(Certificate)), Any(Certificate)), READ_CERTIFICATE_STATUS, v.choices);
    } else {
      Skips(v, v, READ_CERTIFICATE_STATUS, v.choices);
      w := GoTo(v, READ_CERTIFICATE_STATUS, v.choices);
    }
  }

  lemma VerifyOnwards(v: Hs) returns (w: Hs)
    requires Good(v) && v.state == VERIFY_SERVER_CERTIFICATE && PeerOf(v.log).certificateOk
    ensures Moves(v, w) && VerifiesServerCertificate(v, w)
  {
    if v.choices.certAuth {
      Verifies(v);
      w := GoTo(Log(v, Did(PeerVerified)), READ_SERVER_KEY_EXCHANGE, v.choices);
    } else {
      Skips(v, v, READ_SERVER_KEY_EXCHANGE, v.choices);
      w := GoTo(v, READ_SERVER_KEY_EXCHANGE, v.choices);
    }
  }

  lemma KeyOnwards(v: Hs) returns (w: Hs)
    requires Good(v) && v.state == READ_SERVER_KEY_EXCHANGE && PeerOf(v.log).keyOk
    ensures Moves(v, w) && ReadsServerKeyExchange(v, w)
  {
    TakesKey(v, Any(ServerKeyExchange));
    w := GoTo(NextMessage(Signed(Update(v, Any(ServerKeyExchange))), Any(ServerKeyExchange)),
              READ_CERTIFICATE_REQUEST, v.choices.(serverKey := true));
  }

  lemma RequestOnwards(v: Hs) returns (w: Hs)
    requires Good(v) && v.state == READ_CERTIFICATE_REQUEST
    ensures Moves(v, w) && ReadsCertificateRequest(v, w)
  {
    var u := if v.choices.certAuth then FreeBuffer(v) else v;
    NotRequested(v, u);
    w := GoTo(u, READ_SERVER_HELLO_DONE, v.choices.(requested := false));
  }

  lemma DoneOnwards(v: Hs) returns (w: Hs)
    requires Good(v) && v.state == READ_SERVER_HELLO_DONE
    ensures Moves(v, w) && ReadsServerHelloDone(v, w)
  {
    var m := Any(ServerHelloDone);
    Takes(v, m, SEND_CLIENT_CERTIFICATE, v.choices);
    w := GoTo(NextMessage(Update(v, m), m), SEND_CLIENT_CERTIFICATE, v.choices);
  }

  lemma ClientOnwards(v: Hs, expected: bool) returns (w: Hs)
    requires Good(v) && SEND_CLIENT_CERTIFICATE <= v.state <= SEND_CLIENT_FINISHED
    ensures Moves(v, w) && LateStep(v, w, expected)
  {
    if v.state == SEND_CLIENT_CERTIFICATE {
      w := AnswerOnwards(v);
    } else if v.state == SEND_CLIENT_KEY_EXCHANGE {
      w := KeysOnwards(v);
    } else if v.state == SEND_CLIENT_CERTIFICATE_VERIFY {
      w := ProofOnwards(v);
    } else {
      w := SendOnwards(v);
    }
  }

  /** As the request and the client's certificate demand */
  lemma AnswerOnwards(v: Hs) returns (w: Hs)
    requires Good(v) && v.state == SEND_CLIENT_CERTIFICATE
    ensures Moves(v, w) && SendsClientCertificate(v, w)
  {
    var u := if v.choices.requested && !v.hasCertificate then FreeBuffer(v) else v;
    assert v.(hasCertificate := v.hasCertificate) == v;
    if v.choices.requested && (v.hasCertificate || !v.ssl3) {
      Answers(v, u, Any(Certificate));
      w := GoTo(AddMessage(u, Any(Certificate)), SEND_CLIENT_KEY_EXCHANGE, v.choices.(clientCert := true));
    } else {
      NoAnswer(v, u);
      w := GoTo(u, SEND_CLIENT_KEY_EXCHANGE, v.choices.(clientCert := false));
    }
  }

  lemma KeysOnwards(v: Hs) returns (w: Hs)
    requires Good(v) && v.state == SEND_CLIENT_KEY_EXCHANGE
    ensures Moves(v, w) && SendsClientKeyExchange(v, w)
  {
    GivesKeys(v, Any(ClientKeyExchange));
    w := GoTo(AddMessage(v, Any(ClientKeyExchange)), SEND_CLIENT_CERTIFICATE_VERIFY, v.choices);
  }

  /** A client that was asked and has a certificate proves it. */
  lemma ProofOnwards(v: Hs) returns (w: Hs)
    requires Good(v) && v.state == SEND_CLIENT_CERTIFICATE_VERIFY
    ensures Moves(v, w) && SendsCertificateVerify(v, w)
  {
    if v.choices.requested && v.hasCertificate {
      var m := Message(CertificateVerify, Signature(HashOf(v)));
      Proves(v, m);
      w := FreeBuffer(GoTo(AddMessage(v, m), SEND_CLIENT_FINISHED, v.choices.(proved := true)));
    } else {
      NoProof(v);
      w := GoTo(v, SEND_CLIENT_FINISHED, v.choices.(proved := false));
    }
  }

  lemma SendOnwards(v: Hs) returns (w: Hs)
    requires Good(v) && v.state == SEND_CLIENT_FINISHED
    ensures Moves(v, w) && SendsFinished(v, w)
  {
    Finishes(v, Any(NextProto), Any(ChannelId));
    SameOtherwise(v, Any(NextProto), Any(ChannelId));
    FinishedSent(v, Any(NextProto), Any(ChannelId));
    w := Finish(BeforeFinished(v, Any(NextProto), Any(ChannelId)));
  }

  lemma FinishOnwards(v: Hs, expected: bool) returns (w: Hs)
    requires Good(v) && FINISH_FLIGHT <= v.state < DONE
    ensures Moves(v, w) && LateStep(v, w, expected)
  {
    if v.state == FINISH_FLIGHT {
      w := FlightOnwards(v);
    } else if v.state == READ_SESSION_TICKET {
      w := TicketOnwards(v, expected);
    } else if v.state == PROCESS_CHANGE_CIPHER_SPEC {
      w := ChangeOnwards(v);
    } else if v.state == READ_SERVER_FINISHED {
      w := VerifyFinishedOnwards(v);
    } else {
      Skips(v, v, DONE, v.choices);
      w := GoTo(v, DONE, v.choices);
    }
  }

  lemma FlightOnwards(v: Hs) returns (w: Hs)
    requires Good(v) && v.state == FINISH_FLIGHT
    ensures Moves(v, w) && FinishesFlight(v, w)
  {
    if v.session {
      Skips(v, v, FINISH_CLIENT_HANDSHAKE, v.choices);
      w := GoTo(v, FINISH_CLIENT_HANDSHAKE, v.choices);
    } else {
      Skips(v, v, READ_SESSION_TICKET, v.choices);
      w := GoTo(v, READ_SESSION_TICKET, v.choices);
    }
  }

  lemma TicketOnwards(v: Hs, expected: bool) returns (w: Hs)
    requires Good(v) && v.state == READ_SESSION_TICKET
    ensures Moves(v, w) && ReadsSessionTicket(expected, v, w)
  {
    if expected {
      var m := Any(NewSessionTicket);
      TakesTicket(v, m);
      w := GoTo(NextMessage(Update(v, m), m), PROCESS_CHANGE_CIPHER_SPEC, v.choices.(ticket := true));
    } else {
      NoTicket(v);
      w := GoTo(v, PROCESS_CHANGE_CIPHER_SPEC, v.choices.(ticket := false));
    }
  }

  lemma ChangeOnwards(v: Hs) returns (w: Hs)
    requires Good(v) && v.state == PROCESS_CHANGE_CIPHER_SPEC
    ensures Moves(v, w) && ProcessesChangeCipherSpec(Log(v, Did(InChange)), w)
  {
    var u := Log(v, Did(InChange));
    assert u.(log := u.log.before) == v;
    ChangesReadKeys(u);
    w := GoTo(Log(u, Did(ReadKeys)), READ_SERVER_FINISHED, v.choices);
    Logs(v, v, Did(InChange));
    ExtendsTransitive(v.log, u.log, w.log);
    assert Stepped(v, w, Ok);
  }

  lemma VerifyFinishedOnwards(v: Hs) returns (w: Hs)
    requires Good(v) && v.state == READ_SERVER_FINISHED
    ensures Moves(v, w) && ReadsServerFinished(v, w)
  {
    var m := Message(Finished, Mac(false, HashOf(v)));
    TakesFinished(v, m);
    w := GoTo(NextMessage(Update(v, m), m), AfterFinished(v.session), v.choices);
  }

  /** A path of successful steps */
  ghost predicate Path(dtls: bool, path: seq<Stage>) {
    forall i :: 0 <= i < |path| - 1 ==> Goes(dtls, path[i], path[i + 1])
  }

  lemma PathGrows(dtls: bool, a: Stage, rest: seq<Stage>)
    requires rest != [] && Goes(dtls, a, rest[0]) && Path(dtls, rest)
    ensures Path(dtls, [a] + rest)
  {
    forall i | 0 <= i < |[a] + rest| - 1 ensures Goes(dtls, ([a] + rest)[i], ([a] + rest)[i + 1]) {
      if i > 0 { assert Goes(dtls, rest[i - 1], rest[i]); }
    }
  }

  lemma OneOnwards(dtls: bool, a: Stage) returns (b: Stage)
    requires Good(a.hs) && a.hs.state < DONE && PeerOf(a.hs.log) == Peer(true, true)
    ensures Goes(dtls, a, b)
  {
    var v, w := a.hs, a.hs;
    if v.state <= READ_SERVER_HELLO {
      w := HelloOnwards(dtls, v, a.statusExpected);
    } else if v.state <= READ_SERVER_HELLO_DONE {
      w := ServerOnwards(dtls, v, a.statusExpected);
    } else if v.state <= SEND_CLIENT_FINISHED {
      w := ClientOnwards(v, a.ticketExpected);
    } else {
      w := FinishOnwards(v, a.ticketExpected);
    }
    b := a.(hs := w);
  }

  /** With a good server there is from every state that a run can be in a path to the end, by steps that are
      the state methods' own, whatever was announced and whichever certificate the client has: there is no
      dead end. */
  lemma {:induction false} CanFinish(dtls: bool, a: Stage) returns (path: seq<Stage>)
    requires Good(a.hs) && PeerOf(a.hs.log) == Peer(true, true)
    ensures path != [] && path[0] == a && path[|path| - 1].hs.state == DONE && Good(path[|path| - 1].hs)
    ensures Path(dtls, path)
    decreases Rank(a.hs.state, a.hs.session)
  {
    if a.hs.state == DONE {
      path := [a];
    } else {
      var b := OneOnwards(dtls, a);
      SamePeer(a.hs.log, b.hs.log);
      var rest := CanFinish(dtls, b);
      PathGrows(dtls, a, rest);
      path := [a] + rest;
    }
  }
}
