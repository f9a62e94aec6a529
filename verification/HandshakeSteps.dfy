/** What each state of the client does when it is done: the exact state it leads to, up to what the two
    sides choose.  The state methods promise it, and paths of the machine are made of it. */
module HandshakeSteps {
  import opened Basics
  import opened HandshakeFlow
  import opened ClientHandshake

  /** The handshake's fields, and what the ServerHello announced. */
  datatype Stage = Stage(hs: Hs, ticketExpected: bool, statusExpected: bool)

  /** A message of the kind was hashed and consumed. */
  ghost predicate Took(v: Hs, w: Hs, kind: Kind, t: State, d: Choices) {
    var all :=
      && w.log.Then? && w.log.last.Received? && w.log.last.msg.kind == kind
      && w == GoTo(NextMessage(Update(v, w.log.last.msg), w.log.last.msg), t, d);
    all
  }

  /** A message of the kind was sent. */
  ghost predicate Gave(v: Hs, w: Hs, kind: Kind, t: State, d: Choices) {
    var all :=
      && w.log.Then? && w.log.last.Sent? && w.log.last.msg.kind == kind
      && w == GoTo(AddMessage(v, w.log.last.msg), t, d);
    all
  }

  ghost predicate StartsConnect(v: Hs, w: Hs) {
    (w.session ==> v.session) && Gave(v.(session := w.session), w, ClientHello, ENTER_EARLY_DATA, v.choices)
  }

  ghost predicate EntersEarlyData(dtls: bool, v: Hs, w: Hs) {
    if dtls then w == GoTo(v, READ_HELLO_VERIFY_REQUEST, v.choices)
    else w == GoTo(v, READ_SERVER_HELLO, v.choices.(cookie := false))
  }

  /** Without a HelloVerifyRequest, or after one with a second ClientHello. */
  ghost predicate ReadsHelloVerifyRequest(v: Hs, w: Hs) {
    if w.choices.cookie then
      && w.log.Then? && w.log.before.Then? && w.log.before.last.Received?
      && w.log.before.last.msg.kind == HelloVerifyRequest
      && Gave(Restart(NextMessage(v, w.log.before.last.msg)), w, ClientHello, READ_SERVER_HELLO,
              v.choices.(cookie := true))
    else w == GoTo(v, READ_SERVER_HELLO, v.choices.(cookie := false))
  }

  /** The server chooses; it resumes a session only if one was offered. */
  ghost predicate ReadsServerHello(v: Hs, w: Hs) {
    var c := w.choices;
    var all :=
      && w.log.Then? && w.log.last.Received? && w.log.last.msg.kind == ServerHello
      && (w.session ==> v.session)
      && c == Settle(v.choices, w.session, c.certAuth, c.needsKey, c.nextProto, c.channelId)
      && w == GoTo(Hear(v, w.session, w.ssl3, c.certAuth, w.log.last.msg), AfterHello(w.session), c);
    all
  }

  lemma Heard(v: Hs, session: bool, ssl3: bool, m: Message, d: Choices)
    requires m.kind == ServerHello && (session ==> v.session)
    requires d == Settle(v.choices, session, d.certAuth, d.needsKey, d.nextProto, d.channelId)
    ensures ReadsServerHello(v, GoTo(Hear(v, session, ssl3, d.certAuth, m), AfterHello(session), d))
  {
  }

  ghost predicate ReadsServerCertificate(v: Hs, w: Hs) {
    if v.choices.certAuth then Took(v, w, Certificate, READ_CERTIFICATE_STATUS, v.choices)
    else w == GoTo(v, READ_CERTIFICATE_STATUS, v.choices)
  }

  ghost predicate ReadsCertificateStatus(expected: bool, v: Hs, w: Hs) {
    if w.choices.status then
      expected && Took(v, w, CertificateStatus, VERIFY_SERVER_CERTIFICATE, v.choices.(status := true))
    else w == GoTo(v, VERIFY_SERVER_CERTIFICATE, v.choices.(status := false))
  }

  ghost predicate VerifiesServerCertificate(v: Hs, w: Hs) {
    w == GoTo(if v.choices.certAuth then Log(v, Did(PeerVerified)) else v, READ_SERVER_KEY_EXCHANGE, v.choices)
  }

  /** A cipher that needs the server's key does not do without it. */
  ghost predicate ReadsServerKeyExchange(v: Hs, w: Hs) {
    if w.choices.serverKey then
      && w.log.Then? && w.log.last.Received? && w.log.last.msg.kind == ServerKeyExchange
      && w == GoTo(NextMessage(Signed(Update(v, w.log.last.msg)), w.log.last.msg), READ_CERTIFICATE_REQUEST,
                   v.choices.(serverKey := true))
    else !v.choices.needsKey && w == GoTo(v, READ_CERTIFICATE_REQUEST, v.choices.(serverKey := false))
  }

  /** Without a request the buffer goes, if there still is one. */
  ghost predicate ReadsCertificateRequest(v: Hs, w: Hs) {
    if w.choices.requested then
      v.choices.certAuth && Took(v, w, CertificateRequest, READ_SERVER_HELLO_DONE, v.choices.(requested := true))
    else
      w == GoTo(if v.choices.certAuth then FreeBuffer(v) else v, READ_SERVER_HELLO_DONE,
                v.choices.(requested := false))
  }

  ghost predicate ReadsServerHelloDone(v: Hs, w: Hs) {
    Took(v, w, ServerHelloDone, SEND_CLIENT_CERTIFICATE, v.choices)
  }

  /** A request is answered with a Certificate, empty if there is none, but not in SSL 3.0 without one.  The
      application may still change its certificate. */
  ghost predicate SendsClientCertificate(v: Hs, w: Hs) {
    var without, given := v.choices.(clientCert := false), v.choices.(clientCert := true);
    var u := v.(hasCertificate := w.hasCertificate);
    if !v.choices.requested then w == GoTo(v, SEND_CLIENT_KEY_EXCHANGE, without)
    else if w.hasCertificate then Gave(u, w, Certificate, SEND_CLIENT_KEY_EXCHANGE, given)
    else if v.ssl3 then w == GoTo(FreeBuffer(u), SEND_CLIENT_KEY_EXCHANGE, without)
    else Gave(FreeBuffer(u), w, Certificate, SEND_CLIENT_KEY_EXCHANGE, given)
  }

  ghost predicate SendsClientKeyExchange(v: Hs, w: Hs) {
    Gave(v, w, ClientKeyExchange, SEND_CLIENT_CERTIFICATE_VERIFY, v.choices)
  }

  /** A client that was asked and has a certificate proves it, and no other does. */
  ghost predicate SendsCertificateVerify(v: Hs, w: Hs) {
    if v.choices.requested && v.hasCertificate then
      w == FreeBuffer(GoTo(AddMessage(v, Message(CertificateVerify, Signature(HashOf(v)))), SEND_CLIENT_FINISHED,
                           v.choices.(proved := true)))
    else w == GoTo(v, SEND_CLIENT_FINISHED, v.choices.(proved := false))
  }

  ghost predicate SendsFinished(v: Hs, w: Hs) {
    exists proto: Message, id: Message ::
      proto.kind == NextProto && id.kind == ChannelId && w == Finish(BeforeFinished(v, proto, id))
  }

  lemma FinishedSent(v: Hs, proto: Message, id: Message)
    requires proto.kind == NextProto && id.kind == ChannelId
    ensures SendsFinished(v, Finish(BeforeFinished(v, proto, id)))
  {
  }

  ghost predicate FinishesFlight(v: Hs, w: Hs) {
    w == GoTo(v, if v.session then FINISH_CLIENT_HANDSHAKE else READ_SESSION_TICKET, v.choices)
  }

  /** A ticket is read exactly when one was announced. */
  ghost predicate ReadsSessionTicket(expected: bool, v: Hs, w: Hs) {
    if expected then Took(v, w, NewSessionTicket, PROCESS_CHANGE_CIPHER_SPEC, v.choices.(ticket := true))
    else w == GoTo(v, PROCESS_CHANGE_CIPHER_SPEC, v.choices.(ticket := false))
  }

  /** From the state in which the ChangeCipherSpec was opened. */
  ghost predicate ProcessesChangeCipherSpec(v: Hs, w: Hs) {
    w == GoTo(Log(v, Did(ReadKeys)), READ_SERVER_FINISHED, v.choices)
  }

  ghost predicate ReadsServerFinished(v: Hs, w: Hs) {
    Took(v, w, Finished, AfterFinished(v.session), v.choices) && EventOk(v.log, w.log.last)
  }

  ghost predicate FinishesHandshake(v: Hs, w: Hs) {
    w == GoTo(v, DONE, v.choices)
  }

  // ---- a step of the machine ----

  ghost predicate EarlyStep(dtls: bool, v: Hs, w: Hs, statusExpected: bool) {
    var all :=
      && (v.state == START_CONNECT ==> StartsConnect(v, w))
      && (v.state == ENTER_EARLY_DATA ==> EntersEarlyData(dtls, v, w))
      && (v.state == READ_HELLO_VERIFY_REQUEST ==> ReadsHelloVerifyRequest(v, w))
      && (v.state == READ_SERVER_HELLO ==> ReadsServerHello(v, w))
      && (v.state == READ_SERVER_CERTIFICATE ==> ReadsServerCertificate(v, w))
      && (v.state == READ_CERTIFICATE_STATUS ==> ReadsCertificateStatus(statusExpected, v, w))
      && (v.state == VERIFY_SERVER_CERTIFICATE ==> VerifiesServerCertificate(v, w))
      && (v.state == READ_SERVER_KEY_EXCHANGE ==> ReadsServerKeyExchange(v, w))
      && (v.state == READ_CERTIFICATE_REQUEST ==> ReadsCertificateRequest(v, w))
      && (v.state == READ_SERVER_HELLO_DONE ==> ReadsServerHelloDone(v, w));
    all
  }

  ghost predicate LateStep(v: Hs, w: Hs, ticketExpected: bool) {
    var all :=
      && (v.state == SEND_CLIENT_CERTIFICATE ==> SendsClientCertificate(v, w))
      && (v.state == SEND_CLIENT_KEY_EXCHANGE ==> SendsClientKeyExchange(v, w))
      && (v.state == SEND_CLIENT_CERTIFICATE_VERIFY ==> SendsCertificateVerify(v, w))
      && (v.state == SEND_CLIENT_FINISHED ==> SendsFinished(v, w))
      && (v.state == FINISH_FLIGHT ==> FinishesFlight(v, w))
      && (v.state == READ_SESSION_TICKET ==> ReadsSessionTicket(ticketExpected, v, w))
      && (v.state == PROCESS_CHANGE_CIPHER_SPEC ==> ProcessesChangeCipherSpec(Log(v, Did(InChange)), w))
      && (v.state == READ_SERVER_FINISHED ==> ReadsServerFinished(v, w))
      && (v.state == FINISH_CLIENT_HANDSHAKE ==> FinishesHandshake(v, w));
    all
  }

  /** What was announced changes only with the ServerHello; a ticket that was read is no more expected or
      the next one is. */
  ghost predicate Does(dtls: bool, a: Stage, b: Stage) {
    && (if a.hs.state <= READ_SERVER_HELLO_DONE then EarlyStep(dtls, a.hs, b.hs, a.statusExpected)
        else LateStep(a.hs, b.hs, a.ticketExpected))
    && (a.hs.state != READ_SERVER_HELLO ==> b.statusExpected == a.statusExpected)
    && (a.hs.state != READ_SERVER_HELLO && a.hs.state != READ_SESSION_TICKET ==> b.ticketExpected == a.ticketExpected)
  }
}
