/** The client handshake as the library runs it: one method for every state, the loop over the states,
    and the loop that waits for the transport.  `*` stands for what the two sides choose, and `Works` for
    whatever parsing, callbacks and signing answer. */
module ClientMachine {
  import opened Basics
  import opened HandshakeFlow
  import opened ClientHandshake
  import opened HandshakeSteps
  import opened HandshakeRuns

  /** What the transport answers: nothing that helps, a record to be skipped, or a record that counts (or the
      flight is flushed); and the messages that become complete with it. */
  datatype Answer = Blocked | Retry | Success

  /** Whether the client speaks DTLS, and whether nothing ever fails inside it and the application answers
      each time it is asked */
  datatype Setting = Setting(dtls: bool, smooth: bool)

  datatype Io = Io(answer: Answer, arrived: seq<Message>)

  /** No message arrives while a flight is flushed.  Whoever waits for the ChangeCipherSpec still reads
      handshake records in DTLS, and not in TLS. */
  function Arrivals(dtls: bool, wait: Wait, io: Io): seq<Message> {
    if wait.Flush? || (wait.ReadChangeCipherSpec? && (!dtls || io.answer.Success?)) then [] else io.arrived
  }

  predicate AsksTransport(w: Wait) {
    w.Flush? || w.ReadMessage? || w.ReadHello? || w.ReadChangeCipherSpec?
  }

  predicate AsksApplication(w: Wait) {
    w.X509Lookup? || w.ChannelIdLookup? || w.PrivateKeyOperation? || w.CertificateVerification?
  }

  /** What a client refuses, when nothing fails inside it: a message that the flow does not have in its state,
      a bad certificate or key, a Finished that is not over the transcript, and messages that are left over
      when the read keys change. */
  ghost predicate Refuses(h: Hs, queue: seq<Message>) {
    if h.state == VERIFY_SERVER_CERTIFICATE then h.choices.certAuth && !PeerOf(h.log).certificateOk
    else queue != [] && RefusesMessage(h, queue[0])
  }

  ghost predicate RefusesMessage(h: Hs, msg: Message) {
    var s, c, k := h.state, h.choices, msg.kind;
    || (s == READ_SERVER_HELLO && k != ServerHello)
    || (s == READ_SERVER_CERTIFICATE && c.certAuth && k != Certificate)
    || (s == READ_SERVER_KEY_EXCHANGE &&
        if k == ServerKeyExchange then c.certAuth && !PeerOf(h.log).keyOk else c.needsKey)
    || (s == READ_CERTIFICATE_REQUEST && c.certAuth && k != CertificateRequest && k != ServerHelloDone)
    || (s == READ_SERVER_HELLO_DONE && k != ServerHelloDone)
    || (s == READ_SESSION_TICKET && k != NewSessionTicket)
    || s == PROCESS_CHANGE_CIPHER_SPEC
    || (s == READ_SERVER_FINISHED && (k != Finished || msg.body != Mac(false, Exchanged(h.log))))
  }

  // ---- what a call does, turn by turn ----

  /** A point in a call: the fields, and how many answers of the transport were used */
  datatype Moment = Moment(hs: Hs, wait: Wait, queue: seq<Message>, used: nat)

  /** The machine was run.  It came nearer to the end unless it has to be tried again, and it asks for a
      message only when it has none; so with a message at hand it came nearer, or failed.  It fails only if
      something does inside it, or for what it refuses. */
  ghost predicate MachineRan(how: Setting, a: Moment, b: Moment) {
    var all :=
      && (how.smooth ==> !AsksApplication(b.wait) && (b.wait.Error? ==> Refuses(b.hs, b.queue)))
      && Ran(a.hs, b.hs, b.wait) && Taken(b.hs.log) + b.queue == Taken(a.hs.log) + a.queue && b.used == a.used
      && (!b.wait.Error? ==>
            && Rank(b.hs.state, b.hs.session) <= Rank(a.hs.state, a.hs.session)
            && (b.wait.Flush? || b.wait.ReadChangeCipherSpec? || b.wait.EarlyReturn? ==>
                  Rank(b.hs.state, b.hs.session) < Rank(a.hs.state, a.hs.session))
            && (b.wait.ReadMessage? || b.wait.ReadHello? ==>
                  && b.queue == []
                  && (a.queue != [] ==> Rank(b.hs.state, b.hs.session) < Rank(a.hs.state, a.hs.session))));
    all
  }

  /** The transport answered: what arrived is in the queue, and an awaited ChangeCipherSpec in the log. */
  function Answered(dtls: bool, a: Moment, io: Io): Moment {
    a.(queue := a.queue + Arrivals(dtls, a.wait, io), used := a.used + 1,
       hs := if io.answer.Success? && a.wait.ReadChangeCipherSpec? then Log(a.hs, Did(InChange)) else a.hs)
  }

  /** The call uses an answer of the transport when it waits for one.  That it is blocked is the last. */
  ghost predicate Uses(io: seq<Io>, a: Moment, b: Moment) {
    if a.wait.Ok? then b.used == a.used
    else AsksTransport(a.wait) && a.used < |io| && !io[a.used].answer.Blocked? && b.used == a.used + 1
  }

  /** The call goes on: the machine runs when nothing is waited for any more, and a record that is to be
      skipped is followed by the next answer. */
  ghost predicate Turn(how: Setting, io: seq<Io>, a: Moment, b: Moment) {
    var all :=
      if a.wait.Ok? then MachineRan(how, a, b)
      else
        && AsksTransport(a.wait) && a.used < |io|
        && match io[a.used].answer
           case Blocked => false
           case Retry => b == Answered(how.dtls, a, io[a.used])
           case Success => MachineRan(how, Answered(how.dtls, a, io[a.used]), b);
    all
  }

  /** The call is over: after an error, when the application is asked for something or may go on early, when
      the handshake is done, or when the transport blocks or has no answer left. */
  ghost predicate Over(how: Setting, io: seq<Io>, a: Moment, ret: int, earlyReturn: bool, b: Moment) {
    var all :=
      if a.wait.Error? then ret == -1 && !earlyReturn && b == a
      else if a.wait.EarlyReturn? then ret == 1 && earlyReturn && b == a.(wait := Ok)
      else if AsksApplication(a.wait) then ret == -1 && !earlyReturn && b == a.(wait := Ok)
      else if a.wait.Ok? then ret == 1 && !earlyReturn && b == a && Completed(a.hs)
      else
        && ret == -1 && !earlyReturn
        && if a.used < |io| then io[a.used].answer.Blocked? && b == Answered(how.dtls, a, io[a.used]) else b == a;
    all
  }

  lemma CompletedIsOver(how: Setting, io: seq<Io>, a: Moment)
    requires a.wait.Ok? && Completed(a.hs)
    ensures Over(how, io, a, 1, false, a)
  {
  }

  /** The moments of a call, the last one outermost */
  datatype Course = Begun(now: Moment) | Later(before: Course, now: Moment)

  function Beginning(c: Course): Moment {
    if c.Begun? then c.now else Beginning(c.before)
  }

  /** Every moment comes from the one before by a turn; a machine that is done is not run again. */
  ghost predicate Turns(how: Setting, io: seq<Io>, c: Course) {
    c.Later? ==>
      Turns(how, io, c.before) && Turn(how, io, c.before.now, c.now) && (c.before.now.wait.Ok? ==> c.before.Begun?)
  }

  /** The answers are used one after the other. */
  ghost predicate Counted(io: seq<Io>, c: Course) {
    c.Later? ==> Counted(io, c.before) && Uses(io, c.before.now, c.now)
  }

  // ---- what that means ----

  /** A call that ends with -1, without an error and without asking the application, has used up what the
      transport answered, or the last answer was that it is blocked.  No answer before was. */
  lemma OnlyTransportStops(how: Setting, io: seq<Io>, c: Course, ret: int, early: bool, b: Moment)
    requires Counted(io, c) && Beginning(c).used == 0 && Over(how, io, c.now, ret, early, b)
    ensures b.used <= |io| && (b.used > 0 ==> Unblocked(io, b.used - 1))
    ensures ret == -1 && AsksTransport(b.wait) ==> b.used == |io| || (b.used > 0 && io[b.used - 1].answer.Blocked?)
    ensures ret == -1 && !AsksTransport(b.wait) ==> b.wait.Error? || AsksApplication(c.now.wait)
  {
    UsedUnblocked(io, c);
  }

  lemma {:induction false} UsedUnblocked(io: seq<Io>, c: Course)
    requires Counted(io, c) && Beginning(c).used == 0
    ensures Unblocked(io, c.now.used)
  {
    if c.Later? { UsedUnblocked(io, c.before); }
  }

  /** None of the first n answers is that the transport is blocked. */
  ghost predicate Unblocked(io: seq<Io>, n: nat) {
    var all := n <= |io| && forall i :: 0 <= i < n ==> !io[i].answer.Blocked?;
    all
  }

  /** How much there is left to do, with half a step for what the machine does before it asks again */
  function Work(m: Moment): nat {
    2 * Rank(m.hs.state, m.hs.session) + if m.wait.ReadMessage? || m.wait.ReadHello? then 0 else 1
  }

  /** The transport succeeds each time it is asked, and a record that is read completes a message. */
  ghost predicate Helpful(io: seq<Io>) {
    forall i :: 0 <= i < |io| ==> io[i].answer.Success? && io[i].arrived != []
  }

  lemma TurnWorks(how: Setting, io: seq<Io>, a: Moment, b: Moment)
    requires Turn(how, io, a, b) && Helpful(io)
    ensures b.used <= a.used + 1 && (a.wait.Ok? ==> b.used == a.used)
    ensures AsksTransport(b.wait) ==> Work(b) + b.used <= Work(a) + a.used
  {
  }

  lemma {:induction false} AnswersUsed(how: Setting, io: seq<Io>, c: Course)
    requires Turns(how, io, c) && Beginning(c).used == 0 && Helpful(io)
    ensures c.now.used <= Work(Beginning(c)) + 1
    ensures AsksTransport(c.now.wait) || c.Begun? ==> Work(c.now) + c.now.used <= Work(Beginning(c))
  {
    if c.Later? {
      AnswersUsed(how, io, c.before);
      TurnWorks(how, io, c.before.now, c.now);
    }
  }

  lemma TurnSmooth(how: Setting, io: seq<Io>, a: Moment, b: Moment)
    requires Turn(how, io, a, b) && how.smooth
    ensures !AsksApplication(b.wait) && (b.wait.Error? ==> Refuses(b.hs, b.queue))
  {
  }

  /** Against a transport that answers, a call is over within forty answers for a reason of its own: the
      handshake is done or has failed, or it is the application's turn.  When nothing fails inside the client,
      it is done (or the application may go on early), unless the server sent something to be refused. */
  lemma AnsweredCallsEnd(how: Setting, io: seq<Io>, c: Course, ret: int, early: bool, b: Moment)
    requires Turns(how, io, c) && Beginning(c).used == 0 && Over(how, io, c.now, ret, early, b)
    requires Helpful(io) && |io| > 40
    ensures b.used <= 40 && (ret == 1 || b.wait.Error? || AsksApplication(c.now.wait))
    ensures how.smooth && !Beginning(c).wait.Error? && !AsksApplication(Beginning(c).wait) ==>
              ret == 1 || Refuses(b.hs, b.queue)
  {
    AnswersUsed(how, io, c);
    if c.Later? && how.smooth { TurnSmooth(how, io, c.before.now, c.now); }
  }

  lemma {:induction false} TurnsExtend(how: Setting, io: seq<Io>, c: Course)
    requires Turns(how, io, c)
    ensures Extends(Beginning(c).hs.log, c.now.hs.log)
    ensures Taken(Beginning(c).hs.log) + Beginning(c).queue <= Taken(c.now.hs.log) + c.now.queue
  {
    if c.Later? {
      TurnsExtend(how, io, c.before);
      TurnExtends(how, io, c.before.now, c.now);
      ExtendsTransitive(Beginning(c).hs.log, c.before.now.hs.log, c.now.hs.log);
    }
  }

  lemma TurnExtends(how: Setting, io: seq<Io>, a: Moment, b: Moment)
    requires Turn(how, io, a, b)
    ensures Extends(a.hs.log, b.hs.log) && Taken(a.hs.log) + a.queue <= Taken(b.hs.log) + b.queue
  {
    if !a.wait.Ok? {
      var c := Answered(how.dtls, a, io[a.used]);
      assert Extends(a.hs.log, c.hs.log) && Taken(c.hs.log) == Taken(a.hs.log);
      if io[a.used].answer.Success? { ExtendsTransitive(a.hs.log, c.hs.log, b.hs.log); }
    }
  }

  lemma {:induction false} ErrorStays(how: Setting, io: seq<Io>, c: Course)
    requires Turns(how, io, c) && Beginning(c).wait.Error?
    ensures c.Begun?
  {
    if c.Later? { ErrorStays(how, io, c.before); }
  }

  /** A call loses nothing of what was exchanged or arrived; after an error it does nothing; and 1 without an
      early return means a finished handshake. */
  lemma CallKeeps(how: Setting, io: seq<Io>, c: Course, ret: int, early: bool, b: Moment)
    requires Turns(how, io, c) && Over(how, io, c.now, ret, early, b)
    ensures Extends(Beginning(c).hs.log, b.hs.log)
    ensures Taken(Beginning(c).hs.log) + Beginning(c).queue <= Taken(b.hs.log) + b.queue
    ensures Beginning(c).wait.Error? ==> ret == -1 && b == Beginning(c)
    ensures ret == 1 && !early ==> b.wait.Ok? && Completed(b.hs)
  {
    TurnsExtend(how, io, c);
    if Beginning(c).wait.Error? { ErrorStays(how, io, c); }
    assert b.hs.log == c.now.hs.log && Taken(c.now.hs.log) + c.now.queue <= Taken(b.hs.log) + b.queue;
  }

  /** All of that, for a call that begins at a and ends at b */
  lemma CallEnds(how: Setting, io: seq<Io>, a: Moment, c: Course, ret: int, early: bool, b: Moment)
    requires Turns(how, io, c) && Counted(io, c) && Beginning(c) == a && a.used == 0
    requires Over(how, io, c.now, ret, early, b)
    ensures b.used <= |io| && Extends(a.hs.log, b.hs.log) && Taken(a.hs.log) + a.queue <= Taken(b.hs.log) + b.queue
    ensures a.wait.Error? ==> ret == -1 && b == a
    ensures ret == 1 && !early ==> b.wait.Ok? && Completed(b.hs)
    ensures ret == -1 && AsksTransport(b.wait) ==> b.used == |io| || (b.used > 0 && io[b.used - 1].answer.Blocked?)
    ensures ret == -1 && !AsksTransport(b.wait) ==> b.wait.Error? || AsksApplication(c.now.wait)
  {
    OnlyTransportStops(how, io, c, ret, early, b);
    CallKeeps(how, io, c, ret, early, b);
  }

  class Client {
    const how: Setting
    const peer: Peer // what verifying the server's certificate and the signature of its key will say
    var hs: Hs
    var wait: Wait
    var queue: seq<Message>
    var initialComplete: bool
    var statusExpected: bool
    var ticketExpected: bool

    /** At every moment what was exchanged is as far into the flow as the state says, errors included; and
        between calls the machine stands still in a good state. */
    ghost predicate Inv()
      reads this
    {
      && LogOk(hs.log) && Underway(hs) && PeerOf(hs.log) == peer
      && (!wait.Error? ==>
            Good(hs) && Resting(hs) && Waits(hs.state, wait))
    }

    constructor (how: Setting, peer: Peer, session: bool, initialComplete: bool, hasCertificate: bool)
      ensures Inv() && hs.state == START_CONNECT && wait.Ok? && this.peer == peer && hs.log == Start(peer)
    {
      this.how, this.peer, this.initialComplete := how, peer, initialComplete;
      wait, queue, statusExpected, ticketExpected := Ok, [], false, false;
      hs := Hs(START_CONNECT, session, false, hasCertificate, Some(Empty), None,
               Choices(false, false, false, false, false, false, false, false, false, false, false, false),
               Start(peer));
    }

    /** The application installs or removes the client's certificate. */
    method SetCertificate(has: bool)
      requires Inv()
      modifies this`hs
      ensures Inv() && hs == old(hs).(hasCertificate := has)
    {
      Recertified(hs, has);
      hs := hs.(hasCertificate := has);
    }

    /** The messages that arrived: those consumed, and then those still to come */
    ghost function Stream(): seq<Message>
      reads this
    {
      Taken(hs.log) + queue
    }

    /** A step is one of the state machine's, loses and repeats no message that arrived, and waits for one
        only when there is none. */
    twostate predicate Steps(ret: Wait)
      reads this
    {
      var all :=
        && (if ret.Error? then Stopped(old(hs), hs) else Stepped(old(hs), hs, ret))
        && wait == old(wait) && Stream() == old(Stream())
        && (ret.ReadMessage? || ret.ReadHello? ==> queue == [] && hs == old(hs))
        && (how.smooth ==> !AsksApplication(ret) && (ret.Error? ==> Refuses(hs, queue)));
      all
    }

    /** Something that may fail, or that the application may not have an answer to yet */
    method Works() returns (ok: bool)
      ensures how.smooth ==> ok
    {
      ok := *;
      ok := ok || how.smooth;
    }

    method Consume()
      requires queue != []
      modifies this`hs, this`queue
      ensures hs == NextMessage(old(hs), old(queue)[0]) && queue == old(queue)[1..] && Stream() == old(Stream())
    {
      hs := NextMessage(hs, queue[0]);
      assert queue == [queue[0]] + queue[1..];
      queue := queue[1..];
    }

    /** The message is done with, and the next state follows. */
    method Accept(t: State, d: Choices)
      requires queue != []
      modifies this`hs, this`queue
      ensures hs == GoTo(NextMessage(old(hs), old(queue)[0]), t, d) && queue == old(queue)[1..]
      ensures Stream() == old(Stream())
    {
      Consume();
      hs := GoTo(hs, t, d);
    }

    /** The message is hashed and parsed, and then done with. */
    method HashAndAccept(t: State, d: Choices) returns (ok: bool)
      requires queue != []
      modifies this`hs, this`queue
      ensures Stream() == old(Stream())
      ensures ok ==> hs == GoTo(NextMessage(Update(old(hs), old(queue)[0]), old(queue)[0]), t, d)
      ensures !ok ==> hs == Update(old(hs), old(queue)[0]) && !how.smooth
    {
      hs := Update(hs, queue[0]);
      ok := Works();
      if ok {
        Accept(t, d);
      }
    }

    // ---- the states ----

    method DoStartConnect() returns (ret: Wait)
      requires Good(hs) && hs.state == START_CONNECT
      modifies this`hs, this`queue
      ensures Steps(ret)
      ensures ret.Flush? ==> StartsConnect(old(hs), hs)
    {
      var ok := Works();
      var keep: bool, body: nat := *, *;
      SaysHello(hs, keep, Message(ClientHello, Plain(body)));
      hs := hs.(session := hs.session && keep);
      if !ok {
        Fails(old(hs), hs);
        return Error;
      }
      hs := GoTo(AddMessage(hs, Message(ClientHello, Plain(body))), ENTER_EARLY_DATA, hs.choices);
      return Flush;
    }

    method DoEnterEarlyData() returns (ret: Wait)
      requires Good(hs) && hs.state == ENTER_EARLY_DATA
      modifies this`hs, this`queue
      ensures Steps(ret)
      ensures ret.Ok? ==> EntersEarlyData(how.dtls, old(hs), hs)
    {
      if how.dtls {
        AwaitsRequest(hs);
        hs := GoTo(hs, READ_HELLO_VERIFY_REQUEST, hs.choices);
        return Ok;
      }
      AwaitsHello(hs);
      hs := GoTo(hs, READ_SERVER_HELLO, hs.choices.(cookie := false));
      return Ok;
    }

    method DoReadHelloVerifyRequest() returns (ret: Wait)
      requires Good(hs) && hs.state == READ_HELLO_VERIFY_REQUEST
      modifies this`hs, this`queue
      ensures Steps(ret)
      ensures ret.Ok? ==> queue != [] && queue[0].kind != HelloVerifyRequest && !hs.choices.cookie
      ensures ret.Flush? ==> hs.choices.cookie
      ensures ret.Ok? || ret.Flush? ==> ReadsHelloVerifyRequest(old(hs), hs)
    {
      if queue == [] {
        Stays(hs, ReadMessage);
        return ReadMessage;
      }
      var msg := queue[0];
      if msg.kind != HelloVerifyRequest {
        AwaitsHello(hs);
        hs := GoTo(hs, READ_SERVER_HELLO, hs.choices.(cookie := false));
        return Ok;
      }
      var parsed := Works();
      if !parsed {
        Fails(hs, hs);
        return Error;
      }
      ret := AnswerHelloVerifyRequest(msg);
    }

    /** The request is consumed before the new transcript and the second ClientHello can fail. */
    method AnswerHelloVerifyRequest(msg: Message) returns (ret: Wait)
      requires Good(hs) && hs.state == READ_HELLO_VERIFY_REQUEST
      requires queue != [] && msg == queue[0] && msg.kind == HelloVerifyRequest
      modifies this`hs, this`queue
      ensures Steps(ret) && (ret.Flush? || ret.Error?) && hs.choices.cookie && queue == old(queue)[1..]
      ensures ret.Flush? ==> ReadsHelloVerifyRequest(old(hs), hs)
    {
      var reset := Works();
      var written := Works();
      var body: nat := *;
      SaysHelloAgain(hs, msg, Message(ClientHello, Plain(body)));
      var given := hs.choices.(cookie := true);
      Consume();
      hs := hs.(choices := given);
      RequestTaken(old(hs), hs, msg);
      if !reset {
        return Error;
      }
      hs := Restart(hs);
      RequestTaken(old(hs), hs, msg);
      if !written {
        return Error;
      }
      hs := GoTo(AddMessage(hs, Message(ClientHello, Plain(body))), READ_SERVER_HELLO, given);
      return Flush;
    }

    method DoReadServerHello() returns (ret: Wait)
      requires Good(hs) && hs.state == READ_SERVER_HELLO
      modifies this`hs, this`queue, this`ticketExpected, this`statusExpected
      ensures Steps(ret)
      ensures ret.Ok? && hs.session ==> old(hs).session && !initialComplete
      ensures ret.Ok? ==> ReadsServerHello(old(hs), hs)
    {
      if queue == [] {
        Stays(hs, ReadHello);
        return ReadHello;
      }
      var parsed := Works();
      var msg := queue[0];
      if !parsed || msg.kind != ServerHello {
        Fails(hs, hs);
        return Error;
      }
      ret := AcceptServerHello(msg);
    }

    method HashServerHello(msg: Message, session: bool, ssl3: bool, certAuth: bool)
      modifies this`hs
      ensures var u := Update(InitHash(old(hs).(session := session, ssl3 := ssl3)), msg);
              hs == if session || !certAuth then FreeBuffer(u) else u
    {
      hs := InitHash(hs.(session := session, ssl3 := ssl3));
      hs := Update(hs, msg);
      if session || !certAuth {
        hs := FreeBuffer(hs);
      }
    }

    method AcceptServerHello(msg: Message) returns (ret: Wait)
      requires Good(hs) && hs.state == READ_SERVER_HELLO
      requires queue != [] && msg == queue[0] && msg.kind == ServerHello
      modifies this`hs, this`queue, this`ticketExpected, this`statusExpected
      ensures Steps(ret)
      ensures ret.Ok? && hs.session ==> old(hs).session && !initialComplete
      ensures ret.Ok? ==> ReadsServerHello(old(hs), hs)
    {
      var sameId: bool, ssl3: bool, certAuth: bool, needsKey: bool, npn: bool, id: bool := *, *, *, *, *, *;
      var session := !initialComplete && hs.session && sameId;
      ret := KeepServerHello(msg, session, ssl3, Settle(hs.choices, session, certAuth, needsKey, npn, id));
      if ret.Ok? {
        var ticket: bool, status: bool := *, *;
        ticketExpected, statusExpected := ticket, status && certAuth;
      }
    }

    /** Hashes and consumes the ServerHello, unless something in it is wrong. */
    method KeepServerHello(msg: Message, session: bool, ssl3: bool, d: Choices) returns (ret: Wait)
      requires Good(hs) && hs.state == READ_SERVER_HELLO && (session ==> hs.session)
      requires queue != [] && msg == queue[0] && msg.kind == ServerHello
      requires d == Settle(hs.choices, session, d.certAuth, d.needsKey, d.nextProto, d.channelId)
      modifies this`hs, this`queue
      ensures Steps(ret) && (ret.Ok? || ret.Error?)
      ensures ret.Ok? ==> hs == GoTo(Hear(old(hs), session, ssl3, d.certAuth, msg), AfterHello(session), d)
      ensures ret.Ok? ==> ReadsServerHello(old(hs), hs) && hs.session == session
    {
      HearsHello(hs, session, ssl3, msg, d);
      Heard(hs, session, ssl3, msg, d);
      HashServerHello(msg, session, ssl3, d.certAuth);
      var ok := Works();
      if !ok {
        Fails(old(hs), hs);
        return Error;
      }
      Accept(AfterHello(session), d);
      return Ok;
    }

    method DoReadServerCertificate() returns (ret: Wait)
      requires Good(hs) && hs.state == READ_SERVER_CERTIFICATE
      modifies this`hs, this`queue
      ensures Steps(ret)
      ensures ret.Ok? ==> ReadsServerCertificate(old(hs), hs)
    {
      if !hs.choices.certAuth {
        Skips(hs, hs, READ_CERTIFICATE_STATUS, hs.choices);
        hs := GoTo(hs, READ_CERTIFICATE_STATUS, hs.choices);
        return Ok;
      }
      if queue == [] {
        Stays(hs, ReadMessage);
        return ReadMessage;
      }
      var msg := queue[0];
      if msg.kind != Certificate {
        Fails(hs, hs);
        return Error;
      }
      Takes(hs, msg, READ_CERTIFICATE_STATUS, hs.choices);
      var ok := HashAndAccept(READ_CERTIFICATE_STATUS, hs.choices);
      if !ok {
        Fails(old(hs), hs);
        return Error;
      }
      return Ok;
    }

    method DoReadCertificateStatus() returns (ret: Wait)
      requires Good(hs) && hs.state == READ_CERTIFICATE_STATUS
      modifies this`hs, this`queue
      ensures Steps(ret)
      ensures ret.Ok? ==>
                hs.choices.status == (statusExpected && old(queue) != [] && old(queue)[0].kind == CertificateStatus)
      ensures ret.Ok? ==> ReadsCertificateStatus(statusExpected, old(hs), hs)
    {
      if !statusExpected {
        ret := TakeNoStatus();
        return;
      }
      if queue == [] {
        Stays(hs, ReadMessage);
        return ReadMessage;
      }
      if queue[0].kind != CertificateStatus {
        ret := TakeNoStatus();
        return;
      }
      ret := TakeStatus(queue[0]);
    }

    method TakeNoStatus() returns (ret: Wait)
      requires Good(hs) && hs.state == READ_CERTIFICATE_STATUS
      modifies this`hs
      ensures Steps(ret) && ret.Ok? && !hs.choices.status && ReadsCertificateStatus(statusExpected, old(hs), hs)
    {
      NoStatus(hs);
      hs := GoTo(hs, VERIFY_SERVER_CERTIFICATE, hs.choices.(status := false));
      return Ok;
    }

    method TakeStatus(msg: Message) returns (ret: Wait)
      requires Good(hs) && hs.state == READ_CERTIFICATE_STATUS && statusExpected
      requires queue != [] && msg == queue[0] && msg.kind == CertificateStatus
      modifies this`hs, this`queue
      ensures Steps(ret) && (ret.Ok? || ret.Error?)
      ensures ret.Ok? ==> hs.choices.status && ReadsCertificateStatus(true, old(hs), hs)
    {
      TakesStatus(hs, msg);
      var ok := HashAndAccept(VERIFY_SERVER_CERTIFICATE, hs.choices.(status := true));
      if !ok {
        Fails(old(hs), hs);
        return Error;
      }
      return Ok;
    }

    /** The verdict on the certificate may have to be waited for; only a good one enters the log. */
    method DoVerifyServerCertificate() returns (ret: Wait)
      requires Good(hs) && hs.state == VERIFY_SERVER_CERTIFICATE && PeerOf(hs.log) == peer
      modifies this`hs, this`queue
      ensures Steps(ret)
      ensures !ret.Ok? ==> hs == old(hs)
      ensures hs.choices.certAuth ==> (ret.Ok? ==> peer.certificateOk) && (ret.Error? ==> !peer.certificateOk)
      ensures ret.Ok? ==> VerifiesServerCertificate(old(hs), hs)
    {
      if !hs.choices.certAuth {
        Skips(hs, hs, READ_SERVER_KEY_EXCHANGE, hs.choices);
        hs := GoTo(hs, READ_SERVER_KEY_EXCHANGE, hs.choices);
        return Ok;
      }
      var answered := Works();
      if !answered {
        Stays(hs, CertificateVerification);
        return CertificateVerification;
      }
      if !peer.certificateOk {
        Fails(hs, hs);
        return Error;
      }
      Verifies(hs);
      hs := Log(hs, Did(PeerVerified));
      hs := GoTo(hs, READ_SERVER_KEY_EXCHANGE, hs.choices);
      return Ok;
    }

    method DoReadServerKeyExchange() returns (ret: Wait)
      requires Good(hs) && hs.state == READ_SERVER_KEY_EXCHANGE && PeerOf(hs.log) == peer
      modifies this`hs, this`queue
      ensures Steps(ret)
      ensures ret.Ok? ==> old(queue) != [] && hs.choices.serverKey == (old(queue)[0].kind == ServerKeyExchange)
      ensures ret.Ok? && hs.choices.serverKey && hs.choices.certAuth ==> peer.keyOk
      ensures !ret.Ok? ==> hs.log == old(hs).log
      ensures ret.Ok? ==> ReadsServerKeyExchange(old(hs), hs)
    {
      if queue == [] {
        Stays(hs, ReadMessage);
        return ReadMessage;
      }
      var msg := queue[0];
      if msg.kind != ServerKeyExchange {
        if hs.choices.needsKey {
          Fails(hs, hs);
          return Error;
        }
        ret := TakeNoKey();
        return;
      }
      ret := TakeKey(msg);
    }

    method TakeNoKey() returns (ret: Wait)
      requires Good(hs) && hs.state == READ_SERVER_KEY_EXCHANGE && !hs.choices.needsKey
      modifies this`hs, this`queue
      ensures Steps(ret)
      ensures ret.Ok? && hs.choices == old(hs).choices.(serverKey := false)
      ensures ReadsServerKeyExchange(old(hs), hs)
    {
      NoKey(hs);
      hs := GoTo(hs, READ_CERTIFICATE_REQUEST, hs.choices.(serverKey := false));
      return Ok;
    }

    /** Signed by the server's certificate, if the cipher has one. */
    method TakeKey(msg: Message) returns (ret: Wait)
      requires Good(hs) && hs.state == READ_SERVER_KEY_EXCHANGE && PeerOf(hs.log) == peer
      requires queue != [] && msg == queue[0] && msg.kind == ServerKeyExchange
      modifies this`hs, this`queue
      ensures Steps(ret) && (ret.Ok? || ret.Error?)
      ensures ret.Ok? && hs.choices.certAuth ==> peer.keyOk
      ensures !ret.Ok? ==> hs.log == old(hs).log
      ensures ret.Ok? ==> hs.choices == old(hs).choices.(serverKey := true)
      ensures ret.Ok? ==> ReadsServerKeyExchange(old(hs), hs)
    {
      var parsed := Works();
      if !parsed || (hs.choices.certAuth && !peer.keyOk) {
        hs := Update(hs, msg);
        Fails(old(hs), hs);
        return Error;
      }
      ret := KeepKey(msg);
    }

    method KeepKey(msg: Message) returns (ret: Wait)
      requires Good(hs) && hs.state == READ_SERVER_KEY_EXCHANGE && (hs.choices.certAuth ==> PeerOf(hs.log).keyOk)
      requires queue != [] && msg == queue[0] && msg.kind == ServerKeyExchange
      modifies this`hs, this`queue
      ensures Steps(ret) && ret.Ok? && hs.choices == old(hs).choices.(serverKey := true)
      ensures ReadsServerKeyExchange(old(hs), hs)
    {
      TakesKey(hs, msg);
      var given := hs.choices.(serverKey := true);
      hs := Signed(Update(hs, msg));
      Accept(READ_CERTIFICATE_REQUEST, given);
      return Ok;
    }

    method DoReadCertificateRequest() returns (ret: Wait)
      requires Good(hs) && hs.state == READ_CERTIFICATE_REQUEST
      modifies this`hs, this`queue
      ensures Steps(ret)
      ensures ret.Ok? ==>
                hs.choices.requested ==
                (old(hs).choices.certAuth && old(queue) != [] && old(queue)[0].kind == CertificateRequest)
      ensures ret.Ok? ==> ReadsCertificateRequest(old(hs), hs)
    {
      if !hs.choices.certAuth {
        ret := TakeNoRequest();
        return;
      }
      if queue == [] {
        Stays(hs, ReadMessage);
        return ReadMessage;
      }
      var msg := queue[0];
      if msg.kind == ServerHelloDone {
        ret := TakeNoRequest();
        return;
      }
      if msg.kind != CertificateRequest {
        Fails(hs, hs);
        return Error;
      }
      ret := TakeRequest(msg);
    }

    /** Without a request the buffer is of no more use, if there still is one. */
    method TakeNoRequest() returns (ret: Wait)
      requires Good(hs) && hs.state == READ_CERTIFICATE_REQUEST
      modifies this`hs, this`queue
      ensures Steps(ret)
      ensures ret.Ok? && hs.choices == old(hs).choices.(requested := false)
      ensures ReadsCertificateRequest(old(hs), hs)
    {
      var without := hs.choices.(requested := false);
      NotRequested(hs, if hs.choices.certAuth then FreeBuffer(hs) else hs);
      if hs.choices.certAuth {
        hs := FreeBuffer(hs);
      }
      hs := GoTo(hs, READ_SERVER_HELLO_DONE, without);
      return Ok;
    }

    method TakeRequest(msg: Message) returns (ret: Wait)
      requires Good(hs) && hs.state == READ_CERTIFICATE_REQUEST && hs.choices.certAuth
      requires queue != [] && msg == queue[0] && msg.kind == CertificateRequest
      modifies this`hs, this`queue
      ensures Steps(ret)
      ensures ret.Ok? ==> hs.choices == old(hs).choices.(requested := true)
      ensures ret.Ok? ==> ReadsCertificateRequest(old(hs), hs)
    {
      TakesRequest(hs, msg);
      var given := hs.choices.(requested := true);
      var ok := HashAndAccept(READ_SERVER_HELLO_DONE, given);
      if !ok {
        Fails(old(hs), hs);
        return Error;
      }
      return Ok;
    }

    method DoReadServerHelloDone() returns (ret: Wait)
      requires Good(hs) && hs.state == READ_SERVER_HELLO_DONE
      modifies this`hs, this`queue
      ensures Steps(ret)
      ensures ret.Ok? ==> ReadsServerHelloDone(old(hs), hs)
    {
      if queue == [] {
        Stays(hs, ReadMessage);
        return ReadMessage;
      }
      var msg := queue[0];
      if msg.kind != ServerHelloDone {
        Fails(hs, hs);
        return Error;
      }
      Takes(hs, msg, SEND_CLIENT_CERTIFICATE, hs.choices);
      var ok := HashAndAccept(SEND_CLIENT_CERTIFICATE, hs.choices);
      if !ok {
        Fails(old(hs), hs);
        return Error;
      }
      return Ok;
    }

    /** The certificate callback may change the client's certificate and ask to be called again. */
    method CallCertificateCallback() returns (rv: int)
      requires Good(hs) && Resting(hs)
      modifies this`hs, this`queue
      ensures Good(hs) && Resting(hs) && hs == old(hs).(hasCertificate := hs.hasCertificate)
      ensures wait == old(wait) && queue == old(queue) && (how.smooth ==> rv > 0)
    {
      var has: bool, ok: bool := *, *;
      var answered := Works();
      rv := if answered then 1 else if ok then -1 else 0;
      Recertified(hs, has);
      hs := hs.(hasCertificate := has);
    }

    method DoSendClientCertificate() returns (ret: Wait)
      requires Good(hs) && hs.state == SEND_CLIENT_CERTIFICATE
      modifies this`hs, this`queue
      ensures Steps(ret)
      ensures ret.Ok? ==> hs.choices.clientCert == (hs.choices.requested && (hs.hasCertificate || !hs.ssl3))
      ensures ret.Ok? ==> SendsClientCertificate(old(hs), hs)
    {
      var without, given := hs.choices.(clientCert := false), hs.choices.(clientCert := true);
      if !hs.choices.requested {
        NoAnswer(hs, hs);
        hs := GoTo(hs, SEND_CLIENT_KEY_EXCHANGE, without);
        return Ok;
      }
      var rv := CallCertificateCallback();
      if rv == 0 {
        Fails(old(hs), hs);
        return Error;
      }
      if rv < 0 {
        Stays(hs, X509Lookup);
        return X509Lookup;
      }
      ret := AnswerRequest();
    }

    /** With a certificate, or without one: then SSL 3.0 sends an alert and TLS an empty message. */
    method AnswerRequest() returns (ret: Wait)
      requires Good(hs) && hs.state == SEND_CLIENT_CERTIFICATE && hs.choices.requested
      modifies this`hs, this`queue
      ensures Steps(ret) && (ret.Ok? || ret.Error?)
      ensures ret.Ok? ==> hs.choices.requested && hs.choices.clientCert == (hs.hasCertificate || !hs.ssl3)
      ensures ret.Ok? ==> SendsClientCertificate(old(hs), hs) && hs.hasCertificate == old(hs).hasCertificate
    {
      var without, given := hs.choices.(clientCert := false), hs.choices.(clientCert := true);
      var ok := Works();
      var body: nat := *;
      if !hs.hasCertificate {
        hs := FreeBuffer(hs);
        if hs.ssl3 {
          NoAnswer(old(hs), hs);
          hs := GoTo(hs, SEND_CLIENT_KEY_EXCHANGE, without);
          return Ok;
        }
      }
      if !ok {
        Fails(old(hs), hs);
        return Error;
      }
      Answers(old(hs), hs, Message(Certificate, Plain(body)));
      hs := AddMessage(hs, Message(Certificate, Plain(body)));
      hs := GoTo(hs, SEND_CLIENT_KEY_EXCHANGE, given);
      return Ok;
    }

    method DoSendClientKeyExchange() returns (ret: Wait)
      requires Good(hs) && hs.state == SEND_CLIENT_KEY_EXCHANGE
      modifies this`hs, this`queue
      ensures Steps(ret)
      ensures ret.Ok? ==> SendsClientKeyExchange(old(hs), hs)
    {
      var ok := Works();
      var derived := Works();
      var body: nat := *;
      if !ok {
        Fails(hs, hs);
        return Error;
      }
      GivesKeys(hs, Message(ClientKeyExchange, Plain(body)));
      hs := AddMessage(hs, Message(ClientKeyExchange, Plain(body)));
      if !derived {
        return Error;
      }
      hs := GoTo(hs, SEND_CLIENT_CERTIFICATE_VERIFY, hs.choices);
      return Ok;
    }

    method DoSendClientCertificateVerify() returns (ret: Wait)
      requires Good(hs) && hs.state == SEND_CLIENT_CERTIFICATE_VERIFY
      modifies this`hs, this`queue
      ensures Steps(ret)
      ensures ret.Ok? ==> hs.choices.proved == (hs.choices.requested && hs.hasCertificate)
      ensures ret.Ok? ==> SendsCertificateVerify(old(hs), hs)
    {
      if !hs.choices.requested || !hs.hasCertificate {
        NoProof(hs);
        hs := GoTo(hs, SEND_CLIENT_FINISHED, hs.choices.(proved := false));
        return Ok;
      }
      ret := Sign();
      if ret.Ok? {
        ret := Prove();
      }
    }

    /** The private key may be far away, but not in SSL 3.0. */
    method Sign() returns (ret: Wait)
      requires Good(hs) && hs.state == SEND_CLIENT_CERTIFICATE_VERIFY && hs.choices.requested && hs.hasCertificate
      ensures ret.Ok? || (Steps(ret) && !MovesOn(ret))
    {
      var ok := Works();
      var answered := Works();
      if !answered && !hs.ssl3 {
        Stays(hs, PrivateKeyOperation);
        return PrivateKeyOperation;
      }
      if !ok {
        Fails(hs, hs);
        return Error;
      }
      return Ok;
    }

    /** In SSL 3.0 the signature is over the hash, later over the buffer: that is the same transcript. */
    method Prove() returns (ret: Wait)
      requires Good(hs) && hs.state == SEND_CLIENT_CERTIFICATE_VERIFY && hs.choices.requested && hs.hasCertificate
      modifies this`hs
      ensures Steps(ret) && ret.Ok? && hs.choices == old(hs).choices.(proved := true) && hs.hasCertificate
      ensures SendsCertificateVerify(old(hs), hs)
    {
      Proves(hs, Message(CertificateVerify, Signature(HashOf(hs))));
      var given := hs.choices.(proved := true);
      var msg := Message(CertificateVerify, Signature(if hs.ssl3 then hs.hash.value else hs.buffer.value));
      hs := AddMessage(hs, msg);
      hs := GoTo(hs, SEND_CLIENT_FINISHED, given);
      hs := FreeBuffer(hs);
      return Ok;
    }

    method DoSendClientFinished() returns (ret: Wait)
      requires Good(hs) && hs.state == SEND_CLIENT_FINISHED
      modifies this`hs, this`queue
      ensures Steps(ret)
      ensures ret.Flush? ==> SendsFinished(old(hs), hs)
    {
      if hs.choices.channelId {
        var ok := Works();
        var ready := Works();
        if !ok {
          Fails(hs, hs);
          return Error;
        }
        if !ready {
          Stays(hs, ChannelIdLookup);
          return ChannelIdLookup;
        }
      }
      ret := ChangeAndFinish();
    }

    method ChangeAndFinish() returns (ret: Wait)
      requires Good(hs) && hs.state == SEND_CLIENT_FINISHED
      modifies this`hs, this`queue
      ensures Steps(ret)
      ensures ret.Flush? ==> SendsFinished(old(hs), hs)
    {
      var added := Works();
      var changed := Works();
      var a: nat, b: nat := *, *;
      if !added {
        Fails(hs, hs);
        return Error;
      }
      if !changed {
        ChangesKeys(hs, Message(NextProto, Plain(a)), Message(ChannelId, Plain(b)));
        hs := Log(hs, Did(OutChange));
        return Error;
      }
      ret := SendFinished(Message(NextProto, Plain(a)), Message(ChannelId, Plain(b)));
    }

    method SendFinished(proto: Message, id: Message) returns (ret: Wait)
      requires Good(hs) && hs.state == SEND_CLIENT_FINISHED && proto.kind == NextProto && id.kind == ChannelId
      modifies this`hs
      ensures Steps(ret)
      ensures ret.Flush? ==> SendsFinished(old(hs), hs)
    {
      ChangeKeys(proto, id);
      var ok := Works();
      if !ok {
        ChangesKeys(old(hs), proto, id);
        return Error;
      }
      Finishes(old(hs), proto, id);
      FinishedSent(old(hs), proto, id);
      hs := Finish(hs);
      return Flush;
    }

    method ChangeKeys(proto: Message, id: Message)
      modifies this`hs
      ensures hs == BeforeFinished(old(hs), proto, id)
      ensures Taken(hs.log) == Taken(Finish(hs).log) == Taken(old(hs).log)
    {
      SendingTakesNothing(hs, proto, id);
      var choices := hs.choices;
      hs := Changed(hs);
      hs := AddIf(hs, choices.nextProto, proto);
      hs := AddIf(hs, choices.channelId, id);
    }

    method DoFinishFlight() returns (ret: Wait)
      requires Good(hs) && hs.state == FINISH_FLIGHT
      modifies this`hs, this`queue
      ensures Steps(ret)
      ensures ret.Ok? || ret.EarlyReturn? ==> FinishesFlight(old(hs), hs)
    {
      if hs.session {
        Skips(hs, hs, FINISH_CLIENT_HANDSHAKE, hs.choices);
        hs := GoTo(hs, FINISH_CLIENT_HANDSHAKE, hs.choices);
        return Ok;
      }
      var ok := Works();
      var falseStart: bool := *;
      if !ok {
        Fails(hs, hs);
        return Error;
      }
      Skips(hs, hs, READ_SESSION_TICKET, hs.choices);
      hs := GoTo(hs, READ_SESSION_TICKET, hs.choices);
      if falseStart && !how.dtls && !initialComplete {
        Pauses(old(hs), hs, EarlyReturn);
        return EarlyReturn;
      }
      return Ok;
    }

    /** An empty ticket is the server changing its mind: then none is expected any more. */
    method DoReadSessionTicket() returns (ret: Wait)
      requires Good(hs) && hs.state == READ_SESSION_TICKET
      modifies this`hs, this`queue, this`ticketExpected
      ensures Steps(ret)
      ensures ret.ReadChangeCipherSpec? ==> hs.choices.ticket == old(ticketExpected)
      ensures ret.ReadChangeCipherSpec? ==> ReadsSessionTicket(old(ticketExpected), old(hs), hs)
    {
      if !ticketExpected {
        ret := TakeNoTicket();
        return;
      }
      if queue == [] {
        Stays(hs, ReadMessage);
        return ReadMessage;
      }
      if queue[0].kind != NewSessionTicket {
        Fails(hs, hs);
        return Error;
      }
      ret := TakeTicket(queue[0]);
      if ret.ReadChangeCipherSpec? {
        var empty: bool := *;
        ticketExpected := !empty;
      }
    }

    method TakeNoTicket() returns (ret: Wait)
      requires Good(hs) && hs.state == READ_SESSION_TICKET
      modifies this`hs
      ensures Steps(ret) && ret.ReadChangeCipherSpec? && !hs.choices.ticket && ReadsSessionTicket(false, old(hs), hs)
    {
      NoTicket(hs);
      hs := GoTo(hs, PROCESS_CHANGE_CIPHER_SPEC, hs.choices.(ticket := false));
      return ReadChangeCipherSpec;
    }

    method TakeTicket(msg: Message) returns (ret: Wait)
      requires Good(hs) && hs.state == READ_SESSION_TICKET
      requires queue != [] && msg == queue[0] && msg.kind == NewSessionTicket
      modifies this`hs, this`queue
      ensures Steps(ret) && (ret.ReadChangeCipherSpec? || ret.Error?)
      ensures ret.ReadChangeCipherSpec? ==> hs.choices.ticket
      ensures ret.ReadChangeCipherSpec? ==> ReadsSessionTicket(true, old(hs), hs)
    {
      TakesTicket(hs, msg);
      var given := hs.choices.(ticket := true);
      var ok := HashAndAccept(PROCESS_CHANGE_CIPHER_SPEC, given);
      if !ok {
        Fails(old(hs), hs);
        return Error;
      }
      return ReadChangeCipherSpec;
    }

    /** Runs only when the server's ChangeCipherSpec has just been opened.  The keys change only when all that
        arrived was consumed, so whatever is read from then on, the Finished first of all, arrived after. */
    method DoProcessChangeCipherSpec() returns (ret: Wait)
      requires Opened(hs)
      modifies this`hs, this`queue
      ensures Steps(ret)
      ensures ret.Ok? ==> hs.state == READ_SERVER_FINISHED && Taken(hs.log) == Stream()
      ensures ret.Ok? ==> ProcessesChangeCipherSpec(old(hs), hs)
    {
      ChangesReadKeys(hs);
      var ok := Works();
      if queue != [] || !ok {
        return Error;
      }
      hs := Log(hs, Did(ReadKeys));
      hs := GoTo(hs, READ_SERVER_FINISHED, hs.choices);
      return Ok;
    }

    /** The server's Finished is compared with the MAC of the transcript before it. */
    method GetFinished() returns (ret: Wait)
      requires Good(hs) && hs.state == READ_SERVER_FINISHED
      modifies this`hs, this`queue
      ensures Stream() == old(Stream())
      ensures match ret
              case ReadMessage => queue == [] && hs == old(hs)
              case Error =>
                && queue != [] && queue == old(queue) && (hs == old(hs) || hs == Update(old(hs), queue[0]))
                && RefusesMessage(hs, queue[0])
              case Ok =>
                && old(queue) != [] && old(queue)[0].kind == Finished && EventOk(old(hs).log, Received(old(queue)[0]))
                && hs == NextMessage(Update(old(hs), old(queue)[0]), old(queue)[0])
              case _ => false
    {
      if queue == [] {
        return ReadMessage;
      }
      var msg := queue[0];
      if msg.kind != Finished {
        return Error;
      }
      var expected := Mac(false, HashOf(hs));
      hs := Update(hs, msg);
      if msg.body != expected {
        return Error;
      }
      Consume();
      return Ok;
    }

    method DoReadServerFinished() returns (ret: Wait)
      requires Good(hs) && hs.state == READ_SERVER_FINISHED
      modifies this`hs, this`queue
      ensures Steps(ret)
      ensures ret.Ok? ==> ReadsServerFinished(old(hs), hs)
    {
      ret := GetFinished();
      if ret.Error? {
        Fails(old(hs), hs);
        return;
      }
      if !ret.Ok? {
        Stays(hs, ret);
        return;
      }
      TakesFinished(old(hs), old(queue)[0]);
      hs := GoTo(hs, AfterFinished(hs.session), hs.choices);
    }

    method DoFinishClientHandshake() returns (ret: Wait)
      requires Good(hs) && hs.state == FINISH_CLIENT_HANDSHAKE
      modifies this`hs, this`initialComplete
      ensures Steps(ret)
      ensures ret.Ok? ==> FinishesHandshake(old(hs), hs)
    {
      var ok := Works();
      if !ok {
        Fails(hs, hs);
        return Error;
      }
      initialComplete := true;
      Skips(hs, hs, DONE, hs.choices);
      hs := GoTo(hs, DONE, hs.choices);
      return Ok;
    }
  
    // ---- the loops ----

    method ServerStates() returns (ret: Wait)
      requires Good(hs) && hs.state <= READ_SERVER_HELLO_DONE && PeerOf(hs.log) == peer
      modifies this
      ensures Steps(ret)
    {
      if hs.state == START_CONNECT {
        ret := DoStartConnect();
      } else if hs.state == ENTER_EARLY_DATA {
        ret := DoEnterEarlyData();
      } else if hs.state == READ_HELLO_VERIFY_REQUEST {
        ret := DoReadHelloVerifyRequest();
      } else if hs.state == READ_SERVER_HELLO {
        ret := DoReadServerHello();
      } else if hs.state == READ_SERVER_CERTIFICATE {
        ret := DoReadServerCertificate();
      } else if hs.state == READ_CERTIFICATE_STATUS {
        ret := DoReadCertificateStatus();
      } else if hs.state == VERIFY_SERVER_CERTIFICATE {
        ret := DoVerifyServerCertificate();
      } else if hs.state == READ_SERVER_KEY_EXCHANGE {
        ret := DoReadServerKeyExchange();
      } else if hs.state == READ_CERTIFICATE_REQUEST {
        ret := DoReadCertificateRequest();
      } else {
        ret := DoReadServerHelloDone();
      }
    }

    method ClientStates() returns (ret: Wait)
      requires Ready(hs) && READ_SERVER_HELLO_DONE < hs.state < DONE
      modifies this
      ensures Steps(ret)
    {
      if hs.state == SEND_CLIENT_CERTIFICATE {
        ret := DoSendClientCertificate();
      } else if hs.state == SEND_CLIENT_KEY_EXCHANGE {
        ret := DoSendClientKeyExchange();
      } else if hs.state == SEND_CLIENT_CERTIFICATE_VERIFY {
        ret := DoSendClientCertificateVerify();
      } else if hs.state == SEND_CLIENT_FINISHED {
        ret := DoSendClientFinished();
      } else if hs.state == FINISH_FLIGHT {
        ret := DoFinishFlight();
      } else if hs.state == READ_SESSION_TICKET {
        ret := DoReadSessionTicket();
      } else if hs.state == PROCESS_CHANGE_CIPHER_SPEC {
        ret := DoProcessChangeCipherSpec();
      } else if hs.state == READ_SERVER_FINISHED {
        ret := DoReadServerFinished();
      } else {
        ret := DoFinishClientHandshake();
      }
    }

    /** At every moment of every run, errors included: no ClientKeyExchange without a verified server and, if
        the cipher needs one, a verified key, nor if either was found to be bad; none at all in a resumed
        handshake; no Finished without a change of keys. */
    lemma AlwaysInOrder()
      requires Inv()
      ensures var f, c := AsFlow(Shape(hs.log)), hs.choices;
              && (c.resumed ==> Out(ClientKeyExchange) !in f)
              && (!c.resumed && c.certAuth ==> After(f, Out(ClientKeyExchange), PeerVerified))
              && (!c.resumed && c.certAuth && c.needsKey ==> After(f, Out(ClientKeyExchange), KeySigned))
              && (PeerVerified in f ==> peer.certificateOk) && (KeySigned in f ==> peer.keyOk)
              && (!c.resumed && c.certAuth && Out(ClientKeyExchange) in f ==>
                    peer.certificateOk && (c.needsKey ==> peer.keyOk))
              && After(f, Out(Finished), WriteKeys) && After(f, In(Finished), ReadKeys)
    {
      NoFinishedBeforeKeys(hs);
      VerifiedMeansGood(hs.log);
      if hs.choices.resumed {
        NoKeyExchangeWhenResumed(hs);
      } else {
        NoKeyExchangeBeforeChecks(hs);
        if hs.choices.certAuth && Out(ClientKeyExchange) in AsFlow(Shape(hs.log)) { KeyExchangeMeansGoodPeer(hs); }
      }
    }

    /** The fields as a point in a call */
    ghost function Now(used: nat): Moment
      reads this
    {
      Moment(hs, wait, queue, used)
    }

    /** Goes from state to state until one has to wait; always comes to an end. */
    method RunStates() returns (ret: Wait)
      requires Ready(hs) && PeerOf(hs.log) == peer
      modifies this
      ensures wait == old(wait) && PeerOf(hs.log) == peer && MachineRan(how, old(Now(0)), Now(0).(wait := ret))
    {
      ghost var start := hs;
      while hs.state != DONE
        invariant Extends(old(hs).log, hs.log) && Ready(hs) && wait == old(wait) && Stream() == old(Stream())
        invariant PeerOf(hs.log) == peer
        invariant Rank(hs.state, hs.session) <= Rank(start.state, start.session)
        invariant hs == start || Rank(hs.state, hs.session) < Rank(start.state, start.session)
        decreases Rank(hs.state, hs.session)
      {
        ghost var before := hs;
        if hs.state <= READ_SERVER_HELLO_DONE {
          ret := ServerStates();
        } else {
          ret := ClientStates();
        }
        RanOn(old(hs), before, hs, ret);
        SamePeer(old(hs).log, hs.log);
        if !ret.Ok? {
          return;
        }
      }
      return Ok;
    }

    /** Takes what the transport answers.  Only a ChangeCipherSpec that was waited for enters the log here. */
    method Resolve(io: Io, ghost used: nat) returns (resolved: bool)
      requires Inv() && AsksTransport(wait)
      modifies this`hs, this`queue
      ensures resolved == io.answer.Success? && Now(used + 1) == Answered(how.dtls, old(Now(used)), io)
      ensures PeerOf(hs.log) == peer && if resolved then Ready(hs) else Inv()
    {
      queue := queue + Arrivals(how.dtls, wait, io);
      resolved := io.answer.Success?;
      if resolved && wait.ReadChangeCipherSpec? {
        hs := Log(hs, Did(InChange));
      }
    }

    /** Runs the state machine and remembers what it waits for. */
    method Advance(ghost used: nat)
      requires Ready(hs) && PeerOf(hs.log) == peer
      modifies this
      ensures Inv() && MachineRan(how, old(Now(used)), Now(used)) && (wait.Ok? ==> Completed(hs))
    {
      wait := RunStates();
      if wait.Ok? {
        DoneMeansFinished(hs);
      }
    }

    /** Waits for the transport: it may have no answer, or be blocked; `goOn` tells that it answered, and
        `resolved` that the machine may run. */
    method Await(io: seq<Io>, used: nat, ghost now: Moment) returns (goOn: bool, resolved: bool, used': nat)
      requires Inv() && used <= |io| && now == Now(used) && AsksTransport(wait)
      modifies this`hs, this`queue
      ensures used <= used' <= |io| && (resolved ==> goOn) && (goOn ==> used < used')
      ensures !goOn ==> Inv() && Over(how, io, now, -1, false, Now(used'))
      ensures goOn && !resolved ==> Inv() && Turn(how, io, now, Now(used'))
      ensures goOn ==> Uses(io, now, Now(used'))
      ensures resolved ==> Ready(hs) && io[used].answer.Success? && Now(used') == Answered(how.dtls, now, io[used])
      ensures PeerOf(hs.log) == peer
    {
      if used == |io| {
        return false, false, used;
      }
      resolved := Resolve(io[used], used);
      return !io[used].answer.Blocked?, resolved, used + 1;
    }

    /** Runs the machine after what was waited for. */
    method Continue(ghost io: seq<Io>, ghost used: nat, ghost now: Moment)
      requires Ready(hs) && PeerOf(hs.log) == peer
      requires AsksTransport(now.wait) && now.used < |io| && used == now.used + 1
      requires io[now.used].answer.Success? && Now(used) == Answered(how.dtls, now, io[now.used])
      modifies this
      ensures Inv() && Turn(how, io, now, Now(used)) && (wait.Ok? ==> Completed(hs))
    {
      Advance(used);
    }

    /** Waits for the transport if that is asked for, and runs the machine when it succeeds; or stops. */
    method TakeTurn(io: seq<Io>, used: nat, ghost now: Moment) returns (stop: bool, used': nat)
      requires Inv() && used <= |io| && now == Now(used) && (wait.Ok? || AsksTransport(wait))
      modifies this
      ensures Inv() && used <= used' <= |io|
      ensures stop ==> Over(how, io, now, -1, false, Now(used'))
      ensures !stop ==> Turn(how, io, now, Now(used')) && Uses(io, now, Now(used')) && (used < used' || now.wait.Ok?)
      ensures !stop && wait.Ok? ==> Over(how, io, Now(used'), 1, false, Now(used'))
    {
      used', stop := used, false;
      if wait.Ok? {
        Advance(used);
      } else {
        var goOn, resolved;
        goOn, resolved, used' := Await(io, used, now);
        if !resolved {
          return !goOn, used';
        }
        Continue(io, used', now);
      }
      if wait.Ok? { CompletedIsOver(how, io, Now(used')); }
    }

    /** What is not the transport's business ends the call. */
    method Conclude(ghost io: seq<Io>, ghost used: nat) returns (over: bool, ret: int, earlyReturn: bool)
      requires Inv()
      modifies this`wait
      ensures Inv() && (over <==> !old(wait).Ok? && !AsksTransport(old(wait)))
      ensures if over then Over(how, io, old(Now(used)), ret, earlyReturn, Now(used)) else wait == old(wait)
    {
      over, ret, earlyReturn := true, -1, false;
      if wait.Error? {
        return;
      }
      if wait.EarlyReturn? {
        wait, ret, earlyReturn := Ok, 1, true;
        return;
      }
      if AsksApplication(wait) {
        wait := Ok;
        return;
      }
      over := false;
    }

    method RunTurns(io: seq<Io>) returns (ret: int, earlyReturn: bool, used: nat, ghost c: Course)
      requires Inv()
      modifies this
      ensures Inv() && Turns(how, io, c) && Counted(io, c) && Beginning(c) == old(Now(0))
      ensures Over(how, io, c.now, ret, earlyReturn, Now(used))
    {
      used, c := 0, Begun(Now(0));
      while true
        invariant used <= |io| && Inv() && Turns(how, io, c) && Counted(io, c)
        invariant Beginning(c) == old(Now(0)) && c.now == Now(used)
        invariant wait.Ok? ==> c.Begun?
        decreases |io| - used, wait.Ok?
      {
        var over;
        over, ret, earlyReturn := Conclude(io, used);
        if over {
          return;
        }
        over, used := TakeTurn(io, used, c.now);
        if over {
          return -1, false, used, c;
        }
        c := Later(c, Now(used));
        if wait.Ok? {
          return 1, false, used, c;
        }
      }
    }

    /** One call by the application.  `io` is what the transport answers during it; when that is used up
        the transport blocks.  The call is a series of turns, each from where the one before left things,
        until it is over.  After an error nothing is ever run again. */
    method RunHandshake(io: seq<Io>) returns (ret: int, earlyReturn: bool, used: nat, ghost c: Course)
      requires Inv()
      modifies this
      ensures Inv() && Extends(old(hs).log, hs.log) && old(Stream()) <= Stream() && used <= |io|
      ensures Turns(how, io, c) && Counted(io, c) && Beginning(c) == old(Now(0))
      ensures Over(how, io, c.now, ret, earlyReturn, Now(used))
      ensures old(wait).Error? ==> ret == -1 && wait.Error? && hs == old(hs) && queue == old(queue)
      ensures ret == 1 && !earlyReturn ==> wait.Ok? && Completed(hs)
      ensures ret == -1 && AsksTransport(wait) ==> used == |io| || (used > 0 && io[used - 1].answer.Blocked?)
      ensures ret == -1 && !AsksTransport(wait) ==> wait.Error? || AsksApplication(c.now.wait)
    {
      ret, earlyReturn, used, c := RunTurns(io);
      CallEnds(how, io, old(Now(0)), c, ret, earlyReturn, Now(used));
    }
  }
}
