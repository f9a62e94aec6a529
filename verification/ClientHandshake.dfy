/** The client's handshake state machine below TLS 1.3.

    What the rest of the library and the application answer (parsing, verification, callbacks, the
    transport) is arbitrary.  The invariant says that the messages so far are exactly what the flow of
    section 7.3 of RFC 5246 has up to the current state, and that the transcript is those messages.

    A predicate whose body ends in `all` is one fact, proved and used as a whole. */
module ClientHandshake {
  import opened Basics
  import opened HandshakeFlow

  /** Bodies are opaque but for the keyed ones, which stand for what they are computed from. */
  datatype Body = Plain(content: nat) | Mac(client: bool, covers: Transcript) | Signature(covers: Transcript)

  datatype Message = Message(kind: Kind, body: Body)

  datatype Transcript = Empty | Hashed(before: Transcript, msg: Message)

  datatype Event = Sent(msg: Message) | Received(msg: Message) | Did(mark: Mark)

  /** What comes out when the server's certificate is verified, and the signature of its key */
  datatype Peer = Peer(certificateOk: bool, keyOk: bool)

  /** Everything that happened so far with a peer, the latest event outermost */
  datatype History = Start(peer: Peer) | Then(before: History, last: Event)

  type State = s: int | 0 <= s < 20

  const START_CONNECT: State := 0
  const ENTER_EARLY_DATA: State := 1
  const READ_HELLO_VERIFY_REQUEST: State := 2
  const READ_SERVER_HELLO: State := 3
  const READ_SERVER_CERTIFICATE: State := 4
  const READ_CERTIFICATE_STATUS: State := 5
  const VERIFY_SERVER_CERTIFICATE: State := 6
  const READ_SERVER_KEY_EXCHANGE: State := 7
  const READ_CERTIFICATE_REQUEST: State := 8
  const READ_SERVER_HELLO_DONE: State := 9
  const SEND_CLIENT_CERTIFICATE: State := 10
  const SEND_CLIENT_KEY_EXCHANGE: State := 11
  const SEND_CLIENT_CERTIFICATE_VERIFY: State := 12
  const SEND_CLIENT_FINISHED: State := 13
  const FINISH_FLIGHT: State := 14
  const READ_SESSION_TICKET: State := 15
  const PROCESS_CHANGE_CIPHER_SPEC: State := 16
  const READ_SERVER_FINISHED: State := 17
  const FINISH_CLIENT_HANDSHAKE: State := 18
  const DONE: State := 19

  datatype Wait =
    | Ok | Error | Flush | ReadHello | ReadMessage | ReadChangeCipherSpec | X509Lookup | ChannelIdLookup
    | PrivateKeyOperation | CertificateVerification | EarlyReturn

  // ---- what was exchanged ----

  function MarkOf(e: Event): Mark {
    if e.Sent? then Out(e.msg.kind) else if e.Received? then In(e.msg.kind) else e.mark
  }

  /** A flow that grows at its end */
  datatype Marks = NoMarks | Next(before: Marks, last: Mark)

  function Shape(log: History): Marks {
    if log.Start? then NoMarks else Next(Shape(log.before), MarkOf(log.last))
  }

  /** The messages sent and received since the last HelloVerifyRequest, in order */
  function Exchanged(log: History): Transcript {
    if log.Start? then Empty
    else if log.last.Did? then Exchanged(log.before)
    else if log.last.Received? && log.last.msg.kind == HelloVerifyRequest then Empty
    else Hashed(Exchanged(log.before), log.last.msg)
  }

  /** The messages received, in order */
  function Taken(log: History): seq<Message> {
    if log.Start? then []
    else if log.last.Received? then Taken(log.before) + [log.last.msg]
    else Taken(log.before)
  }

  function PeerOf(log: History): Peer {
    if log.Start? then log.peer else PeerOf(log.before)
  }

  /** b goes on from a. */
  ghost predicate Extends(a: History, b: History) {
    a == b || (b.Then? && Extends(a, b.before))
  }

  lemma {:induction false} ExtendsTransitive(a: History, b: History, c: History)
    requires Extends(a, b) && Extends(b, c)
    ensures Extends(a, c)
  {
    if b != c { ExtendsTransitive(a, b, c.before); }
  }

  lemma {:induction false} SamePeer(a: History, b: History)
    requires Extends(a, b)
    ensures PeerOf(b) == PeerOf(a)
  {
    if a != b { SamePeer(a, b.before); }
  }

  // ---- where the machine is ----

  /** How many states are still ahead.  The graph of states has a cycle through SendClientFinished;
      which way it is entered depends on whether a session is resumed. */
  function Rank(s: State, resumed: bool): nat {
    if resumed && 13 <= s <= 14 then 16 - s
    else if resumed && 15 <= s <= 17 then 21 - s
    else 19 - s
  }

  function Add(f: Marks, b: bool, m: Mark): Marks {
    if b then Next(f, m) else f
  }

  /** The state before: where the machine was when it was one step further from the end */
  function Previous(s: State, resumed: bool): State
    requires s > 0
  {
    if s == 3 then 1 // over READ_HELLO_VERIFY_REQUEST, which may not be entered
    else if resumed && s == 13 then 17 // SEND_CLIENT_FINISHED after READ_SERVER_FINISHED
    else if resumed && s == 15 then 3 // READ_SESSION_TICKET after READ_SERVER_HELLO
    else if resumed && s == 18 then 14 // FINISH_CLIENT_HANDSHAKE after FINISH_FLIGHT
    else s - 1
  }

  /** The state after */
  function Following(s: State, resumed: bool): State
    requires s < DONE
  {
    if resumed && s == 3 then 15 // READ_SERVER_HELLO before READ_SESSION_TICKET
    else if resumed && s == 17 then 13 // READ_SERVER_FINISHED before SEND_CLIENT_FINISHED
    else if resumed && s == 14 then 18 // FINISH_FLIGHT before FINISH_CLIENT_HANDSHAKE
    else s + 1
  }

  /** What is exchanged on the way into a state.  The states are compared as numbers, which the solver
      handles much faster than their names. */
  function Enter(s: State, c: Choices, f: Marks): Marks {
    if s == 1 then Next(f, Out(ClientHello)) // ENTER_EARLY_DATA
    else if s == 3 then Add(Add(f, c.cookie, In(HelloVerifyRequest)), c.cookie, Out(ClientHello)) // READ_SERVER_HELLO
    else if s == 4 then Next(f, In(ServerHello)) // READ_SERVER_CERTIFICATE
    else if s == 5 then Add(f, c.certAuth, In(Certificate)) // READ_CERTIFICATE_STATUS
    else if s == 6 then Add(f, c.status, In(CertificateStatus)) // VERIFY_SERVER_CERTIFICATE
    else if s == 7 then Add(f, c.certAuth, PeerVerified) // READ_SERVER_KEY_EXCHANGE
    else if s == 8 then // READ_CERTIFICATE_REQUEST
      Add(Add(f, c.serverKey && c.certAuth, KeySigned), c.serverKey, In(ServerKeyExchange))
    else if s == 9 then Add(f, c.requested, In(CertificateRequest)) // READ_SERVER_HELLO_DONE
    else if s == 10 then Next(f, In(ServerHelloDone)) // SEND_CLIENT_CERTIFICATE
    else if s == 11 then Add(f, c.clientCert, Out(Certificate)) // SEND_CLIENT_KEY_EXCHANGE
    else if s == 12 then Next(f, Out(ClientKeyExchange)) // SEND_CLIENT_CERTIFICATE_VERIFY
    else if s == 13 then // SEND_CLIENT_FINISHED
      if c.resumed then Next(f, In(Finished)) else Add(f, c.proved, Out(CertificateVerify))
    else if s == 14 then // FINISH_FLIGHT
      Next(Add(Add(Next(Next(f, OutChange), WriteKeys), c.nextProto, Out(NextProto)), c.channelId, Out(ChannelId)),
           Out(Finished))
    else if s == 15 then if c.resumed then Next(f, In(ServerHello)) else f // READ_SESSION_TICKET
    else if s == 16 then Add(f, c.ticket, In(NewSessionTicket)) // PROCESS_CHANGE_CIPHER_SPEC
    else if s == 17 then Next(Next(f, InChange), ReadKeys) // READ_SERVER_FINISHED
    else if s == 18 then if c.resumed then f else Next(f, In(Finished)) // FINISH_CLIENT_HANDSHAKE
    else f
  }

  /** The flow up to a state */
  function Through(s: State, c: Choices): Marks
    decreases 19 - Rank(s, c.resumed)
  {
    if s == 0 then NoMarks else Enter(s, c, Through(Previous(s, c.resumed), c))
  }

  /** b begins with a. */
  ghost predicate Precedes(a: Marks, b: Marks) {
    a == b || (b.Next? && Precedes(a, b.before))
  }

  lemma PrecedesAdd(a: Marks, b: Marks, more: bool, m: Mark)
    requires Precedes(a, b)
    ensures Precedes(a, Add(b, more, m))
  {
  }

  lemma EnterGrows(t: State, c: Choices, f: Marks)
    ensures Precedes(f, Enter(t, c, f))
  {
    if t == 14 {
      FinishGrows(c, f);
    } else if t == 17 {
      PrecedesAdd(f, Next(f, InChange), true, ReadKeys);
    } else if t == 3 {
      PrecedesAdd(f, Add(f, c.cookie, In(HelloVerifyRequest)), c.cookie, Out(ClientHello));
    } else if t == 8 {
      PrecedesAdd(f, Add(f, c.serverKey && c.certAuth, KeySigned), c.serverKey, In(ServerKeyExchange));
    } else {
      OneMore(t, c, f);
    }
  }

  lemma FinishGrows(c: Choices, f: Marks)
    ensures Precedes(f, Enter(14, c, f))
  {
    var g := Next(Next(f, OutChange), WriteKeys);
    PrecedesAdd(f, Next(f, OutChange), true, WriteKeys);
    PrecedesAdd(f, g, c.nextProto, Out(NextProto));
    PrecedesAdd(f, Add(g, c.nextProto, Out(NextProto)), c.channelId, Out(ChannelId));
  }

  lemma OneMore(t: State, c: Choices, f: Marks)
    requires t != 14 && t != 17 && t != 3 && t != 8
    ensures Enter(t, c, f) == f || (Enter(t, c, f).Next? && Enter(t, c, f) == Next(f, Enter(t, c, f).last))
  {
  }

  /** What is done by a state is done by the next. */
  lemma NextGrows(s: State, c: Choices)
    requires s < DONE && (c.resumed ==> !(4 <= s <= 12))
    ensures Precedes(Through(s, c), Through(Following(s, c.resumed), c))
  {
    var t := Following(s, c.resumed);
    EnterGrows(t, c, Through(Previous(t, c.resumed), c));
    if s == 2 {
      assert Through(2, c) == Through(1, c);
    }
  }

  /** The choices that are made by the time of a state */
  ghost predicate Decided(s: State, c: Choices, d: Choices) {
    var all :=
      && (s >= 3 ==> c.cookie == d.cookie)
      && (s > 3 ==>
            && c.resumed == d.resumed && c.certAuth == d.certAuth && c.needsKey == d.needsKey
            && c.nextProto == d.nextProto && c.channelId == d.channelId
            && (c.resumed ==> s > 12))
      && (s >= 6 && !c.resumed ==> c.status == d.status)
      && (s >= 8 && !c.resumed ==> c.serverKey == d.serverKey)
      && (s >= 9 && !c.resumed ==> c.requested == d.requested)
      && (s >= 11 && !c.resumed ==> c.clientCert == d.clientCert)
      && (s >= 13 && !c.resumed ==> c.proved == d.proved)
      && (19 - Rank(s, c.resumed) >= 19 - Rank(16, c.resumed) ==> c.ticket == d.ticket);
    all
  }

  lemma EnterDecided(s: State, c: Choices, d: Choices, f: Marks)
    requires Decided(s, c, d)
    ensures Enter(s, c, f) == Enter(s, d, f)
  {
    if s <= 8 {
      EarlyDecided(s, c, d, f);
    } else if s >= 13 {
      LateDecided(s, c, d, f);
    } else {
      assert s == 9 ==> c.requested == d.requested;
      assert s == 11 ==> c.clientCert == d.clientCert;
    }
  }

  lemma LateDecided(s: State, c: Choices, d: Choices, f: Marks)
    requires Decided(s, c, d) && s >= 13
    ensures Enter(s, c, f) == Enter(s, d, f)
  {
    assert c.resumed == d.resumed && c.nextProto == d.nextProto && c.channelId == d.channelId;
    if s == 13 {
      assert !c.resumed ==> c.proved == d.proved;
    } else if s == 14 {
    } else if s == 16 {
      assert c.ticket == d.ticket;
    } else {
    }
  }

  lemma EarlyDecided(s: State, c: Choices, d: Choices, f: Marks)
    requires Decided(s, c, d) && s <= 8
    ensures Enter(s, c, f) == Enter(s, d, f)
  {
    if s <= 3 {
      assert s == 3 ==> c.cookie == d.cookie;
    } else {
      assert c.certAuth == d.certAuth;
      assert s == 6 ==> c.status == d.status;
      assert s == 8 ==> c.serverKey == d.serverKey;
    }
  }

  lemma PreviousDecided(s: State, c: Choices, d: Choices)
    requires Decided(s, c, d) && s > START_CONNECT
    ensures Previous(s, c.resumed) == Previous(s, d.resumed) && Decided(Previous(s, c.resumed), c, d)
  {
  }

  /** Later choices do not change the flow so far. */
  lemma {:induction false} ThroughDecided(s: State, c: Choices, d: Choices)
    requires Decided(s, c, d)
    ensures Through(s, c) == Through(s, d)
    decreases 19 - Rank(s, c.resumed)
  {
    if s > START_CONNECT {
      PreviousDecided(s, c, d);
      EnterDecided(s, c, d, Through(Previous(s, c.resumed), c));
      ThroughDecided(Previous(s, c.resumed), c, d);
    }
  }

  /** What the choices made so far allow and demand of each other. */
  ghost predicate Lawful(s: State, c: Choices, ssl3: bool) {
    && (4 <= s <= 8 ==> !c.requested) && (c.requested ==> c.certAuth)
    && (c.clientCert ==> c.requested) && (c.proved ==> c.requested)
    && (!c.resumed && s >= 8 && c.needsKey ==> c.serverKey)
    && (!c.resumed && s >= 11 && c.requested && !ssl3 ==> c.clientCert)
  }

  /** The handshake's fields that its promises are about.  `log` is the record of what was exchanged;
      nothing is decided by it. */
  datatype Hs = Hs(state: State, session: bool, ssl3: bool, hasCertificate: bool, buffer: Option<Transcript>,
                   hash: Option<Transcript>, choices: Choices, log: History)

  // ---- the invariant ----

  /** Each Finished is over the whole transcript before it, and so is the client's proof of its key; and what
      counts as verified about the server is what was found to be good. */
  ghost predicate EventOk(before: History, e: Event) {
    && (e.Sent? && e.msg.kind == Finished ==> e.msg.body == Mac(true, Exchanged(before)))
    && (e.Received? && e.msg.kind == Finished ==> e.msg.body == Mac(false, Exchanged(before)))
    && (e.Sent? && e.msg.kind == CertificateVerify ==> e.msg.body == Signature(Exchanged(before)))
    && (e == Did(PeerVerified) ==> PeerOf(before).certificateOk)
    && (e == Did(KeySigned) ==> PeerOf(before).keyOk)
  }

  ghost predicate LogOk(log: History) {
    log.Then? ==> LogOk(log.before) && EventOk(log.before, log.last)
  }

  /** Until the ServerHello picks a hash there is only a buffer; from then on the hash has it all. */
  ghost predicate TranscriptOk(h: Hs) {
    if h.state <= READ_SERVER_HELLO then h.buffer == Some(Exchanged(h.log)) && h.hash == None
    else h.hash == Some(Exchanged(h.log)) && (h.buffer.Some? ==> h.buffer == h.hash)
  }

  /** The buffer is kept for as long as the client may have to sign it. */
  ghost predicate BufferKept(h: Hs) {
    && (4 <= h.state <= 8 && h.choices.certAuth ==> h.buffer.Some?)
    && (9 <= h.state <= 10 && h.choices.requested ==> h.buffer.Some?)
    && (11 <= h.state <= 12 && h.choices.requested && h.hasCertificate ==> h.buffer.Some?)
  }

  /** Whether a session is resumed is settled by the ServerHello. */
  ghost predicate Settled(h: Hs) {
    && (h.state > READ_SERVER_HELLO ==> h.choices.resumed == h.session)
    && (4 <= h.state <= 12 ==> !h.session)
  }

  /** What was exchanged is the flow up to the current state. */
  ghost predicate Flowing(h: Hs) {
    Shape(h.log) == Through(h.state, h.choices)
  }

  ghost predicate Fitting(h: Hs) {
    var all := BufferKept(h) && Settled(h) && Lawful(h.state, h.choices, h.ssl3);
    all
  }

  ghost predicate Good(h: Hs) {
    var all := Flowing(h) && LogOk(h.log) && TranscriptOk(h) && Fitting(h);
    all
  }

  /** What was exchanged is all of the flow up to the current state and nothing beyond the next one.  This
      holds at every moment of every run, also where it ends in an error. */
  ghost predicate Underway(h: Hs) {
    var all :=
      && Settled(h) && Lawful(h.state, h.choices, h.ssl3)
      && Precedes(Through(h.state, h.choices), Shape(h.log))
      && (if h.state == DONE then Shape(h.log) == Through(DONE, h.choices)
          else Precedes(Shape(h.log), Through(Following(h.state, h.choices.resumed), h.choices)));
    all
  }

  lemma GoodIsUnderway(h: Hs)
    requires Good(h)
    ensures Underway(h)
  {
    if h.state < DONE {
      assert h.choices.resumed ==> !(4 <= h.state <= 12) || h.state <= 3;
      NextGrows(h.state, h.choices);
    }
  }

  /** The machine stands still, and the application may change its certificate. */
  ghost predicate Resting(h: Hs) {
    h.state != SEND_CLIENT_KEY_EXCHANGE && (h.state == SEND_CLIENT_CERTIFICATE_VERIFY ==> h.buffer.Some?)
  }

  /** A step that returns this has done something. */
  predicate MovesOn(ret: Wait) {
    ret.Ok? || ret.Flush? || ret.ReadChangeCipherSpec? || ret.EarlyReturn?
  }

  /** What can be waited for in a state: a message where one is read, a flush where a flight has ended. */
  predicate Waits(s: State, ret: Wait) {
    && (ret.ReadMessage? ==> s == 2 || s == 4 || s == 5 || 7 <= s <= 9 || s == 15 || s == 17)
    && (ret.ReadHello? ==> s == 3) && (ret.Flush? ==> s == 1 || s == 3 || s == 14)
    && (ret.ReadChangeCipherSpec? <==> s == 16) && (ret.CertificateVerification? ==> s == 6)
    && (ret.X509Lookup? ==> s == 10) && (ret.PrivateKeyOperation? ==> s == 12) && (ret.ChannelIdLookup? ==> s == 13)
    && (ret.EarlyReturn? ==> s == 15)
  }

  /** What a step from v to w that returned `ret` and no error has done: it kept the invariant, and it is
      nearer to the end, unless it has to be tried again. */
  ghost predicate Stepped(v: Hs, w: Hs, ret: Wait) {
    var all :=
      && Extends(v.log, w.log) && Good(w) && !ret.Error? && Waits(w.state, ret)
      && (!ret.Ok? ==> Resting(w))
      && Rank(w.state, w.session) <= Rank(v.state, v.session)
      && (MovesOn(ret) ==> Rank(w.state, w.session) < Rank(v.state, v.session));
    all
  }

  /** What a step that ended in an error has done: at most a part of what it was to exchange. */
  ghost predicate Stopped(v: Hs, w: Hs) {
    var all := Extends(v.log, w.log) && LogOk(w.log) && Underway(w);
    all
  }

  // ---- what the steps are made of ----

  function Appended(t: Option<Transcript>, m: Message): Option<Transcript> {
    if t.Some? then Some(Hashed(t.value, m)) else None
  }

  /** `transcript.Update` */
  function Update(h: Hs, m: Message): Hs {
    h.(hash := Appended(h.hash, m), buffer := Appended(h.buffer, m))
  }

  function Log(h: Hs, e: Event): Hs {
    h.(log := Then(h.log, e))
  }

  /** `next_message` */
  function NextMessage(h: Hs, m: Message): Hs {
    Log(h, Received(m))
  }

  /** `add_message` */
  function AddMessage(h: Hs, m: Message): Hs {
    Log(Update(h, m), Sent(m))
  }

  function GoTo(h: Hs, t: State, d: Choices): Hs {
    h.(state := t, choices := d)
  }

  function FreeBuffer(h: Hs): Hs {
    h.(buffer := None)
  }

  /** A state is reached from the one before it, with what the flow has on the way there. */
  lemma Arrives(v: Hs, w: Hs)
    requires Flowing(v) && w.state > 0 && v.state == Previous(w.state, w.choices.resumed)
    requires Decided(v.state, v.choices, w.choices)
    requires Shape(w.log) == Enter(w.state, w.choices, Shape(v.log))
    ensures Flowing(w)
  {
    ThroughDecided(v.state, v.choices, w.choices);
  }

  /** t comes after the current state; what was chosen before stays. */
  ghost predicate Follows(v: Hs, t: State, d: Choices) {
    var all := t > 3 && v.state > 3 && v.state == Previous(t, v.session) && v.session == d.resumed
               && Decided(v.state, v.choices, d);
    all
  }

  /** How a step says that it is done: before the server's Finished its ChangeCipherSpec is read. */
  function Onward(t: State): Wait {
    if t == 16 then ReadChangeCipherSpec else Ok
  }

  /** Staying put, to try again later */
  lemma Stays(v: Hs, ret: Wait)
    requires Good(v) && Resting(v) && Waits(v.state, ret) && !MovesOn(ret) && !ret.Error?
    ensures Stepped(v, v, ret)
  {
  }

  /** Giving up, with nothing exchanged */
  lemma Fails(v: Hs, w: Hs)
    requires Good(v) && w.log == v.log && w.state == v.state && w.choices == v.choices
    requires v.state > READ_SERVER_HELLO ==> w.session == v.session && w.ssl3 == v.ssl3
    ensures Stopped(v, w)
  {
    GoodIsUnderway(v);
  }

  /** On to the next state without an exchange, perhaps letting go of the buffer */
  lemma Skips(v: Hs, u: Hs, t: State, d: Choices)
    requires Good(v) && Follows(v, t, d) && (u == v || u == FreeBuffer(v))
    requires Enter(t, d, Shape(v.log)) == Shape(v.log) && Fitting(GoTo(u, t, d))
    ensures Stepped(v, GoTo(u, t, d), Onward(t))
  {
    Arrives(v, GoTo(u, t, d));
  }

  /** A message is hashed and consumed, and the machine goes on to the next state. */
  lemma Takes(v: Hs, m: Message, t: State, d: Choices)
    requires Good(v) && Follows(v, t, d)
    requires Enter(t, d, Shape(v.log)) == Next(Shape(v.log), In(m.kind))
    requires m.kind != HelloVerifyRequest && EventOk(v.log, Received(m))
    requires Fitting(GoTo(NextMessage(Update(v, m), m), t, d))
    ensures Stepped(v, GoTo(NextMessage(Update(v, m), m), t, d), Onward(t))
  {
    var w := GoTo(NextMessage(Update(v, m), m), t, d);
    Arrives(v, w);
    assert Extends(v.log, w.log) && LogOk(w.log) && TranscriptOk(w);
  }

  /** A message is sent, and the machine goes on to the next state. */
  lemma Gives(v: Hs, u: Hs, m: Message, t: State, d: Choices)
    requires Good(v) && Follows(v, t, d) && (u == v || u == FreeBuffer(v))
    requires Enter(t, d, Shape(v.log)) == Next(Shape(v.log), Out(m.kind)) && EventOk(v.log, Sent(m))
    requires Fitting(GoTo(AddMessage(u, m), t, d))
    ensures Stepped(v, GoTo(AddMessage(u, m), t, d), Onward(t))
  {
    var w := GoTo(AddMessage(u, m), t, d);
    Arrives(v, w);
    assert Extends(v.log, w.log) && LogOk(w.log) && TranscriptOk(w);
  }

  /** The ClientKeyExchange; the master secret may fail after it. */
  lemma GivesKeys(v: Hs, m: Message)
    requires Good(v) && v.state == SEND_CLIENT_KEY_EXCHANGE && m.kind == ClientKeyExchange
    ensures Stopped(v, AddMessage(v, m))
    ensures Stepped(v, GoTo(AddMessage(v, m), SEND_CLIENT_CERTIFICATE_VERIFY, v.choices), Ok)
  {
    Gives(v, v, m, SEND_CLIENT_CERTIFICATE_VERIFY, v.choices);
    Logs(v, v, Sent(m));
    KeysUnderway(v, m);
  }

  lemma KeysUnderway(v: Hs, m: Message)
    requires Good(v) && v.state == SEND_CLIENT_KEY_EXCHANGE && m.kind == ClientKeyExchange
    ensures Underway(AddMessage(v, m))
  {
    var w, f := AddMessage(v, m), Through(11, v.choices);
    assert Shape(w.log) == Next(f, Out(ClientKeyExchange));
    assert Through(12, v.choices) == Enter(12, v.choices, f) == Next(f, Out(ClientKeyExchange));
    assert w.state == 11 && Following(11, v.choices.resumed) == 12;
    assert Precedes(f, Shape(w.log)) && Precedes(Shape(w.log), Through(12, v.choices));
  }

  lemma StatusLater(c: Choices, b: bool)
    requires !c.resumed
    ensures Decided(5, c, c.(status := b))
  {
  }

  lemma ServerChoosesLater(c: Choices, b: bool)
    requires !c.resumed
    ensures Decided(7, c, c.(serverKey := b)) && Decided(8, c, c.(requested := b))
  {
  }

  /** One event more */
  lemma Logs(v: Hs, w: Hs, e: Event)
    requires Extends(v.log, w.log) && LogOk(w.log) && EventOk(w.log, e)
    ensures Extends(v.log, Then(w.log, e)) && LogOk(Then(w.log, e))
  {
  }

  // ---- the steps that do more ----

  /** The first ClientHello; a session that cannot be offered is dropped. */
  lemma SaysHello(v: Hs, keep: bool, m: Message)
    requires Good(v) && v.state == START_CONNECT && m.kind == ClientHello
    ensures var w := GoTo(AddMessage(v.(session := v.session && keep), m), ENTER_EARLY_DATA, v.choices);
            Stepped(v, w, Flush)
  {
    var w := GoTo(AddMessage(v.(session := v.session && keep), m), ENTER_EARLY_DATA, v.choices);
    Arrives(v, w);
    assert Extends(v.log, w.log) && LogOk(w.log) && TranscriptOk(w);
  }

  /** A DTLS client first looks for a HelloVerifyRequest. */
  lemma AwaitsRequest(v: Hs)
    requires Good(v) && v.state == ENTER_EARLY_DATA
    ensures Stepped(v, GoTo(v, READ_HELLO_VERIFY_REQUEST, v.choices), Ok)
  {
    Arrives(v, GoTo(v, READ_HELLO_VERIFY_REQUEST, v.choices));
  }

  /** There is none. */
  lemma AwaitsHello(v: Hs)
    requires Good(v) && 1 <= v.state <= 2
    ensures Stepped(v, GoTo(v, READ_SERVER_HELLO, v.choices.(cookie := false)), Ok)
  {
    NoRequest(v.choices, v.state);
  }

  lemma NoRequest(c: Choices, s: State)
    requires 1 <= s <= 2
    ensures Through(3, c.(cookie := false)) == Through(s, c)
  {
    ThroughDecided(1, c, c.(cookie := false));
    assert Through(2, c) == Enter(2, c, Through(1, c));
  }

  /** A HelloVerifyRequest and a second ClientHello, which starts a new transcript */
  lemma SaysHelloAgain(v: Hs, request: Message, m: Message)
    requires Good(v) && v.state == READ_HELLO_VERIFY_REQUEST
    requires request.kind == HelloVerifyRequest && m.kind == ClientHello
    ensures Stepped(v, GoTo(AddMessage(Restart(NextMessage(v, request)), m), READ_SERVER_HELLO,
                            v.choices.(cookie := true)), Flush)
  {
    var d := v.choices.(cookie := true);
    var u := NextMessage(v, request);
    var w := GoTo(AddMessage(Restart(u), m), READ_SERVER_HELLO, d);
    ThroughDecided(1, v.choices, d);
    assert Through(2, v.choices) == Through(1, v.choices);
    assert Shape(w.log) == Next(Next(Shape(v.log), In(HelloVerifyRequest)), Out(ClientHello));
    assert Extends(v.log, u.log) && Extends(v.log, w.log);
    assert LogOk(u.log) && LogOk(w.log) && TranscriptOk(w);
  }

  /** The HelloVerifyRequest is consumed, and then the second ClientHello may fail. */
  lemma RequestTaken(v: Hs, w: Hs, request: Message)
    requires Good(v) && v.state == READ_HELLO_VERIFY_REQUEST && request.kind == HelloVerifyRequest
    requires w.log == Then(v.log, Received(request)) && w.state == v.state
    requires w.choices == v.choices.(cookie := true) && w.ssl3 == v.ssl3
    ensures Stopped(v, w)
  {
    var d := w.choices;
    ThroughDecided(1, v.choices, d);
    assert Through(2, v.choices) == Through(1, v.choices) && Through(2, d) == Through(1, d);
    assert Shape(w.log) == Next(Through(2, d), In(HelloVerifyRequest));
    assert Through(3, d) == Next(Shape(w.log), Out(ClientHello));
    Logs(v, v, Received(request));
  }

  /** `transcript.Init` */
  function Restart(h: Hs): Hs {
    h.(buffer := Some(Empty), hash := None)
  }

  /** `transcript.InitHash` takes over what was buffered. */
  function InitHash(h: Hs): Hs {
    h.(hash := h.buffer)
  }

  /** What the ServerHello settles */
  function Settle(c: Choices, resumed: bool, certAuth: bool, needsKey: bool, nextProto: bool, channelId: bool): Choices
  {
    c.(resumed := resumed, certAuth := certAuth, needsKey := needsKey, nextProto := nextProto,
       channelId := channelId, requested := false, clientCert := false, proved := false)
  }

  /** What a client does with a ServerHello: the session it keeps, the hash, and perhaps no buffer. */
  function Hear(h: Hs, session: bool, ssl3: bool, certAuth: bool, m: Message): Hs {
    var u := Update(InitHash(h.(session := session, ssl3 := ssl3)), m);
    NextMessage(if session || !certAuth then FreeBuffer(u) else u, m)
  }

  function AfterHello(session: bool): State {
    if session then READ_SESSION_TICKET else READ_SERVER_CERTIFICATE
  }

  lemma HearsHello(v: Hs, session: bool, ssl3: bool, m: Message, d: Choices)
    requires Good(v) && v.state == READ_SERVER_HELLO && m.kind == ServerHello
    requires d == Settle(v.choices, session, d.certAuth, d.needsKey, d.nextProto, d.channelId)
    ensures Stepped(v, GoTo(Hear(v, session, ssl3, d.certAuth, m), AfterHello(session), d), Ok)
  {
    var w := Hear(v, session, ssl3, d.certAuth, m);
    var x := GoTo(w, AfterHello(session), d);
    HearTranscript(v, session, ssl3, d.certAuth, m);
    Arrives(v, x);
    Logs(v, v, Received(m));
    HearFits(v, session, ssl3, m, d);
    assert Good(x);
  }

  lemma HearFits(v: Hs, session: bool, ssl3: bool, m: Message, d: Choices)
    requires v.state == READ_SERVER_HELLO && v.buffer.Some?
    requires d == Settle(v.choices, session, d.certAuth, d.needsKey, d.nextProto, d.channelId)
    ensures Fitting(GoTo(Hear(v, session, ssl3, d.certAuth, m), AfterHello(session), d))
  {
  }

  lemma HearTranscript(v: Hs, session: bool, ssl3: bool, certAuth: bool, m: Message)
    requires TranscriptOk(v) && v.state == READ_SERVER_HELLO && m.kind == ServerHello
    ensures var w := Hear(v, session, ssl3, certAuth, m);
            && w.log == Then(v.log, Received(m)) && w.hash == Some(Exchanged(w.log))
            && w.buffer == (if session || !certAuth then None else w.hash)
            && Shape(w.log) == Next(Shape(v.log), In(ServerHello))
  {
  }

  /** The certificate was verified. */
  lemma Verifies(v: Hs)
    requires Good(v) && v.state == VERIFY_SERVER_CERTIFICATE && v.choices.certAuth && PeerOf(v.log).certificateOk
    ensures Stepped(v, GoTo(Log(v, Did(PeerVerified)), READ_SERVER_KEY_EXCHANGE, v.choices), Ok)
  {
    var w := GoTo(Log(v, Did(PeerVerified)), READ_SERVER_KEY_EXCHANGE, v.choices);
    Arrives(v, w);
    assert Extends(v.log, w.log) && LogOk(w.log) && TranscriptOk(w);
  }

  /** The server's key is hashed, its signature verified if it has to be signed, and then consumed. */
  lemma TakesKey(v: Hs, m: Message)
    requires Good(v) && v.state == READ_SERVER_KEY_EXCHANGE && m.kind == ServerKeyExchange
    requires v.choices.certAuth ==> PeerOf(v.log).keyOk
    ensures Stepped(v, GoTo(NextMessage(Signed(Update(v, m)), m), READ_CERTIFICATE_REQUEST,
                            v.choices.(serverKey := true)), Ok)
  {
    var d := v.choices.(serverKey := true);
    var u := Signed(Update(v, m));
    var w := GoTo(NextMessage(u, m), READ_CERTIFICATE_REQUEST, d);
    ServerChoosesLater(v.choices, true);
    Arrives(v, w);
    if v.choices.certAuth { Logs(v, v, Did(KeySigned)); }
    Logs(v, u, Received(m));
    assert TranscriptOk(w);
    assert Fitting(w);
  }

  function Signed(h: Hs): Hs {
    if h.choices.certAuth then Log(h, Did(KeySigned)) else h
  }

  /** ChangeCipherSpec, new write keys, and the messages that may come before Finished */
  function Changed(h: Hs): Hs {
    Log(Log(h, Did(OutChange)), Did(WriteKeys))
  }

  function AddIf(h: Hs, b: bool, m: Message): Hs {
    if b then AddMessage(h, m) else h
  }

  function HashOf(h: Hs): Transcript {
    if h.hash.Some? then h.hash.value else Empty
  }

  function BeforeFinished(h: Hs, proto: Message, id: Message): Hs {
    AddIf(AddIf(Changed(h), h.choices.nextProto, proto), h.choices.channelId, id)
  }

  lemma BeforeFinishedShape(h: Hs, proto: Message, id: Message)
    requires proto.kind == NextProto && id.kind == ChannelId
    ensures Shape(BeforeFinished(h, proto, id).log) ==
              Add(Add(Next(Next(Shape(h.log), OutChange), WriteKeys), h.choices.nextProto, Out(NextProto)),
                  h.choices.channelId, Out(ChannelId))
  {
    var c := Changed(h);
    assert Shape(Log(h, Did(OutChange)).log) == Next(Shape(h.log), OutChange);
    assert Shape(c.log) == Next(Next(Shape(h.log), OutChange), WriteKeys);
    var d := AddIf(c, h.choices.nextProto, proto);
    assert Shape(d.log) == Add(Shape(c.log), h.choices.nextProto, Out(NextProto));
  }

  lemma SendingTakesNothing(h: Hs, proto: Message, id: Message)
    ensures var w := BeforeFinished(h, proto, id);
            Taken(w.log) == Taken(h.log) && Taken(Finish(w).log) == Taken(h.log)
  {
    var c := Changed(h);
    assert Taken(c.log) == Taken(h.log);
    var d := AddIf(c, h.choices.nextProto, proto);
    assert Taken(d.log) == Taken(h.log);
  }

  /** Everything before the client's Finished is in order, and so far it is a failure to stop here. */
  lemma ChangesKeys(v: Hs, proto: Message, id: Message)
    requires Good(v) && v.state == SEND_CLIENT_FINISHED && proto.kind == NextProto && id.kind == ChannelId
    ensures Stopped(v, Log(v, Did(OutChange))) && Stopped(v, BeforeFinished(v, proto, id))
    ensures TranscriptOk(BeforeFinished(v, proto, id))
  {
    var a := Log(v, Did(OutChange));
    Logs(v, v, Did(OutChange));
    Logs(v, a, Did(WriteKeys));
    var b := Changed(v);
    assert TranscriptOk(b);
    Logs(v, b, Sent(proto));
    var c := AddIf(b, v.choices.nextProto, proto);
    assert TranscriptOk(c);
    Logs(v, c, Sent(id));
    SameOtherwise(v, proto, id);
    ChangingIsUnderway(v, proto, id);
  }

  lemma ChangingIsUnderway(v: Hs, proto: Message, id: Message)
    requires Good(v) && v.state == SEND_CLIENT_FINISHED && proto.kind == NextProto && id.kind == ChannelId
    ensures Underway(Log(v, Did(OutChange))) && Underway(BeforeFinished(v, proto, id))
  {
    var c, f := v.choices, Shape(v.log);
    FinishSteps(c, f);
    BeforeFinishedShape(v, proto, id);
    SameOtherwise(v, proto, id);
    assert Through(14, c) == Enter(14, c, f);
    assert Shape(Log(v, Did(OutChange)).log) == Next(f, OutChange);
    assert Shape(BeforeFinished(v, proto, id).log) == Enter(14, c, f).before;
  }

  /** ChangeCipherSpec first, Finished last, and the rest in between */
  lemma FinishSteps(c: Choices, f: Marks)
    ensures var e := Enter(14, c, f);
            && e.Next? && e.last == Out(Finished) && Precedes(f, Next(f, OutChange))
            && Precedes(Next(f, OutChange), e) && Precedes(f, e.before) && Precedes(e.before, e)
  {
    var a, g := Next(f, OutChange), Next(Next(f, OutChange), WriteKeys);
    PrecedesAdd(f, a, true, WriteKeys);
    PrecedesAdd(f, g, c.nextProto, Out(NextProto));
    PrecedesAdd(f, Add(g, c.nextProto, Out(NextProto)), c.channelId, Out(ChannelId));
    PrecedesAdd(a, g, c.nextProto, Out(NextProto));
    PrecedesAdd(a, Add(g, c.nextProto, Out(NextProto)), c.channelId, Out(ChannelId));
    PrecedesAdd(a, Enter(14, c, f).before, true, Out(Finished));
  }

  function Finish(h: Hs): Hs {
    GoTo(AddMessage(h, Message(Finished, Mac(true, HashOf(h)))), FINISH_FLIGHT, h.choices)
  }

  lemma Finishes(v: Hs, proto: Message, id: Message)
    requires Good(v) && v.state == SEND_CLIENT_FINISHED && proto.kind == NextProto && id.kind == ChannelId
    ensures Stepped(v, Finish(BeforeFinished(v, proto, id)), Flush)
  {
    var u := BeforeFinished(v, proto, id);
    ChangesKeys(v, proto, id);
    BeforeFinishedShape(v, proto, id);
    SameOtherwise(v, proto, id);
    Closes(v, u);
  }

  lemma SameOtherwise(h: Hs, proto: Message, id: Message)
    ensures var u := BeforeFinished(h, proto, id);
            u.state == h.state && u.choices == h.choices && u.session == h.session && u.ssl3 == h.ssl3
  {
  }

  lemma Closes(v: Hs, u: Hs)
    requires Flowing(v) && Fitting(v) && v.state == SEND_CLIENT_FINISHED
    requires Extends(v.log, u.log) && LogOk(u.log) && TranscriptOk(u)
    requires u.state == v.state && u.choices == v.choices && u.session == v.session && u.ssl3 == v.ssl3
    requires Next(Shape(u.log), Out(Finished)) == Enter(14, v.choices, Shape(v.log))
    ensures Stepped(v, Finish(u), Flush)
  {
    ClosesFlow(v, u);
    ClosesLog(v, u);
    ClosesFitting(v, u);
    var w := Finish(u);
    assert Good(w);
    assert w.state == 14 && w.session == v.session && Rank(14, v.session) < Rank(13, v.session);
  }

  lemma ClosesFitting(v: Hs, u: Hs)
    requires Fitting(v) && v.state == SEND_CLIENT_FINISHED && u.choices == v.choices
    requires u.session == v.session && u.ssl3 == v.ssl3
    ensures Fitting(Finish(u))
  {
  }

  lemma ClosesFlow(v: Hs, u: Hs)
    requires Flowing(v) && v.state == SEND_CLIENT_FINISHED && u.choices == v.choices
    requires Next(Shape(u.log), Out(Finished)) == Enter(14, v.choices, Shape(v.log))
    ensures Flowing(Finish(u))
  {
    Arrives(v, Finish(u));
  }

  lemma ClosesLog(v: Hs, u: Hs)
    requires Extends(v.log, u.log) && LogOk(u.log) && TranscriptOk(u) && u.state == SEND_CLIENT_FINISHED
    ensures Extends(v.log, Finish(u).log) && LogOk(Finish(u).log) && TranscriptOk(Finish(u))
  {
    Logs(v, u, Sent(Message(Finished, Mac(true, HashOf(u)))));
  }

  /** A good state whose awaited ChangeCipherSpec was just opened */
  ghost predicate Opened(h: Hs) {
    var all := h.state == PROCESS_CHANGE_CIPHER_SPEC && h.log.Then? && h.log.last == Did(InChange)
               && Good(h.(log := h.log.before));
    all
  }

  lemma ChangesReadKeys(v: Hs)
    requires Opened(v)
    ensures Stopped(v, v) && Stepped(v, GoTo(Log(v, Did(ReadKeys)), READ_SERVER_FINISHED, v.choices), Ok)
  {
    var w := GoTo(Log(v, Did(ReadKeys)), READ_SERVER_FINISHED, v.choices);
    OpenedIsUnderway(v);
    ReadKeysChange(v, w);
    assert Good(w);
  }

  lemma ReadKeysChange(v: Hs, w: Hs)
    requires Opened(v) && w == GoTo(Log(v, Did(ReadKeys)), READ_SERVER_FINISHED, v.choices)
    ensures LogOk(v.log) && Extends(v.log, w.log) && Flowing(w) && LogOk(w.log) && TranscriptOk(w) && Fitting(w)
  {
    var before := v.(log := v.log.before);
    Logs(before, before, Did(InChange));
    Logs(v, v, Did(ReadKeys));
    Arrives(before, w);
    assert TranscriptOk(before) && Fitting(before);
  }

  lemma OpenedIsUnderway(v: Hs)
    requires Opened(v)
    ensures Underway(v)
  {
    var before := v.(log := v.log.before);
    var f := Through(16, v.choices);
    assert Flowing(before) && Fitting(before) && Shape(v.log) == Next(f, InChange);
    assert Through(17, v.choices) == Enter(17, v.choices, f) == Next(Next(f, InChange), ReadKeys);
    assert v.state == 16 && Following(16, v.choices.resumed) == 17;
    assert Precedes(f, Shape(v.log)) && Precedes(Shape(v.log), Through(17, v.choices));
  }

  /** A step that could go on may also return to the caller first. */
  lemma Pauses(v: Hs, w: Hs, ret: Wait)
    requires Stepped(v, w, Ok) && Resting(w) && !ret.Error? && Waits(w.state, ret)
    ensures Stepped(v, w, ret)
  {
  }

  /** The buffer may go once nothing is left to sign. */
  lemma Frees(v: Hs, w: Hs)
    requires Stepped(v, w, Ok) && w.state == SEND_CLIENT_FINISHED
    ensures Stepped(v, FreeBuffer(w), Ok)
  {
  }

  // ---- optional messages ----

  /** The one choice that is made on leaving a state */
  ghost predicate Chooses(s: State, c: Choices, d: Choices) {
    || (s == 5 && d == c.(status := d.status))
    || (s == 7 && d == c.(serverKey := d.serverKey))
    || (s == 8 && d == c.(requested := d.requested))
    || (s == 10 && d == c.(clientCert := d.clientCert))
    || (s == 12 && d == c.(proved := d.proved))
    || (s == 15 && d == c.(ticket := d.ticket))
  }

  lemma ClientChoosesLater(c: Choices, b: bool)
    requires !c.resumed
    ensures Decided(10, c, c.(clientCert := b)) && Decided(12, c, c.(proved := b))
  {
  }

  lemma TicketLater(c: Choices, b: bool)
    ensures Decided(15, c, c.(ticket := b))
  {
  }

  /** On leaving a state with or without its optional message */
  lemma Follow(v: Hs, t: State, d: Choices)
    requires Good(v) && t == v.state + 1 && Chooses(v.state, v.choices, d)
    ensures Follows(v, t, d)
  {
    if v.state == 5 {
      StatusLater(v.choices, d.status);
    } else if v.state <= 8 {
      ServerChoosesLater(v.choices, if v.state == 7 then d.serverKey else d.requested);
    } else if v.state <= 12 {
      ClientChoosesLater(v.choices, if v.state == 10 then d.clientCert else d.proved);
    } else {
      TicketLater(v.choices, d.ticket);
    }
  }

  lemma Nothing(t: State, d: Choices, f: Marks)
    requires || (t == 6 && !d.status) || (t == 8 && !d.serverKey) || (t == 9 && !d.requested)
             || (t == 11 && !d.clientCert) || (t == 13 && !d.resumed && !d.proved) || (t == 16 && !d.ticket)
    ensures Enter(t, d, f) == f
  {
  }

  lemma Something(t: State, d: Choices, f: Marks, m: Mark)
    requires || (t == 6 && d.status && m == In(CertificateStatus))
             || (t == 9 && d.requested && m == In(CertificateRequest))
             || (t == 11 && d.clientCert && m == Out(Certificate))
             || (t == 13 && !d.resumed && d.proved && m == Out(CertificateVerify))
             || (t == 16 && d.ticket && m == In(NewSessionTicket))
    ensures Enter(t, d, f) == Next(f, m)
  {
  }

  /** The server sends no CertificateStatus. */
  lemma NoStatus(v: Hs)
    requires Good(v) && v.state == READ_CERTIFICATE_STATUS
    ensures Stepped(v, GoTo(v, VERIFY_SERVER_CERTIFICATE, v.choices.(status := false)), Ok)
  {
    var d := v.choices.(status := false);
    Follow(v, VERIFY_SERVER_CERTIFICATE, d);
    Nothing(VERIFY_SERVER_CERTIFICATE, d, Shape(v.log));
    Skips(v, v, VERIFY_SERVER_CERTIFICATE, d);
  }

  /** It sends one. */
  lemma TakesStatus(v: Hs, m: Message)
    requires Good(v) && v.state == READ_CERTIFICATE_STATUS && m.kind == CertificateStatus
    ensures Stepped(v, GoTo(NextMessage(Update(v, m), m), VERIFY_SERVER_CERTIFICATE, v.choices.(status := true)), Ok)
  {
    var d := v.choices.(status := true);
    Follow(v, VERIFY_SERVER_CERTIFICATE, d);
    Something(VERIFY_SERVER_CERTIFICATE, d, Shape(v.log), In(m.kind));
    Takes(v, m, VERIFY_SERVER_CERTIFICATE, d);
  }

  /** The cipher does without a ServerKeyExchange. */
  lemma NoKey(v: Hs)
    requires Good(v) && v.state == READ_SERVER_KEY_EXCHANGE && !v.choices.needsKey
    ensures Stepped(v, GoTo(v, READ_CERTIFICATE_REQUEST, v.choices.(serverKey := false)), Ok)
  {
    var d := v.choices.(serverKey := false);
    Follow(v, READ_CERTIFICATE_REQUEST, d);
    Nothing(READ_CERTIFICATE_REQUEST, d, Shape(v.log));
    Skips(v, v, READ_CERTIFICATE_REQUEST, d);
  }

  /** No client certificate is requested. */
  lemma NotRequested(v: Hs, u: Hs)
    requires Good(v) && v.state == READ_CERTIFICATE_REQUEST && (u == v || u == FreeBuffer(v))
    ensures Stepped(v, GoTo(u, READ_SERVER_HELLO_DONE, v.choices.(requested := false)), Ok)
  {
    var d := v.choices.(requested := false);
    Follow(v, READ_SERVER_HELLO_DONE, d);
    Nothing(READ_SERVER_HELLO_DONE, d, Shape(v.log));
    Skips(v, u, READ_SERVER_HELLO_DONE, d);
  }

  /** One is. */
  lemma TakesRequest(v: Hs, m: Message)
    requires Good(v) && v.state == READ_CERTIFICATE_REQUEST && m.kind == CertificateRequest && v.choices.certAuth
    ensures Stepped(v, GoTo(NextMessage(Update(v, m), m), READ_SERVER_HELLO_DONE, v.choices.(requested := true)), Ok)
  {
    var d := v.choices.(requested := true);
    Follow(v, READ_SERVER_HELLO_DONE, d);
    Something(READ_SERVER_HELLO_DONE, d, Shape(v.log), In(m.kind));
    Takes(v, m, READ_SERVER_HELLO_DONE, d);
  }

  /** The client sends no Certificate: none was requested, or SSL 3.0 has an alert instead. */
  lemma NoAnswer(v: Hs, u: Hs)
    requires Good(v) && v.state == SEND_CLIENT_CERTIFICATE && (u == v || u == FreeBuffer(v))
    requires !v.choices.requested || (v.ssl3 && !v.hasCertificate)
    ensures Stepped(v, GoTo(u, SEND_CLIENT_KEY_EXCHANGE, v.choices.(clientCert := false)), Ok)
  {
    var d := v.choices.(clientCert := false);
    Follow(v, SEND_CLIENT_KEY_EXCHANGE, d);
    Nothing(SEND_CLIENT_KEY_EXCHANGE, d, Shape(v.log));
    Skips(v, u, SEND_CLIENT_KEY_EXCHANGE, d);
  }

  /** The client sends its Certificate, or an empty one. */
  lemma Answers(v: Hs, u: Hs, m: Message)
    requires Good(v) && v.state == SEND_CLIENT_CERTIFICATE && v.choices.requested && m.kind == Certificate
    requires u == v || (u == FreeBuffer(v) && !v.hasCertificate)
    ensures Stepped(v, GoTo(AddMessage(u, m), SEND_CLIENT_KEY_EXCHANGE, v.choices.(clientCert := true)), Ok)
  {
    var d := v.choices.(clientCert := true);
    Follow(v, SEND_CLIENT_KEY_EXCHANGE, d);
    Something(SEND_CLIENT_KEY_EXCHANGE, d, Shape(v.log), Out(Certificate));
    Gives(v, u, m, SEND_CLIENT_KEY_EXCHANGE, d);
  }

  /** The client has no certificate to prove. */
  lemma NoProof(v: Hs)
    requires Good(v) && v.state == SEND_CLIENT_CERTIFICATE_VERIFY
    ensures Stepped(v, GoTo(v, SEND_CLIENT_FINISHED, v.choices.(proved := false)), Ok)
  {
    var d := v.choices.(proved := false);
    Follow(v, SEND_CLIENT_FINISHED, d);
    Nothing(SEND_CLIENT_FINISHED, d, Shape(v.log));
    Skips(v, v, SEND_CLIENT_FINISHED, d);
  }

  /** The client signs the transcript, from the hash or from the buffer: they are the same. */
  lemma Proves(v: Hs, m: Message)
    requires Good(v) && v.state == SEND_CLIENT_CERTIFICATE_VERIFY && v.choices.requested && v.hasCertificate
    requires m.kind == CertificateVerify
    ensures v.hash.Some? && v.buffer == v.hash
    ensures m.body == Signature(v.hash.value) ==>
              var w := GoTo(AddMessage(v, m), SEND_CLIENT_FINISHED, v.choices.(proved := true));
              Stepped(v, FreeBuffer(w), Ok)
  {
    if m.body == Signature(v.hash.value) {
      var w := GoTo(AddMessage(v, m), SEND_CLIENT_FINISHED, v.choices.(proved := true));
      Follow(v, SEND_CLIENT_FINISHED, v.choices.(proved := true));
      Something(SEND_CLIENT_FINISHED, v.choices.(proved := true), Shape(v.log), Out(CertificateVerify));
      Gives(v, v, m, SEND_CLIENT_FINISHED, v.choices.(proved := true));
      Frees(v, w);
    }
  }

  /** No ticket was announced. */
  lemma NoTicket(v: Hs)
    requires Good(v) && v.state == READ_SESSION_TICKET
    ensures Stepped(v, GoTo(v, PROCESS_CHANGE_CIPHER_SPEC, v.choices.(ticket := false)), ReadChangeCipherSpec)
  {
    var d := v.choices.(ticket := false);
    Follow(v, PROCESS_CHANGE_CIPHER_SPEC, d);
    Nothing(PROCESS_CHANGE_CIPHER_SPEC, d, Shape(v.log));
    Skips(v, v, PROCESS_CHANGE_CIPHER_SPEC, d);
  }

  /** One was, and here it is. */
  lemma TakesTicket(v: Hs, m: Message)
    requires Good(v) && v.state == READ_SESSION_TICKET && m.kind == NewSessionTicket
    ensures Stepped(v, GoTo(NextMessage(Update(v, m), m), PROCESS_CHANGE_CIPHER_SPEC, v.choices.(ticket := true)),
                    ReadChangeCipherSpec)
  {
    var d := v.choices.(ticket := true);
    Follow(v, PROCESS_CHANGE_CIPHER_SPEC, d);
    Something(PROCESS_CHANGE_CIPHER_SPEC, d, Shape(v.log), In(m.kind));
    Takes(v, m, PROCESS_CHANGE_CIPHER_SPEC, d);
  }

  /** The application may install or remove a certificate while the machine stands still. */
  lemma Recertified(h: Hs, b: bool)
    ensures Underway(h) ==> Underway(h.(hasCertificate := b))
    ensures Good(h) && Resting(h) ==> Good(h.(hasCertificate := b)) && Resting(h.(hasCertificate := b))
  {
  }

  /** After the server's Finished: the client's turn in a resumed handshake, the end of a full one. */
  function AfterFinished(session: bool): State {
    if session then SEND_CLIENT_FINISHED else FINISH_CLIENT_HANDSHAKE
  }

  lemma TakesFinished(v: Hs, m: Message)
    requires Good(v) && v.state == READ_SERVER_FINISHED && m.kind == Finished && EventOk(v.log, Received(m))
    ensures Stepped(v, GoTo(NextMessage(Update(v, m), m), AfterFinished(v.session), v.choices), Ok)
  {
    var t := AfterFinished(v.session);
    FinishedFits(v, m, t);
    Takes(v, m, t, v.choices);
  }

  lemma FinishedFits(v: Hs, m: Message, t: State)
    requires Good(v) && v.state == READ_SERVER_FINISHED && m.kind == Finished && t == AfterFinished(v.session)
    ensures Follows(v, t, v.choices) && Enter(t, v.choices, Shape(v.log)) == Next(Shape(v.log), In(m.kind))
    ensures Fitting(GoTo(NextMessage(Update(v, m), m), t, v.choices)) && Onward(t) == Ok
  {
    assert Settled(v) && Lawful(v.state, v.choices, v.ssl3);
  }

  // ---- the machine as a whole ----

  /** The machine may run: it is in a good state, and a ChangeCipherSpec it waits for was opened. */
  ghost predicate Ready(h: Hs) {
    if h.state == PROCESS_CHANGE_CIPHER_SPEC then Opened(h) else Good(h)
  }

  /** What running the machine from v to w with `ret` has done */
  ghost predicate Ran(v: Hs, w: Hs, ret: Wait) {
    var all :=
      && Extends(v.log, w.log) && LogOk(w.log) && Underway(w)
      && (!ret.Error? ==>
            Good(w) && Resting(w) && Waits(w.state, ret))
      && (ret.Ok? ==> w.state == DONE);
    all
  }

  lemma RanOn(v: Hs, u: Hs, w: Hs, ret: Wait)
    requires Extends(v.log, u.log) && if ret.Error? then Stopped(u, w) else Stepped(u, w, ret)
    ensures Extends(v.log, w.log)
    ensures !ret.Ok? ==> Ran(v, w, ret)
    ensures ret.Ok? ==> Ready(w)
    ensures ret.Ok? && w.state == DONE ==> Ran(v, w, ret)
  {
    ExtendsTransitive(v.log, u.log, w.log);
    if !ret.Error? { GoodIsUnderway(w); }
  }
}
