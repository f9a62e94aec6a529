/** Sender, network and receiver together.

    The network keeps every record ever sealed and may hand any of them to the receiver at any time:
    that covers loss, duplication and reordering, and the sender may go back in its flight at will,
    which covers retransmission and blocked writes. */
module EndToEnd {
  import opened Basics
  import opened Words
  import opened Fragments
  import opened Reassembly
  import opened Receiver
  import opened Flight

  datatype Message = Message(typ: Byte, body: seq<Byte>)

  /** A record as the receiver sees it once it is decrypted. */
  datatype Wire = Wire(epoch: nat, isCcs: bool, payload: seq<Byte>)

  datatype System = System(
    queue: Queue,
    network: seq<Wire>,
    ring: Ring,
    sent: seq<Message>,
    delivered: seq<seq<Byte>>)

  datatype Event =
    | Add(typ: Byte, body: seq<Byte>)
    | AddCcs
    | Flush
    | Cut(piece: Piece)
    | Seek(cursor: Cursor)
    | WriteKeys
    | Arrive(k: nat, maxLen: nat)
    | ConsumeCcs
    | Look
    | Take
    | ReadKeys

  function Init(): System {
    System(Queue([], START, false, 0, 0, [], false), [], EmptyRing(), [], [])
  }

  function ContentOf(w: Wire): Content {
    if w.isCcs then ChangeCipherSpec else Handshake
  }

  predicate Working(s: System) {
    RingOk(s.ring) && s.queue.writeSeq < MAX_U16
  }

  function Step(s: System, e: Event): System
    requires Working(s)
  {
    match e
    case Add(typ, body) =>
      var (q, ok) := Enqueue(s.queue, false, typ, body);
      s.(queue := q, sent := if ok then s.sent + [Message(typ, body)] else s.sent)
    case AddCcs => s.(queue := Enqueue(s.queue, true, 0, []).0)
    case Flush => s.(queue := s.queue.(complete := true))
    case Cut(p) =>
      if !Legal(s.queue.messages, s.queue.cursor, p) then s
      else
        var m := s.queue.messages[p.index];
        s.(queue := s.queue.(cursor := Advance(s.queue.messages, s.queue.cursor, p)),
           network := s.network + [Wire(m.epoch, m.isCcs, Payload(s.queue.messages, p))])
    case Seek(c) => if CursorOk(s.queue.messages, c) then s.(queue := s.queue.(cursor := c)) else s
    case WriteKeys => s.(queue := s.queue.(epoch := (s.queue.epoch + 1) % MAX_U16))
    case Arrive(k, maxLen) =>
      if k >= |s.network| || s.network[k].epoch != s.ring.epoch then s
      else s.(ring := OpenRecord(s.ring, ContentOf(s.network[k]), s.ring.epoch > 0, s.network[k].payload, maxLen).0)
    case ConsumeCcs => s.(ring := s.ring.(hasCcs := false))
    case Look => if CurrentComplete(s.ring) then s.(ring := s.ring.(hasMessage := true)) else s
    case Take =>
      if !s.ring.hasMessage || !CurrentComplete(s.ring) then s
      else s.(ring := NextMessage(s.ring), delivered := s.delivered + [Current(s.ring).raw])
    case ReadKeys =>
      if HasUnprocessed(s.ring) then s else s.(ring := s.ring.(epoch := (s.ring.epoch + 1) % MAX_U16))
  }

  lemma StepWorks(s: System, e: Event)
    requires Working(s)
    ensures Working(Step(s, e))
  {
    match e
    case Arrive(k, maxLen) =>
      if k < |s.network| {
        OpenRecordOk(s.ring, ContentOf(s.network[k]), s.ring.epoch > 0, s.network[k].payload, maxLen);
      }
    case Take => NextMessageOk(s.ring);
    case _ =>
  }

  function Steps(s: System, es: seq<Event>): (s': System)
    requires Working(s)
    ensures Working(s')
    decreases |es|
  {
    if es == [] then s
    else
      StepWorks(s, es[0]);
      Steps(Step(s, es[0]), es[1..])
  }

  function RunOf(events: seq<Event>): System {
    Steps(Init(), events)
  }

  lemma FirstStep(s: System, es: seq<Event>, fs: seq<Event>)
    requires Working(s) && es != []
    ensures Working(Step(s, es[0]))
    ensures Steps(s, es + fs) == Steps(Step(s, es[0]), es[1..] + fs)
  {
    StepWorks(s, es[0]);
    assert (es + fs)[1..] == es[1..] + fs;
  }

  lemma {:induction false} StepsAppend(s: System, es: seq<Event>, fs: seq<Event>)
    requires Working(s)
    ensures Steps(s, es + fs) == Steps(Steps(s, es), fs)
    decreases |es|
  {
    if es == [] {
      assert es + fs == fs;
    } else {
      FirstStep(s, es, fs);
      StepsAppend(Step(s, es[0]), es[1..], fs);
    }
  }

  // ---- the invariant ----

  predicate SentOk(sent: seq<Message>) {
    forall k :: 0 <= k < |sent| ==> |sent[k].body| < MAX_U24
  }

  /** Message k as one single fragment, header included. */
  function Raw(sent: seq<Message>, k: nat): seq<Byte>
    requires SentOk(sent) && k < |sent| && k < MAX_U16
  {
    WholeMessage(sent[k].typ, k, sent[k].body)
  }

  /** What is hashed for the first n messages: each as one single fragment. */
  function HashedUpTo(sent: seq<Message>, n: nat): seq<Byte>
    requires SentOk(sent) && n <= |sent| && n <= MAX_U16
  {
    if n == 0 then [] else HashedUpTo(sent, n - 1) + Raw(sent, n - 1)
  }

  ghost predicate QueueInv(q: Queue, sent: seq<Message>)
    requires SentOk(sent) && |sent| < MAX_U16
  {
    && q.writeSeq == |sent| && q.transcript == HashedUpTo(sent, |sent|)
    && CursorOk(q.messages, q.cursor)
    && forall i :: 0 <= i < |q.messages| ==> Queued(q.messages[i], sent)
  }

  ghost predicate Queued(m: Outgoing, sent: seq<Message>) {
    && WellFormed(m)
    && (!m.isCcs ==> m.seqNo < |sent| && sent[m.seqNo] == Message(m.typ, m.body))
  }

  /** The record is a ChangeCipherSpec, or a slice of the message whose number it bears. */
  ghost predicate Genuine(sent: seq<Message>, w: Wire) {
    if w.isCcs then w.payload == [1]
    else
      && Parse(w.payload).Some?
      && var p := Parse(w.payload).value;
         p.rest == [] && IsSlice(sent, p.header, p.body)
  }

  ghost predicate IsSlice(sent: seq<Message>, h: Header, body: seq<Byte>) {
    && h.seqNo < |sent|
    && h.typ == sent[h.seqNo].typ && h.msgLen == |sent[h.seqNo].body|
    && h.len == |body| && h.off + |body| <= h.msgLen
    && body == sent[h.seqNo].body[h.off..h.off + |body|]
  }

  /** What a slot holds agrees with the message whose number it bears. */
  ghost predicate Faithful(sent: seq<Message>, s: Slot)
    requires SentOk(sent)
  {
    && s.seqNo < |sent| && s.seqNo < MAX_U16
    && s.typ == sent[s.seqNo].typ && s.msgLen == |sent[s.seqNo].body|
    && |s.raw| == HEADER_LENGTH + s.msgLen
    && s.raw[..HEADER_LENGTH] == Serialize(Whole(s.typ, s.seqNo, s.msgLen))
    && match s.progress
       case Complete => s.raw[HEADER_LENGTH..] == sent[s.seqNo].body
       case Pending(got) => |got| == s.msgLen && Agrees(got, s.raw[HEADER_LENGTH..], sent[s.seqNo].body)
  }

  ghost predicate Agrees(got: seq<bool>, buffer: seq<Byte>, body: seq<Byte>)
    requires |got| == |buffer| == |body|
  {
    forall i :: 0 <= i < |got| && got[i] ==> buffer[i] == body[i]
  }

  ghost predicate RingInv(r: Ring, sent: seq<Message>)
    requires SentOk(sent)
  {
    && RingOk(r)
    && forall i :: 0 <= i < MAX_FLIGHT && r.slots[i].Some? ==> Faithful(sent, r.slots[i].value)
  }

  ghost predicate Inv(s: System) {
    && |s.sent| < MAX_U16 && SentOk(s.sent)
    && QueueInv(s.queue, s.sent)
    && (forall k :: 0 <= k < |s.network| ==> Genuine(s.sent, s.network[k]))
    && RingInv(s.ring, s.sent)
    && s.ring.readSeq == |s.delivered| <= |s.sent|
    && forall k :: 0 <= k < |s.delivered| ==> s.delivered[k] == Raw(s.sent, k)
  }

  // ---- the sender's steps ----

  lemma CutIsGenuine(ms: seq<Outgoing>, p: Piece, sent: seq<Message>)
    requires p.index < |ms| && p.off + p.len <= |ms[p.index].body| && Queued(ms[p.index], sent)
    ensures Genuine(sent, Wire(ms[p.index].epoch, ms[p.index].isCcs, Payload(ms, p)))
  {
    var m := ms[p.index];
    if !m.isCcs {
      var h := Header(m.typ, |m.body|, m.seqNo, p.off, p.len);
      var part := m.body[p.off..p.off + p.len];
      ParseSerialize(h, part, []);
      assert Serialize(h) + part + [] == Payload(ms, p);
    }
  }

  /** Adding a message changes nothing about the messages before it. */
  lemma SentGrows(s: System, m: Message)
    requires Inv(s) && |m.body| < MAX_U24 && |s.sent| + 1 < MAX_U16
    ensures var sent := s.sent + [m];
            && SentOk(sent)
            && (forall i :: 0 <= i < |s.queue.messages| ==> Queued(s.queue.messages[i], sent))
            && (forall k :: 0 <= k < |s.network| ==> Genuine(sent, s.network[k]))
            && RingInv(s.ring, sent)
            && forall k :: 0 <= k < |s.delivered| ==> s.delivered[k] == Raw(sent, k)
  {
    var sent := s.sent + [m];
    assert forall k :: 0 <= k < |s.sent| ==> sent[k] == s.sent[k];
    forall k | 0 <= k < |s.network| ensures Genuine(sent, s.network[k]) {
      assert Genuine(s.sent, s.network[k]);
    }
    forall i | 0 <= i < MAX_FLIGHT && s.ring.slots[i].Some? ensures Faithful(sent, s.ring.slots[i].value) {
      assert Faithful(s.sent, s.ring.slots[i].value);
    }
  }

  lemma {:induction false} SameHash(sent: seq<Message>, m: Message, n: nat)
    requires SentOk(sent) && |m.body| < MAX_U24 && n <= |sent| < MAX_U16
    ensures HashedUpTo(sent + [m], n) == HashedUpTo(sent, n)
  {
    if n > 0 { SameHash(sent, m, n - 1); }
  }

  // ---- the receiver's steps ----

  lemma NewSlotIsFaithful(sent: seq<Message>, h: Header, body: seq<Byte>)
    requires SentOk(sent) && |sent| < MAX_U16 && Encodable(h) && IsSlice(sent, h, body)
    ensures Faithful(sent, NewSlot(h))
  {
    var s := NewSlot(h);
    assert s.raw[..HEADER_LENGTH] == Serialize(Whole(h.typ, h.seqNo, h.msgLen));
    assert h.msgLen == 0 ==> s.raw[HEADER_LENGTH..] == [];
  }

  lemma StoredIsFaithful(sent: seq<Message>, s: Slot, h: Header, body: seq<Byte>)
    requires SentOk(sent) && Faithful(sent, s) && IsSlice(sent, h, body) && h.seqNo == s.seqNo
    ensures Faithful(sent, Stored(s, h, body))
  {
    if s.progress.Pending? {
      var t, whole := Stored(s, h, body), sent[s.seqNo].body;
      var was, now := s.raw[HEADER_LENGTH..], t.raw[HEADER_LENGTH..];
      assert t.raw[..HEADER_LENGTH] == s.raw[..HEADER_LENGTH];
      var got := With(s.progress.got, h.off, h.off + |body|);
      forall i | 0 <= i < |got| && got[i] ensures now[i] == whole[i] {
        if h.off <= i < h.off + |body| {
          assert now[i] == body[i - h.off];
        } else {
          assert now[i] == was[i];
        }
      }
      if body == [] {
        assert now == was;
      }
      if All(got) {
        assert now == whole;
      }
    }
  }

  lemma ReceiveIsFaithful(sent: seq<Message>, r: Ring, h: Header, body: seq<Byte>, maxLen: nat)
    requires SentOk(sent) && |sent| < MAX_U16 && RingInv(r, sent)
    requires Encodable(h) && |body| == h.len && IsSlice(sent, h, body)
    ensures RingInv(Receive(r, h, body, maxLen).0, sent)
  {
    var r' := Receive(r, h, body, maxLen).0;
    ReceiveOk(r, h, body, maxLen);
    if Lookup(r, h).1.Ok? {
      LookupOk(r, h);
      NewSlotIsFaithful(sent, h, body);
      var i := h.seqNo % MAX_FLIGHT;
      var s := Lookup(r, h).0.slots[i].value;
      assert Faithful(sent, s);
      StoredIsFaithful(sent, s, h, body);
    }
  }

  /** A genuine record holds one fragment, so the loop over it runs once. */
  lemma GenuineRecord(sent: seq<Message>, r: Ring, w: Wire, maxLen: nat)
    requires SentOk(sent) && |sent| < MAX_U16 && RingInv(r, sent) && Genuine(sent, w) && !w.isCcs
    ensures var r' := ReceiveRecord(r, w.payload, maxLen).0;
            RingInv(r', sent) && r'.readSeq == r.readSeq
  {
    var p := Parse(w.payload).value;
    SerializeParse(w.payload);
    ReceiveOk(r, p.header, p.body, maxLen);
    ReceiveIsFaithful(sent, r, p.header, p.body, maxLen);
    assert ReceiveRecord(Receive(r, p.header, p.body, maxLen).0, [], maxLen).0 ==
           Receive(r, p.header, p.body, maxLen).0;
  }

  /** The current message, once complete, is the message with the next number. */
  lemma CurrentIsNext(s: System)
    requires Inv(s) && CurrentComplete(s.ring)
    ensures |s.delivered| < |s.sent| && Current(s.ring).raw == Raw(s.sent, |s.delivered|)
  {
    var c := Current(s.ring);
    assert SlotOk(s.ring.readSeq, s.ring.readSeq % MAX_FLIGHT, c);
    assert c.seqNo == s.ring.readSeq by { SameNumber(s.ring.readSeq, s.ring.readSeq, c.seqNo); }
    assert Faithful(s.sent, c);
    assert c.raw == c.raw[..HEADER_LENGTH] + c.raw[HEADER_LENGTH..];
  }

  /** Two numbers of the window that share a slot are the same. */
  lemma SameNumber(readSeq: nat, a: nat, b: nat)
    requires readSeq <= a < readSeq + MAX_FLIGHT && readSeq <= b < readSeq + MAX_FLIGHT
    requires a % MAX_FLIGHT == b % MAX_FLIGHT
    ensures a == b
  {
  }

  lemma HashedOneMore(sent: seq<Message>, m: Message, sent': seq<Message>)
    requires SentOk(sent) && |sent| + 1 < MAX_U16 && |m.body| < MAX_U24 && sent' == sent + [m]
    ensures SentOk(sent') && HashedUpTo(sent', |sent| + 1) == HashedUpTo(sent, |sent|) + Raw(sent', |sent|)
  {
    SameHash(sent, m, |sent|);
  }

  lemma Enqueued(q: Queue, typ: Byte, body: seq<Byte>)
    requires q.writeSeq + 1 < MAX_U16 && CursorOk(q.messages, q.cursor) && Enqueue(q, false, typ, body).1
    ensures var q', m := Enqueue(q, false, typ, body).0, Outgoing(typ, q.writeSeq, body, q.epoch, false);
            && q'.writeSeq == q.writeSeq + 1 && CursorOk(q'.messages, q'.cursor)
            && q'.transcript == q.transcript + WholeMessage(typ, q.writeSeq, body)
            && (q'.messages == q.messages + [m] || q'.messages == [m])
  {
    SmallMod(q.writeSeq + 1, MAX_U16);
  }

  lemma EnqueueInv(q: Queue, typ: Byte, body: seq<Byte>, sent: seq<Message>)
    requires SentOk(sent) && |sent| + 1 < MAX_U16 && QueueInv(q, sent) && Enqueue(q, false, typ, body).1
    requires forall i :: 0 <= i < |q.messages| ==> Queued(q.messages[i], sent + [Message(typ, body)])
    ensures SentOk(sent + [Message(typ, body)])
    ensures QueueInv(Enqueue(q, false, typ, body).0, sent + [Message(typ, body)])
  {
    var sent' := sent + [Message(typ, body)];
    HashedOneMore(sent, Message(typ, body), sent');
    assert sent'[|sent|] == Message(typ, body);
    Enqueued(q, typ, body);
  }

  lemma AddInv(s: System, typ: Byte, body: seq<Byte>)
    requires Inv(s) && |Step(s, Add(typ, body)).sent| < MAX_U16
    ensures Inv(Step(s, Add(typ, body)))
  {
    if Enqueue(s.queue, false, typ, body).1 {
      SentGrows(s, Message(typ, body));
      EnqueueInv(s.queue, typ, body, s.sent);
    }
  }

  lemma CutInv(s: System, p: Piece)
    requires Inv(s)
    ensures Inv(Step(s, Cut(p)))
  {
    if Legal(s.queue.messages, s.queue.cursor, p) {
      AdvanceShrinks(s.queue.messages, s.queue.cursor, p);
      CutIsGenuine(s.queue.messages, p, s.sent);
    }
  }

  lemma ArriveInv(s: System, k: nat, maxLen: nat)
    requires Inv(s)
    ensures Inv(Step(s, Arrive(k, maxLen)))
  {
    if k < |s.network| && !s.network[k].isCcs { GenuineRecord(s.sent, s.ring, s.network[k], maxLen); }
  }

  lemma TakeInv(s: System)
    requires Inv(s)
    ensures Inv(Step(s, Take))
  {
    if s.ring.hasMessage && CurrentComplete(s.ring) {
      CurrentIsNext(s);
      NextMessageOk(s.ring);
    }
  }

  lemma OtherInv(s: System, e: Event)
    requires Inv(s) && (e.AddCcs? || e.Flush? || e.Seek? || e.WriteKeys?)
    ensures Inv(Step(s, e))
  {
  }

  lemma FlagsInv(s: System, e: Event)
    requires Inv(s) && (e.ConsumeCcs? || e.Look? || e.ReadKeys?)
    ensures Inv(Step(s, e))
  {
    assert Step(s, e).ring.slots == s.ring.slots;
  }

  lemma StepInv(s: System, e: Event)
    requires Inv(s) && |Step(s, e).sent| < MAX_U16
    ensures Inv(Step(s, e))
  {
    match e
    case Add(typ, body) => AddInv(s, typ, body);
    case Cut(p) => CutInv(s, p);
    case Arrive(k, maxLen) => ArriveInv(s, k, maxLen);
    case Take => TakeInv(s);
    case ConsumeCcs | Look | ReadKeys => FlagsInv(s, e);
    case _ => OtherInv(s, e);
  }

  lemma {:induction false} StepsInv(s: System, es: seq<Event>)
    requires Inv(s) && |Steps(s, es).sent| < MAX_U16
    ensures Inv(Steps(s, es))
    decreases |es|
  {
    if es != [] {
      StepWorks(s, es[0]);
      SentNeverShrinks(Step(s, es[0]), es[1..]);
      StepInv(s, es[0]);
      StepsInv(Step(s, es[0]), es[1..]);
    }
  }

  lemma {:induction false} SentNeverShrinks(s: System, es: seq<Event>)
    requires Working(s)
    ensures |s.sent| <= |Steps(s, es).sent|
    decreases |es|
  {
    if es != [] {
      StepWorks(s, es[0]);
      SentNeverShrinks(Step(s, es[0]), es[1..]);
    }
  }

  /** Whatever the network does, what has been delivered is a prefix of what was sent: in order, once
      each, byte for byte with the header of an unfragmented message.  Fewer than 2^16 messages. */
  lemma DeliveredIsPrefixOfSent(events: seq<Event>)
    requires |RunOf(events).sent| < MAX_U16
    ensures var s := RunOf(events);
            && |s.delivered| <= |s.sent| && SentOk(s.sent)
            && forall k :: 0 <= k < |s.delivered| ==> s.delivered[k] == Raw(s.sent, k)
  {
    StepsInv(Init(), events);
  }

  /** All that was delivered, one after the other: what the receiver hashes. */
  function Joined(ss: seq<seq<Byte>>): seq<Byte> {
    if ss == [] then [] else Joined(ss[..|ss| - 1]) + ss[|ss| - 1]
  }

  lemma {:induction false} JoinedIsHashed(sent: seq<Message>, delivered: seq<seq<Byte>>, n: nat)
    requires SentOk(sent) && n <= |delivered| <= |sent| < MAX_U16
    requires forall k :: 0 <= k < |delivered| ==> delivered[k] == Raw(sent, k)
    ensures Joined(delivered[..n]) == HashedUpTo(sent, n)
  {
    if n > 0 {
      JoinedIsHashed(sent, delivered, n - 1);
      assert delivered[..n][..n - 1] == delivered[..n - 1];
    }
  }

  lemma {:induction false} HashGrows(sent: seq<Message>, n: nat, m: nat)
    requires SentOk(sent) && n <= m <= |sent| < MAX_U16
    ensures HashedUpTo(sent, n) <= HashedUpTo(sent, m)
    decreases m
  {
    if n < m { HashGrows(sent, n, m - 1); }
  }

  /** Sender and receiver hash the same bytes, however the messages were cut on the way: what the
      receiver has hashed is a prefix of what the sender has, and all of it once all is delivered. */
  lemma SameTranscript(events: seq<Event>)
    requires |RunOf(events).sent| < MAX_U16
    ensures var s := RunOf(events);
            && Joined(s.delivered) <= s.queue.transcript
            && (|s.delivered| == |s.sent| ==> Joined(s.delivered) == s.queue.transcript)
  {
    StepsInv(Init(), events);
    var s := RunOf(events);
    JoinedIsHashed(s.sent, s.delivered, |s.delivered|);
    assert s.delivered[..|s.delivered|] == s.delivered;
    HashGrows(s.sent, |s.delivered|, |s.sent|);
  }

  // ---- the sender object and the protocol ----

  function Cuts(ps: seq<Piece>): seq<Event> {
    seq(|ps|, i requires 0 <= i < |ps| => Cut(ps[i]))
  }

  /** The record a piece of the flight becomes. */
  function WireOf(ms: seq<Outgoing>, p: Piece): Wire {
    if p.index < |ms| && p.off + p.len <= |ms[p.index].body| then
      Wire(ms[p.index].epoch, ms[p.index].isCcs, Payload(ms, p))
    else Wire(0, true, [])
  }

  function Wires(ms: seq<Outgoing>, ps: seq<Piece>): seq<Wire> {
    seq(|ps|, i requires 0 <= i < |ps| => WireOf(ms, ps[i]))
  }

  /** What the sending object promises, pieces that tile the flight from one cursor to another, is a
      series of steps of the protocol. */
  lemma {:induction false} TilesAreSteps(s: System, ps: seq<Piece>, d: Cursor)
    requires Working(s) && Tiles(s.queue.messages, s.queue.cursor, ps, d)
    ensures Steps(s, Cuts(ps)) ==
            s.(queue := s.queue.(cursor := d), network := s.network + Wires(s.queue.messages, ps))
    decreases |ps|
  {
    if ps == [] {
      assert s.network + Wires(s.queue.messages, ps) == s.network;
    } else {
      var ms, s' := s.queue.messages, Step(s, Cut(ps[0]));
      assert s'.network == s.network + [WireOf(ms, ps[0])];
      assert Cuts(ps)[1..] == Cuts(ps[1..]);
      TilesAreSteps(s', ps[1..], d);
      assert Wires(ms, ps) == [WireOf(ms, ps[0])] + Wires(ms, ps[1..]);
    }
  }

  // ---- nothing lost, nothing missing ----

  datatype Fragment = Fragment(header: Header, body: seq<Byte>)

  predicate CoversByte(fs: seq<Fragment>, i: nat) {
    exists f :: f in fs && f.header.off <= i < f.header.off + |f.body|
  }

  /** Which fragments are taken in: not too long, within the window, and once keys are in use only of the
      message that is next.  All others leave the ring as it is, with or without an error. */
  predicate Admits(r: Ring, f: Fragment, maxLen: nat) {
    && f.header.msgLen <= maxLen && r.readSeq <= f.header.seqNo < r.readSeq + MAX_FLIGHT
    && (r.epoch == 1 ==> f.header.seqNo == r.readSeq)
  }

  /** Every record of the sender's holds one fragment. */
  function FragmentOf(w: Wire): Option<Fragment> {
    if w.isCcs || Parse(w.payload).None? then None
    else Some(Fragment(Parse(w.payload).value.header, Parse(w.payload).value.body))
  }

  /** The fragment that an event brings in, if it does */
  function TakenAt(s: System, e: Event): seq<Fragment> {
    if e.Arrive? && e.k < |s.network| && s.network[e.k].epoch == s.ring.epoch && FragmentOf(s.network[e.k]).Some?
       && Admits(s.ring, FragmentOf(s.network[e.k]).value, e.maxLen)
    then [FragmentOf(s.network[e.k]).value]
    else []
  }

  /** The fragments of a run that were taken in, of whichever messages, in the order they arrived */
  function TakenIn(s: System, es: seq<Event>): seq<Fragment>
    requires Working(s)
    decreases |es|
  {
    if es == [] then []
    else
      StepWorks(s, es[0]);
      TakenAt(s, es[0]) + TakenIn(Step(s, es[0]), es[1..])
  }

  /** Those of message k */
  function Of(fs: seq<Fragment>, k: nat): (r: seq<Fragment>)
    ensures forall f :: f in r ==> f in fs && f.header.seqNo == k
    decreases |fs|
  {
    if fs == [] then []
    else
      var f := fs[|fs| - 1];
      Of(fs[..|fs| - 1], k) + (if f.header.seqNo == k then [f] else [])
  }

  lemma OfOneMore(fs: seq<Fragment>, f: Fragment, k: nat)
    ensures Of(fs + [f], k) == if f.header.seqNo == k then Of(fs, k) + [f] else Of(fs, k)
  {
    var all := fs + [f];
    assert all[..|all| - 1] == fs && all[|all| - 1] == f;
  }

  function Intervals(fs: seq<Fragment>): seq<Interval> {
    seq(|fs|, i requires 0 <= i < |fs| => Interval(fs[i].header.off, fs[i].header.off + |fs[i].body|))
  }

  /** A slot is what the fragments taken in for its message make of it; without any it is free. */
  ghost predicate SlotTells(slot: Option<Slot>, fs: seq<Fragment>) {
    var all :=
      if fs == [] then slot.None?
      else
        slot.Some? && Encodable(fs[0].header)
        && slot.value.progress == Marks(NewSlot(fs[0].header).progress, Intervals(fs));
    all
  }

  /** The ring holds what was taken in of the messages not yet delivered, all of it genuine. */
  ghost predicate Tells(s: System, log: seq<Fragment>) {
    && |s.ring.slots| == MAX_FLIGHT
    && (forall f :: f in log ==> f.header.seqNo < s.ring.readSeq + MAX_FLIGHT && Sliced(s.sent, f))
    && forall k: nat :: s.ring.readSeq <= k < s.ring.readSeq + MAX_FLIGHT ==>
         SlotTells(s.ring.slots[k % MAX_FLIGHT], Of(log, k))
  }

  ghost predicate Sliced(sent: seq<Message>, f: Fragment) {
    Encodable(f.header) && |f.body| == f.header.len && IsSlice(sent, f.header, f.body)
  }

  lemma {:induction false} MarksOneMore(p: Progress, pieces: seq<Interval>, q: Interval)
    ensures Marks(p, pieces + [q]) == Marking(Marks(p, pieces), q.start, q.end)
    decreases |pieces|
  {
    if pieces == [] {
      assert [q][1..] == [];
    } else {
      assert (pieces + [q])[1..] == pieces[1..] + [q];
      MarksOneMore(Marking(p, pieces[0].start, pieces[0].end), pieces[1..], q);
    }
  }

  lemma SlotTakesOne(slot: Option<Slot>, fs: seq<Fragment>, f: Fragment, after: Slot)
    requires SlotTells(slot, fs) && Encodable(f.header)
    requires var p := if slot.Some? then slot.value.progress else NewSlot(f.header).progress;
             after.progress == Marking(p, f.header.off, f.header.off + |f.body|)
    ensures SlotTells(Some(after), fs + [f])
  {
    var q := Interval(f.header.off, f.header.off + |f.body|);
    assert Intervals(fs + [f]) == Intervals(fs) + [q];
    MarksOneMore(NewSlot((fs + [f])[0].header).progress, Intervals(fs), q);
  }

  lemma Admitted(sent: seq<Message>, r: Ring, f: Fragment, maxLen: nat)
    requires SentOk(sent) && |sent| < MAX_U16 && RingInv(r, sent) && Sliced(sent, f) && Admits(r, f, maxLen)
    ensures var r', i := Receive(r, f.header, f.body, maxLen).0, f.header.seqNo % MAX_FLIGHT;
            && r'.readSeq == r.readSeq && r'.slots[i].Some? && r'.slots == r.slots[i := r'.slots[i]]
            && var p := if r.slots[i].Some? then r.slots[i].value.progress else NewSlot(f.header).progress;
               r'.slots[i].value.progress == Marking(p, f.header.off, f.header.off + |f.body|)
  {
    var i := f.header.seqNo % MAX_FLIGHT;
    if r.slots[i].Some? {
      assert SlotOk(r.readSeq, i, r.slots[i].value);
      SameNumber(r.readSeq, r.slots[i].value.seqNo, f.header.seqNo);
      assert Faithful(sent, r.slots[i].value);
    }
  }

  lemma NotAdmitted(sent: seq<Message>, r: Ring, f: Fragment, maxLen: nat)
    requires RingOk(r) && Sliced(sent, f) && !Admits(r, f, maxLen)
    ensures Receive(r, f.header, f.body, maxLen).0 == r
  {
  }

  /** The ring after a genuine fragment: that is all of a record. */
  lemma GenuineArrives(s: System, k: nat, maxLen: nat)
    requires Inv(s) && k < |s.network| && s.network[k].epoch == s.ring.epoch && !s.network[k].isCcs
    ensures FragmentOf(s.network[k]).Some? && Sliced(s.sent, FragmentOf(s.network[k]).value)
    ensures var f := FragmentOf(s.network[k]).value;
            Step(s, Arrive(k, maxLen)) == s.(ring := Receive(s.ring, f.header, f.body, maxLen).0)
  {
    var w := s.network[k];
    assert Genuine(s.sent, w);
    SerializeParse(w.payload);
    var p := Parse(w.payload).value;
    ReceiveOk(s.ring, p.header, p.body, maxLen);
    var r' := Receive(s.ring, p.header, p.body, maxLen).0;
    assert ReceiveRecord(r', [], maxLen).0 == r';
    assert ReceiveRecord(s.ring, w.payload, maxLen).0 == r';
  }

  lemma ArriveTells(s: System, k: nat, maxLen: nat, log: seq<Fragment>)
    requires Inv(s) && Tells(s, log)
    ensures Tells(Step(s, Arrive(k, maxLen)), log + TakenAt(s, Arrive(k, maxLen)))
  {
    assert log + [] == log;
    if k < |s.network| && s.network[k].epoch == s.ring.epoch && !s.network[k].isCcs {
      GenuineArrives(s, k, maxLen);
      var f := FragmentOf(s.network[k]).value;
      if Admits(s.ring, f, maxLen) {
        AdmitTells(s, f, maxLen, log);
      } else {
        NotAdmitted(s.sent, s.ring, f, maxLen);
      }
    }
  }

  lemma AdmitTells(s: System, f: Fragment, maxLen: nat, log: seq<Fragment>)
    requires Inv(s) && Tells(s, log) && Sliced(s.sent, f) && Admits(s.ring, f, maxLen)
    ensures Tells(s.(ring := Receive(s.ring, f.header, f.body, maxLen).0), log + [f])
  {
    var r', i := Receive(s.ring, f.header, f.body, maxLen).0, f.header.seqNo % MAX_FLIGHT;
    Admitted(s.sent, s.ring, f, maxLen);
    forall k: nat | r'.readSeq <= k < r'.readSeq + MAX_FLIGHT
      ensures SlotTells(r'.slots[k % MAX_FLIGHT], Of(log + [f], k))
    {
      OfOneMore(log, f, k);
      assert SlotTells(s.ring.slots[k % MAX_FLIGHT], Of(log, k));
      if k == f.header.seqNo {
        SlotTakesOne(s.ring.slots[i], Of(log, k), f, r'.slots[i].value);
      } else if k % MAX_FLIGHT == i {
        SameNumber(r'.readSeq, k, f.header.seqNo);
      }
    }
  }

  /** The slot that is freed is for the one message that comes into the window, of which nothing was taken. */
  lemma NextSlotTells(slots: seq<Option<Slot>>, n: nat, log: seq<Fragment>, k: nat)
    requires |slots| == MAX_FLIGHT && n < k <= n + MAX_FLIGHT
    requires k < n + MAX_FLIGHT ==> SlotTells(slots[k % MAX_FLIGHT], Of(log, k))
    requires forall f :: f in log ==> f.header.seqNo < n + MAX_FLIGHT
    ensures SlotTells(slots[n % MAX_FLIGHT := None][k % MAX_FLIGHT], Of(log, k))
  {
    if k < n + MAX_FLIGHT {
      OtherSlot(n, k);
    } else {
      OneRoundOn(n);
      OfNone(log, k);
    }
  }

  lemma FreedTells(r: Ring, log: seq<Fragment>)
    requires RingOk(r) && r.readSeq + 1 < MAX_U16
    requires forall f :: f in log ==> f.header.seqNo < r.readSeq + MAX_FLIGHT
    requires forall k: nat :: r.readSeq <= k < r.readSeq + MAX_FLIGHT ==>
               SlotTells(r.slots[k % MAX_FLIGHT], Of(log, k))
    ensures NextMessage(r).readSeq == r.readSeq + 1
    ensures forall k: nat :: r.readSeq + 1 <= k < r.readSeq + 1 + MAX_FLIGHT ==>
              SlotTells(NextMessage(r).slots[k % MAX_FLIGHT], Of(log, k))
  {
    SmallMod(r.readSeq + 1, MAX_U16);
    forall k: nat | r.readSeq + 1 <= k < r.readSeq + 1 + MAX_FLIGHT
      ensures SlotTells(NextMessage(r).slots[k % MAX_FLIGHT], Of(log, k))
    {
      NextSlotTells(r.slots, r.readSeq, log, k);
    }
  }

  lemma TakeTells(s: System, log: seq<Fragment>)
    requires Inv(s) && Tells(s, log)
    ensures Tells(Step(s, Take), log)
  {
    if s.ring.hasMessage && CurrentComplete(s.ring) {
      CurrentIsNext(s);
      FreedTells(s.ring, log);
    }
  }

  lemma OtherSlot(n: nat, k: nat)
    requires n < k < n + MAX_FLIGHT
    ensures k % MAX_FLIGHT != n % MAX_FLIGHT
  {
  }

  lemma OneRoundOn(n: nat)
    ensures (n + MAX_FLIGHT) % MAX_FLIGHT == n % MAX_FLIGHT
  {
  }

  lemma {:induction false} OfNone(fs: seq<Fragment>, k: nat)
    requires forall f :: f in fs ==> f.header.seqNo < k
    ensures Of(fs, k) == []
    decreases |fs|
  {
    if fs != [] { OfNone(fs[..|fs| - 1], k); }
  }

  lemma OtherTells(s: System, e: Event, log: seq<Fragment>)
    requires Inv(s) && Tells(s, log) && !e.Arrive? && !e.Take?
    ensures Tells(Step(s, e), log)
  {
    var s' := Step(s, e);
    assert s'.ring.slots == s.ring.slots && s'.ring.readSeq == s.ring.readSeq;
    forall f | f in log ensures f.header.seqNo < s'.ring.readSeq + MAX_FLIGHT && Sliced(s'.sent, f) {
      assert Sliced(s.sent, f);
      assert s'.sent[f.header.seqNo] == s.sent[f.header.seqNo];
    }
  }

  lemma {:induction false} StepsTell(s: System, es: seq<Event>, log: seq<Fragment>)
    requires Inv(s) && Tells(s, log) && |Steps(s, es).sent| < MAX_U16
    ensures Tells(Steps(s, es), log + TakenIn(s, es))
    decreases |es|
  {
    assert log + [] == log;
    if es != [] {
      var e := es[0];
      StepWorks(s, e);
      SentNeverShrinks(Step(s, e), es[1..]);
      StepInv(s, e);
      match e {
        case Arrive(k, maxLen) => ArriveTells(s, k, maxLen, log);
        case Take => TakeTells(s, log);
        case _ => OtherTells(s, e, log);
      }
      StepsTell(Step(s, e), es[1..], log + TakenAt(s, e));
      Assoc(log, TakenAt(s, e), TakenIn(Step(s, e), es[1..]));
    }
  }

  /** After any run, what the ring holds of each message not yet delivered is what the fragments of it that
      were taken in mark together, whatever else arrived in between, was delivered or was refused. */
  lemma ProgressAddsUp(events: seq<Event>)
    requires |RunOf(events).sent| < MAX_U16
    ensures Tells(RunOf(events), TakenIn(Init(), events))
  {
    var log: seq<Fragment> := [];
    assert Tells(Init(), log);
    StepsTell(Init(), events, log);
    assert log + TakenIn(Init(), events) == TakenIn(Init(), events);
  }

  /** Fragments of one message mark all of it exactly when together they cover it. */
  lemma MarkedExactlyWhenCovered(fs: seq<Fragment>, n: nat)
    requires fs != [] && forall f :: f in fs ==> Encodable(f.header) && f.header.msgLen == n
    requires forall f :: f in fs ==> f.header.off + |f.body| <= n
    ensures fs[0] in fs
    ensures Marks(NewSlot(fs[0].header).progress, Intervals(fs)).Complete? <==>
            forall i: nat :: i < n ==> CoversByte(fs, i)
  {
    assert fs[0] in fs;
    var intervals := Intervals(fs);
    if n == 0 {
      CompleteStays(intervals);
    } else {
      var none: seq<bool> := seq(n, _ => false);
      assert !All(none) by { assert !none[0]; }
      forall q | q in intervals ensures q.end <= n {
        var j :| 0 <= j < |intervals| && intervals[j] == q;
        assert fs[j] in fs;
      }
      MarksAddUp(none, intervals);
      forall i: nat | i < n
        ensures WithAll(none, intervals)[i] <==> CoversByte(fs, i)
      {
        CoveredByFragment(fs, i);
      }
    }
  }

  /** Message k is there to be delivered as soon as it is next. */
  predicate Assembled(r: Ring, k: nat)
    requires |r.slots| == MAX_FLIGHT
  {
    r.slots[k % MAX_FLIGHT].Some? && r.slots[k % MAX_FLIGHT].value.progress.Complete?
  }

  /** In any run, fragments may arrive in any order, overlap, repeat, be mixed with those of other messages
      and be refused: a message of the window is complete exactly when those of its fragments that were
      taken in cover it.  For the next message this says when it can be delivered. */
  lemma CompleteExactlyWhenCovered(events: seq<Event>, k: nat)
    requires |RunOf(events).sent| < MAX_U16
    requires |RunOf(events).delivered| <= k < |RunOf(events).delivered| + MAX_FLIGHT
    ensures var s, fs := RunOf(events), Of(TakenIn(Init(), events), k);
            && |s.ring.slots| == MAX_FLIGHT && (fs != [] ==> k < |s.sent|)
            && (Assembled(s.ring, k) <==> fs != [] && forall i: nat :: i < |s.sent[k].body| ==> CoversByte(fs, i))
            && (k == |s.delivered| ==> (CurrentComplete(s.ring) <==> Assembled(s.ring, k)))
  {
    StepsInv(Init(), events);
    ProgressAddsUp(events);
    var s, fs := RunOf(events), Of(TakenIn(Init(), events), k);
    assert SlotTells(s.ring.slots[k % MAX_FLIGHT], fs);
    if fs != [] {
      forall f | f in fs ensures Sliced(s.sent, f) && f.header.seqNo == k {
        assert f in TakenIn(Init(), events);
      }
      assert fs[0] in fs;
      MarkedExactlyWhenCovered(fs, |s.sent[k].body|);
    }
  }

  lemma CoveredByFragment(fs: seq<Fragment>, i: nat)
    ensures Covers(Intervals(fs), i) <==> CoversByte(fs, i)
  {
    var intervals := Intervals(fs);
    if Covers(intervals, i) {
      var q :| q in intervals && q.start <= i < q.end;
      var j :| 0 <= j < |intervals| && intervals[j] == q;
      assert fs[j] in fs;
    }
    if CoversByte(fs, i) {
      var f :| f in fs && f.header.off <= i < f.header.off + |f.body|;
      var j :| 0 <= j < |fs| && fs[j] == f;
      assert intervals[j] in intervals;
    }
  }

  // ---- the bound of 2^16 messages is tight ----

  /** n empty messages were sent and delivered one by one. */
  ghost predicate Quiet(s: System, n: nat) {
    && s.ring == Ring(n % MAX_U16, EmptyRing().slots, 0, false, false)
    && |s.network| == |s.sent| == |s.delivered| == n
    && (n > 0 ==> s.network[0] == Wire(0, false, WholeMessage(0, 0, [])))
    && s.queue.writeSeq == n % MAX_U16 && s.queue.epoch == 0
  }

  function SendOne(): seq<Event> {
    [Flush, Add(0, []), Cut(Piece(0, 0, 0))]
  }

  function Round(n: nat): seq<Event> {
    SendOne() + [Arrive(n, 0), Look, Take]
  }

  lemma ThreeSteps(s: System, a: Event, b: Event, c: Event)
    requires Working(s)
    ensures Working(Step(s, a)) && Working(Step(Step(s, a), b))
    ensures Steps(s, [a, b, c]) == Step(Step(Step(s, a), b), c)
  {
    StepWorks(s, a);
    StepWorks(Step(s, a), b);
    StepWorks(Step(Step(s, a), b), c);
    var t := Step(Step(s, a), b);
    assert [a, b, c][1..] == [b, c] && [b, c][1..] == [c] && [c][1..] == [];
    assert Steps(t, [c]) == Steps(Step(t, c), []) == Step(t, c);
    assert Steps(Step(s, a), [b, c]) == Steps(t, [c]);
  }

  lemma EmptyArrives(m: nat, h: Header)
    requires m < MAX_U16 && h == Whole(0, m, 0)
    ensures var r, w := Ring(m, EmptyRing().slots, 0, false, false), WholeMessage(0, m, []);
            && NewSlot(h).raw == w && NewSlot(h).progress.Complete?
            && ReceiveRecord(r, w, 0).0 == r.(slots := EmptyRing().slots[m % MAX_FLIGHT := Some(NewSlot(h))])
  {
    var r, w := Ring(m, EmptyRing().slots, 0, false, false), WholeMessage(0, m, []);
    ParseSerialize(h, [], []);
    assert Serialize(h) + [] + [] == w;
    var r1 := Receive(r, h, [], 0).0;
    assert NewSlot(h).raw == w;
    assert r1.slots == EmptyRing().slots[m % MAX_FLIGHT := Some(NewSlot(h))];
    assert ReceiveRecord(r, w, 0) == ReceiveRecord(r1, [], 0) == (r1, Receiver.Ok);
  }

  lemma EmptyTaken(s: System, m: nat, slot: Slot)
    requires m < MAX_U16 && s.ring == Ring(m, EmptyRing().slots[m % MAX_FLIGHT := Some(slot)], 0, true, false)
    requires Working(s) && slot.progress.Complete?
    ensures Step(s, Take) == s.(ring := Ring((m + 1) % MAX_U16, EmptyRing().slots, 0, false, false),
                                delivered := s.delivered + [slot.raw])
  {
    assert s.ring.slots[m % MAX_FLIGHT := None] == EmptyRing().slots;
  }

  /** An empty message arrives in an empty ring and is delivered. */
  lemma DeliverEmpty(s: System, k: nat, m: nat)
    requires s.ring == Ring(m, EmptyRing().slots, 0, false, false) && m < MAX_U16 && s.queue.writeSeq < MAX_U16
    requires k < |s.network| && s.network[k] == Wire(0, false, WholeMessage(0, m, []))
    ensures Steps(s, [Arrive(k, 0), Look, Take]) ==
            s.(ring := Ring((m + 1) % MAX_U16, EmptyRing().slots, 0, false, false),
               delivered := s.delivered + [WholeMessage(0, m, [])])
  {
    var slot := NewSlot(Whole(0, m, 0));
    EmptyArrives(m, Whole(0, m, 0));
    ThreeSteps(s, Arrive(k, 0), Look, Take);
    var s1 := Step(s, Arrive(k, 0));
    assert s1 == s.(ring := Ring(m, EmptyRing().slots[m % MAX_FLIGHT := Some(slot)], 0, false, false));
    EmptyTaken(Step(s1, Look), m, slot);
  }

  /** A new flight of one empty message is cut into one record. */
  lemma SendEmpty(s: System)
    requires Working(s) && s.queue.epoch == 0
    ensures var s' := Steps(s, SendOne());
            && s'.ring == s.ring && s'.delivered == s.delivered
            && s'.sent == s.sent + [Message(0, [])]
            && s'.network == s.network + [Wire(0, false, WholeMessage(0, s.queue.writeSeq, []))]
            && s'.queue.writeSeq == (s.queue.writeSeq + 1) % MAX_U16 && s'.queue.epoch == 0
  {
    var m := s.queue.writeSeq;
    ThreeSteps(s, Flush, Add(0, []), Cut(Piece(0, 0, 0)));
    var s2 := Step(Step(s, Flush), Add(0, []));
    assert s2.queue.messages == [Outgoing(0, m, [], 0, false)];
    assert Payload(s2.queue.messages, Piece(0, 0, 0)) == WholeMessage(0, m, []);
  }

  lemma RoundIs(s: System, n: nat, m: nat)
    requires s.ring == Ring(m, EmptyRing().slots, 0, false, false) && |s.network| == n
    requires s.queue.writeSeq == m < MAX_U16 && s.queue.epoch == 0
    ensures var s' := Steps(s, Round(n));
            && s'.ring == Ring((m + 1) % MAX_U16, EmptyRing().slots, 0, false, false)
            && s'.delivered == s.delivered + [WholeMessage(0, m, [])] && s'.sent == s.sent + [Message(0, [])]
            && s'.network == s.network + [Wire(0, false, WholeMessage(0, m, []))]
            && s'.queue.writeSeq == (m + 1) % MAX_U16 && s'.queue.epoch == 0
  {
    SendEmpty(s);
    StepsAppend(s, SendOne(), [Arrive(n, 0), Look, Take]);
    DeliverEmpty(Steps(s, SendOne()), n, m);
  }

  lemma OneRound(s: System, n: nat)
    requires Quiet(s, n)
    ensures Quiet(Steps(s, Round(n)), n + 1)
  {
    RoundIs(s, n, n % MAX_U16);
    ModStep(n, MAX_U16);
    if n == 0 { SmallMod(0, MAX_U16); }
  }

  function Rounds(n: nat): seq<Event> {
    if n == 0 then [] else Rounds(n - 1) + Round(n - 1)
  }

  lemma {:induction false} ManyRounds(n: nat)
    ensures Quiet(RunOf(Rounds(n)), n)
  {
    if n > 0 {
      ManyRounds(n - 1);
      OneRound(RunOf(Rounds(n - 1)), n - 1);
      StepsAppend(Init(), Rounds(n - 1), Round(n - 1));
    }
  }

  /** After 2^16 messages the receiver expects number 0 again, and a late copy of the first message
      is delivered as if it were new: more is delivered than was ever sent. */
  lemma LateCopyAfterWrap()
    ensures var s := RunOf(Rounds(MAX_U16) + [Arrive(0, 0), Look, Take]);
            |s.sent| == MAX_U16 && |s.delivered| == MAX_U16 + 1
  {
    ManyRounds(MAX_U16);
    var s := RunOf(Rounds(MAX_U16));
    DeliverEmpty(s, 0, 0);
    StepsAppend(Init(), Rounds(MAX_U16), [Arrive(0, 0), Look, Take]);
  }
}
