/** The object that queues a flight of handshake messages and sends it: proved against `Enqueue` and
    against `Fill` and `SendAll`, which say what is sealed and sent for whatever it meets. */
module Sender {
  import opened Basics
  import opened Words
  import opened Fragments
  import opened Flight
  import opened Sending
  import opened Losses

  const MIN_MTU: nat := 228

  class FlightSender {
    var messages: seq<Outgoing>
    var written: nat
    var offset: nat
    var complete: bool
    var writeSeq: nat
    var wEpoch: nat
    var transcript: seq<Byte>
    var hasReply: bool
    var current: Overhead
    var previous: Overhead
    var mtu: nat

    ghost predicate Valid()
      reads this
    {
      Queued() && CursorOk(messages, Position()) && (hasReply ==> complete)
    }

    ghost predicate Queued()
      reads this`messages, this`writeSeq, this`mtu, this`current, this`previous
    {
      && |messages| <= MAX_FLIGHT && AllWellFormed(messages)
      && writeSeq < MAX_U16 && mtu >= MIN_MTU
      && current.nonce <= current.max && previous.nonce <= previous.max
    }

    ghost function Position(): Cursor
      reads this`written, this`offset
    {
      Cursor(written, offset)
    }

    constructor (mtu: nat, plain: Overhead)
      requires mtu >= MIN_MTU && plain.nonce <= plain.max
      ensures Valid() && View() == Queue([], START, false, 0, 0, [], false)
      ensures this.mtu == mtu && TheKeys() == Keys(0, plain, plain)
    {
      messages, written, offset, complete, writeSeq, wEpoch := [], 0, 0, false, 0, 0;
      transcript, hasReply := [], false;
      current, previous, this.mtu := plain, plain, mtu;
    }

    ghost function View(): Queue
      reads this
    {
      Queue(messages, Position(), complete, writeSeq, wEpoch, transcript, hasReply)
    }

    ghost function TheKeys(): Keys
      reads this`wEpoch, this`current, this`previous
    {
      Keys(wEpoch, current, previous)
    }

    method ClearOutgoing()
      requires Valid()
      modifies this`messages, this`written, this`offset, this`complete, this`hasReply
      ensures Valid() && View() == Cleared(old(View()))
    {
      messages, written, offset, complete, hasReply := [], 0, 0, false, false;
    }

    method AddOutgoing(isCcs: bool, typ: Byte, body: seq<Byte>) returns (ok: bool)
      requires Valid() && |body| < MAX_U24
      modifies this`messages, this`written, this`offset, this`complete, this`hasReply, this`writeSeq, this`transcript
      ensures Valid() && (View(), ok) == Enqueue(old(View()), isCcs, typ, body)
    {
      if complete {
        ClearOutgoing();
      }
      if |messages| >= MAX_FLIGHT {
        return false;
      }
      var m := Outgoing(typ, writeSeq, if isCcs then [] else body, wEpoch, isCcs);
      assert isCcs ==> transcript + Data(m) == transcript;
      if !isCcs {
        transcript := transcript + Data(m);
        writeSeq := (writeSeq + 1) % MAX_U16;
      }
      messages := messages + [m];
      return true;
    }

    method AddMessage(typ: Byte, body: seq<Byte>) returns (ok: bool)
      requires Valid()
      modifies this`messages, this`written, this`offset, this`complete, this`hasReply, this`writeSeq, this`transcript
      ensures Valid() && (View(), ok) == Enqueue(old(View()), false, typ, body)
    {
      if |body| >= MAX_U24 {
        return false;
      }
      ok := AddOutgoing(false, typ, body);
    }

    method AddChangeCipherSpec() returns (ok: bool)
      requires Valid()
      modifies this`messages, this`written, this`offset, this`complete, this`hasReply, this`writeSeq, this`transcript
      ensures Valid() && (View(), ok) == Enqueue(old(View()), true, 0, [])
    {
      ok := AddOutgoing(true, 0, []);
    }

    /** The keys in use become the previous epoch's, kept for retransmissions. */
    method SetWriteState(overhead: Overhead)
      requires Valid() && overhead.nonce <= overhead.max
      modifies this`wEpoch, this`current, this`previous
      ensures Valid() && View() == old(View()).(epoch := (old(wEpoch) + 1) % MAX_U16)
      ensures TheKeys() == Rekeyed(old(TheKeys()), overhead)
    {
      wEpoch := (wEpoch + 1) % MAX_U16;
      previous, current := current, overhead;
    }

    /** The peer's next message was consumed: a flight that was flushed has its answer. */
    method Replied()
      requires Valid()
      modifies this`hasReply
      ensures Valid() && View() == old(View()).(hasReply := old(hasReply || complete))
    {
      if complete {
        hasReply := true;
      }
    }

    /** A last flight that was answered is dropped; an unanswered one is kept for sending again. */
    method OnHandshakeComplete()
      requires Valid()
      modifies this`messages, this`written, this`offset, this`complete, this`hasReply
      ensures Valid() && View() == if old(hasReply) then Cleared(old(View())) else old(View())
    {
      if hasReply {
        ClearOutgoing();
      }
    }

    /** One record through the AEAD and the record layer. */
    method SealRecord(record: Record, overhead: Overhead, seal: Seal) returns (ok: bool, r: Record)
      ensures ok == seal.Sealed?
      ensures ok ==> r == record.(wireLen := SealedLen(|record.payload|, overhead, seal))
    {
      match seal
      case Refused => return false, record;
      case Sealed(added) =>
        var len := RECORD_HEADER + |record.payload| + if added <= overhead.max then added else overhead.max;
        return true, record.(wireLen := len);
    }

    method SealChange(maxOut: nat, overhead: Overhead, seal: Seal) returns (result: SealResult, record: Record)
      requires Queued() && CursorOk(messages, Position()) && written < |messages|
      requires Known(TheKeys(), messages[written].epoch)
      requires messages[written].isCcs && overhead == OverheadOf(TheKeys(), messages[written].epoch)
      ensures SealedNext(TheKeys(), messages, Position(), maxOut, seal, result, record,
                         if result.Success? then Cursor(written + 1, 0) else Position())
    {
      var m := messages[written];
      record := Record(Piece(written, offset, 0), true, m.epoch, [1], 0);
      if maxOut < 1 + RECORD_HEADER + overhead.max {
        return NoProgress, record;
      }
      var ok;
      ok, record := SealRecord(record, overhead, seal);
      return if ok then Success else SealError, record;
    }

    /** Parses the kept bytes of a queued message. */
    method ParseKept(m: Outgoing) returns (header: Header, body: seq<Byte>)
      requires WellFormed(m) && !m.isCcs
      ensures header == Whole(m.typ, m.seqNo, |m.body|) && body == m.body
    {
      DataRoundTrip(m);
      var parsed := Parse(Data(m)).value;
      return parsed.header, parsed.body;
    }

    method SealPiece(maxOut: nat, overhead: Overhead, seal: Seal) returns (result: SealResult, record: Record)
      requires Queued() && CursorOk(messages, Position()) && written < |messages|
      requires Known(TheKeys(), messages[written].epoch)
      requires !messages[written].isCcs && overhead == OverheadOf(TheKeys(), messages[written].epoch)
      modifies this`offset
      ensures SealedNext(TheKeys(), messages, old(Position()), maxOut, seal, result, record,
                         if result.Success? then Cursor(written + 1, offset) else Position())
    {
      var m := messages[written];
      var room := RECORD_HEADER + overhead.max;
      var prefix := RECORD_HEADER + overhead.nonce;
      record := Record(Piece(written, offset, 0), false, m.epoch, [], 0);
      var header, body := ParseKept(m);
      if maxOut < HEADER_LENGTH + 1 + room || maxOut < prefix {
        return NoProgress, record;
      }
      var todo := |body| - offset;
      if todo > maxOut - HEADER_LENGTH - room {
        todo := maxOut - HEADER_LENGTH - room;
      }
      var payload := Serialize(header.(off := offset, len := todo)) + body[offset..offset + todo];
      record := Record(Piece(written, offset, todo), false, m.epoch, payload, 0);
      PieceIsNext(TheKeys(), messages, Position(), maxOut, seal, record);
      var ok;
      ok, record := SealRecord(record, overhead, seal);
      if !ok {
        return SealError, record;
      }
      if todo == |body| - offset {
        offset := 0;
        return Success, record;
      }
      offset := offset + todo;
      return Partial, record;
    }

    /** Cuts and seals the next piece into at most `maxOut` bytes. */
    method SealNextMessage(maxOut: nat, seal: Seal) returns (result: SealResult, record: Record)
      requires Queued() && CursorOk(messages, Position()) && written < |messages|
      modifies this`offset
      ensures SealedNext(TheKeys(), messages, old(Position()), maxOut, seal, result, record,
                         if result.Success? then Cursor(written + 1, offset) else Position())
    {
      var m := messages[written];
      record := Record(Piece(written, offset, 0), m.isCcs, m.epoch, [], 0);
      var overhead;
      if wEpoch >= 1 && m.epoch == wEpoch - 1 {
        overhead := previous;
      } else if m.epoch != wEpoch {
        return SealError, record;
      } else {
        overhead := current;
      }
      if m.isCcs {
        result, record := SealChange(maxOut, overhead, seal);
      } else {
        result, record := SealPiece(maxOut, overhead, seal);
      }
    }

    /** The cursor, the flight, the keys and the MTU are these. */
    ghost predicate At(ms: seq<Outgoing>, keys: Keys, max: nat, c: Cursor)
      reads this
    {
      Queued() && messages == ms && TheKeys() == keys && mtu == max && Position() == c && CursorOk(ms, c)
    }

    /** One round of the loop below: seals record n into the packet and moves on, from c to d.  `line` is what
        there is to seal, `rest` what is left of it and `left` the room. */
    method SealInto(world: World, n: nat, maxOut: nat, ghost ms: seq<Outgoing>, ghost keys: Keys, ghost max: nat,
                    ghost c: Cursor, ghost first: bool, ghost line: Line)
      returns (result: SealResult, record: Record, left: nat, ghost d: Cursor, ghost rest: Line)
      requires At(ms, keys, max, c) && written < |messages| && IsLine(keys, ms, c, maxOut, world, n, first, line)
      modifies this`written, this`offset
      ensures At(ms, keys, max, d)
      ensures match result
              case SealError => line == Shut(false, d)
              case NoProgress => line == Shut(!first, d)
              case Partial => Gathered(ms, line) == Onto([record], Gathered(ms, rest)) && rest == Shut(true, d)
              case Success =>
                && Gathered(ms, line) == Onto([record], Gathered(ms, rest)) && Left(ms, d) < Left(ms, c)
                && IsLine(keys, ms, d, left, world, n + 1, false, rest)
    {
      result, record := SealNextMessage(maxOut, SealAt(world, n));
      if result.Success? {
        written := written + 1;
      }
      d, rest, left := Position(), line, maxOut;
      OneSealed(keys, ms, c, maxOut, world, n, first, line, result, record, d);
      if result.Success? || result.Partial? {
        rest := line.rest;
        left := maxOut - record.wireLen;
      }
    }

    /** Fills one packet with as much of the flight as fits.  `n` records were sealed before. */
    method SealNextPacket(world: World, n: nat) returns (ok: bool, packet: Packet)
      requires Valid() && written < |messages|
      modifies this`written, this`offset
      ensures CursorOk(messages, Position())
      ensures Filled(ok, packet, Position()) == Fill(TheKeys(), messages, old(Position()), mtu, world, n, true)
    {
      ghost var line := LineFrom(TheKeys(), messages, Position(), mtu, world, n, true);
      LineIsLine(TheKeys(), messages, Position(), mtu, world, n, true, line);
      ghost var d;
      ok, packet, d := FillPacket(world, n, messages, TheKeys(), Position(), line);
    }

    method FillPacket(world: World, n: nat, ghost ms: seq<Outgoing>, ghost keys: Keys, ghost c: Cursor,
                      ghost line: Line)
      returns (ok: bool, packet: Packet, ghost d: Cursor)
      requires At(ms, keys, mtu, c) && written < |messages| && IsLine(keys, ms, c, mtu, world, n, true, line)
      modifies this`written, this`offset
      ensures At(ms, keys, mtu, d) && Filled(ok, packet, d) == Gathered(ms, line)
    {
      packet := [];
      var maxOut: nat, k, madeProgress := mtu, n, false;
      ghost var max, todo := mtu, line;
      d := c;
      while written < |messages|
        invariant At(ms, keys, max, d) && (!madeProgress ==> written < |messages|)
        invariant IsLine(keys, ms, d, maxOut, world, k, !madeProgress, todo)
        invariant Gathered(ms, line) == Onto(packet, Gathered(ms, todo))
        decreases Left(ms, d)
      {
        var result, record;
        result, record, maxOut, d, todo := SealInto(world, k, maxOut, ms, keys, max, d, !madeProgress, todo);
        if result.SealError? || result.NoProgress? {
          return result.NoProgress? && madeProgress, packet, d;
        }
        OntoOnto(packet, record, Gathered(ms, todo));
        packet := packet + [record];
        if result.Partial? {
          return true, packet, d;
        }
        k, madeProgress := k + 1, true;
      }
      return true, packet, d;
    }

    /** One round of the loop below: either the run is over, or one packet was taken.  `course` is what there
        is to send from c on. */
    method SendNextPacket(world: World, n: nat, sent: nat, ghost ms: seq<Outgoing>, ghost keys: Keys, ghost max: nat,
                          ghost c: Cursor, ghost course: Course)
      returns (over: bool, run: Run, packet: Packet, n': nat, ghost d: Cursor, ghost rest: Course)
      requires At(ms, keys, max, c) && written < |messages| && (hasReply ==> complete)
      requires ToSend(keys, ms, max, world, c, n, course)
      modifies this`written, this`offset
      ensures At(ms, keys, max, d)
      ensures over ==> run.end == d && Follow(course, world, sent) == run
      ensures !over ==>
                && Left(ms, d) < Left(ms, c) && ToSend(keys, ms, max, world, d, n', rest)
                && Follow(course, world, sent) == After([packet], Follow(rest, world, sent + 1))
    {
      var oldWritten, oldOffset := written, offset;
      var ok;
      ok, packet := SealNextPacket(world, n);
      d := Position();
      n', rest := n + |packet|, course.rest;
      over, run := true, Run(Failed, [], packet, [], Cursor(written, offset));
      if !ok {
        return;
      }
      if !Takes(world, sent) {
        written, offset := oldWritten, oldOffset;
        d := c;
        run := Run(WriteBlocked, [], [], packet, Cursor(written, offset));
        return;
      }
      over := false;
    }

    /** Sends packets until the flight is written or something is in the way. */
    method SendFlight(world: World) returns (run: Run)
      requires Valid()
      modifies this`written, this`offset
      ensures CursorOk(messages, Position()) && run.end == Position()
      ensures run == SendAll(TheKeys(), messages, mtu, world, old(Position()))
    {
      if world.shutdown {
        return Run(ShutDown, [], [], [], Cursor(written, offset));
      }
      ghost var course := CourseFrom(TheKeys(), messages, mtu, world, Position(), 0);
      CourseIsCourse(TheKeys(), messages, mtu, world, Position(), 0, course);
      run := SendPackets(world, messages, TheKeys(), Position(), course);
    }

    method SendPackets(world: World, ghost ms: seq<Outgoing>, ghost keys: Keys, ghost c: Cursor, ghost course: Course)
      returns (run: Run)
      requires At(ms, keys, mtu, c) && (hasReply ==> complete) && ToSend(keys, ms, mtu, world, c, 0, course)
      modifies this`written, this`offset
      ensures At(ms, keys, mtu, run.end) && run == Follow(course, world, 0)
    {
      var packets: seq<Packet>, n: nat, sent: nat := [], 0, 0;
      ghost var max, d, todo := mtu, c, course;
      while written < |messages|
        invariant At(ms, keys, max, d) && ToSend(keys, ms, max, world, d, n, todo)
        invariant Follow(course, world, 0) == After(packets, Follow(todo, world, sent))
        decreases Left(ms, d)
      {
        var over, packet;
        over, run, packet, n, d, todo := SendNextPacket(world, n, sent, ms, keys, max, d, todo);
        if over {
          return After(packets, run);
        }
        AfterAfter(packets, packet, Follow(todo, world, sent + 1));
        packets, sent := packets + [packet], sent + 1;
      }
      return Run(if world.flushes then Sent else Unflushed, packets, [], [], Cursor(written, offset));
    }

    method FlushFlight(world: World) returns (run: Run)
      requires Valid()
      modifies this`written, this`offset, this`complete
      ensures Valid() && complete && run.end == Position()
      ensures run == SendAll(TheKeys(), messages, mtu, world, old(Position()))
    {
      complete := true;
      run := SendFlight(world);
    }

    /** A timeout sends the flight again from its beginning. */
    method Retransmit(world: World) returns (run: Run)
      requires Valid()
      modifies this`written, this`offset
      ensures Valid() && run.end == Position()
      ensures run == SendAll(TheKeys(), messages, mtu, world, START)
    {
      written, offset := 0, 0;
      run := SendFlight(world);
    }
  }

  /** The example of `SecondRefused` with the object: the first message's record is lost. */
  method LossExample() returns (sender: FlightSender, run: Run)
    ensures run.result.Failed? && run.packets == [] && |run.lost| == 1 && run.lost[0].piece == Piece(0, 0, 1)
    ensures sender.Position() == Cursor(1, 0) && |sender.messages| == 2
  {
    sender := new FlightSender(MIN_MTU, Overhead(0, 0));
    var _ := sender.AddMessage(1, [7]);
    var _ := sender.AddMessage(2, [8]);
    SecondRefused(sender.messages, MIN_MTU, Keys(0, Overhead(0, 0), Overhead(0, 0)));
    run := sender.FlushFlight(World(false, [Sealed(0), Refused], [true, true], true));
  }
}
