/** Sending a flight of handshake messages: cut into fragments that fit the MTU, resumable after a
    failed write, and sent again from the start on a timeout.

    A `Cursor` is the point reached in the flight, a `Piece` one step from it.  `Tiles` says that a
    series of pieces leads from one cursor to another without a gap or an overlap. */
module Flight {
  import opened Basics
  import opened Words
  import opened Fragments

  /** A queued handshake message, or a ChangeCipherSpec. */
  datatype Outgoing = Outgoing(typ: Byte, seqNo: nat, body: seq<Byte>, epoch: nat, isCcs: bool)

  datatype Cursor = Cursor(written: nat, offset: nat)

  const START := Cursor(0, 0)

  function WholeMessage(typ: Byte, seqNo: nat, body: seq<Byte>): seq<Byte>
    requires seqNo < MAX_U16 && |body| < MAX_U24
  {
    Serialize(Whole(typ, seqNo, |body|)) + body
  }

  predicate WellFormed(m: Outgoing) {
    m.seqNo < MAX_U16 && |m.body| < MAX_U24 && (m.isCcs ==> m.body == [])
  }

  /** The bytes kept for a queued message: the message as a single fragment. */
  function Data(m: Outgoing): seq<Byte>
    requires WellFormed(m)
  {
    if m.isCcs then [] else WholeMessage(m.typ, m.seqNo, m.body)
  }

  /** Parsing the kept bytes again gives back the message. */
  lemma DataRoundTrip(m: Outgoing)
    requires WellFormed(m) && !m.isCcs
    ensures Parse(Data(m)) == Some(Parsed(Whole(m.typ, m.seqNo, |m.body|), m.body, []))
  {
    var h := Whole(m.typ, m.seqNo, |m.body|);
    ParseSerialize(h, m.body, []);
    assert Serialize(h) + m.body + [] == Data(m);
  }

  predicate AllWellFormed(ms: seq<Outgoing>) {
    forall i :: 0 <= i < |ms| ==> WellFormed(ms[i])
  }

  predicate CursorOk(ms: seq<Outgoing>, c: Cursor)
  {
    c.written <= |ms| && (c.offset > 0 ==> c.written < |ms| && c.offset < |ms[c.written].body|)
  }

  /** Bytes off..off+len of the body of the message at the cursor; nothing at all for a
      ChangeCipherSpec. */
  datatype Piece = Piece(index: nat, off: nat, len: nat)

  predicate Legal(ms: seq<Outgoing>, c: Cursor, p: Piece)
  {
    && c.written < |ms| && p.index == c.written && p.off == c.offset
    && p.off + p.len <= |ms[p.index].body|
    && (p.len == 0 ==> ms[p.index].body == [])
  }

  function Advance(ms: seq<Outgoing>, c: Cursor, p: Piece): Cursor
    requires Legal(ms, c, p)
  {
    if p.off + p.len == |ms[p.index].body| then Cursor(c.written + 1, 0) else Cursor(c.written, p.off + p.len)
  }

  /** The plaintext of the record that carries a piece. */
  function Payload(ms: seq<Outgoing>, p: Piece): seq<Byte>
    requires p.index < |ms| && p.off + p.len <= |ms[p.index].body|
  {
    var m := ms[p.index];
    if m.isCcs || !WellFormed(m) then [1]
    else Serialize(Header(m.typ, |m.body|, m.seqNo, p.off, p.len)) + m.body[p.off..p.off + p.len]
  }

  ghost predicate Tiles(ms: seq<Outgoing>, c: Cursor, ps: seq<Piece>, d: Cursor)
    decreases |ps|
  {
    if ps == [] then c == d
    else Legal(ms, c, ps[0]) && Tiles(ms, Advance(ms, c, ps[0]), ps[1..], d)
  }

  lemma {:induction false} TilesAppend(ms: seq<Outgoing>, c: Cursor, ps: seq<Piece>, d: Cursor,
                                       qs: seq<Piece>, e: Cursor)
    requires Tiles(ms, c, ps, d) && Tiles(ms, d, qs, e)
    ensures Tiles(ms, c, ps + qs, e)
    decreases |ps|
  {
    if ps == [] {
      assert ps + qs == qs;
    } else {
      TilesAppend(ms, Advance(ms, c, ps[0]), ps[1..], d, qs, e);
      assert (ps + qs)[1..] == ps[1..] + qs;
    }
  }

  lemma {:induction false} TilesGoOn(ms: seq<Outgoing>, c: Cursor, ps: seq<Piece>, d: Cursor)
    requires Tiles(ms, c, ps, d)
    ensures c.written <= d.written
    decreases |ps|
  {
    if ps != [] { TilesGoOn(ms, Advance(ms, c, ps[0]), ps[1..], d); }
  }

  /** How far into the body of message i a cursor is. */
  function Reached(ms: seq<Outgoing>, c: Cursor, i: nat): nat
    requires i < |ms|
  {
    if i < c.written then |ms[i].body| else if i == c.written then c.offset else 0
  }

  /** The body bytes of message i carried by a series of pieces, in the order they are sent. */
  function Carried(ms: seq<Outgoing>, ps: seq<Piece>, i: nat): seq<Byte>
    requires i < |ms|
    decreases |ps|
  {
    if ps == [] then []
    else (if ps[0].index == i && ps[0].off + ps[0].len <= |ms[i].body|
          then ms[i].body[ps[0].off..ps[0].off + ps[0].len] else [])
         + Carried(ms, ps[1..], i)
  }

  lemma AdvanceReaches(ms: seq<Outgoing>, c: Cursor, p: Piece, i: nat)
    requires CursorOk(ms, c) && Legal(ms, c, p) && i < |ms|
    ensures var d := Advance(ms, c, p);
            && CursorOk(ms, d)
            && Reached(ms, d, i) == if i == p.index then p.off + p.len else Reached(ms, c, i)
  {
  }

  /** Pieces that lead from cursor c to cursor d carry, of every message, exactly the bytes between:
      each byte once, in order. */
  lemma {:induction false} TilesCarry(ms: seq<Outgoing>, c: Cursor, ps: seq<Piece>, d: Cursor, i: nat)
    requires CursorOk(ms, c) && Tiles(ms, c, ps, d) && i < |ms|
    ensures CursorOk(ms, d) && Reached(ms, c, i) <= Reached(ms, d, i) <= |ms[i].body|
    ensures Carried(ms, ps, i) == ms[i].body[Reached(ms, c, i)..Reached(ms, d, i)]
    decreases |ps|
  {
    if ps != [] {
      var p := ps[0];
      var mid := Advance(ms, c, p);
      AdvanceReaches(ms, c, p, i);
      TilesCarry(ms, mid, ps[1..], d, i);
      Halves(ms[i].body, Reached(ms, c, i), Reached(ms, mid, i), Reached(ms, d, i));
    }
  }

  /** A whole flight carries every message completely. */
  lemma WholeFlightCarriesAll(ms: seq<Outgoing>, ps: seq<Piece>, i: nat)
    requires Tiles(ms, START, ps, Cursor(|ms|, 0)) && i < |ms|
    ensures Carried(ms, ps, i) == ms[i].body
  {
    TilesCarry(ms, START, ps, Cursor(|ms|, 0), i);
  }

  function Left(ms: seq<Outgoing>, c: Cursor): nat
    requires CursorOk(ms, c)
    decreases |ms| - c.written
  {
    if c.written == |ms| then 0 else 1 + |ms[c.written].body| - c.offset + Left(ms, Cursor(c.written + 1, 0))
  }

  lemma AdvanceShrinks(ms: seq<Outgoing>, c: Cursor, p: Piece)
    requires CursorOk(ms, c) && Legal(ms, c, p)
    ensures CursorOk(ms, Advance(ms, c, p)) && Left(ms, Advance(ms, c, p)) < Left(ms, c)
  {
  }

  /** However often the transport blocks, what it took in the end is the whole flight. */
  lemma ResumedFlightIsWhole(ms: seq<Outgoing>, first: seq<Piece>, c: Cursor, second: seq<Piece>, i: nat)
    requires i < |ms|
    requires Tiles(ms, START, first, c) && Tiles(ms, c, second, Cursor(|ms|, 0))
    ensures Carried(ms, first + second, i) == ms[i].body
  {
    TilesAppend(ms, START, first, c, second, Cursor(|ms|, 0));
    WholeFlightCarriesAll(ms, first + second, i);
  }

  lemma {:induction false} CarriedAppend(ms: seq<Outgoing>, ps: seq<Piece>, qs: seq<Piece>, i: nat)
    requires i < |ms|
    ensures Carried(ms, ps + qs, i) == Carried(ms, ps, i) + Carried(ms, qs, i)
    decreases |ps|
  {
    if ps == [] {
      assert ps + qs == qs;
    } else {
      assert (ps + qs)[1..] == ps[1..] + qs;
      CarriedAppend(ms, ps[1..], qs, i);
    }
  }

  /** Sending on after pieces were lost does not make up for them: the bytes of every message are those
      sent before, those lost and those sent after, in this order. */
  lemma LostIsNotSentAgain(ms: seq<Outgoing>, first: seq<Piece>, lost: seq<Piece>, d: Cursor, rest: seq<Piece>, i: nat)
    requires Tiles(ms, START, first + lost, d) && Tiles(ms, d, rest, Cursor(|ms|, 0)) && i < |ms|
    ensures ms[i].body == Carried(ms, first, i) + Carried(ms, lost, i) + Carried(ms, rest, i)
  {
    TilesAppend(ms, START, first + lost, d, rest, Cursor(|ms|, 0));
    WholeFlightCarriesAll(ms, first + lost + rest, i);
    CarriedAppend(ms, first + lost, rest, i);
    CarriedAppend(ms, first, lost, i);
  }

  // ---- the queue ----

  /** What the sender keeps about the flight it is building or sending.  `transcript` is what the
      handshake hash has been fed, `hasReply` whether the peer has answered the flight. */
  datatype Queue = Queue(messages: seq<Outgoing>, cursor: Cursor, complete: bool, writeSeq: nat, epoch: nat,
                         transcript: seq<Byte>, hasReply: bool)

  function Cleared(q: Queue): Queue {
    q.(messages := [], cursor := START, complete := false, hasReply := false)
  }

  /** Adds to the flight; the first addition after a flush begins a new flight.  A message that does
      not fit the flight or the 24-bit length field is refused.  Handshake messages are hashed as they
      would be sent in one single fragment. */
  function Enqueue(q: Queue, isCcs: bool, typ: Byte, body: seq<Byte>): (Queue, bool)
    requires q.writeSeq < MAX_U16
  {
    if |body| >= MAX_U24 then (q, false)
    else
      var q' := if q.complete then Cleared(q) else q;
      if |q'.messages| >= MAX_FLIGHT then (q', false)
      else
        var m := Outgoing(typ, q.writeSeq, if isCcs then [] else body, q.epoch, isCcs);
        (q'.(messages := q'.messages + [m],
             writeSeq := if isCcs then q.writeSeq else (q.writeSeq + 1) % MAX_U16,
             transcript := q.transcript + Data(m)),
         true)
  }

  datatype Addition = Addition(isCcs: bool, typ: Byte, body: seq<Byte>)

  /** Additions one after the other, and whether all were taken */
  function EnqueueAll(q: Queue, adds: seq<Addition>): (r: (Queue, bool))
    requires q.writeSeq < MAX_U16
    ensures r.0.writeSeq < MAX_U16
    decreases |adds|
  {
    if adds == [] then (q, true)
    else
      var (before, ok) := EnqueueAll(q, adds[..|adds| - 1]);
      var a := adds[|adds| - 1];
      var (q', taken) := Enqueue(before, a.isCcs, a.typ, a.body);
      (q', ok && taken)
  }

  /** How many of the additions take a number */
  function Numbers(adds: seq<Addition>): nat {
    if adds == [] then 0
    else Numbers(adds[..|adds| - 1]) + if adds[|adds| - 1].isCcs then 0 else 1
  }

  function OutgoingOf(a: Addition, number: nat, epoch: nat): Outgoing {
    Outgoing(a.typ, number, if a.isCcs then [] else a.body, epoch, a.isCcs)
  }

  /** The additions as a flight: in order, with numbers in a row for those that take one */
  function FlightOf(first: nat, epoch: nat, adds: seq<Addition>): (ms: seq<Outgoing>)
    ensures |ms| == |adds|
  {
    if adds == [] then []
    else
      var before := adds[..|adds| - 1];
      FlightOf(first, epoch, before) + [OutgoingOf(adds[|adds| - 1], first + Numbers(before), epoch)]
  }

  lemma OneAdded(q: Queue, a: Addition)
    requires |a.body| < MAX_U24 && q.writeSeq + 1 < MAX_U16
    ensures var ms := if q.complete then [] else q.messages;
            var (q', ok) := Enqueue(q, a.isCcs, a.typ, a.body);
            if |ms| < MAX_FLIGHT then
              && ok && q'.messages == ms + [OutgoingOf(a, q.writeSeq, q.epoch)] && !q'.complete && q'.epoch == q.epoch
              && q'.writeSeq == q.writeSeq + if a.isCcs then 0 else 1
            else !ok && (!q.complete ==> q' == q)
  {
    SmallMod(q.writeSeq + 1, MAX_U16);
  }

  /** The queue after the additions, and that all were taken */
  ghost predicate Holds(q: Queue, adds: seq<Addition>, q': Queue, ok: bool) {
    var all :=
      && ok && q'.messages == FlightOf(q.writeSeq, q.epoch, adds) && !q'.complete && q'.epoch == q.epoch
      && q'.writeSeq == q.writeSeq + Numbers(adds) <= q.writeSeq + |adds|;
    all
  }

  lemma HoldsMore(q: Queue, adds: seq<Addition>, b: Queue)
    requires q.writeSeq + |adds| < MAX_U16 && 0 < |adds| <= MAX_FLIGHT && |adds[|adds| - 1].body| < MAX_U24
    requires if |adds| == 1 then b == q && (q.complete || q.messages == []) else Holds(q, adds[..|adds| - 1], b, true)
    ensures b.writeSeq < MAX_U16
    ensures var a := adds[|adds| - 1];
            Holds(q, adds, Enqueue(b, a.isCcs, a.typ, a.body).0, Enqueue(b, a.isCcs, a.typ, a.body).1)
  {
    OneAdded(b, adds[|adds| - 1]);
    var before := adds[..|adds| - 1];
    assert |adds| == 1 ==> before == [] && Numbers(before) == 0 && FlightOf(q.writeSeq, q.epoch, before) == [];
  }

  /** A new flight holds seven messages, in the order they were added, ... */
  lemma {:induction false} FlightHolds(q: Queue, adds: seq<Addition>)
    requires (q.complete || q.messages == []) && q.writeSeq + |adds| < MAX_U16 && 0 < |adds| <= MAX_FLIGHT
    requires forall i :: 0 <= i < |adds| ==> |adds[i].body| < MAX_U24
    ensures Holds(q, adds, EnqueueAll(q, adds).0, EnqueueAll(q, adds).1)
    decreases |adds|
  {
    var before := adds[..|adds| - 1];
    if |adds| == 1 {
      assert EnqueueAll(q, before) == (q, true);
    } else {
      FlightHolds(q, before);
    }
    HoldsMore(q, adds, EnqueueAll(q, before).0);
  }

  /** ... and no eighth. */
  lemma NoEighth(q: Queue, adds: seq<Addition>, a: Addition)
    requires (q.complete || q.messages == []) && q.writeSeq + |adds| + 1 < MAX_U16 && |adds| == MAX_FLIGHT
    requires (forall i :: 0 <= i < |adds| ==> |adds[i].body| < MAX_U24) && |a.body| < MAX_U24
    ensures var q' := EnqueueAll(q, adds).0;
            Enqueue(q', a.isCcs, a.typ, a.body) == (q', false)
  {
    FlightHolds(q, adds);
    OneAdded(EnqueueAll(q, adds).0, a);
  }
}
