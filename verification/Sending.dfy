/** What a sender does with a flight, as a function of the flight, its keys and what it meets on the way.

    `Fill` is one packet and `SendAll` a whole run; both are determined by their inputs down to the
    last record. */
module Sending {
  import opened Basics
  import opened Words
  import opened Fragments
  import opened Flight

  const RECORD_HEADER: nat := 13

  datatype Record = Record(piece: Piece, isCcs: bool, epoch: nat, payload: seq<Byte>, wireLen: nat)

  type Packet = seq<Record>

  predicate Carries(ms: seq<Outgoing>, r: Record) {
    && r.piece.index < |ms| && r.piece.off + r.piece.len <= |ms[r.piece.index].body|
    && r.isCcs == ms[r.piece.index].isCcs && r.epoch == ms[r.piece.index].epoch
    && r.payload == Payload(ms, r.piece)
  }

  function WireLen(p: Packet): nat {
    if p == [] then 0 else p[0].wireLen + WireLen(p[1..])
  }

  function Pieces(p: Packet): seq<Piece> {
    if p == [] then [] else [p[0].piece] + Pieces(p[1..])
  }

  function AllPieces(ps: seq<Packet>): seq<Piece> {
    if ps == [] then [] else Pieces(ps[0]) + AllPieces(ps[1..])
  }

  ghost predicate PacketOk(ms: seq<Outgoing>, mtu: nat, p: Packet) {
    WireLen(p) <= mtu && forall i :: 0 <= i < |p| ==> Carries(ms, p[i])
  }

  // ---- what the outside does ----

  /** The lengths an AEAD adds; the explicit nonce is part of the overhead. */
  datatype Overhead = Overhead(max: nat, nonce: nat)

  /** The AEAD and the record layer either refuse a record or add some bytes to it. */
  datatype Seal = Sealed(added: nat) | Refused

  /** What the sender meets on the way: what becomes of each record it seals, which packets the
      transport takes, whether the final flush succeeds.  Past the end of a list nothing succeeds. */
  datatype World = World(shutdown: bool, seals: seq<Seal>, writes: seq<bool>, flushes: bool)

  function SealAt(world: World, k: nat): Seal {
    if k < |world.seals| then world.seals[k] else Refused
  }

  predicate Takes(world: World, k: nat) {
    k < |world.writes| && world.writes[k]
  }

  /** The epoch in use and the overheads of its records and of the previous epoch's. */
  datatype Keys = Keys(epoch: nat, current: Overhead, previous: Overhead)

  predicate Known(keys: Keys, epoch: nat) {
    epoch == keys.epoch || epoch + 1 == keys.epoch
  }

  function OverheadOf(keys: Keys, epoch: nat): Overhead {
    if epoch + 1 == keys.epoch then keys.previous else keys.current
  }

  /** New keys: the old ones are kept as the previous epoch's. */
  function Rekeyed(keys: Keys, overhead: Overhead): Keys {
    Keys((keys.epoch + 1) % MAX_U16, overhead, keys.current)
  }

  /** What was queued before a change of keys can be sent after it, under the keys it was queued with, unless
      the epoch came round; after another change it cannot. */
  lemma QueuedKeepsKeys(keys: Keys, overhead: Overhead, next: Overhead)
    requires keys.epoch < MAX_U16
    ensures var after := Rekeyed(keys, overhead);
            && (Known(after, keys.epoch) <==> keys.epoch + 1 < MAX_U16)
            && (Known(after, keys.epoch) ==> OverheadOf(after, keys.epoch) == OverheadOf(keys, keys.epoch))
            && Known(after, after.epoch) && OverheadOf(after, after.epoch) == overhead
            && !Known(Rekeyed(after, next), keys.epoch)
  {
    if keys.epoch + 1 < MAX_U16 { SmallMod(keys.epoch + 1, MAX_U16); }
    if keys.epoch + 2 < MAX_U16 { SmallMod(keys.epoch + 2, MAX_U16); }
  }

  // ---- one record ----

  /** Not even one byte of the message fits. */
  predicate NoRoom(keys: Keys, m: Outgoing, maxOut: nat) {
    maxOut < (if m.isCcs then 1 else HEADER_LENGTH + 1) + RECORD_HEADER + OverheadOf(keys, m.epoch).max
  }

  /** The length of the next piece: the rest of the message, or as much as fits. */
  function PieceLen(keys: Keys, m: Outgoing, off: nat, maxOut: nat): nat
    requires off <= |m.body| && (m.isCcs ==> m.body == []) && !NoRoom(keys, m, maxOut)
  {
    if m.isCcs then 0
    else
      var room := maxOut - HEADER_LENGTH - RECORD_HEADER - OverheadOf(keys, m.epoch).max;
      if |m.body| - off <= room then |m.body| - off else room
  }

  function SealedLen(len: nat, overhead: Overhead, seal: Seal): nat
    requires seal.Sealed?
  {
    RECORD_HEADER + len + if seal.added <= overhead.max then seal.added else overhead.max
  }

  /** The message at the cursor has room and keys. */
  predicate Ready(keys: Keys, ms: seq<Outgoing>, c: Cursor, maxOut: nat) {
    && CursorOk(ms, c) && c.written < |ms| && WellFormed(ms[c.written])
    && Known(keys, ms[c.written].epoch) && !NoRoom(keys, ms[c.written], maxOut)
  }

  function NextPiece(keys: Keys, ms: seq<Outgoing>, c: Cursor, maxOut: nat): Piece
    requires Ready(keys, ms, c, maxOut)
  {
    Piece(c.written, c.offset, PieceLen(keys, ms[c.written], c.offset, maxOut))
  }

  /** The length of the record that carries it. */
  function NextLen(keys: Keys, ms: seq<Outgoing>, c: Cursor, maxOut: nat, seal: Seal): nat
    requires Ready(keys, ms, c, maxOut) && seal.Sealed?
  {
    var m := ms[c.written];
    var len := if m.isCcs then 1 else HEADER_LENGTH + PieceLen(keys, m, c.offset, maxOut);
    SealedLen(len, OverheadOf(keys, m.epoch), seal)
  }

  /** The piece is a step of the flight and its record fits; after it the message is done, or the room
      was used up by at least one byte of it. */
  lemma NextPieceOk(keys: Keys, ms: seq<Outgoing>, c: Cursor, maxOut: nat, seal: Seal)
    requires Ready(keys, ms, c, maxOut) && seal.Sealed?
    ensures var p := NextPiece(keys, ms, c, maxOut);
            && Legal(ms, c, p) && NextLen(keys, ms, c, maxOut, seal) <= maxOut
            && var d := Advance(ms, c, p);
               && CursorOk(ms, d)
               && if d.offset == 0 then d.written == c.written + 1 else d.written == c.written && p.len > 0
  {
  }

  /** The record of a piece, of the given length. */
  function RecordOf(ms: seq<Outgoing>, p: Piece, wireLen: nat): Record {
    if p.index < |ms| && p.off + p.len <= |ms[p.index].body| then
      Record(p, ms[p.index].isCcs, ms[p.index].epoch, Payload(ms, p), wireLen)
    else Record(p, true, 0, [], wireLen)
  }

  datatype SealResult = SealError | NoProgress | Partial | Success

  /** What one call seals at cursor c, with which result, and the cursor d it leads to. */
  ghost predicate SealedNext(keys: Keys, ms: seq<Outgoing>, c: Cursor, maxOut: nat, seal: Seal,
                             result: SealResult, r: Record, d: Cursor)
    requires CursorOk(ms, c) && c.written < |ms| && WellFormed(ms[c.written])
  {
    var m := ms[c.written];
    if !Known(keys, m.epoch) then result.SealError? && d == c
    else if NoRoom(keys, m, maxOut) then result.NoProgress? && d == c
    else if seal.Refused? then result.SealError? && d == c
    else
      var p := NextPiece(keys, ms, c, maxOut);
      NextPieceOk(keys, ms, c, maxOut, seal);
      && r == RecordOf(ms, p, NextLen(keys, ms, c, maxOut, seal)) && d == Advance(ms, c, p)
      && result == if d.offset == 0 then Success else Partial
  }

  /** A fragment of the right length is the next record, and done or cut according to its length. */
  lemma PieceIsNext(keys: Keys, ms: seq<Outgoing>, c: Cursor, maxOut: nat, seal: Seal, r: Record)
    requires Ready(keys, ms, c, maxOut) && !ms[c.written].isCcs
    requires r == RecordOf(ms, NextPiece(keys, ms, c, maxOut), 0)
    ensures var p, m := r.piece, ms[c.written];
            && Legal(ms, c, p)
            && (seal.Sealed? ==>
                  SealedNext(keys, ms, c, maxOut, seal, if p.len == |m.body| - p.off then Success else Partial,
                             r.(wireLen := SealedLen(|r.payload|, OverheadOf(keys, m.epoch), seal)),
                             Advance(ms, c, p)))
  {
    if seal.Sealed? {
      NextPieceOk(keys, ms, c, maxOut, seal);
    }
  }

  // ---- one packet ----

  /** The pieces of a packet with the lengths of their records, and how the packet ends. */
  datatype Line = Shut(ok: bool, end: Cursor) | Put(p: Piece, wireLen: nat, rest: Line)

  /** Fills a packet from cursor c on with records n, n + 1, ...: it is done when nothing is left, when a
      message had to be cut, or when the next one does not fit.  It fails when a seal fails, or when
      the first piece does not fit. */
  function LineFrom(keys: Keys, ms: seq<Outgoing>, c: Cursor, room: nat, world: World, n: nat, first: bool): Line
    requires CursorOk(ms, c) && AllWellFormed(ms)
    decreases Left(ms, c)
  {
    if c.written == |ms| then Shut(!first, c)
    else if !Known(keys, ms[c.written].epoch) then Shut(false, c)
    else if NoRoom(keys, ms[c.written], room) then Shut(!first, c)
    else if SealAt(world, n).Refused? then Shut(false, c)
    else
      var p, len := NextPiece(keys, ms, c, room), NextLen(keys, ms, c, room, SealAt(world, n));
      NextPieceOk(keys, ms, c, room, SealAt(world, n));
      AdvanceShrinks(ms, c, p);
      var d := Advance(ms, c, p);
      Put(p, len, if d.offset > 0 then Shut(true, d) else LineFrom(keys, ms, d, room - len, world, n + 1, false))
  }

  datatype Filled = Filled(ok: bool, packet: Packet, end: Cursor)

  function Onto(packet: Packet, f: Filled): Filled {
    f.(packet := packet + f.packet)
  }

  function Gathered(ms: seq<Outgoing>, line: Line): Filled {
    match line
    case Shut(ok, end) => Filled(ok, [], end)
    case Put(p, len, rest) => Onto([RecordOf(ms, p, len)], Gathered(ms, rest))
  }

  function Len(line: Line): nat {
    if line.Shut? then 0 else 1 + Len(line.rest)
  }

  lemma {:induction false} GatheredLen(ms: seq<Outgoing>, line: Line)
    ensures |Gathered(ms, line).packet| == Len(line)
  {
    if line.Put? { GatheredLen(ms, line.rest); }
  }

  function Fill(keys: Keys, ms: seq<Outgoing>, c: Cursor, room: nat, world: World, n: nat, first: bool): Filled
    requires CursorOk(ms, c) && AllWellFormed(ms)
  {
    Gathered(ms, LineFrom(keys, ms, c, room, world, n, first))
  }

  lemma NotReady(keys: Keys, ms: seq<Outgoing>, c: Cursor, room: nat, world: World, n: nat, first: bool)
    requires CursorOk(ms, c) && AllWellFormed(ms) && !Ready(keys, ms, c, room)
    ensures LineFrom(keys, ms, c, room, world, n, first) ==
            Shut(!first && (c.written == |ms| || Known(keys, ms[c.written].epoch)), c)
  {
  }

  lemma LinePut(keys: Keys, ms: seq<Outgoing>, c: Cursor, room: nat, world: World, n: nat, first: bool)
    returns (p: Piece, len: nat, d: Cursor, rest: Line)
    requires CursorOk(ms, c) && AllWellFormed(ms) && Ready(keys, ms, c, room) && SealAt(world, n).Sealed?
    ensures p == NextPiece(keys, ms, c, room) && len == NextLen(keys, ms, c, room, SealAt(world, n))
    ensures len <= room && Legal(ms, c, p)
    ensures d == Advance(ms, c, p) && CursorOk(ms, d) && Left(ms, d) < Left(ms, c)
    ensures rest == if d.offset > 0 then Shut(true, d)
                    else LineFrom(keys, ms, d, room - len, world, n + 1, false)
    ensures LineFrom(keys, ms, c, room, world, n, first) == Put(p, len, rest)
  {
    p, len := NextPiece(keys, ms, c, room), NextLen(keys, ms, c, room, SealAt(world, n));
    NextPieceOk(keys, ms, c, room, SealAt(world, n));
    AdvanceShrinks(ms, c, p);
    d := Advance(ms, c, p);
    rest := LineFrom(keys, ms, c, room, world, n, first).rest;
  }

  /** The sender cannot go on from cursor d: the keys of the next message are gone, or the piece that
      would open a packet does not fit, or the piece that fits is refused. */
  ghost predicate Stops(keys: Keys, ms: seq<Outgoing>, d: Cursor, room: int, opens: bool, seal: Seal) {
    && d.written < |ms| && room >= 0
    && (!Known(keys, ms[d.written].epoch) || if NoRoom(keys, ms[d.written], room) then opens else seal.Refused?)
  }

  /** A packet that ends without an error is full: nothing is left, or a message was cut, or the next one
      does not fit. */
  ghost predicate Full(keys: Keys, ms: seq<Outgoing>, d: Cursor, room: int) {
    d.written < |ms| && d.offset == 0 ==>
      room >= 0 && Known(keys, ms[d.written].epoch) && NoRoom(keys, ms[d.written], room)
  }

  /** Every record is a step of the flight that fits and was not refused, and the end has its reason. */
  ghost predicate LineOk(keys: Keys, ms: seq<Outgoing>, c: Cursor, room: nat, world: World, n: nat, first: bool,
                         line: Line)
    decreases line
  {
    match line
    case Shut(ok, end) =>
      && CursorOk(ms, end) && end == c
      && if ok then !first && (c.offset == 0 ==> Full(keys, ms, c, room))
         else (c.written == |ms| && first) || Stops(keys, ms, c, room, first, SealAt(world, n))
    case Put(p, len, rest) =>
      && Legal(ms, c, p) && len <= room
      && !Stops(keys, ms, c, room, true, SealAt(world, n)) && SealAt(world, n).Sealed?
      && var d := Advance(ms, c, p);
         && CursorOk(ms, d) && Left(ms, d) < Left(ms, c)
         && LineOk(keys, ms, d, room - len, world, n + 1, false, rest)
         && (d.offset > 0 ==> rest == Shut(true, d))
  }

  lemma ShutIsOk(keys: Keys, ms: seq<Outgoing>, c: Cursor, room: nat, world: World, n: nat, first: bool)
    requires CursorOk(ms, c) && AllWellFormed(ms) && !(Ready(keys, ms, c, room) && SealAt(world, n).Sealed?)
    ensures LineOk(keys, ms, c, room, world, n, first, LineFrom(keys, ms, c, room, world, n, first))
  {
  }

  lemma PutIsOk(keys: Keys, ms: seq<Outgoing>, c: Cursor, room: nat, world: World, n: nat, first: bool, p: Piece,
                len: nat, rest: Line)
    requires CursorOk(ms, c) && Legal(ms, c, p) && len <= room
    requires SealAt(world, n).Sealed? && !Stops(keys, ms, c, room, true, SealAt(world, n))
    requires var d := Advance(ms, c, p);
             && (d.offset > 0 ==> rest == Shut(true, d)) && CursorOk(ms, d)
             && (d.offset == 0 ==> LineOk(keys, ms, d, room - len, world, n + 1, false, rest))
    ensures LineOk(keys, ms, c, room, world, n, first, Put(p, len, rest))
  {
    AdvanceShrinks(ms, c, p);
  }

  lemma LineBegins(keys: Keys, ms: seq<Outgoing>, c: Cursor, room: nat, world: World, n: nat, first: bool)
    returns (p: Piece, len: nat, d: Cursor, rest: Line)
    requires CursorOk(ms, c) && AllWellFormed(ms) && Ready(keys, ms, c, room) && SealAt(world, n).Sealed?
    ensures Legal(ms, c, p) && len <= room && !Stops(keys, ms, c, room, true, SealAt(world, n))
    ensures d == Advance(ms, c, p) && CursorOk(ms, d) && Left(ms, d) < Left(ms, c)
    ensures d.offset > 0 ==> rest == Shut(true, d)
    ensures d.offset == 0 ==> rest == LineFrom(keys, ms, d, room - len, world, n + 1, false)
    ensures LineFrom(keys, ms, c, room, world, n, first) == Put(p, len, rest)
  {
    p, len, d, rest := LinePut(keys, ms, c, room, world, n, first);
  }

  lemma {:induction false} LineIsOk(keys: Keys, ms: seq<Outgoing>, c: Cursor, room: nat, world: World, n: nat,
                                    first: bool)
    requires CursorOk(ms, c) && AllWellFormed(ms)
    ensures LineOk(keys, ms, c, room, world, n, first, LineFrom(keys, ms, c, room, world, n, first))
    decreases Left(ms, c)
  {
    if Ready(keys, ms, c, room) && SealAt(world, n).Sealed? {
      var p, len, d, rest := LineBegins(keys, ms, c, room, world, n, first);
      if d.offset == 0 {
        LineIsOk(keys, ms, d, room - len, world, n + 1, false);
      }
      PutIsOk(keys, ms, c, room, world, n, first, p, len, rest);
    } else {
      ShutIsOk(keys, ms, c, room, world, n, first);
    }
  }

  /** A packet takes the flight on, in order and within its room. */
  ghost predicate Packed(ms: seq<Outgoing>, c: Cursor, room: nat, f: Filled) {
    var all :=
      && Tiles(ms, c, Pieces(f.packet), f.end) && PacketOk(ms, room, f.packet)
      && CursorOk(ms, f.end) && |f.packet| + Left(ms, f.end) <= Left(ms, c);
    all
  }

  lemma OneRecordMore(ms: seq<Outgoing>, c: Cursor, room: nat, p: Piece, len: nat, f: Filled)
    requires CursorOk(ms, c) && Legal(ms, c, p) && len <= room
    requires var d := Advance(ms, c, p);
             CursorOk(ms, d) && Left(ms, d) < Left(ms, c) && Packed(ms, d, room - len, f)
    ensures Packed(ms, c, room, Onto([RecordOf(ms, p, len)], f))
  {
    var packet := [RecordOf(ms, p, len)] + f.packet;
    assert packet[1..] == f.packet;
    assert Pieces(packet)[1..] == Pieces(f.packet);
    forall i | 0 <= i < |packet| ensures Carries(ms, packet[i]) {
      if i > 0 { assert packet[i] == f.packet[i - 1]; }
    }
  }

  lemma {:induction false} LineTiles(keys: Keys, ms: seq<Outgoing>, c: Cursor, room: nat, world: World, n: nat,
                                     first: bool, line: Line)
    requires CursorOk(ms, c) && LineOk(keys, ms, c, room, world, n, first, line)
    ensures Packed(ms, c, room, Gathered(ms, line))
    decreases line
  {
    if line.Put? {
      LineTiles(keys, ms, Advance(ms, c, line.p), room - line.wireLen, world, n + 1, false, line.rest);
      OneRecordMore(ms, c, room, line.p, line.wireLen, Gathered(ms, line.rest));
    }
  }

  /** Why a packet ends: told by its length and by what comes next. */
  ghost predicate WellFilled(keys: Keys, ms: seq<Outgoing>, c: Cursor, room: nat, world: World, n: nat, first: bool,
                             f: Filled) {
    var left := room - WireLen(f.packet);
    var all :=
      && left >= 0
      && (f.ok ==> Full(keys, ms, f.end, left))
      && (!f.ok ==> Stops(keys, ms, f.end, left, first && f.packet == [], SealAt(world, n + |f.packet|)))
      && (f.packet != [] ==> !Stops(keys, ms, c, room, true, SealAt(world, n)))
      && (first && f.ok ==> f.packet != []);
    all
  }

  lemma FilledAfter(keys: Keys, ms: seq<Outgoing>, c: Cursor, room: nat, world: World, n: nat, first: bool,
                    r: Record, d: Cursor, f: Filled)
    requires !Stops(keys, ms, c, room, true, SealAt(world, n)) && r.wireLen <= room
    requires WellFilled(keys, ms, d, room - r.wireLen, world, n + 1, false, f)
    ensures WellFilled(keys, ms, c, room, world, n, first, Onto([r], f))
  {
    var packet := [r] + f.packet;
    assert packet[1..] == f.packet;
    assert WireLen(packet) == r.wireLen + WireLen(f.packet) && |packet| == 1 + |f.packet|;
  }

  lemma {:induction false} WhyFilled(keys: Keys, ms: seq<Outgoing>, c: Cursor, room: nat, world: World, n: nat,
                                     first: bool, line: Line)
    requires CursorOk(ms, c) && (first ==> c.written < |ms|)
    requires LineOk(keys, ms, c, room, world, n, first, line)
    ensures WellFilled(keys, ms, c, room, world, n, first, Gathered(ms, line))
    decreases line
  {
    if line.Put? {
      var r, d := RecordOf(ms, line.p, line.wireLen), Advance(ms, c, line.p);
      WhyFilled(keys, ms, d, room - line.wireLen, world, n + 1, false, line.rest);
      FilledAfter(keys, ms, c, room, world, n, first, r, d, Gathered(ms, line.rest));
    }
  }

  lemma FillPacked(keys: Keys, ms: seq<Outgoing>, c: Cursor, room: nat, world: World, n: nat)
    requires CursorOk(ms, c) && AllWellFormed(ms)
    ensures Packed(ms, c, room, Fill(keys, ms, c, room, world, n, true))
  {
    LineIsOk(keys, ms, c, room, world, n, true);
    LineTiles(keys, ms, c, room, world, n, true, LineFrom(keys, ms, c, room, world, n, true));
  }

  lemma FillReasoned(keys: Keys, ms: seq<Outgoing>, c: Cursor, room: nat, world: World, n: nat)
    requires CursorOk(ms, c) && AllWellFormed(ms) && c.written < |ms|
    ensures WellFilled(keys, ms, c, room, world, n, true, Fill(keys, ms, c, room, world, n, true))
  {
    LineIsOk(keys, ms, c, room, world, n, true);
    WhyFilled(keys, ms, c, room, world, n, true, LineFrom(keys, ms, c, room, world, n, true));
  }

  /** A packet that is done brings the end nearer. */
  lemma FillGoesOn(keys: Keys, ms: seq<Outgoing>, c: Cursor, room: nat, world: World, n: nat)
    requires CursorOk(ms, c) && AllWellFormed(ms) && c.written < |ms|
    ensures var f := Fill(keys, ms, c, room, world, n, true);
            CursorOk(ms, f.end) && (f.ok ==> f.packet != []) && |f.packet| + Left(ms, f.end) <= Left(ms, c)
  {
    FillPacked(keys, ms, c, room, world, n);
    FillReasoned(keys, ms, c, room, world, n);
  }

  // ---- a run ----

  /** The packets of a flight one after another, each with the cursor it starts from, up to the first
      that fails. */
  datatype Course = Over(end: Cursor) | Ahead(start: Cursor, f: Filled, rest: Course)

  /** The packets from cursor c on, with records n, n + 1, ... */
  function CourseFrom(keys: Keys, ms: seq<Outgoing>, mtu: nat, world: World, c: Cursor, n: nat): Course
    requires CursorOk(ms, c) && AllWellFormed(ms)
    decreases Left(ms, c)
  {
    if c.written == |ms| then Over(c)
    else
      var f := Fill(keys, ms, c, mtu, world, n, true);
      FillGoesOn(keys, ms, c, mtu, world, n);
      Ahead(c, f, if f.ok then CourseFrom(keys, ms, mtu, world, f.end, n + |f.packet|) else Over(f.end))
  }

  datatype SendResult = Sent | Unflushed | WriteBlocked | ShutDown | Failed

  /** `packets` are those the transport took; `lost` was sealed into a packet that could not be finished
      and is not sealed again; `blocked` is the packet the transport did not take, from which the next
      run begins. */
  datatype Run = Run(result: SendResult, packets: seq<Packet>, lost: Packet, blocked: Packet, end: Cursor)

  /** What becomes of the packets; `sent` were taken before. */
  function Follow(course: Course, world: World, sent: nat): Run {
    match course
    case Over(c) => Run(if world.flushes then Sent else Unflushed, [], [], [], c)
    case Ahead(c, f, rest) =>
      if !f.ok then Run(Failed, [], f.packet, [], f.end)
      else if !Takes(world, sent) then Run(WriteBlocked, [], [], f.packet, c)
      else After([f.packet], Follow(rest, world, sent + 1))
  }

  function After(packets: seq<Packet>, run: Run): Run {
    run.(packets := packets + run.packets)
  }

  function SendAll(keys: Keys, ms: seq<Outgoing>, mtu: nat, world: World, c: Cursor): Run
    requires CursorOk(ms, c) && AllWellFormed(ms)
  {
    if world.shutdown then Run(ShutDown, [], [], [], c)
    else Follow(CourseFrom(keys, ms, mtu, world, c, 0), world, 0)
  }

  // ---- the run as a whole ----

  /** Every packet takes the flight on from where the one before ended. */
  ghost predicate Linked(ms: seq<Outgoing>, mtu: nat, c: Cursor, course: Course)
    decreases course
  {
    var all := match course
      case Over(d) => d == c && CursorOk(ms, c)
      case Ahead(d, f, rest) =>
        && d == c && CursorOk(ms, c) && Packed(ms, c, mtu, f) && (f.ok ==> f.packet != [])
        && Linked(ms, mtu, f.end, rest);
    all
  }

  /** Every packet ends for a reason. */
  ghost predicate Reasoned(keys: Keys, ms: seq<Outgoing>, mtu: nat, world: World, n: nat, course: Course)
    decreases course
  {
    match course
    case Over(d) => d.written >= |ms|
    case Ahead(c, f, rest) =>
      && c.written < |ms| && WellFilled(keys, ms, c, mtu, world, n, true, f)
      && (f.ok ==> Reasoned(keys, ms, mtu, world, n + |f.packet|, rest))
  }

  lemma FirstPacket(keys: Keys, ms: seq<Outgoing>, mtu: nat, world: World, c: Cursor, n: nat)
    returns (f: Filled, rest: Course)
    requires CursorOk(ms, c) && AllWellFormed(ms) && c.written < |ms|
    ensures f == Fill(keys, ms, c, mtu, world, n, true)
    ensures CursorOk(ms, f.end) && (f.ok ==> f.packet != []) && |f.packet| + Left(ms, f.end) <= Left(ms, c)
    ensures rest == if f.ok then CourseFrom(keys, ms, mtu, world, f.end, n + |f.packet|) else Over(f.end)
    ensures CourseFrom(keys, ms, mtu, world, c, n) == Ahead(c, f, rest)
  {
    FillGoesOn(keys, ms, c, mtu, world, n);
    f := Fill(keys, ms, c, mtu, world, n, true);
    rest := if f.ok then CourseFrom(keys, ms, mtu, world, f.end, n + |f.packet|) else Over(f.end);
  }

  lemma LinkedAhead(keys: Keys, ms: seq<Outgoing>, mtu: nat, world: World, c: Cursor, n: nat, f: Filled, rest: Course)
    requires CursorOk(ms, c) && AllWellFormed(ms) && c.written < |ms|
    requires f == Fill(keys, ms, c, mtu, world, n, true) && Linked(ms, mtu, f.end, rest)
    ensures Linked(ms, mtu, c, Ahead(c, f, rest))
  {
    FillPacked(keys, ms, c, mtu, world, n);
    FillGoesOn(keys, ms, c, mtu, world, n);
  }

  lemma {:induction false} CourseLinked(keys: Keys, ms: seq<Outgoing>, mtu: nat, world: World, c: Cursor, n: nat,
                                        course: Course)
    requires CursorOk(ms, c) && AllWellFormed(ms) && course == CourseFrom(keys, ms, mtu, world, c, n)
    ensures Linked(ms, mtu, c, course)
    decreases Left(ms, c)
  {
    if c.written < |ms| {
      var f, rest := FirstPacket(keys, ms, mtu, world, c, n);
      if f.ok {
        CourseLinked(keys, ms, mtu, world, f.end, n + |f.packet|, rest);
      }
      LinkedAhead(keys, ms, mtu, world, c, n, f, rest);
    }
  }

  lemma ReasonedAhead(keys: Keys, ms: seq<Outgoing>, mtu: nat, world: World, c: Cursor, n: nat, f: Filled,
                      rest: Course)
    requires CursorOk(ms, c) && AllWellFormed(ms) && c.written < |ms|
    requires f == Fill(keys, ms, c, mtu, world, n, true)
    requires f.ok ==> Reasoned(keys, ms, mtu, world, n + |f.packet|, rest)
    ensures Reasoned(keys, ms, mtu, world, n, Ahead(c, f, rest))
  {
    FillReasoned(keys, ms, c, mtu, world, n);
  }

  lemma {:induction false} CourseReasoned(keys: Keys, ms: seq<Outgoing>, mtu: nat, world: World, c: Cursor, n: nat,
                                          course: Course)
    requires CursorOk(ms, c) && AllWellFormed(ms) && course == CourseFrom(keys, ms, mtu, world, c, n)
    ensures Reasoned(keys, ms, mtu, world, n, course)
    decreases Left(ms, c)
  {
    if c.written < |ms| {
      var f, rest := FirstPacket(keys, ms, mtu, world, c, n);
      if f.ok {
        CourseReasoned(keys, ms, mtu, world, f.end, n + |f.packet|, rest);
      }
      ReasonedAhead(keys, ms, mtu, world, c, n, f, rest);
    }
  }

  ghost predicate AllTaken(ms: seq<Outgoing>, mtu: nat, world: World, sent: nat, packets: seq<Packet>)
    decreases |packets|
  {
    packets == [] ||
    (&& packets[0] != [] && PacketOk(ms, mtu, packets[0]) && Takes(world, sent)
     && AllTaken(ms, mtu, world, sent + 1, packets[1..]))
  }

  /** The packets taken and the records lost lead from the old cursor to the new one without a gap or an
      overlap; every packet is within the MTU and was taken. */
  ghost predicate Flown(ms: seq<Outgoing>, mtu: nat, world: World, c: Cursor, sent: nat, run: Run) {
    var all :=
      && CursorOk(ms, run.end) && Tiles(ms, c, AllPieces(run.packets) + Pieces(run.lost), run.end)
      && AllTaken(ms, mtu, world, sent, run.packets)
      && PacketOk(ms, mtu, run.lost) && PacketOk(ms, mtu, run.blocked);
    all
  }

  lemma {:induction false} FollowTiles(ms: seq<Outgoing>, mtu: nat, world: World, c: Cursor, course: Course, sent: nat)
    requires Linked(ms, mtu, c, course)
    ensures Flown(ms, mtu, world, c, sent, Follow(course, world, sent))
    decreases course
  {
    var run := Follow(course, world, sent);
    if run.packets == [] {
      assert AllPieces([]) + Pieces(run.lost) == Pieces(run.lost);
    } else {
      var f, rest := course.f, Follow(course.rest, world, sent + 1);
      FollowTiles(ms, mtu, world, f.end, course.rest, sent + 1);
      assert run.packets[1..] == rest.packets;
      TilesAppend(ms, c, Pieces(f.packet), f.end, AllPieces(rest.packets) + Pieces(rest.lost), rest.end);
      Assoc(Pieces(f.packet), AllPieces(rest.packets), Pieces(rest.lost));
    }
  }

  function Records(ps: seq<Packet>): nat {
    if ps == [] then 0 else |ps[0]| + Records(ps[1..])
  }

  /** Exactly which result a run has, told by where it stopped and by what it met there. */
  ghost predicate Ends(keys: Keys, ms: seq<Outgoing>, mtu: nat, world: World, n: nat, sent: nat, run: Run) {
    var all :=
      && (run.result.Failed? <==>
          Stops(keys, ms, run.end, mtu - WireLen(run.lost), run.lost == [],
                SealAt(world, n + Records(run.packets) + |run.lost|)))
      && (run.result.Sent? <==> run.end.written >= |ms| && world.flushes)
      && (run.result.Unflushed? <==> run.end.written >= |ms| && !world.flushes)
      && (run.result.WriteBlocked? <==> run.blocked != [])
      && (run.blocked != [] ==> !Takes(world, sent + |run.packets|))
      && (run.lost != [] ==> run.result.Failed?);
    all
  }

  lemma EndsAfter(keys: Keys, ms: seq<Outgoing>, mtu: nat, world: World, n: nat, sent: nat, packet: Packet, run: Run)
    requires Ends(keys, ms, mtu, world, n + |packet|, sent + 1, run)
    ensures Ends(keys, ms, mtu, world, n, sent, After([packet], run))
  {
    assert ([packet] + run.packets)[1..] == run.packets;
  }

  lemma EndsStopped(keys: Keys, ms: seq<Outgoing>, mtu: nat, world: World, c: Cursor, n: nat, sent: nat, f: Filled)
    requires WellFilled(keys, ms, c, mtu, world, n, true, f) && !f.ok
    ensures Ends(keys, ms, mtu, world, n, sent, Run(Failed, [], f.packet, [], f.end))
  {
  }

  lemma EndsBlocked(keys: Keys, ms: seq<Outgoing>, mtu: nat, world: World, c: Cursor, n: nat, sent: nat, f: Filled)
    requires WellFilled(keys, ms, c, mtu, world, n, true, f) && f.packet != [] && c.written < |ms|
    requires !Takes(world, sent)
    ensures Ends(keys, ms, mtu, world, n, sent, Run(WriteBlocked, [], [], f.packet, c))
  {
  }

  lemma {:induction false} FollowEnds(keys: Keys, ms: seq<Outgoing>, mtu: nat, world: World, n: nat, course: Course,
                                      sent: nat)
    requires Reasoned(keys, ms, mtu, world, n, course)
    ensures Ends(keys, ms, mtu, world, n, sent, Follow(course, world, sent))
    decreases course
  {
    match course
    case Over(_) =>
    case Ahead(c, f, rest) =>
      if !f.ok {
        EndsStopped(keys, ms, mtu, world, c, n, sent, f);
      } else if !Takes(world, sent) {
        EndsBlocked(keys, ms, mtu, world, c, n, sent, f);
      } else {
        FollowEnds(keys, ms, mtu, world, n + |f.packet|, rest, sent + 1);
        EndsAfter(keys, ms, mtu, world, n, sent, f.packet, Follow(rest, world, sent + 1));
      }
  }

  lemma NothingSent(ms: seq<Outgoing>, mtu: nat, world: World, c: Cursor)
    requires CursorOk(ms, c)
    ensures Flown(ms, mtu, world, c, 0, Run(ShutDown, [], [], [], c))
  {
    assert AllPieces([]) + Pieces([]) == [];
  }

  /** A run from cursor c, whatever it meets: what was sent and why it ended. */
  lemma SendIsWhole(keys: Keys, ms: seq<Outgoing>, mtu: nat, world: World, c: Cursor)
    requires CursorOk(ms, c) && AllWellFormed(ms)
    ensures Flown(ms, mtu, world, c, 0, SendAll(keys, ms, mtu, world, c))
    ensures if world.shutdown then SendAll(keys, ms, mtu, world, c) == Run(ShutDown, [], [], [], c)
            else Ends(keys, ms, mtu, world, 0, 0, SendAll(keys, ms, mtu, world, c))
  {
    if world.shutdown {
      NothingSent(ms, mtu, world, c);
    } else {
      var course := CourseFrom(keys, ms, mtu, world, c, 0);
      CourseLinked(keys, ms, mtu, world, c, 0, course);
      CourseReasoned(keys, ms, mtu, world, c, 0, course);
      FollowTiles(ms, mtu, world, c, course, 0);
      FollowEnds(keys, ms, mtu, world, 0, course, 0);
    }
  }

  // ---- step by step ----

  /** The line is what is sealed from here on, told piece by piece. */
  ghost predicate IsLine(keys: Keys, ms: seq<Outgoing>, c: Cursor, room: nat, world: World, n: nat, first: bool,
                         line: Line)
    decreases line
  {
    var all := match line
      case Shut(ok, end) =>
        && end == c && CursorOk(ms, c) && !(Ready(keys, ms, c, room) && SealAt(world, n).Sealed?)
        && (ok <==> !first && (c.written < |ms| ==>
                                 Known(keys, ms[c.written].epoch) && NoRoom(keys, ms[c.written], room)))
      case Put(p, len, rest) =>
        && Ready(keys, ms, c, room) && SealAt(world, n).Sealed?
        && p == NextPiece(keys, ms, c, room) && len == NextLen(keys, ms, c, room, SealAt(world, n)) && len <= room
        && Legal(ms, c, p)
        && var d := Advance(ms, c, p);
           if d.offset > 0 then rest == Shut(true, d) else IsLine(keys, ms, d, room - len, world, n + 1, false, rest);
    all
  }

  lemma {:induction false} LineIsLine(keys: Keys, ms: seq<Outgoing>, c: Cursor, room: nat, world: World, n: nat,
                                      first: bool, line: Line)
    requires CursorOk(ms, c) && AllWellFormed(ms) && line == LineFrom(keys, ms, c, room, world, n, first)
    ensures IsLine(keys, ms, c, room, world, n, first, line)
    decreases Left(ms, c)
  {
    if Ready(keys, ms, c, room) && SealAt(world, n).Sealed? {
      var p, len, d, rest := LinePut(keys, ms, c, room, world, n, first);
      if d.offset == 0 {
        LineIsLine(keys, ms, d, room - len, world, n + 1, false, rest);
      }
    }
  }

  /** A call of the sealing function does the next step of the line. */
  lemma OneSealed(keys: Keys, ms: seq<Outgoing>, c: Cursor, room: nat, world: World, n: nat, first: bool, line: Line,
                  result: SealResult, r: Record, d: Cursor)
    requires CursorOk(ms, c) && c.written < |ms| && WellFormed(ms[c.written])
    requires IsLine(keys, ms, c, room, world, n, first, line)
    requires SealedNext(keys, ms, c, room, SealAt(world, n), result, r, d)
    ensures CursorOk(ms, d)
    ensures match result
            case SealError => line == Shut(false, d)
            case NoProgress => line == Shut(!first, d)
            case Partial =>
              line.Put? && r == RecordOf(ms, line.p, line.wireLen) && r.wireLen <= room && line.rest == Shut(true, d)
            case Success =>
              && line.Put? && r == RecordOf(ms, line.p, line.wireLen) && r.wireLen == line.wireLen <= room
              && d == Cursor(c.written + 1, 0) && Left(ms, d) < Left(ms, c)
              && IsLine(keys, ms, d, room - line.wireLen, world, n + 1, false, line.rest)
  {
    if line.Put? {
      NextPieceOk(keys, ms, c, room, SealAt(world, n));
      AdvanceShrinks(ms, c, line.p);
    }
  }

  /** The course is what is filled from here on, told packet by packet. */
  ghost predicate IsCourse(keys: Keys, ms: seq<Outgoing>, mtu: nat, world: World, c: Cursor, n: nat, course: Course)
    requires AllWellFormed(ms)
    decreases course
  {
    var all := match course
      case Over(d) => d == c && c.written == |ms|
      case Ahead(d, f, rest) =>
        && d == c && CursorOk(ms, c) && c.written < |ms| && f == Fill(keys, ms, c, mtu, world, n, true)
        && (f.ok ==>
              && CursorOk(ms, f.end) && Left(ms, f.end) < Left(ms, c)
              && IsCourse(keys, ms, mtu, world, f.end, n + |f.packet|, rest));
    all
  }

  /** The same as one fact. */
  ghost predicate ToSend(keys: Keys, ms: seq<Outgoing>, mtu: nat, world: World, c: Cursor, n: nat, course: Course) {
    var all := AllWellFormed(ms) && IsCourse(keys, ms, mtu, world, c, n, course);
    all
  }

  lemma {:induction false} CourseIsCourse(keys: Keys, ms: seq<Outgoing>, mtu: nat, world: World, c: Cursor, n: nat,
                                          course: Course)
    requires CursorOk(ms, c) && AllWellFormed(ms) && course == CourseFrom(keys, ms, mtu, world, c, n)
    ensures IsCourse(keys, ms, mtu, world, c, n, course)
    decreases Left(ms, c)
  {
    if c.written < |ms| {
      var f, rest := FirstPacket(keys, ms, mtu, world, c, n);
      if f.ok {
        CourseIsCourse(keys, ms, mtu, world, f.end, n + |f.packet|, rest);
      }
    }
  }

  lemma OntoOnto(packet: Packet, r: Record, f: Filled)
    ensures Onto(packet, Onto([r], f)) == Onto(packet + [r], f)
  {
    assert packet + ([r] + f.packet) == packet + [r] + f.packet;
  }

  lemma AfterAfter(packets: seq<Packet>, packet: Packet, run: Run)
    ensures After(packets, After([packet], run)) == After(packets + [packet], run)
  {
    assert packets + ([packet] + run.packets) == packets + [packet] + run.packets;
  }
}
