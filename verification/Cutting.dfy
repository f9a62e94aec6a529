/** How well packets are used: no byte more would fit where a message is cut, and so a message of n bytes
    takes as few packets as its pieces can be large. */
module Cutting {
  import opened Basics
  import opened Words
  import opened Fragments
  import opened Flight
  import opened Sending

  /** The most that a record with n bytes of the message may take, whatever the AEAD adds. */
  function Most(keys: Keys, m: Outgoing, n: nat): nat {
    RECORD_HEADER + (if m.isCcs then 1 else HEADER_LENGTH + n) + OverheadOf(keys, m.epoch).max
  }

  /** Every piece of the line that ends inside its message is as long as its room allows, and the record
      of every piece is as long as its payload and overhead. */
  ghost predicate Tight(keys: Keys, ms: seq<Outgoing>, c: Cursor, room: int, line: Line)
    decreases line
  {
    var all := match line
      case Shut(_, end) => end == c
      case Put(p, len, rest) =>
        && Legal(ms, c, p)
        && var m, d := ms[c.written], Advance(ms, c, p);
           && Most(keys, m, p.len) <= room
           && (d.offset > 0 ==> room < Most(keys, m, p.len + 1))
           && RECORD_HEADER + |Payload(ms, p)| <= len <= Most(keys, m, p.len)
           && Tight(keys, ms, d, room - len, rest);
    all
  }

  lemma OnePieceTight(keys: Keys, ms: seq<Outgoing>, c: Cursor, room: nat, seal: Seal)
    requires Ready(keys, ms, c, room) && seal.Sealed?
    ensures var p, m := NextPiece(keys, ms, c, room), ms[c.written];
            && Legal(ms, c, p) && Most(keys, m, p.len) <= room
            && (Advance(ms, c, p).offset > 0 ==> room < Most(keys, m, p.len + 1))
            && RECORD_HEADER + |Payload(ms, p)| <= NextLen(keys, ms, c, room, seal) <= Most(keys, m, p.len)
  {
    NextPieceOk(keys, ms, c, room, seal);
  }

  lemma {:induction false} LineTight(keys: Keys, ms: seq<Outgoing>, c: Cursor, room: nat, world: World, n: nat,
                                     first: bool)
    requires CursorOk(ms, c) && AllWellFormed(ms)
    ensures Tight(keys, ms, c, room, LineFrom(keys, ms, c, room, world, n, first))
    decreases Left(ms, c)
  {
    if Ready(keys, ms, c, room) && SealAt(world, n).Sealed? {
      var p, len, d, rest := LinePut(keys, ms, c, room, world, n, first);
      OnePieceTight(keys, ms, c, room, SealAt(world, n));
      if d.offset == 0 {
        LineTight(keys, ms, d, room - len, world, n + 1, false);
      }
    } else {
      ShutIsOk(keys, ms, c, room, world, n, first);
    }
  }

  /** A record is as long as what it carries and what the AEAD may add. */
  ghost predicate Sized(keys: Keys, ms: seq<Outgoing>, r: Record) {
    r.piece.index < |ms| && RECORD_HEADER + |r.payload| <= r.wireLen <= Most(keys, ms[r.piece.index], r.piece.len)
  }

  /** Where a packet ends inside a message, its last piece fits what the records before it left, and one
      byte more might not. */
  ghost predicate CutLate(keys: Keys, ms: seq<Outgoing>, room: int, f: Filled) {
    var all := f.packet != [] && f.end.offset > 0 ==>
      var before, p := f.packet[..|f.packet| - 1], f.packet[|f.packet| - 1].piece;
      var left := room - WireLen(before);
      && p.index == f.end.written < |ms| && p.off + p.len == f.end.offset
      && Most(keys, ms[p.index], p.len) <= left < Most(keys, ms[p.index], p.len + 1);
    all
  }

  lemma CutLater(keys: Keys, ms: seq<Outgoing>, room: int, r: Record, f: Filled)
    requires CutLate(keys, ms, room - r.wireLen, f) && f.packet != []
    ensures CutLate(keys, ms, room, Onto([r], f))
  {
    var packet, before := [r] + f.packet, f.packet[..|f.packet| - 1];
    assert packet[..|packet| - 1] == [r] + before;
    assert ([r] + before)[1..] == before;
  }

  lemma {:induction false} TightGathers(keys: Keys, ms: seq<Outgoing>, c: Cursor, room: int, line: Line)
    requires Tight(keys, ms, c, room, line)
    ensures CutLate(keys, ms, room, Gathered(ms, line))
    ensures forall r :: r in Gathered(ms, line).packet ==> Sized(keys, ms, r)
    decreases line
  {
    if line.Put? {
      var r, f := RecordOf(ms, line.p, line.wireLen), Gathered(ms, line.rest);
      TightGathers(keys, ms, Advance(ms, c, line.p), room - line.wireLen, line.rest);
      if f.packet != [] {
        CutLater(keys, ms, room, r, f);
      } else {
        assert line.rest.Shut?;
        assert ([r] + f.packet)[..0] == [];
      }
    }
  }

  /** A packet uses the room there is.  Where it ends inside a message, one byte more of it might not have
      fitted; where it ends with messages left to send, not one byte of the next might. */
  lemma PacketUsesRoom(keys: Keys, ms: seq<Outgoing>, c: Cursor, mtu: nat, world: World, n: nat)
    requires CursorOk(ms, c) && AllWellFormed(ms) && c.written < |ms|
    ensures var f := Fill(keys, ms, c, mtu, world, n, true);
            && (forall r :: r in f.packet ==> Sized(keys, ms, r))
            && CutLate(keys, ms, mtu, f)
            && (f.ok && f.end.offset == 0 && f.end.written < |ms| ==>
                  WireLen(f.packet) <= mtu < WireLen(f.packet) + Most(keys, ms[f.end.written], 1))
  {
    LineTight(keys, ms, c, mtu, world, n, true);
    TightGathers(keys, ms, c, mtu, LineFrom(keys, ms, c, mtu, world, n, true));
    FillReasoned(keys, ms, c, mtu, world, n);
  }

  // ---- how many packets a message takes ----

  /** A single message of a flight whose records are all sealed and whose packets are all taken */
  ghost predicate Smooth(keys: Keys, m: Outgoing, mtu: nat, world: World) {
    && WellFormed(m) && !m.isCcs && Known(keys, m.epoch) && mtu >= Most(keys, m, 1)
    && !world.shutdown && forall i :: 0 <= i <= |m.body| ==> SealAt(world, i).Sealed? && Takes(world, i)
  }

  /** The largest piece a packet can hold */
  function Largest(keys: Keys, m: Outgoing, mtu: nat): (q: nat)
    requires mtu >= Most(keys, m, 1) && !m.isCcs
    ensures q >= 1 && Most(keys, m, q) == mtu
  {
    mtu - Most(keys, m, 0)
  }

  /** k pieces of at most q bytes make up n bytes, and k - 1 do not. */
  ghost predicate Pieced(k: nat, q: nat, n: nat) {
    k >= 1 && n <= k * q && (n == 0 ==> k == 1) && (n > 0 ==> (k - 1) * q < n)
  }

  lemma PiecedNext(k: nat, q: nat, n: nat)
    requires q >= 1 && n > q && Pieced(k, q, n - q)
    ensures Pieced(k + 1, q, n)
  {
    assert (k + 1) * q == k * q + q && k * q == (k - 1) * q + q;
  }

  lemma FirstPiece(keys: Keys, m: Outgoing, mtu: nat, world: World, off: nat, n: nat) returns (r: Record)
    requires Smooth(keys, m, mtu, world) && n <= off && (off < |m.body| || off == 0)
    ensures var q, left := Largest(keys, m, mtu), |m.body| - off;
            && r.piece == Piece(0, off, if left <= q then left else q)
            && Fill(keys, [m], Cursor(0, off), mtu, world, n, true) ==
               Filled(true, [r], if left <= q then Cursor(1, 0) else Cursor(0, off + q))
  {
    var ms, c := [m], Cursor(0, off);
    var p, len, d, rest := LinePut(keys, ms, c, mtu, world, n, true);
    OnePieceTight(keys, ms, c, mtu, SealAt(world, n));
    r := RecordOf(ms, p, len);
    assert rest == Shut(true, d);
    assert Gathered(ms, rest) == Filled(true, [], d);
  }

  lemma {:induction false} PacketsFrom(keys: Keys, m: Outgoing, mtu: nat, world: World, off: nat, n: nat)
    requires Smooth(keys, m, mtu, world) && n <= off && (off < |m.body| || off == 0)
    ensures var run := Follow(CourseFrom(keys, [m], mtu, world, Cursor(0, off), n), world, n);
            && Pieced(|run.packets|, Largest(keys, m, mtu), |m.body| - off)
            && run.lost == [] && run.end == Cursor(1, 0)
    decreases |m.body| - off
  {
    var q := Largest(keys, m, mtu);
    var f, rest := PacketAhead(keys, m, mtu, world, off, n);
    TakenAhead(Cursor(0, off), f, rest, world, n);
    if |m.body| - off > q {
      PacketsFrom(keys, m, mtu, world, off + q, n + 1);
      PiecedNext(|Follow(rest, world, n + 1).packets|, q, |m.body| - off);
    }
  }

  lemma PacketAhead(keys: Keys, m: Outgoing, mtu: nat, world: World, off: nat, n: nat)
    returns (f: Filled, rest: Course)
    requires Smooth(keys, m, mtu, world) && n <= off && (off < |m.body| || off == 0)
    ensures CourseFrom(keys, [m], mtu, world, Cursor(0, off), n) == Ahead(Cursor(0, off), f, rest) && f.ok
    ensures var q := Largest(keys, m, mtu);
            if |m.body| - off <= q then rest == Over(Cursor(1, 0))
            else rest == CourseFrom(keys, [m], mtu, world, Cursor(0, off + q), n + 1)
  {
    var r := FirstPiece(keys, m, mtu, world, off, n);
    f := Fill(keys, [m], Cursor(0, off), mtu, world, n, true);
    FillGoesOn(keys, [m], Cursor(0, off), mtu, world, n);
    rest := CourseFrom(keys, [m], mtu, world, f.end, n + |f.packet|);
  }

  lemma TakenAhead(c: Cursor, f: Filled, rest: Course, world: World, n: nat)
    requires f.ok && Takes(world, n)
    ensures var run, after := Follow(Ahead(c, f, rest), world, n), Follow(rest, world, n + 1);
            |run.packets| == 1 + |after.packets| && run.lost == after.lost && run.end == after.end
  {
  }

  /** A message of n bytes alone in its flight takes as few packets as its pieces can be large: n divided
      by the largest piece, rounded up, and one packet if it is empty. */
  lemma PacketsOfMessage(keys: Keys, m: Outgoing, mtu: nat, world: World)
    requires Smooth(keys, m, mtu, world)
    ensures var run := SendAll(keys, [m], mtu, world, START);
            && Pieced(|run.packets|, Largest(keys, m, mtu), |m.body|)
            && run.lost == [] && run.end == Cursor(1, 0)
  {
    PacketsFrom(keys, m, mtu, world, 0, 0);
  }
}
