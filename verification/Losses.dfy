/** What a refused seal costs.  A failure in the middle of a packet leaves the cursor behind the records
    that were sealed into it, although they were never sent.

    `Plan` is how the flight is cut if no seal is refused.  It tells beforehand which refusals lose
    records: those of a record that does not open its packet, if the transport takes the packets
    before. */
module Losses {
  import opened Basics
  import opened Words
  import opened Fragments
  import opened Flight
  import opened Sending

  /** The number of the first record whose seal is refused. */
  function FirstRefused(seals: seq<Seal>): (k: nat)
    ensures k <= |seals| && (k < |seals| ==> seals[k].Refused?)
    ensures forall i :: 0 <= i < k ==> seals[i].Sealed?
  {
    if seals == [] || seals[0].Refused? then 0 else 1 + FirstRefused(seals[1..])
  }

  /** The same outside, except that no seal is refused for a while. */
  function Willing(world: World, more: nat): World {
    world.(seals := seq(|world.seals| + more, i requires i >= 0 =>
                          if i < |world.seals| && world.seals[i].Sealed? then world.seals[i] else Sealed(0)))
  }

  /** How the flight is cut if no seal is refused. */
  function Plan(keys: Keys, ms: seq<Outgoing>, mtu: nat, world: World, c: Cursor): Course
    requires CursorOk(ms, c) && AllWellFormed(ms)
  {
    CourseFrom(keys, ms, mtu, Willing(world, Left(ms, c)), c, 0)
  }

  /** Record k, which is refused, belongs into the j-th planned packet and does not open it; or it comes
      later, and the keys run out inside that packet.  Record n opens packet 0. */
  predicate Spoilt(plan: Course, n: nat, k: nat, j: nat)
    decreases plan
  {
    match plan
    case Over(_) => false
    case Ahead(_, f, rest) =>
      if j > 0 then f.ok && Spoilt(rest, n + |f.packet|, k, j - 1)
      else if k < n + |f.packet| then n < k
      else !f.ok && f.packet != []
  }

  predicate AllTakenUpTo(world: World, sent: nat, j: nat) {
    forall i :: sent <= i < sent + j ==> Takes(world, i)
  }

  /** The same, packet by packet. */
  predicate Costs(plan: Course, world: World, n: nat, sent: nat, k: nat)
    decreases plan
  {
    match plan
    case Over(_) => false
    case Ahead(_, f, rest) =>
      if k < n + |f.packet| then n < k
      else if !f.ok then f.packet != []
      else Takes(world, sent) && Costs(rest, world, n + |f.packet|, sent + 1, k)
  }

  lemma {:induction false} CostsMeansSpoilt(plan: Course, world: World, n: nat, sent: nat, k: nat) returns (j: nat)
    requires Costs(plan, world, n, sent, k)
    ensures Spoilt(plan, n, k, j) && AllTakenUpTo(world, sent, j)
    decreases plan
  {
    if k < n + |plan.f.packet| || !plan.f.ok {
      j := 0;
    } else {
      var i := CostsMeansSpoilt(plan.rest, world, n + |plan.f.packet|, sent + 1, k);
      j := i + 1;
    }
  }

  /** Record k is in no packet before the one it spoils. */
  ghost predicate Later(plan: Course, n: nat, k: nat, j: nat)
    decreases plan
  {
    j > 0 && plan.Ahead? ==> k >= n + |plan.f.packet| && Later(plan.rest, n + |plan.f.packet|, k, j - 1)
  }

  lemma {:induction false} SpoiltIsLater(plan: Course, n: nat, k: nat, j: nat)
    requires Spoilt(plan, n, k, j)
    ensures k > n && Later(plan, n, k, j)
    decreases plan
  {
    if j > 0 {
      SpoiltIsLater(plan.rest, n + |plan.f.packet|, k, j - 1);
    }
  }

  lemma {:induction false} SpoiltMeansCosts(plan: Course, world: World, n: nat, sent: nat, k: nat, j: nat)
    requires Spoilt(plan, n, k, j) && AllTakenUpTo(world, sent, j)
    ensures Costs(plan, world, n, sent, k)
    decreases plan
  {
    SpoiltIsLater(plan, n, k, j);
    if j > 0 {
      assert Takes(world, sent);
      SpoiltMeansCosts(plan.rest, world, n + |plan.f.packet|, sent + 1, k, j - 1);
    }
  }

  // ---- plan and run compared ----

  /** Up to record k both worlds seal alike; then the one refuses, and the other does not for `more` records. */
  predicate AlikeUpTo(world: World, willing: World, n: nat, k: nat, more: nat) {
    && n <= k && SealAt(world, k).Refused?
    && (forall i :: n <= i < k ==> SealAt(world, i) == SealAt(willing, i))
    && forall i :: n <= i < n + more ==> SealAt(willing, i).Sealed?
  }

  /** The packet is cut off in front of its record number m. */
  predicate CutOff(line: Line, planned: Line, m: nat)
    decreases planned
  {
    if m == 0 then line.Shut? && !line.ok
    else
      && line.Put? && planned.Put? && line.p == planned.p && line.wireLen == planned.wireLen
      && CutOff(line.rest, planned.rest, m - 1)
  }

  lemma {:induction false} CutOffLen(ms: seq<Outgoing>, line: Line, planned: Line, m: nat)
    requires CutOff(line, planned, m)
    ensures !Gathered(ms, line).ok && |Gathered(ms, line).packet| == m
    decreases planned
  {
    if m > 0 { CutOffLen(ms, line.rest, planned.rest, m - 1); }
  }

  /** Where the refusal comes in time the packet is cut off; otherwise it is the planned one. */
  predicate Agree(line: Line, planned: Line, n: nat, k: nat)
    requires n <= k
  {
    if k < n + Len(planned) then CutOff(line, planned, k - n) else line == planned
  }

  lemma PutAgrees(p: Piece, len: nat, line: Line, planned: Line, n: nat, k: nat)
    requires n < k && Agree(line, planned, n + 1, k)
    ensures Agree(Put(p, len, line), Put(p, len, planned), n, k)
  {
  }

  lemma {:induction false} LinesAgree(keys: Keys, ms: seq<Outgoing>, c: Cursor, room: nat, n: nat, first: bool,
                                      world: World, willing: World, k: nat)
    requires CursorOk(ms, c) && AllWellFormed(ms) && AlikeUpTo(world, willing, n, k, Left(ms, c))
    ensures Agree(LineFrom(keys, ms, c, room, world, n, first), LineFrom(keys, ms, c, room, willing, n, first), n, k)
    decreases Left(ms, c)
  {
    if !Ready(keys, ms, c, room) {
      NotReady(keys, ms, c, room, world, n, first);
      NotReady(keys, ms, c, room, willing, n, first);
    } else {
      assert SealAt(willing, n).Sealed?;
      var p, len, d, planned := LinePut(keys, ms, c, room, willing, n, first);
      if n == k {
        assert LineFrom(keys, ms, c, room, world, n, first) == Shut(false, c);
      } else {
        var p', len', d', line := LinePut(keys, ms, c, room, world, n, first);
        if d.offset == 0 {
          LinesAgree(keys, ms, d, room - len, n + 1, false, world, willing, k);
        }
        PutAgrees(p, len, line, planned, n, k);
      }
    }
  }

  /** The run follows the plan up to the packet record k is in. */
  ghost predicate AsPlanned(course: Course, plan: Course, n: nat, k: nat)
    decreases plan
  {
    match plan
    case Over(_) => course == plan
    case Ahead(c, f, rest) =>
      && course.Ahead? && n <= k
      && if k < n + |f.packet| then !course.f.ok && |course.f.packet| == k - n
         else course.f == f && (f.ok ==> AsPlanned(course.rest, rest, n + |f.packet|, k))
  }

  lemma FillsAgree(keys: Keys, ms: seq<Outgoing>, c: Cursor, room: nat, n: nat, world: World, willing: World, k: nat)
    requires CursorOk(ms, c) && AllWellFormed(ms) && AlikeUpTo(world, willing, n, k, Left(ms, c))
    ensures var f, p := Fill(keys, ms, c, room, world, n, true), Fill(keys, ms, c, room, willing, n, true);
            if k < n + |p.packet| then !f.ok && |f.packet| == k - n else f == p
  {
    var line, planned := LineFrom(keys, ms, c, room, world, n, true), LineFrom(keys, ms, c, room, willing, n, true);
    LinesAgree(keys, ms, c, room, n, true, world, willing, k);
    GatheredLen(ms, planned);
    if k < n + Len(planned) {
      CutOffLen(ms, line, planned, k - n);
    }
  }

  lemma AheadAsPlanned(keys: Keys, ms: seq<Outgoing>, mtu: nat, c: Cursor, n: nat, world: World, willing: World,
                       k: nat, f: Filled, rest: Course, p: Filled, planned: Course)
    requires CursorOk(ms, c) && AllWellFormed(ms) && AlikeUpTo(world, willing, n, k, Left(ms, c))
    requires f == Fill(keys, ms, c, mtu, world, n, true) && p == Fill(keys, ms, c, mtu, willing, n, true)
    requires f == p && p.ok && k >= n + |p.packet| ==> AsPlanned(rest, planned, n + |p.packet|, k)
    ensures AsPlanned(Ahead(c, f, rest), Ahead(c, p, planned), n, k)
  {
    FillsAgree(keys, ms, c, mtu, n, world, willing, k);
  }

  lemma AlikeLater(world: World, willing: World, n: nat, k: nat, more: nat, m: nat, left: nat)
    requires AlikeUpTo(world, willing, n, k, more) && n <= m <= k && m + left <= n + more
    ensures AlikeUpTo(world, willing, m, k, left)
  {
  }

  lemma {:induction false} CoursesAgree(keys: Keys, ms: seq<Outgoing>, mtu: nat, c: Cursor, n: nat, world: World,
                                        willing: World, k: nat, course: Course, plan: Course)
    requires CursorOk(ms, c) && AllWellFormed(ms) && AlikeUpTo(world, willing, n, k, Left(ms, c))
    requires IsCourse(keys, ms, mtu, world, c, n, course) && IsCourse(keys, ms, mtu, willing, c, n, plan)
    ensures AsPlanned(course, plan, n, k)
    decreases plan
  {
    if plan.Ahead? {
      var f, p := course.f, plan.f;
      FillGoesOn(keys, ms, c, mtu, willing, n);
      if f == p && p.ok && k >= n + |p.packet| {
        AlikeLater(world, willing, n, k, Left(ms, c), n + |p.packet|, Left(ms, p.end));
        CoursesAgree(keys, ms, mtu, p.end, n + |p.packet|, world, willing, k, course.rest, plan.rest);
      }
      AheadAsPlanned(keys, ms, mtu, c, n, world, willing, k, f, course.rest, p, plan.rest);
    }
  }

  /** What a run loses is what the plan says. */
  lemma {:induction false} LostAsPlanned(course: Course, plan: Course, n: nat, k: nat, world: World, sent: nat)
    requires AsPlanned(course, plan, n, k)
    ensures Follow(course, world, sent).lost != [] <==> Costs(plan, world, n, sent, k)
    decreases plan
  {
    if plan.Ahead? && plan.f.ok && k >= n + |plan.f.packet| {
      LostAsPlanned(course.rest, plan.rest, n + |plan.f.packet|, k, world, sent + 1);
    }
  }

  lemma PlanTells(keys: Keys, ms: seq<Outgoing>, mtu: nat, world: World, c: Cursor)
    requires CursorOk(ms, c) && AllWellFormed(ms)
    ensures SendAll(keys, ms, mtu, world, c).lost != [] <==>
            !world.shutdown && Costs(Plan(keys, ms, mtu, world, c), world, 0, 0, FirstRefused(world.seals))
  {
    var k, willing := FirstRefused(world.seals), Willing(world, Left(ms, c));
    WillingIsAlike(world, Left(ms, c));
    var course, plan := CourseFrom(keys, ms, mtu, world, c, 0), Plan(keys, ms, mtu, world, c);
    CourseIsCourse(keys, ms, mtu, world, c, 0, course);
    CourseIsCourse(keys, ms, mtu, willing, c, 0, plan);
    CoursesAgree(keys, ms, mtu, c, 0, world, willing, k, course, plan);
    LostAsPlanned(course, plan, 0, k, world, 0);
  }

  lemma WillingIsAlike(world: World, more: nat)
    ensures AlikeUpTo(world, Willing(world, more), 0, FirstRefused(world.seals), more)
  {
  }

  /** A run loses records exactly when the first refused seal belongs into a packet that another record
      opens, as the flight is cut without refusals, and all packets before that one are taken; or when
      the keys run out inside a packet, likewise. */
  lemma LostExactly(keys: Keys, ms: seq<Outgoing>, mtu: nat, world: World, c: Cursor)
    requires CursorOk(ms, c) && AllWellFormed(ms)
    ensures SendAll(keys, ms, mtu, world, c).lost != [] <==>
            && !world.shutdown
            && exists j :: Spoilt(Plan(keys, ms, mtu, world, c), 0, FirstRefused(world.seals), j) &&
                           AllTakenUpTo(world, 0, j)
  {
    var k, plan := FirstRefused(world.seals), Plan(keys, ms, mtu, world, c);
    PlanTells(keys, ms, mtu, world, c);
    if Costs(plan, world, 0, 0, k) {
      var j := CostsMeansSpoilt(plan, world, 0, 0, k);
      assert Spoilt(plan, 0, k, j) && AllTakenUpTo(world, 0, j);
    }
    forall j | Spoilt(plan, 0, k, j) && AllTakenUpTo(world, 0, j) ensures Costs(plan, world, 0, 0, k) {
      SpoiltMeansCosts(plan, world, 0, 0, k, j);
    }
  }

  /** What a caller can see beforehand: if every message's keys are at hand and no seal is refused, for as
      many records as there are messages and bytes to send, nothing is lost. */
  lemma NothingLost(keys: Keys, ms: seq<Outgoing>, mtu: nat, world: World, c: Cursor)
    requires CursorOk(ms, c) && AllWellFormed(ms) && FirstRefused(world.seals) >= Left(ms, c)
    requires forall i :: c.written <= i < |ms| ==> Known(keys, ms[i].epoch)
    ensures SendAll(keys, ms, mtu, world, c).lost == []
  {
    var k, willing := FirstRefused(world.seals), Willing(world, Left(ms, c));
    WillingIsAlike(world, Left(ms, c));
    PlanTells(keys, ms, mtu, world, c);
    CourseLinked(keys, ms, mtu, willing, c, 0, Plan(keys, ms, mtu, world, c));
    CourseReasoned(keys, ms, mtu, willing, c, 0, Plan(keys, ms, mtu, world, c));
    NoCost(keys, ms, mtu, willing, c, 0, Plan(keys, ms, mtu, world, c), world, 0, k);
  }

  lemma {:induction false} NoCost(keys: Keys, ms: seq<Outgoing>, mtu: nat, willing: World, c: Cursor, n: nat,
                                  plan: Course, world: World, sent: nat, k: nat)
    requires Linked(ms, mtu, c, plan) && Reasoned(keys, ms, mtu, willing, n, plan) && k >= n + Left(ms, c)
    requires forall i :: n <= i < n + Left(ms, c) ==> SealAt(willing, i).Sealed?
    requires forall i :: c.written <= i < |ms| ==> Known(keys, ms[i].epoch)
    ensures !Costs(plan, world, n, sent, k)
    decreases plan
  {
    if plan.Ahead? {
      var f := plan.f;
      PacketFits(ms, mtu, c, f);
      if f.ok {
        NoCost(keys, ms, mtu, willing, f.end, n + |f.packet|, plan.rest, world, sent + 1, k);
      }
    }
  }

  /** A packet takes up no more than what is left, and what is left after it is less by as much. */
  lemma PacketFits(ms: seq<Outgoing>, mtu: nat, c: Cursor, f: Filled)
    requires CursorOk(ms, c) && Packed(ms, c, mtu, f)
    ensures CursorOk(ms, f.end) && |f.packet| + Left(ms, f.end) <= Left(ms, c) && c.written <= f.end.written
  {
    TilesGoOn(ms, c, Pieces(f.packet), f.end);
  }

  lemma OneOnly(ms: seq<Outgoing>, p: Piece, len: nat, ok: bool, d: Cursor)
    ensures Gathered(ms, Put(p, len, Shut(ok, d))) == Filled(ok, [RecordOf(ms, p, len)], d)
  {
    assert Gathered(ms, Shut(ok, d)) == Filled(ok, [], d);
    assert [RecordOf(ms, p, len)] + [] == [RecordOf(ms, p, len)];
  }

  /** Two messages that fit one packet, a transport that takes everything, the seal of the second record
      refused: the first record is lost. */
  lemma SecondRefused(ms: seq<Outgoing>, mtu: nat, keys: Keys)
    requires ms == [Outgoing(1, 0, [7], 0, false), Outgoing(2, 1, [8], 0, false)] && mtu >= 228
    requires keys == Keys(0, Overhead(0, 0), Overhead(0, 0))
    ensures var world := World(false, [Sealed(0), Refused], [true, true], true);
            var lost := [RecordOf(ms, Piece(0, 0, 1), RECORD_HEADER + HEADER_LENGTH + 1)];
            SendAll(keys, ms, mtu, world, START) == Run(Failed, [], lost, [], Cursor(1, 0))
  {
    var world := World(false, [Sealed(0), Refused], [true, true], true);
    var p, len, d, rest := LinePut(keys, ms, START, mtu, world, 0, true);
    assert p == Piece(0, 0, 1) && len == RECORD_HEADER + HEADER_LENGTH + 1 && d == Cursor(1, 0);
    assert rest == Shut(false, d);
    var lost := [RecordOf(ms, p, len)];
    OneOnly(ms, p, len, false, d);
    assert Fill(keys, ms, START, mtu, world, 0, true) == Filled(false, lost, d);
    assert CourseFrom(keys, ms, mtu, world, START, 0) == Ahead(START, Filled(false, lost, d), Over(d));
  }

  /** With one message to a packet the same refusal loses nothing. */
  lemma SecondRefusedAlone(ms: seq<Outgoing>, keys: Keys)
    requires ms == [Outgoing(1, 0, [7], 0, false), Outgoing(2, 1, [8], 0, false)]
    requires keys == Keys(0, Overhead(0, 0), Overhead(0, 0))
    ensures var world := World(false, [Sealed(0), Refused], [true, true], true);
            var first := [RecordOf(ms, Piece(0, 0, 1), RECORD_HEADER + HEADER_LENGTH + 1)];
            SendAll(keys, ms, 26, world, START) == Run(Failed, [first], [], [], Cursor(1, 0))
  {
    var world := World(false, [Sealed(0), Refused], [true, true], true);
    var p, len, d, rest := LinePut(keys, ms, START, 26, world, 0, true);
    assert p == Piece(0, 0, 1) && len == 26 && d == Cursor(1, 0);
    assert rest == Shut(true, d);
    var first := [RecordOf(ms, p, len)];
    OneOnly(ms, p, len, true, d);
    assert Fill(keys, ms, START, 26, world, 0, true) == Filled(true, first, d);
    assert Fill(keys, ms, d, 26, world, 1, true) == Filled(false, [], d);
    var last := Ahead(d, Filled(false, [], d), Over(d));
    assert CourseFrom(keys, ms, 26, world, d, 1) == last;
    assert CourseFrom(keys, ms, 26, world, START, 0) == Ahead(START, Filled(true, first, d), last);
    assert Follow(last, world, 1) == Run(Failed, [], [], [], d);
    assert [first] + [] == [first];
  }
}
