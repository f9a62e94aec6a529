/** The DTLS replay filter (section 4.1.2.6 of RFC 6347): a 64-bit sliding window per read epoch.

    `Window` and `Reader` are the state; `Bitmap` is the object the C code updates in place.  The
    lemmas speak about whole runs of arriving records and key changes. */
module ReplayWindow {
  import opened Basics
  import opened Words

  const WINDOW: nat := 64

  /** The eight bytes in front of every record: two of epoch, six of sequence number. */
  type Sequence = s: seq<Byte> | |s| == 8 witness [0, 0, 0, 0, 0, 0, 0, 0]

  function Epoch(s: Sequence): nat {
    BigEndian(s[..2])
  }

  // ---- the window ----

  datatype Window = Window(bits: nat, max: nat)

  const EMPTY := Window(0, 0)

  predicate ShouldDiscard(w: Window, n: nat) {
    n <= w.max && (w.max - n >= WINDOW || And(w.bits, Shl(1, w.max - n)) != 0)
  }

  function Slide(w: Window, n: nat): Window {
    if n <= w.max then w
    else Window(if n - w.max >= WINDOW then 0 else Trunc(Shl(w.bits, n - w.max), WINDOW), n)
  }

  function Record(w: Window, n: nat): Window {
    var v := Slide(w, n);
    if v.max - n < WINDOW then v.(bits := Or(v.bits, Shl(1, v.max - n))) else v
  }

  /** `w` is exactly the memory of the numbers in `seen`: bit k stands for `max - k`. */
  ghost predicate Remembers(w: Window, seen: iset<nat>) {
    && (forall n :: n in seen ==> n <= w.max)
    && forall k: nat :: k < WINDOW ==> (Bit(w.bits, k) <==> Holds(w.max, seen, k))
  }

  ghost predicate Holds(max: nat, seen: iset<nat>, k: nat) {
    k <= max && max - k in seen
  }

  lemma EmptyRemembersNothing()
    ensures Remembers(EMPTY, iset{})
  {
    forall k: nat ensures !Bit(0, k) { BitOfZero(k); }
  }

  /** Discard is the answer exactly for what was recorded before and what fell out of the window. */
  lemma DiscardMeansSeenOrStale(w: Window, seen: iset<nat>, n: nat)
    requires Remembers(w, seen)
    ensures ShouldDiscard(w, n) <==> n in seen || n + WINDOW <= w.max
  {
    if n <= w.max && w.max - n < WINDOW {
      BitTest(w.bits, w.max - n);
      assert Bit(w.bits, w.max - n) <==> Holds(w.max, seen, w.max - n);
    }
  }

  lemma SlideRemembers(w: Window, seen: iset<nat>, n: nat)
    requires Remembers(w, seen)
    ensures Remembers(Slide(w, n), seen)
  {
    if n > w.max {
      var s := n - w.max;
      forall k: nat | k < WINDOW
        ensures Bit(Slide(w, n).bits, k) <==> Holds(n, seen, k)
      {
        if s >= WINDOW {
          BitOfZero(k);
        } else {
          BitOfTrunc(Shl(w.bits, s), WINDOW, k);
          BitOfShl(w.bits, s, k);
          assert k >= s ==> (Bit(w.bits, k - s) <==> Holds(w.max, seen, k - s));
        }
      }
    }
  }

  /** Recording a number that is not discarded adds that number and nothing else. */
  lemma RecordRemembers(w: Window, seen: iset<nat>, n: nat)
    requires Remembers(w, seen) && !ShouldDiscard(w, n)
    ensures Remembers(Record(w, n), seen + iset{n})
  {
    var v := Slide(w, n);
    SlideRemembers(w, seen, n);
    forall k: nat | k < WINDOW
      ensures Bit(Record(w, n).bits, k) <==> Holds(v.max, seen + iset{n}, k)
    {
      BitOfOr(v.bits, Shl(1, v.max - n), k);
      BitOfOne(v.max - n, k);
    }
  }

  // ---- the object updated in place ----

  class Bitmap {
    var bits: nat
    var maxSeqNum: nat

    ghost function View(): Window
      reads this
    {
      Window(bits, maxSeqNum)
    }

    constructor ()
      ensures View() == EMPTY
    {
      bits, maxSeqNum := 0, 0;
    }

    method ToU64(s: Sequence) returns (r: nat)
      ensures r == BigEndian(s)
    {
      r := 0;
      for i := 0 to 8
        invariant r == BigEndian(s[..i])
      {
        assert s[..i + 1][..i] == s[..i];
        r := r * 256;
        r := r + s[i];
      }
      assert s[..8] == s;
    }

    method Discards(s: Sequence) returns (discard: bool)
      ensures discard <==> ShouldDiscard(View(), BigEndian(s))
    {
      var n := ToU64(s);
      if n > maxSeqNum {
        return false;
      }
      var idx := maxSeqNum - n;
      if idx >= WINDOW {
        return true;
      }
      return And(bits, Shl(1, idx)) != 0;
    }

    method Mark(s: Sequence)
      modifies this
      ensures View() == Record(old(View()), BigEndian(s))
    {
      var n := ToU64(s);
      if n > maxSeqNum {
        var shift := n - maxSeqNum;
        if shift >= WINDOW {
          bits := 0;
        } else {
          bits := Trunc(Shl(bits, shift), WINDOW);
        }
        maxSeqNum := n;
      }
      var idx := maxSeqNum - n;
      if idx < WINDOW {
        bits := Or(bits, Shl(1, idx));
      }
    }
  }

  // ---- opening records ----

  const MAX_PLAIN_LENGTH := 16384

  /** What the network hands over: bytes without a usable record header, or a record with the
      outcome of decrypting it. */
  datatype Arrival =
    | Malformed
    | Arrived(sequence: Sequence, versionOk: bool, opens: bool, plainLen: nat, isAlert: bool)

  datatype Opened = Discarded | TooLong | Alert | Delivered

  datatype Reader = Reader(epoch: nat, window: Window)

  function Open(r: Reader, a: Arrival): (Reader, Opened) {
    if a.Malformed? || !a.versionOk then (r, Discarded)
    else if Epoch(a.sequence) != r.epoch || ShouldDiscard(r.window, BigEndian(a.sequence)) then (r, Discarded)
    else if !a.opens then (r, Discarded)
    else if a.plainLen > MAX_PLAIN_LENGTH then (r, TooLong)
    else (r.(window := Record(r.window, BigEndian(a.sequence))), if a.isAlert then Alert else Delivered)
  }

  function ChangeKeys(r: Reader): Reader {
    Reader((r.epoch + 1) % EPOCHS, EMPTY)
  }

  class RecordReader {
    var rEpoch: nat
    var bitmap: Bitmap

    ghost function View(): Reader
      reads this, bitmap
    {
      Reader(rEpoch, bitmap.View())
    }

    constructor ()
      ensures View() == Reader(0, EMPTY) && fresh(bitmap)
    {
      rEpoch := 0;
      bitmap := new Bitmap();
    }

    method OpenRecord(a: Arrival) returns (result: Opened)
      modifies bitmap
      ensures (View(), result) == Open(old(View()), a)
    {
      if a.Malformed? || !a.versionOk {
        return Discarded;
      }
      var discard := bitmap.Discards(a.sequence);
      if Epoch(a.sequence) != rEpoch || discard {
        return Discarded;
      }
      if !a.opens {
        return Discarded;
      }
      if a.plainLen > MAX_PLAIN_LENGTH {
        return TooLong;
      }
      bitmap.Mark(a.sequence);
      return if a.isAlert then Alert else Delivered;
    }

    method SetReadState()
      modifies this
      ensures fresh(bitmap) && View() == ChangeKeys(old(View()))
    {
      rEpoch := (rEpoch + 1) % EPOCHS;
      bitmap := new Bitmap();
    }
  }

  // ---- runs ----

  datatype Event = Arrive(arrival: Arrival) | NewKeys

  /** An accepted record, tagged with the number of key changes before it (never wrapped). */
  datatype Accepted = Accepted(generation: nat, sequence: Sequence)

  datatype Run = Run(reader: Reader, generation: nat, log: seq<Accepted>)

  function Step(r: Run, e: Event): Run {
    match e
    case NewKeys => Run(ChangeKeys(r.reader), r.generation + 1, r.log)
    case Arrive(a) =>
      var (reader, result) := Open(r.reader, a);
      Run(reader, r.generation,
          if result.Delivered? || result.Alert? then r.log + [Accepted(r.generation, a.sequence)] else r.log)
  }

  function RunOf(events: seq<Event>): Run {
    if events == [] then Run(Reader(0, EMPTY), 0, [])
    else Step(RunOf(events[..|events| - 1]), events[|events| - 1])
  }

  ghost function SeenIn(log: seq<Accepted>, generation: nat): iset<nat> {
    iset i | 0 <= i < |log| && log[i].generation == generation :: BigEndian(log[i].sequence)
  }

  ghost predicate NoDuplicates<T>(s: seq<T>) {
    forall i, j :: 0 <= i < j < |s| ==> s[i] != s[j]
  }

  ghost predicate Inv(r: Run) {
    && r.reader.epoch == r.generation % EPOCHS
    && (forall i :: 0 <= i < |r.log| ==>
          r.log[i].generation <= r.generation && Epoch(r.log[i].sequence) == r.log[i].generation % EPOCHS)
    && Remembers(r.reader.window, SeenIn(r.log, r.generation))
    && Topped(r.reader.window, SeenIn(r.log, r.generation))
    && NoDuplicates(r.log)
  }

  /** The window ends at the largest number in it. */
  ghost predicate Topped(w: Window, seen: iset<nat>) {
    w.max == 0 || w.max in seen
  }

  lemma StepInv(r: Run, e: Event)
    requires Inv(r)
    ensures Inv(Step(r, e))
  {
    var r' := Step(r, e);
    match e
    case NewKeys =>
      assert SeenIn(r.log, r'.generation) == iset{};
      EmptyRemembersNothing();
    case Arrive(a) =>
      if r'.log != r.log {
        var n, seen := BigEndian(a.sequence), SeenIn(r.log, r.generation);
        DiscardMeansSeenOrStale(r.reader.window, seen, n);
        RecordRemembers(r.reader.window, seen, n);
        SeenGrows(r.log, Accepted(r.generation, a.sequence));
      }
  }

  lemma SeenGrows(log: seq<Accepted>, x: Accepted)
    ensures SeenIn(log + [x], x.generation) == SeenIn(log, x.generation) + iset{BigEndian(x.sequence)}
  {
    var log' := log + [x];
    assert log'[|log|] == x;
    forall n | n in SeenIn(log, x.generation)
      ensures n in SeenIn(log', x.generation)
    {
      var i :| 0 <= i < |log| && log[i].generation == x.generation && BigEndian(log[i].sequence) == n;
      assert log'[i] == log[i];
    }
  }

  lemma {:induction false} RunInv(events: seq<Event>)
    ensures Inv(RunOf(events))
  {
    if events == [] {
      assert SeenIn([], 0) == iset{};
      EmptyRemembersNothing();
    } else {
      RunInv(events[..|events| - 1]);
      StepInv(RunOf(events[..|events| - 1]), events[|events| - 1]);
    }
  }

  /** After any run, the window is an exact record of what was accepted under the current keys. */
  lemma WindowIsExact(events: seq<Event>, s: Sequence)
    ensures var r := RunOf(events);
            ShouldDiscard(r.reader.window, BigEndian(s)) <==>
              Accepted(r.generation, s) in r.log ||
              BigEndian(s) + WINDOW <= r.reader.window.max
  {
    var r := RunOf(events);
    RunInv(events);
    DiscardMeansSeenOrStale(r.reader.window, SeenIn(r.log, r.generation), BigEndian(s));
    if BigEndian(s) in SeenIn(r.log, r.generation) {
      var i :| 0 <= i < |r.log| && r.log[i].generation == r.generation && BigEndian(r.log[i].sequence) == BigEndian(s);
      BigEndianInjective(r.log[i].sequence, s);
      assert r.log[i] == Accepted(r.generation, s);
    }
    if Accepted(r.generation, s) in r.log {
      var i :| 0 <= i < |r.log| && r.log[i] == Accepted(r.generation, s);
    }
  }

  /** The record can be opened, and it is under the current keys, new, and less than a window behind every
      record accepted under them. */
  ghost predicate Timely(r: Run, a: Arrival) {
    && a.Arrived? && a.versionOk && a.opens && Epoch(a.sequence) == r.generation % EPOCHS
    && Accepted(r.generation, a.sequence) !in r.log
    && forall i :: 0 <= i < |r.log| && r.log[i].generation == r.generation ==>
         BigEndian(r.log[i].sequence) < BigEndian(a.sequence) + WINDOW
  }

  /** After any run: no record that should be delivered is dropped, and no other is delivered. */
  lemma DeliveredExactly(events: seq<Event>, a: Arrival)
    ensures var r := RunOf(events);
            var result := Open(r.reader, a).1;
            && (result.Discarded? <==> !Timely(r, a))
            && (result.TooLong? <==> Timely(r, a) && a.plainLen > MAX_PLAIN_LENGTH)
            && (result.Alert? <==> Timely(r, a) && a.plainLen <= MAX_PLAIN_LENGTH && a.isAlert)
  {
    RunInv(events);
    if a.Arrived? {
      WindowIsExact(events, a.sequence);
      InsideWindow(RunOf(events), BigEndian(a.sequence));
    }
  }

  lemma InsideWindow(r: Run, n: nat)
    requires Inv(r)
    ensures n + WINDOW > r.reader.window.max <==>
            forall i :: 0 <= i < |r.log| && r.log[i].generation == r.generation ==>
              BigEndian(r.log[i].sequence) < n + WINDOW
  {
    var seen := SeenIn(r.log, r.generation);
    forall i | 0 <= i < |r.log| && r.log[i].generation == r.generation
      ensures BigEndian(r.log[i].sequence) <= r.reader.window.max
    {
      assert BigEndian(r.log[i].sequence) in seen;
    }
  }

  /** With at most 2^16 - 1 key changes, no (epoch, sequence) pair is ever accepted twice. */
  lemma {:induction false} NoReplay(events: seq<Event>)
    requires RunOf(events).generation < EPOCHS
    ensures forall i, j :: 0 <= i < j < |RunOf(events).log| ==>
              RunOf(events).log[i].sequence != RunOf(events).log[j].sequence
  {
    RunInv(events);
    DistinctOnTheWire(RunOf(events));
  }

  lemma DistinctOnTheWire(r: Run)
    requires Inv(r) && r.generation < EPOCHS
    ensures forall i, j :: 0 <= i < j < |r.log| ==> r.log[i].sequence != r.log[j].sequence
  {
    forall i, j | 0 <= i < j < |r.log|
      ensures r.log[i].sequence != r.log[j].sequence
    {
      assert r.log[i] != r.log[j];
      SmallMod(r.log[i].generation, EPOCHS);
      SmallMod(r.log[j].generation, EPOCHS);
    }
  }

  function Repeat(e: Event, n: nat): seq<Event> {
    seq(n, _ => e)
  }

  lemma {:induction false} ManyKeyChanges(events: seq<Event>, n: nat)
    requires RunOf(events).generation == 0 && n >= 1
    ensures RunOf(events + Repeat(NewKeys, n)) == Run(Reader(n % EPOCHS, EMPTY), n, RunOf(events).log)
  {
    var all := events + Repeat(NewKeys, n);
    RunInv(events);
    assert all[|all| - 1] == NewKeys;
    assert all[..|all| - 1] == events + Repeat(NewKeys, n - 1);
    ModStep(n - 1, EPOCHS);
    if n > 1 {
      ManyKeyChanges(events, n - 1);
    } else {
      assert events + Repeat(NewKeys, 0) == events;
    }
  }

  /** The bound is tight: the 16-bit read epoch comes round after 2^16 key changes, and then the
      very first record is accepted again. */
  lemma ReplayAfterEpochWrap(s: Sequence)
    requires Epoch(s) == 0
    ensures var a := Arrive(Arrived(s, true, true, 0, false));
            var r := RunOf([a] + Repeat(NewKeys, EPOCHS) + [a]);
            |r.log| == 2 && r.log[0].sequence == r.log[1].sequence == s
  {
    var a := Arrive(Arrived(s, true, true, 0, false));
    var first := [a];
    assert first[..0] == [];
    EpochZeroIsFresh(s);
    assert RunOf(first) == Step(RunOf([]), a);
    ManyKeyChanges(first, EPOCHS);
    var most := first + Repeat(NewKeys, EPOCHS);
    var all := most + [a];
    assert all[..|all| - 1] == most && all[|all| - 1] == a;
  }

  lemma EpochZeroIsFresh(s: Sequence)
    ensures !ShouldDiscard(EMPTY, BigEndian(s))
  {
    EmptyRemembersNothing();
    DiscardMeansSeenOrStale(EMPTY, iset{}, BigEndian(s));
  }
}
