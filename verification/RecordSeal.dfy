/** Sealing DTLS records: the epoch and the 48-bit sequence number in front of every record sent.

    A retransmission may use the previous epoch, whose counter is kept beside the current one.  The
    question is whether two records on the wire can ever carry the same pair. */
module RecordSeal {
  import opened Basics
  import opened Words

  const MAX_CIPHERTEXT := 0x1_0000

  type Counter = s: seq<Byte> | |s| == 6 witness [0, 0, 0, 0, 0, 0]

  const ZERO: Counter := [0, 0, 0, 0, 0, 0]

  /** Adds one to a big-endian counter; the flag is false when it wrapped to zero. */
  function Incremented(s: seq<Byte>): (r: (seq<Byte>, bool))
    ensures |r.0| == |s|
  {
    if s == [] then (s, false)
    else
      var n := |s| - 1;
      if s[n] < 255 then (s[..n] + [s[n] + 1], true)
      else
        var (t, ok) := Incremented(s[..n]);
        (t + [0], ok)
  }

  lemma {:induction false} BigEndianBound(s: seq<Byte>)
    ensures BigEndian(s) < Pow256(|s|)
  {
    if s != [] { BigEndianBound(s[..|s| - 1]); }
  }

  /** The counter is a number modulo 256^n, and the flag reports the wrap. */
  lemma {:induction false} IncrementedValue(s: seq<Byte>)
    ensures Incremented(s).1 <==> BigEndian(s) + 1 < Pow256(|s|)
    ensures BigEndian(Incremented(s).0) == if Incremented(s).1 then BigEndian(s) + 1 else 0
  {
    if s != [] {
      var n := |s| - 1;
      BigEndianBound(s[..n]);
      IncrementedValue(s[..n]);
      assert Incremented(s).0[..n] == if s[n] < 255 then s[..n] else Incremented(s[..n]).0;
    }
  }

  /** The byte loop over `counter[from..from + len]`. */
  method SequenceUpdate(counter: array<Byte>, from: nat, len: nat) returns (ok: bool)
    requires from + len <= counter.Length
    modifies counter
    ensures counter[from..from + len] == Incremented(old(counter[from..from + len])).0
    ensures ok == Incremented(old(counter[from..from + len])).1
    ensures counter[..from] == old(counter[..from])
    ensures counter[from + len..] == old(counter[from + len..])
  {
    ghost var was := counter[from..from + len];
    var i := len;
    Unchanged(was);
    assert counter[from + len..from + len] == [];
    while i > 0
      invariant 0 <= i <= len
      invariant counter[..from] == old(counter[..from])
      invariant counter[from + len..] == old(counter[from + len..])
      invariant counter[from..from + i] == was[..i]
      invariant Incremented(was) == Carried(was, i, counter[from + i..from + len])
    {
      i := i - 1;
      ghost var tail := counter[from + i + 1..from + len];
      CarryOne(was, i, tail);
      assert counter[from + i] == counter[from..from + i + 1][i] == was[i];
      counter[from + i] := if counter[from + i] == 255 then 0 else counter[from + i] + 1;
      assert counter[from + i..from + len] == [counter[from + i]] + tail;
      if counter[from + i] != 0 {
        Halves(counter[..], from, from + i, from + len);
        assert counter[from..from + len] == was[..i] + ([counter[from + i]] + tail);
        return true;
      }
    }
    assert counter[from..from + len] == counter[from + i..from + len];
    return false;
  }

  /** The state of the loop: the increment of the first i bytes is still to do, the rest is done. */
  ghost function Carried(was: seq<Byte>, i: nat, tail: seq<Byte>): (seq<Byte>, bool)
    requires i <= |was|
  {
    (Incremented(was[..i]).0 + tail, Incremented(was[..i]).1)
  }

  lemma Unchanged(was: seq<Byte>)
    ensures Incremented(was) == Carried(was, |was|, [])
  {
    assert was[..|was|] == was;
    assert Incremented(was).0 + [] == Incremented(was).0;
  }

  lemma CarryOne(was: seq<Byte>, i: nat, tail: seq<Byte>)
    requires i < |was|
    ensures Carried(was, i + 1, tail) ==
            if was[i] < 255 then (was[..i] + ([was[i] + 1] + tail), true) else Carried(was, i, [0] + tail)
  {
    var s := was[..i + 1];
    assert s[..i] == was[..i] && s[i] == was[i];
    if was[i] < 255 {
      assert Incremented(s) == (was[..i] + [was[i] + 1], true);
      assert was[..i] + [was[i] + 1] + tail == was[..i] + ([was[i] + 1] + tail);
    } else {
      var (t, ok) := Incremented(was[..i]);
      assert Incremented(s) == (t + [0], ok);
      assert t + [0] + tail == t + ([0] + tail);
    }
  }

  // ---- sealing ----

  datatype Outcome = Refused | Overflow | Sealed(epoch: nat, sequence: Counter)

  datatype Writer = Writer(epoch: nat, current: Counter, last: Counter)

  const START := Writer(0, ZERO, ZERO)

  /** One call of the sealing function.  `fits` stands for the buffer checks, `aeadOk` and
      `cipherLen` for what the AEAD did. */
  datatype SealCall = SealCall(previousEpoch: bool, fits: bool, aeadOk: bool, cipherLen: nat)

  function Seal(w: Writer, c: SealCall): (Writer, Outcome)
    requires c.previousEpoch ==> w.epoch >= 1
  {
    var counter := if c.previousEpoch then w.last else w.current;
    var epoch := if c.previousEpoch then w.epoch - 1 else w.epoch;
    if !c.fits || !c.aeadOk then (w, Refused)
    else
      var (counter', ok) := Incremented(counter);
      var w' := if c.previousEpoch then w.(last := counter') else w.(current := counter');
      (w', if !ok then Overflow else if c.cipherLen >= MAX_CIPHERTEXT then Refused else Sealed(epoch, counter))
  }

  function ChangeKeys(w: Writer): Writer {
    Writer((w.epoch + 1) % EPOCHS, ZERO, w.current)
  }

  class RecordWriter {
    var wEpoch: nat
    const writeSequence: array<Byte>
    const lastWriteSequence: array<Byte>

    ghost predicate Valid()
      reads this
    {
      writeSequence.Length == lastWriteSequence.Length == 8 && writeSequence != lastWriteSequence
    }

    ghost function View(): Writer
      requires Valid()
      reads this, writeSequence, lastWriteSequence
    {
      Writer(wEpoch, writeSequence[2..8], lastWriteSequence[2..8])
    }

    constructor ()
      ensures Valid() && View() == START
      ensures fresh(writeSequence) && fresh(lastWriteSequence)
    {
      wEpoch := 0;
      writeSequence := new Byte[8](_ => 0);
      lastWriteSequence := new Byte[8](_ => 0);
    }

    method SealRecord(c: SealCall) returns (result: Outcome)
      requires Valid()
      requires c.previousEpoch ==> wEpoch >= 1
      modifies writeSequence, lastWriteSequence
      ensures Valid() && (View(), result) == Seal(old(View()), c)
    {
      var epoch, counter := wEpoch, writeSequence;
      if c.previousEpoch {
        epoch, counter := wEpoch - 1, lastWriteSequence;
      }
      if !c.fits {
        return Refused;
      }
      var onTheWire := counter[2..8];
      if !c.aeadOk {
        return Refused;
      }
      var ok := SequenceUpdate(counter, 2, 6);
      if !ok {
        return Overflow;
      }
      if c.cipherLen >= MAX_CIPHERTEXT {
        return Refused;
      }
      return Sealed(epoch, onTheWire);
    }

    method SetWriteState()
      requires Valid()
      modifies this, writeSequence, lastWriteSequence
      ensures Valid() && View() == ChangeKeys(old(View()))
    {
      wEpoch := (wEpoch + 1) % EPOCHS;
      forall i | 0 <= i < 8 {
        lastWriteSequence[i] := writeSequence[i];
      }
      forall i | 0 <= i < 8 {
        writeSequence[i] := 0;
      }
    }
  }

  // ---- runs ----

  datatype Event = Call(call: SealCall) | NewKeys

  /** A sealed record with the number of key changes that made its keys (never wrapped). */
  datatype Sent = Sent(generation: nat, epoch: nat, sequence: Counter)

  datatype Run = Run(writer: Writer, generation: nat, overflowed: bool, log: seq<Sent>)

  /** The previous epoch is only asked for when there is one. */
  predicate Allowed(r: Run, e: Event) {
    e.Call? && e.call.previousEpoch ==> r.writer.epoch >= 1
  }

  function Step(r: Run, e: Event): Run {
    if !Allowed(r, e) then r
    else match e
      case NewKeys => r.(writer := ChangeKeys(r.writer), generation := r.generation + 1)
      case Call(c) =>
        var (w, o) := Seal(r.writer, c);
        var g := if c.previousEpoch then r.generation - 1 else r.generation;
        Run(w, r.generation, r.overflowed || o.Overflow?,
            if o.Sealed? && g >= 0 then r.log + [Sent(g, o.epoch, o.sequence)] else r.log)
  }

  function RunOf(events: seq<Event>): Run {
    if events == [] then Run(START, 0, false, [])
    else Step(RunOf(events[..|events| - 1]), events[|events| - 1])
  }

  ghost predicate Behind(s: Sent, r: Run) {
    && s.generation <= r.generation
    && s.epoch == s.generation % EPOCHS
    && (s.generation == r.generation ==> BigEndian(s.sequence) < BigEndian(r.writer.current))
    && (s.generation + 1 == r.generation ==> BigEndian(s.sequence) < BigEndian(r.writer.last))
  }

  ghost predicate Inv(r: Run) {
    && r.writer.epoch == r.generation % EPOCHS
    && (!r.overflowed ==>
          && (forall i :: 0 <= i < |r.log| ==> Behind(r.log[i], r))
          && forall i, j :: 0 <= i < j < |r.log| ==> r.log[i] != r.log[j])
  }

  lemma KeysInv(r: Run)
    requires Inv(r)
    ensures Inv(Step(r, NewKeys))
  {
    var r' := Step(r, NewKeys);
    ModStep(r.generation, EPOCHS);
    if !r'.overflowed {
      forall i | 0 <= i < |r'.log| ensures Behind(r'.log[i], r') {
        assert Behind(r.log[i], r);
      }
    }
  }

  /** A call moves on one counter, past everything sealed under it. */
  lemma CallInv(r: Run, c: SealCall)
    requires Inv(r) && Allowed(r, Call(c))
    ensures Inv(Step(r, Call(c)))
  {
    var r' := Step(r, Call(c));
    var counter := if c.previousEpoch then r.writer.last else r.writer.current;
    IncrementedValue(counter);
    if c.previousEpoch {
      PreviousGeneration(r.generation);
    }
    if !r'.overflowed {
      forall i | 0 <= i < |r.log|
        ensures Behind(r.log[i], r') && (|r'.log| > |r.log| ==> r.log[i] != r'.log[|r.log|])
      {
        assert Behind(r.log[i], r);
      }
      assert |r'.log| > |r.log| ==> Behind(r'.log[|r.log|], r');
    }
  }

  lemma StepInv(r: Run, e: Event)
    requires Inv(r)
    ensures Inv(Step(r, e))
  {
    if Allowed(r, e) {
      match e
      case NewKeys => KeysInv(r);
      case Call(c) => CallInv(r, c);
    }
  }

  lemma PreviousGeneration(g: nat)
    requires g % EPOCHS >= 1
    ensures g >= 1 && (g - 1) % EPOCHS == g % EPOCHS - 1
  {
    RemainderIs(g - 1, EPOCHS, g / EPOCHS, g % EPOCHS - 1);
  }

  lemma {:induction false} RunInv(events: seq<Event>)
    ensures Inv(RunOf(events))
  {
    if events != [] {
      RunInv(events[..|events| - 1]);
      StepInv(RunOf(events[..|events| - 1]), events[|events| - 1]);
    }
  }

  /** As long as no call has reported a counter overflow and keys changed fewer than 2^16 times, all
      records sealed so far carry different (epoch, sequence) pairs. */
  lemma NoReuse(events: seq<Event>)
    requires !RunOf(events).overflowed && RunOf(events).generation < EPOCHS
    ensures var log := RunOf(events).log;
            forall i, j :: 0 <= i < j < |log| ==> (log[i].epoch, log[i].sequence) != (log[j].epoch, log[j].sequence)
  {
    RunInv(events);
    var r := RunOf(events);
    forall i, j | 0 <= i < j < |r.log|
      ensures (r.log[i].epoch, r.log[i].sequence) != (r.log[j].epoch, r.log[j].sequence)
    {
      assert Behind(r.log[i], r) && Behind(r.log[j], r) && r.log[i] != r.log[j];
      SmallMod(r.log[i].generation, EPOCHS);
      SmallMod(r.log[j].generation, EPOCHS);
    }
  }

  // ---- every number in turn ----

  /** The generation of keys that a call asks for */
  function AskedFor(r: Run, c: SealCall): int {
    if c.previousEpoch then r.generation - 1 else r.generation
  }

  /** The call takes up a number: it is allowed, and the AEAD seals. */
  predicate TakesNumber(r: Run, e: Event, g: int) {
    e.Call? && Allowed(r, e) && e.call.fits && e.call.aeadOk && AskedFor(r, e.call) == g
  }

  /** How many numbers the calls of a run have taken up under the keys of generation g */
  function Used(events: seq<Event>, g: int): nat {
    if events == [] then 0
    else
      var before := events[..|events| - 1];
      Used(before, g) + if TakesNumber(RunOf(before), events[|events| - 1], g) then 1 else 0
  }

  ghost predicate Numbered(r: Run, events: seq<Event>) {
    && BigEndian(r.writer.current) == Used(events, r.generation)
    && (r.generation >= 1 ==> BigEndian(r.writer.last) == Used(events, r.generation - 1))
    && forall g: int :: g > r.generation ==> Used(events, g) == 0
  }

  lemma UsedMore(before: seq<Event>, e: Event, g: int)
    ensures Used(before + [e], g) == Used(before, g) + if TakesNumber(RunOf(before), e, g) then 1 else 0
  {
    var events := before + [e];
    assert events[..|events| - 1] == before && events[|events| - 1] == e;
  }

  lemma CallNumbered(r: Run, c: SealCall)
    requires Inv(r) && Allowed(r, Call(c)) && !Step(r, Call(c)).overflowed
    ensures var r', more := Step(r, Call(c)), if c.fits && c.aeadOk then 1 else 0;
            && AskedFor(r, c) >= 0 && r'.generation == r.generation
            && BigEndian(r'.writer.current) == BigEndian(r.writer.current) + (if c.previousEpoch then 0 else more)
            && BigEndian(r'.writer.last) == BigEndian(r.writer.last) + (if c.previousEpoch then more else 0)
  {
    IncrementedValue(if c.previousEpoch then r.writer.last else r.writer.current);
    if c.previousEpoch { PreviousGeneration(r.generation); }
  }

  lemma KeysNumbered(before: seq<Event>, r: Run)
    requires r == RunOf(before) && Numbered(r, before)
    ensures Numbered(Step(r, NewKeys), before + [NewKeys])
  {
    ZeroIsZero();
    forall g: int ensures Used(before + [NewKeys], g) == Used(before, g) {
      UsedMore(before, NewKeys, g);
    }
  }

  lemma StepNumbered(before: seq<Event>, r: Run, c: SealCall)
    requires r == RunOf(before) && Inv(r) && Numbered(r, before) && !Step(r, Call(c)).overflowed
    ensures Numbered(Step(r, Call(c)), before + [Call(c)])
  {
    UsedMore(before, Call(c), r.generation);
    UsedMore(before, Call(c), r.generation - 1);
    forall g: int | g > r.generation ensures Used(before + [Call(c)], g) == 0 {
      UsedMore(before, Call(c), g);
    }
    if Allowed(r, Call(c)) { CallNumbered(r, c); }
  }

  lemma {:induction false} RunNumbered(events: seq<Event>)
    requires !RunOf(events).overflowed
    ensures Numbered(RunOf(events), events)
  {
    if events == [] {
      ZeroIsZero();
    } else {
      var before, e := events[..|events| - 1], events[|events| - 1];
      RunNumbered(before);
      RunInv(before);
      if e.Call? {
        StepNumbered(before, RunOf(before), e.call);
      } else {
        KeysNumbered(before, RunOf(before));
      }
      assert before + [e] == events;
    }
  }

  lemma SealOutcome(r: Run, c: SealCall)
    requires Inv(r) && Allowed(r, Call(c)) && !Step(r, Call(c)).overflowed
    ensures var g, outcome := AskedFor(r, c), Seal(r.writer, c).1;
            && g >= 0
            && (outcome.Sealed? <==> c.fits && c.aeadOk && c.cipherLen < MAX_CIPHERTEXT)
            && (outcome.Sealed? ==>
                  && outcome.epoch == g % EPOCHS
                  && outcome.sequence == if c.previousEpoch then r.writer.last else r.writer.current)
  {
    if c.previousEpoch { PreviousGeneration(r.generation); }
  }

  /** After any run in which no counter overflowed: a call, for the current keys or for the previous ones,
      seals exactly when there is room and the AEAD does.  The record has the epoch of the keys asked for
      and the next number under them: how many were taken up before, with none left out. */
  lemma SealedExactly(events: seq<Event>, c: SealCall)
    requires Allowed(RunOf(events), Call(c)) && !Step(RunOf(events), Call(c)).overflowed
    ensures var g, outcome := AskedFor(RunOf(events), c), Seal(RunOf(events).writer, c).1;
            && g >= 0
            && (outcome.Sealed? <==> c.fits && c.aeadOk && c.cipherLen < MAX_CIPHERTEXT)
            && (outcome.Sealed? ==> outcome.epoch == g % EPOCHS && BigEndian(outcome.sequence) == Used(events, g))
  {
    RunNumbered(events);
    RunInv(events);
    SealOutcome(RunOf(events), c);
  }

  // ---- the bounds ----

  /** How often a record was to be sealed. */
  function Calls(events: seq<Event>): nat {
    if events == [] then 0
    else Calls(events[..|events| - 1]) + if events[|events| - 1].Call? then 1 else 0
  }

  lemma CountersStep(r: Run, e: Event, n: nat)
    requires BigEndian(r.writer.current) <= n && BigEndian(r.writer.last) <= n
    ensures var r', m := Step(r, e), if e.Call? then n + 1 else n;
            && BigEndian(r'.writer.current) <= m && BigEndian(r'.writer.last) <= m
            && (m < Pow256(6) ==> r'.overflowed == r.overflowed)
  {
    IncrementedValue(r.writer.current);
    IncrementedValue(r.writer.last);
    ZeroIsZero();
  }

  lemma {:induction false} CountersBelow(events: seq<Event>)
    ensures var r := RunOf(events);
            && BigEndian(r.writer.current) <= Calls(events) && BigEndian(r.writer.last) <= Calls(events)
            && (Calls(events) < Pow256(6) ==> !r.overflowed)
  {
    if events == [] {
      ZeroIsZero();
    } else {
      CountersBelow(events[..|events| - 1]);
      CountersStep(RunOf(events[..|events| - 1]), events[|events| - 1], Calls(events[..|events| - 1]));
    }
  }

  /** What a caller can count beforehand: fewer than 2^48 calls, whatever their results, and fewer than
      2^16 key changes never put the same pair on two records. */
  lemma NoReuseWithinBounds(events: seq<Event>)
    requires Calls(events) < Pow256(6) && RunOf(events).generation < EPOCHS
    ensures var r := RunOf(events);
            && !r.overflowed
            && forall i, j :: 0 <= i < j < |r.log| ==>
                 (r.log[i].epoch, r.log[i].sequence) != (r.log[j].epoch, r.log[j].sequence)
  {
    CountersBelow(events);
    NoReuse(events);
  }

  const PLAIN_SEAL := Call(SealCall(false, true, true, 1))

  function Repeat(e: Event, n: nat): seq<Event> {
    seq(n, _ => e)
  }

  lemma RepeatLast(e: Event, n: nat)
    requires n > 0
    ensures Repeat(e, n)[..n - 1] == Repeat(e, n - 1) && Repeat(e, n)[n - 1] == e
  {
  }

  lemma {:induction false} ManySeals(n: nat)
    requires n < Pow256(6)
    ensures var r := RunOf(Repeat(PLAIN_SEAL, n));
            && r.generation == 0 && !r.overflowed && r.writer.epoch == 0
            && BigEndian(r.writer.current) == n && |r.log| == n
            && (n > 0 ==> r.log[0] == Sent(0, 0, ZERO))
  {
    if n > 0 {
      RepeatLast(PLAIN_SEAL, n);
      ManySeals(n - 1);
      IncrementedValue(RunOf(Repeat(PLAIN_SEAL, n - 1)).writer.current);
    } else {
      ZeroIsZero();
    }
  }

  lemma ZeroIsZero()
    ensures BigEndian(ZERO) == 0
  {
    AllZero(6);
    assert ZERO == seq(6, _ => 0);
  }

  lemma {:induction false} AllZero(n: nat)
    ensures BigEndian(seq(n, _ => 0)) == 0
  {
    if n > 0 {
      assert seq(n, _ => 0)[..n - 1] == seq(n - 1, _ => 0);
      AllZero(n - 1);
    }
  }

  /** Sealing at the end of the counter reports the overflow, and the counter is zero again. */
  lemma SealOverflows(r: Run)
    requires BigEndian(r.writer.current) == Pow256(6) - 1 && r.writer.epoch == 0
    ensures Step(r, PLAIN_SEAL) == r.(writer := r.writer.(current := ZERO), overflowed := true)
  {
    IncrementedValue(r.writer.current);
    ZeroIsZero();
    BigEndianInjective(Incremented(r.writer.current).0, ZERO);
  }

  lemma SealFromZero(r: Run)
    requires r.writer.current == ZERO
    ensures var r' := Step(r, PLAIN_SEAL);
            && r'.log == r.log + [Sent(r.generation, r.writer.epoch, ZERO)]
            && r'.overflowed == r.overflowed && r'.generation == r.generation && r'.writer.epoch == r.writer.epoch
  {
    IncrementedValue(ZERO);
    ZeroIsZero();
    assert Pow256(6) > 1;
  }

  /** One call more than fits, and another one. */
  lemma PastTheEnd(n: nat)
    requires n + 1 == Pow256(6) && n > 0
    ensures var r := RunOf(Repeat(PLAIN_SEAL, n + 2));
            && r.overflowed && |r.log| == n + 1
            && r.log[0] == r.log[n]
  {
    ManySeals(n);
    SealOverflows(RunOf(Repeat(PLAIN_SEAL, n)));
    OneMoreOf(PLAIN_SEAL, n);
    SealFromZero(RunOf(Repeat(PLAIN_SEAL, n + 1)));
    OneMoreOf(PLAIN_SEAL, n + 1);
  }

  /** The bound on the calls is tight: the call that reports the overflow has already set the counter
      back to zero, and the next one succeeds with the pair of the first record. */
  lemma ReuseAfterOverflow()
    ensures var r := RunOf(Repeat(PLAIN_SEAL, Pow256(6) + 1));
            && r.overflowed && |r.log| == Pow256(6)
            && r.log[0] == r.log[|r.log| - 1]
  {
    assert Pow256(6) > 1;
    PastTheEnd(Pow256(6) - 1);
  }

  lemma OneMoreOf(e: Event, n: nat)
    ensures RunOf(Repeat(e, n + 1)) == Step(RunOf(Repeat(e, n)), e)
  {
    RepeatLast(e, n + 1);
  }

  lemma {:induction false} ManyKeyChanges(events: seq<Event>, n: nat)
    requires RunOf(events).generation == 0 && n >= 1
    ensures var r := RunOf(events + Repeat(NewKeys, n));
            && r.writer.epoch == n % EPOCHS && r.writer.current == ZERO && r.generation == n
            && r.log == RunOf(events).log && r.overflowed == RunOf(events).overflowed
  {
    var all := events + Repeat(NewKeys, n);
    RunInv(events);
    assert all[|all| - 1] == NewKeys;
    assert all[..|all| - 1] == events + Repeat(NewKeys, n - 1);
    ModStep(n - 1, EPOCHS);
    if n > 1 {
      ManyKeyChanges(events, n - 1);
    } else {
      assert events + Repeat(NewKeys, 0) == events;
    }
  }

  /** The bound on the key changes is tight too: the 16-bit write epoch comes round, and with no
      overflow anywhere the first pair is used again. */
  lemma ReuseAfterEpochWrap()
    ensures var r := RunOf([PLAIN_SEAL] + Repeat(NewKeys, EPOCHS) + [PLAIN_SEAL]);
            && !r.overflowed && r.generation == EPOCHS
            && r.log == [Sent(0, 0, ZERO), Sent(EPOCHS, 0, ZERO)]
  {
    var first := [PLAIN_SEAL];
    assert first[..0] == [];
    SealFromZero(RunOf([]));
    ManyKeyChanges(first, EPOCHS);
    var most := first + Repeat(NewKeys, EPOCHS);
    var all := most + [PLAIN_SEAL];
    assert all[..|all| - 1] == most && all[|all| - 1] == PLAIN_SEAL;
    SealFromZero(RunOf(most));
  }
}
