/** Reference counts: the compare-and-swap version as interleaved steps, the locked version as its
    specification.

    A thread calling an operation first loads the counter and then repeats weak compare-and-swaps,
    each of which may fail for no reason.  Every load or failed swap is followed by tests of the
    value just read; they touch no shared memory and belong to the same step. */
module Refcount {

  const MAX: nat := 0xffff_ffff

  datatype Op = Inc | Dec

  // ---- the locked version ----

  datatype Effect = Abort | Effect(count: nat, ret: bool)

  function Locked(op: Op, count: nat): Effect {
    match op
    case Inc => Effect(if count < MAX then count + 1 else count, false)
    case Dec =>
      if count == 0 then Abort
      else
        var c := if count < MAX then count - 1 else count;
        Effect(c, c == 0)
  }

  class LockedCount {
    var count: nat

    method Increment()
      modifies this
      ensures Locked(Inc, old(count)) == Effect(count, false)
    {
      if count < MAX {
        count := count + 1;
      }
    }

    method DecAndTestZero() returns (result: Effect)
      modifies this
      ensures result == Locked(Dec, old(count))
      ensures count == if result.Abort? then old(count) else result.count
    {
      if count == 0 {
        return Abort;
      }
      if count < MAX {
        count := count - 1;
      }
      return Effect(count, count == 0);
    }
  }

  // ---- the compare-and-swap version ----

  datatype Pc = Idle | Called(op: Op) | Looping(op: Op, expected: nat) | Aborted

  /** `held` counts the references the thread may use; nothing in the steps depends on it. */
  datatype Thread = Thread(pc: Pc, held: int)

  datatype Return = Return(thread: nat, op: Op, ret: bool)

  datatype State = State(count: nat, threads: seq<Thread>, log: seq<Return>)

  datatype Event =
    | Call(thread: nat, op: Op)
    | Load(thread: nat)
    | Swap(thread: nat, spurious: bool)
    | Give(thread: nat, to: nat)

  function Finish(s: State, t: nat, op: Op, count: nat, ret: bool): State
    requires t < |s.threads|
  {
    var held := s.threads[t].held + if op.Inc? then 1 else 0;
    State(count, s.threads[t := Thread(Idle, held)], s.log + [Return(t, op, ret)])
  }

  /** The tests after a load or a failed swap has put the current count into `expected`. */
  function Examine(s: State, t: nat, op: Op): State
    requires t < |s.threads|
  {
    var e := s.count;
    if e == MAX then Finish(s, t, op, s.count, false)
    else if op.Dec? && e == 0 then s.(threads := s.threads[t := s.threads[t].(pc := Aborted)])
    else s.(threads := s.threads[t := s.threads[t].(pc := Looping(op, e))])
  }

  function Step(s: State, e: Event): State {
    if e.thread >= |s.threads| then s
    else
      var t := e.thread;
      var th := s.threads[t];
      match e
      case Call(_, op) =>
        if !th.pc.Idle? then s
        else s.(threads := s.threads[t := Thread(Called(op), th.held - if op.Dec? then 1 else 0)])
      case Load(_) =>
        if !th.pc.Called? then s else Examine(s, t, th.pc.op)
      case Swap(_, spurious) =>
        if !th.pc.Looping? then s
        else if s.count != th.pc.expected || spurious then Examine(s, t, th.pc.op)
        else if th.pc.op.Inc? then Finish(s, t, Inc, th.pc.expected + 1, false)
        else
          var c: int := th.pc.expected - 1;
          if c < 0 then s else Finish(s, t, Dec, c, c == 0)
      case Give(_, u) =>
        if !th.pc.Idle? || u >= |s.threads| || u == t then s
        else s.(threads := s.threads[t := th.(held := th.held - 1)][u := s.threads[u].(held := s.threads[u].held + 1)])
  }

  /** n threads; the first one created the object and holds the only reference. */
  function Init(n: nat): State {
    State(1, seq(n, i => Thread(Idle, if i == 0 then 1 else 0)), [])
  }

  function RunOf(n: nat, events: seq<Event>): State {
    if events == [] then Init(n)
    else Step(RunOf(n, events[..|events| - 1]), events[|events| - 1])
  }

  // ---- refinement ----

  /** What a client of the locked version can see: the count, who waits for which operation, and the
      operations completed so far with their results. */
  datatype Abstract = Abstract(count: nat, threads: seq<Thread>, log: seq<Return>)

  datatype AbstractEvent = Stutter | Outside(event: Event) | CriticalSection(thread: nat)

  function AbstractPc(pc: Pc): Pc {
    if pc.Looping? then Called(pc.op) else pc
  }

  function View(s: State): Abstract {
    Abstract(s.count,
             seq(|s.threads|, i requires 0 <= i < |s.threads| => s.threads[i].(pc := AbstractPc(s.threads[i].pc))),
             s.log)
  }

  /** A critical section performs a whole operation on the count at once. */
  function AbstractStep(a: Abstract, e: AbstractEvent): Abstract {
    match e
    case Stutter => a
    case Outside(o) => if o.Call? || o.Give? then View(Step(State(a.count, a.threads, a.log), o)) else a
    case CriticalSection(t) =>
      if t >= |a.threads| || !a.threads[t].pc.Called? then a
      else
        var th := a.threads[t];
        match Locked(th.pc.op, a.count)
        case Abort => a.(threads := a.threads[t := th.(pc := Aborted)])
        case Effect(c, ret) =>
          Abstract(c, a.threads[t := Thread(Idle, th.held + if th.pc.op.Inc? then 1 else 0)],
                   a.log + [Return(t, th.pc.op, ret)])
  }

  function AbstractRun(n: nat, events: seq<AbstractEvent>): Abstract {
    if events == [] then View(Init(n))
    else AbstractStep(AbstractRun(n, events[..|events| - 1]), events[|events| - 1])
  }

  /** Which abstract event a step amounts to: swaps and loads that do not finish are invisible. */
  function Linearized(s: State, e: Event): AbstractEvent {
    if e.Call? || e.Give? then Outside(e)
    else if View(Step(s, e)) == View(s) then Stutter
    else CriticalSection(e.thread)
  }

  function Linearization(n: nat, events: seq<Event>): seq<AbstractEvent> {
    if events == [] then []
    else
      var k := |events| - 1;
      Linearization(n, events[..k]) + [Linearized(RunOf(n, events[..k]), events[k])]
  }

  ghost predicate Sane(s: State) {
    && s.count <= MAX
    && forall i :: 0 <= i < |s.threads| && s.threads[i].pc.Looping? ==>
         s.threads[i].pc.expected < MAX && (s.threads[i].pc.op.Dec? ==> 0 < s.threads[i].pc.expected)
  }

  lemma StepSane(s: State, e: Event)
    requires Sane(s)
    ensures Sane(Step(s, e))
  {
  }

  lemma StepRefines(s: State, e: Event)
    requires Sane(s)
    ensures Sane(Step(s, e))
    ensures View(Step(s, e)) == AbstractStep(View(s), Linearized(s, e))
  {
    StepSane(s, e);
    if e.Call? || e.Give? {
      OutsideRefines(s, e);
    } else {
      InsideRefines(s, e);
    }
  }

  lemma OutsideRefines(s: State, e: Event)
    requires e.Call? || e.Give?
    ensures View(Step(s, e)) == AbstractStep(View(s), Outside(e))
  {
    var a := View(s);
    if e.thread < |s.threads| {
      assert a.threads[e.thread] == s.threads[e.thread].(pc := AbstractPc(s.threads[e.thread].pc));
      assert View(Step(s, e)).threads == View(Step(State(a.count, a.threads, a.log), e)).threads;
    } else {
      assert View(State(a.count, a.threads, a.log)).threads == a.threads;
    }
  }

  /** A load or a swap is a critical section, or it changes nothing that can be seen. */
  lemma InsideRefines(s: State, e: Event)
    requires Sane(s) && !e.Call? && !e.Give?
    ensures View(Step(s, e)) == View(s) || View(Step(s, e)) == AbstractStep(View(s), CriticalSection(e.thread))
  {
    var s', a := Step(s, e), View(s);
    if e.thread < |s.threads| {
      assert a.threads[e.thread] == s.threads[e.thread].(pc := AbstractPc(s.threads[e.thread].pc));
      var b := AbstractStep(a, CriticalSection(e.thread));
      assert View(s').threads == a.threads || View(s').threads == b.threads;
    }
  }

  /** Every interleaving of loads and swaps is some sequence of critical sections, with the same
      results and the same count. */
  lemma {:induction false} Refinement(n: nat, events: seq<Event>)
    ensures Sane(RunOf(n, events))
    ensures AbstractRun(n, Linearization(n, events)) == View(RunOf(n, events))
  {
    if events != [] {
      var k := |events| - 1;
      Refinement(n, events[..k]);
      StepRefines(RunOf(n, events[..k]), events[k]);
      var l := Linearization(n, events);
      assert l[..|l| - 1] == Linearization(n, events[..k]);
    }
  }

  // ---- references ----

  /** A thread uses a reference only while it holds one. */
  predicate Holds(s: State, e: Event) {
    (e.Call? || e.Give?) && e.thread < |s.threads| && s.threads[e.thread].pc.Idle? ==>
      s.threads[e.thread].held >= 1
  }

  ghost predicate Disciplined(n: nat, events: seq<Event>) {
    forall k :: 0 <= k < |events| ==> Holds(RunOf(n, events[..k]), events[k])
  }

  predicate Releasing(th: Thread) {
    (th.pc.Called? || th.pc.Looping?) && th.pc.op.Dec?
  }

  /** The references a thread accounts for: those it holds and the one it is giving up. */
  function Tokens(th: Thread): int {
    th.held + if Releasing(th) then 1 else 0
  }

  function Total(threads: seq<Thread>): int {
    if threads == [] then 0 else Tokens(threads[0]) + Total(threads[1..])
  }

  lemma {:induction false} TotalUpdate(threads: seq<Thread>, t: nat, th: Thread)
    requires t < |threads|
    ensures Total(threads[t := th]) == Total(threads) - Tokens(threads[t]) + Tokens(th)
  {
    if t == 0 {
      assert threads[0 := th][1..] == threads[1..];
    } else {
      TotalUpdate(threads[1..], t - 1, th);
      assert threads[t := th][1..] == threads[1..][t - 1 := th];
    }
  }

  lemma {:induction false} TotalAtLeast(threads: seq<Thread>, t: nat)
    requires t < |threads| && forall i :: 0 <= i < |threads| ==> threads[i].held >= 0
    ensures Total(threads) >= Tokens(threads[t]) && Total(threads) >= 0
    decreases |threads|
  {
    if t > 0 {
      TotalAtLeast(threads[1..], t - 1);
    } else if |threads| > 1 {
      TotalAtLeast(threads[1..], 0);
    }
  }

  lemma {:induction false} TotalInit(n: nat, k: nat)
    requires k <= n && n >= 1
    ensures Total(Init(n).threads[k..]) == if k == 0 then 1 else 0
    decreases n - k
  {
    if k < n {
      TotalInit(n, k + 1);
      assert Init(n).threads[k..][1..] == Init(n).threads[k + 1..];
    }
  }

  function Wins(log: seq<Return>): nat {
    if log == [] then 0 else Wins(log[..|log| - 1]) + if log[|log| - 1].ret then 1 else 0
  }

  ghost predicate Inv(s: State) {
    && Sane(s)
    && (forall i :: 0 <= i < |s.threads| ==>
          && s.threads[i].held >= 0
          && !s.threads[i].pc.Aborted?
          && (!s.threads[i].pc.Idle? && !Releasing(s.threads[i]) ==> s.threads[i].held >= 1))
    && (s.count < MAX ==> s.count == Total(s.threads))
    && Wins(s.log) == if s.count == 0 then 1 else 0
  }

  lemma StepInv(s: State, e: Event)
    requires Inv(s) && Holds(s, e)
    ensures Inv(Step(s, e))
  {
    if e.Give? {
      GiveInv(s, e);
    } else {
      OwnStepInv(s, e);
    }
  }

  lemma OwnStepInv(s: State, e: Event)
    requires Inv(s) && Holds(s, e) && !e.Give?
    ensures Inv(Step(s, e))
  {
    StepRefines(s, e);
    if e.thread < |s.threads| {
      var s', t := Step(s, e), e.thread;
      TotalAtLeast(s.threads, t);
      TotalUpdate(s.threads, t, s'.threads[t]);
      assert s'.threads == s.threads[t := s'.threads[t]];
      assert s'.log != s.log ==> s'.log[..|s'.log| - 1] == s.log;
    }
  }

  lemma GiveInv(s: State, e: Event)
    requires Inv(s) && Holds(s, e) && e.Give?
    ensures Inv(Step(s, e))
  {
    StepRefines(s, e);
    var s' := Step(s, e);
    if s' != s {
      var t := e.thread;
      TotalAtLeast(s.threads, t);
      TotalUpdate(s.threads, t, s'.threads[t]);
      TotalUpdate(s.threads[t := s'.threads[t]], e.to, s'.threads[e.to]);
    }
  }

  lemma {:induction false} RunInv(n: nat, events: seq<Event>)
    requires n >= 1 && Disciplined(n, events)
    ensures Inv(RunOf(n, events))
  {
    if events == [] {
      TotalInit(n, 0);
      assert Init(n).threads[0..] == Init(n).threads;
    } else {
      var k := |events| - 1;
      forall j | 0 <= j < k
        ensures Holds(RunOf(n, events[..k][..j]), events[..k][j])
      {
        assert events[..k][..j] == events[..j];
      }
      RunInv(n, events[..k]);
      StepInv(RunOf(n, events[..k]), events[k]);
    }
  }

  /** No disciplined run aborts, and at most one release reports the end of the object. */
  lemma {:induction false} NeverAborts(n: nat, events: seq<Event>, t: nat)
    requires n >= 1 && Disciplined(n, events) && t < |RunOf(n, events).threads|
    ensures !RunOf(n, events).threads[t].pc.Aborted?
    ensures Wins(RunOf(n, events).log) <= 1
  {
    RunInv(n, events);
  }

  /** While the count is not saturated, a completed release reports the end of the object exactly
      when no reference is left anywhere. */
  lemma {:induction false} LastReleaseReportsZero(n: nat, events: seq<Event>, e: Event)
    requires n >= 1 && Disciplined(n, events) && Holds(RunOf(n, events), e)
    ensures var s, s' := RunOf(n, events), Step(RunOf(n, events), e);
            |s'.log| > |s.log| && s'.log[|s.log|].op.Dec? && s'.count < MAX ==>
              (s'.log[|s.log|].ret <==> Total(s'.threads) == 0)
  {
    RunInv(n, events);
    StepInv(RunOf(n, events), e);
  }

  /** A saturated count never changes and no release of it reports zero, whatever the callers do. */
  lemma {:induction false} SaturationIsForever(s: State, events: seq<Event>)
    requires s.count == MAX && Sane(s)
    ensures var s' := StepsFrom(s, events);
            s'.count == MAX && Sane(s') && Wins(s'.log) == Wins(s.log)
    decreases |events|
  {
    if events != [] {
      var s' := Step(s, events[0]);
      StepRefines(s, events[0]);
      assert s'.log != s.log ==> s'.log[..|s'.log| - 1] == s.log;
      SaturationIsForever(s', events[1..]);
    }
  }

  function StepsFrom(s: State, events: seq<Event>): State
    decreases |events|
  {
    if events == [] then s else StepsFrom(Step(s, events[0]), events[1..])
  }
}
