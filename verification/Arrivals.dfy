/** What becomes of the sender's records at the receiver: which are refused, that the others never fail,
    and that what arrived can be delivered. */
module Arrivals {
  import opened Basics
  import opened Words
  import opened Fragments
  import opened Reassembly
  import opened Receiver
  import opened Flight
  import opened EndToEnd

  /** What a fragment of the sender's is refused with, if it is: its message is longer than allowed; or it is
      not of the next message although keys are in use; or it is of the message just beyond the ring. */
  function Refusal(r: Ring, f: Fragment, maxLen: nat): Option<Alert> {
    if f.header.msgLen > maxLen then Some(IllegalParameter)
    else if r.epoch == 1 && f.header.seqNo != r.readSeq then Some(UnexpectedMessage)
    else if f.header.seqNo == r.readSeq + MAX_FLIGHT then Some(InternalError)
    else None
  }

  lemma FragmentVerdict(sent: seq<Message>, r: Ring, f: Fragment, maxLen: nat)
    requires SentOk(sent) && |sent| < MAX_U16 && RingInv(r, sent) && Sliced(sent, f)
    ensures Receive(r, f.header, f.body, maxLen).1 ==
            match Refusal(r, f, maxLen) case None => Receiver.Ok case Some(alert) => Error(alert)
  {
    var i := f.header.seqNo % MAX_FLIGHT;
    if r.slots[i].Some? && r.readSeq <= f.header.seqNo < r.readSeq + MAX_FLIGHT {
      assert SlotOk(r.readSeq, i, r.slots[i].value);
      SameNumber(r.readSeq, r.slots[i].value.seqNo, f.header.seqNo);
      assert Faithful(sent, r.slots[i].value);
    }
  }

  /** The outcome of every record that can arrive in any run, however often it was sent and however late: a
      ChangeCipherSpec is welcome until keys are in use, and a fragment is unless it is refused. */
  lemma ArrivalOutcome(events: seq<Event>, k: nat, maxLen: nat)
    requires var s := RunOf(events);
             |s.sent| < MAX_U16 && k < |s.network| && s.network[k].epoch == s.ring.epoch
    ensures var s := RunOf(events);
            var w := s.network[k];
            var outcome := OpenRecord(s.ring, ContentOf(w), s.ring.epoch > 0, w.payload, maxLen).1;
            if w.isCcs then outcome == if s.ring.epoch > 0 then Failure(UnexpectedMessage) else Success
            else
              && FragmentOf(w).Some?
              && outcome == match Refusal(s.ring, FragmentOf(w).value, maxLen)
                            case None => Success
                            case Some(alert) => Failure(alert)
  {
    StepsInv(Init(), events);
    var s := RunOf(events);
    var w := s.network[k];
    assert Genuine(s.sent, w);
    if !w.isCcs {
      GenuineArrives(s, k, maxLen);
      var f := FragmentOf(w).value;
      FragmentVerdict(s.sent, s.ring, f, maxLen);
      ReceiveOk(s.ring, f.header, f.body, maxLen);
      SerializeParse(w.payload);
      assert ReceiveRecord(Receive(s.ring, f.header, f.body, maxLen).0, [], maxLen).1 == Receiver.Ok;
    }
  }

  /** Before keys are in use nothing that was sent is refused, but for the two limits: a retransmission of
      what was delivered changes nothing and is no error. */
  lemma BeforeKeysNothingFails(events: seq<Event>, k: nat, maxLen: nat)
    requires var s := RunOf(events);
             |s.sent| < MAX_U16 && k < |s.network| && s.network[k].epoch == s.ring.epoch == 0
    ensures var s := RunOf(events);
            var w := s.network[k];
            var got := OpenRecord(s.ring, ContentOf(w), false, w.payload, maxLen);
            && (w.isCcs ==> got == (s.ring.(hasCcs := true), Success))
            && (!w.isCcs ==>
                  && FragmentOf(w).Some?
                  && var h := FragmentOf(w).value.header;
                     && (got.1.Success? <==> h.msgLen <= maxLen && h.seqNo != s.ring.readSeq + MAX_FLIGHT)
                     && (h.seqNo < s.ring.readSeq && h.msgLen <= maxLen ==> got == (s.ring, Success)))
  {
    ArrivalOutcome(events, k, maxLen);
    StepsInv(Init(), events);
    var s := RunOf(events);
    assert Genuine(s.sent, s.network[k]);
    if !s.network[k].isCcs {
      GenuineArrives(s, k, maxLen);
      if !Admits(s.ring, FragmentOf(s.network[k]).value, maxLen) {
        NotAdmitted(s.sent, s.ring, FragmentOf(s.network[k]).value, maxLen);
      }
    }
  }

  // ---- several fragments in a record ----

  function Bytes(fs: seq<Fragment>): seq<Byte>
    requires forall f :: f in fs ==> Encodable(f.header)
  {
    if fs == [] then [] else Serialize(fs[0].header) + fs[0].body + Bytes(fs[1..])
  }

  /** Those that are taken in */
  function AdmittedOf(r: Ring, fs: seq<Fragment>, maxLen: nat): seq<Fragment> {
    if fs == [] then []
    else (if Admits(r, fs[0], maxLen) then [fs[0]] else []) + AdmittedOf(r, fs[1..], maxLen)
  }

  /** The system is sound, and its ring holds what the log says. */
  ghost predicate Sound(s: System, log: seq<Fragment>) {
    var all := Inv(s) && Tells(s, log);
    all
  }

  ghost predicate AllWelcome(s: System, fs: seq<Fragment>, maxLen: nat) {
    forall f :: f in fs ==> Sliced(s.sent, f) && Refusal(s.ring, f, maxLen).None?
  }

  lemma SameWindow(s: System, r: Ring, fs: seq<Fragment>, maxLen: nat)
    requires AllWelcome(s, fs, maxLen) && r.readSeq == s.ring.readSeq && r.epoch == s.ring.epoch
    ensures AllWelcome(s.(ring := r), fs, maxLen)
    ensures AdmittedOf(r, fs, maxLen) == AdmittedOf(s.ring, fs, maxLen)
  {
    if fs != [] {
      assert forall f :: f in fs[1..] ==> f in fs;
      SameWindow(s, r, fs[1..], maxLen);
    }
  }

  lemma OneWelcome(s: System, f: Fragment, maxLen: nat, log: seq<Fragment>, r: Ring)
    requires Sound(s, log) && Sliced(s.sent, f) && Refusal(s.ring, f, maxLen).None?
    requires r == Receive(s.ring, f.header, f.body, maxLen).0
    ensures Receive(s.ring, f.header, f.body, maxLen).1 == Receiver.Ok
    ensures Sound(s.(ring := r), log + if Admits(s.ring, f, maxLen) then [f] else [])
    ensures r.readSeq == s.ring.readSeq && r.epoch == s.ring.epoch
  {
    FragmentVerdict(s.sent, s.ring, f, maxLen);
    ReceiveIsFaithful(s.sent, s.ring, f.header, f.body, maxLen);
    if Admits(s.ring, f, maxLen) {
      AdmitTells(s, f, maxLen, log);
    } else {
      NotAdmitted(s.sent, s.ring, f, maxLen);
      assert log + [] == log;
    }
  }

  lemma FirstFragment(r: Ring, f: Fragment, rest: seq<Byte>, maxLen: nat)
    requires RingOk(r) && Encodable(f.header) && |f.body| == f.header.len
    requires Receive(r, f.header, f.body, maxLen).1 == Receiver.Ok
    ensures RingOk(Receive(r, f.header, f.body, maxLen).0)
    ensures ReceiveRecord(r, Serialize(f.header) + f.body + rest, maxLen) ==
            ReceiveRecord(Receive(r, f.header, f.body, maxLen).0, rest, maxLen)
  {
    ParseSerialize(f.header, f.body, rest);
    ReceiveOk(r, f.header, f.body, maxLen);
  }

  /** A record may hold any number of fragments.  None of them hides the others: those of messages already
      delivered, or beyond the ring, are passed over, and all that can be taken in are. */
  lemma {:induction false} ManyFragments(s: System, fs: seq<Fragment>, maxLen: nat, log: seq<Fragment>)
    requires Sound(s, log) && AllWelcome(s, fs, maxLen)
    ensures RingOk(s.ring)
    ensures var (r, v) := ReceiveRecord(s.ring, Bytes(fs), maxLen);
            v == Receiver.Ok && Sound(s.(ring := r), log + AdmittedOf(s.ring, fs, maxLen))
    decreases |fs|
  {
    if fs == [] {
      assert log + [] == log;
    } else {
      var f, rest := fs[0], fs[1..];
      assert f in fs && forall g :: g in rest ==> g in fs;
      var r := Receive(s.ring, f.header, f.body, maxLen).0;
      OneWelcome(s, f, maxLen, log, r);
      FirstFragment(s.ring, f, Bytes(rest), maxLen);
      SameWindow(s, r, rest, maxLen);
      var taken: seq<Fragment> := if Admits(s.ring, f, maxLen) then [f] else [];
      ManyFragments(s.(ring := r), rest, maxLen, log + taken);
      Assoc(log, taken, AdmittedOf(s.ring, rest, maxLen));
    }
  }

  // ---- what is left over ----

  /** After any run something is left over exactly when a ChangeCipherSpec is, or when a fragment was taken in
      of a message that was not delivered and is not being looked at: only then are new keys refused. */
  lemma LeftOverExactly(events: seq<Event>)
    requires |RunOf(events).sent| < MAX_U16
    ensures var s, log := RunOf(events), TakenIn(Init(), events);
            HasUnprocessed(s.ring) <==>
            s.ring.hasCcs ||
            exists f :: f in log && f.header.seqNo >= |s.delivered| &&
                        !(s.ring.hasMessage && f.header.seqNo == |s.delivered|)
  {
    StepsInv(Init(), events);
    ProgressAddsUp(events);
    var s, log := RunOf(events), TakenIn(Init(), events);
    var n := s.ring.readSeq;
    forall f | f in log && f.header.seqNo >= n ensures s.ring.slots[f.header.seqNo % MAX_FLIGHT].Some? {
      OfHas(log, f);
      assert SlotTells(s.ring.slots[f.header.seqNo % MAX_FLIGHT], Of(log, f.header.seqNo));
    }
    if f :| f in log && f.header.seqNo >= n && !(s.ring.hasMessage && f.header.seqNo == n) {
      if f.header.seqNo != n { OtherSlot(n, f.header.seqNo); }
    }
    if i :| 0 <= i < MAX_FLIGHT && !(s.ring.hasMessage && i == n % MAX_FLIGHT) && s.ring.slots[i].Some? {
      var k := s.ring.slots[i].value.seqNo;
      assert SlotOk(n, i, s.ring.slots[i].value);
      assert SlotTells(s.ring.slots[k % MAX_FLIGHT], Of(log, k));
      assert Of(log, k)[0] in log;
    }
  }

  lemma {:induction false} OfHas(fs: seq<Fragment>, f: Fragment)
    requires f in fs
    ensures f in Of(fs, f.header.seqNo)
    decreases |fs|
  {
    if f != fs[|fs| - 1] {
      assert f in fs[..|fs| - 1];
      OfHas(fs[..|fs| - 1], f);
    }
  }

  // ---- what arrives can be delivered ----

  /** Record j of the network is for the next message, and under the keys in use. */
  predicate ForNext(s: System, j: nat) {
    && j < |s.network| && s.network[j].epoch == s.ring.epoch && FragmentOf(s.network[j]).Some?
    && FragmentOf(s.network[j]).value.header.seqNo == s.ring.readSeq
  }

  /** Those among the first n records, one after the other */
  function Arriving(s: System, n: nat, maxLen: nat): seq<Event> {
    if n == 0 then [] else Arriving(s, n - 1, maxLen) + (if ForNext(s, n - 1) then [Arrive(n - 1, maxLen)] else [])
  }

  /** The state after they arrived differs in the ring's slots alone, and the fragments were taken in. */
  ghost predicate Arrived(s: System, n: nat, s': System, log: seq<Fragment>) {
    Sound(s', log) && s' == s.(ring := s.ring.(slots := s'.ring.slots)) && AllLogged(s, n, log)
  }

  ghost predicate AllLogged(s: System, n: nat, log: seq<Fragment>) {
    var all := forall j: nat :: j < n && ForNext(s, j) ==> FragmentOf(s.network[j]).value in log;
    all
  }

  lemma OneMoreLogged(s: System, n: nat, log: seq<Fragment>, f: Fragment)
    requires n > 0 && AllLogged(s, n - 1, log) && ForNext(s, n - 1) && f == FragmentOf(s.network[n - 1]).value
    ensures AllLogged(s, n, log + [f])
  {
    forall j: nat | j < n && ForNext(s, j) ensures FragmentOf(s.network[j]).value in log + [f] {
      if j == n - 1 { assert (log + [f])[|log|] == f; }
    }
  }

  predicate Short(s: System, maxLen: nat) {
    s.ring.readSeq < |s.sent| && |s.sent[s.ring.readSeq].body| <= maxLen
  }

  lemma {:induction false} AllArrive(s: System, n: nat, maxLen: nat, log: seq<Fragment>) returns (log': seq<Fragment>)
    requires Sound(s, log) && Short(s, maxLen)
    ensures Working(s) && Arrived(s, n, Steps(s, Arriving(s, n, maxLen)), log')
  {
    if n == 0 {
      log' := log;
    } else {
      var before := AllArrive(s, n - 1, maxLen, log);
      var t := Steps(s, Arriving(s, n - 1, maxLen));
      if ForNext(s, n - 1) {
        log' := OneArrives(s, n, maxLen, t, before);
        StepsAppend(s, Arriving(s, n - 1, maxLen), [Arrive(n - 1, maxLen)]);
        OneStep(t, Arrive(n - 1, maxLen));
      } else {
        log' := before;
        assert Arriving(s, n, maxLen) == Arriving(s, n - 1, maxLen);
      }
    }
  }

  lemma OneStep(t: System, e: Event)
    requires Working(t)
    ensures Steps(t, [e]) == Step(t, e)
  {
    StepWorks(t, e);
    assert [e][1..] == [];
    assert Steps(Step(t, e), []) == Step(t, e);
  }

  lemma OneArrives(s: System, n: nat, maxLen: nat, t: System, before: seq<Fragment>) returns (log': seq<Fragment>)
    requires n > 0 && ForNext(s, n - 1) && Arrived(s, n - 1, t, before) && Short(s, maxLen)
    ensures Working(t) && Arrived(s, n, Step(t, Arrive(n - 1, maxLen)), log')
  {
    var f := FragmentOf(s.network[n - 1]).value;
    NextArrives(t, n - 1, maxLen, before);
    log' := before + [f];
    OneMoreLogged(s, n, before, f);
  }

  lemma NextArrives(t: System, j: nat, maxLen: nat, log: seq<Fragment>)
    requires Sound(t, log) && ForNext(t, j) && Short(t, maxLen)
    ensures Working(t)
    ensures var t' := Step(t, Arrive(j, maxLen));
            && Sound(t', log + [FragmentOf(t.network[j]).value])
            && t' == t.(ring := t.ring.(slots := t'.ring.slots))
  {
    var f := FragmentOf(t.network[j]).value;
    GenuineArrives(t, j, maxLen);
    AdmitTells(t, f, maxLen, log);
    ArriveInv(t, j, maxLen);
    Admitted(t.sent, t.ring, f, maxLen);
  }

  /** The records for the next message that are on the network cover it. */
  ghost predicate OnTheWay(s: System) {
    && s.ring.readSeq < |s.sent| && (exists j: nat :: ForNext(s, j))
    && forall i: nat :: i < |s.sent[s.ring.readSeq].body| ==> ByteOnTheWay(s, i)
  }

  ghost predicate ByteOnTheWay(s: System, i: nat) {
    exists j: nat :: ForNext(s, j) && Within(FragmentOf(s.network[j]).value, i)
  }

  predicate Within(f: Fragment, i: nat) {
    f.header.off <= i < f.header.off + |f.body|
  }

  /** From any state of any run the next message can be delivered if its records are on the network, whatever
      has arrived before: there is no state in which the receiver is stuck. */
  lemma CanDeliver(events: seq<Event>, maxLen: nat) returns (more: seq<Event>)
    requires |RunOf(events).sent| < MAX_U16 && OnTheWay(RunOf(events)) && Short(RunOf(events), maxLen)
    ensures var s, s' := RunOf(events), RunOf(events + more);
            && |s.delivered| < |s.sent| && SentOk(s.sent) && s'.sent == s.sent
            && s'.delivered == s.delivered + [Raw(s.sent, |s.delivered|)]
  {
    StepsInv(Init(), events);
    ProgressAddsUp(events);
    var s, log := RunOf(events), TakenIn(Init(), events);
    assert Sound(s, log);
    var arriving := Arriving(s, |s.network|, maxLen);
    var log' := AllArrive(s, |s.network|, maxLen, log);
    var t := Steps(s, arriving);
    AllOfIt(s, t, log');
    CoveredIsComplete(t, log');
    Delivers(t, log');
    StepsAppend(s, arriving, [Look, Take]);
    more := arriving + [Look, Take];
    StepsAppend(Init(), events, more);
  }

  lemma Delivers(t: System, log: seq<Fragment>)
    requires Sound(t, log) && RingOk(t.ring) && CurrentComplete(t.ring)
    ensures Working(t) && |t.delivered| < |t.sent| && SentOk(t.sent)
    ensures var t' := Steps(t, [Look, Take]);
            t'.sent == t.sent && t'.delivered == t.delivered + [Raw(t.sent, |t.delivered|)]
  {
    CurrentIsNext(t);
    StepWorks(t, Look);
    var u := Step(t, Look);
    assert [Look, Take][1..] == [Take];
    OneStep(u, Take);
  }

  /** What arrived of the next message is all of it. */
  lemma AllOfIt(s: System, t: System, log: seq<Fragment>)
    requires OnTheWay(s) && Arrived(s, |s.network|, t, log)
    ensures Of(log, s.ring.readSeq) != []
    ensures forall i: nat :: i < |s.sent[s.ring.readSeq].body| ==> CoversByte(Of(log, s.ring.readSeq), i)
  {
    var j: nat :| ForNext(s, j);
    OfHas(log, FragmentOf(s.network[j]).value);
    forall i: nat | i < |s.sent[s.ring.readSeq].body| ensures CoversByte(Of(log, s.ring.readSeq), i) {
      assert ByteOnTheWay(s, i);
      var j: nat :| ForNext(s, j) && Within(FragmentOf(s.network[j]).value, i);
      OfHas(log, FragmentOf(s.network[j]).value);
    }
  }

  lemma CoveredIsComplete(t: System, log: seq<Fragment>)
    requires Sound(t, log) && t.ring.readSeq < |t.sent| && Of(log, t.ring.readSeq) != []
    requires forall i: nat :: i < |t.sent[t.ring.readSeq].body| ==> CoversByte(Of(log, t.ring.readSeq), i)
    ensures RingOk(t.ring) && CurrentComplete(t.ring)
  {
    var k := t.ring.readSeq;
    var fs := Of(log, k);
    assert SlotTells(t.ring.slots[k % MAX_FLIGHT], fs);
    forall f | f in fs ensures Sliced(t.sent, f) && f.header.seqNo == k {
      assert f in log;
    }
    MarkedExactlyWhenCovered(fs, |t.sent[k].body|);
  }
}
