/** Receiving handshake messages: a ring of messages being reassembled, delivered in sequence order
    (section 4.2.2 of RFC 6347).

    `Ring` and the functions on it are the specification, `HandshakeReader` the object that implements it. */
module Receiver {
  import opened Basics
  import opened Words
  import opened Fragments
  import opened Reassembly

  datatype Ring = Ring(readSeq: nat, slots: seq<Option<Slot>>, epoch: nat, hasMessage: bool, hasCcs: bool)

  function EmptyRing(): Ring {
    Ring(0, seq(MAX_FLIGHT, _ => None), 0, false, false)
  }

  datatype Alert = DecodeError | IllegalParameter | UnexpectedMessage | InternalError

  datatype Verdict = Ok | Error(alert: Alert)

  predicate RingOk(r: Ring) {
    && |r.slots| == MAX_FLIGHT && r.readSeq < MAX_U16
    && forall i :: 0 <= i < MAX_FLIGHT && r.slots[i].Some? ==> SlotOk(r.readSeq, i, r.slots[i].value)
  }

  /** The slot belongs at index i of a ring whose window starts at readSeq. */
  predicate SlotOk(readSeq: nat, i: nat, s: Slot) {
    && s.seqNo % MAX_FLIGHT == i && readSeq <= s.seqNo < readSeq + MAX_FLIGHT
    && s.seqNo < MAX_U16 && s.msgLen < MAX_U24
    && |s.raw| == HEADER_LENGTH + s.msgLen
    && (s.progress.Pending? ==> |s.progress.got| == s.msgLen && s.msgLen > 0)
  }

  /** Finds the slot for a fragment or makes one. */
  function Lookup(r: Ring, h: Header): (Ring, Verdict)
    requires RingOk(r) && Encodable(h)
  {
    if h.seqNo < r.readSeq || h.seqNo - r.readSeq >= MAX_FLIGHT then (r, Error(InternalError))
    else
      var i := h.seqNo % MAX_FLIGHT;
      if r.slots[i].None? then (r.(slots := r.slots[i := Some(NewSlot(h))]), Ok)
      else if r.slots[i].value.typ != h.typ || r.slots[i].value.msgLen != h.msgLen then (r, Error(IllegalParameter))
      else (r, Ok)
  }

  /** One fragment.  Fragments of delivered messages and of messages beyond the ring are ignored,
      except that the very next number beyond the ring is an error. */
  function Receive(r: Ring, h: Header, body: seq<Byte>, maxLen: nat): (Ring, Verdict)
    requires RingOk(r) && Encodable(h) && |body| == h.len
  {
    if h.off > h.msgLen || h.off + h.len > h.msgLen || h.msgLen > maxLen then (r, Error(IllegalParameter))
    else if r.epoch == 1 && h.seqNo != r.readSeq then (r, Error(UnexpectedMessage))
    else if h.seqNo < r.readSeq || h.seqNo > r.readSeq + MAX_FLIGHT then (r, Ok)
    else
      var (r', v) := Lookup(r, h);
      if v.Error? then (r', v)
      else
        LookupOk(r, h);
        var i := h.seqNo % MAX_FLIGHT;
        (r'.(slots := r'.slots[i := Some(Stored(r'.slots[i].value, h, body))]), Ok)
  }

  /** In a ring that is in order the slot found has the number that was asked for. */
  lemma LookupOk(r: Ring, h: Header)
    requires RingOk(r) && Encodable(h) && Lookup(r, h).1.Ok?
    ensures var r' := Lookup(r, h).0;
            && RingOk(r') && r'.slots[h.seqNo % MAX_FLIGHT].Some?
            && var s := r'.slots[h.seqNo % MAX_FLIGHT].value;
               s.seqNo == h.seqNo && s.typ == h.typ && s.msgLen == h.msgLen
  {
  }

  lemma ReceiveOk(r: Ring, h: Header, body: seq<Byte>, maxLen: nat)
    requires RingOk(r) && Encodable(h) && |body| == h.len
    ensures RingOk(Receive(r, h, body, maxLen).0)
  {
    var r' := Receive(r, h, body, maxLen).0;
    if Lookup(r, h).1.Ok? {
      LookupOk(r, h);
    }
  }

  /** The fragments of a record one after another, up to the first error. */
  function ReceiveRecord(r: Ring, record: seq<Byte>, maxLen: nat): (Ring, Verdict)
    requires RingOk(r)
    decreases |record|
  {
    if record == [] then (r, Ok)
    else match Parse(record)
      case None => (r, Error(DecodeError))
      case Some(p) =>
        SerializeParse(record);
        var (r', v) := Receive(r, p.header, p.body, maxLen);
        ReceiveOk(r, p.header, p.body, maxLen);
        if v.Error? then (r', v) else ReceiveRecord(r', p.rest, maxLen)
  }

  lemma {:induction false} ReceiveRecordOk(r: Ring, record: seq<Byte>, maxLen: nat)
    requires RingOk(r)
    ensures var r' := ReceiveRecord(r, record, maxLen).0;
            RingOk(r') && r'.readSeq == r.readSeq && r'.epoch == r.epoch && r'.hasMessage == r.hasMessage
    ensures ReceiveRecord(r, record, maxLen).0.hasCcs == r.hasCcs
    decreases |record|
  {
    if record != [] && Parse(record).Some? {
      var p := Parse(record).value;
      SerializeParse(record);
      ReceiveOk(r, p.header, p.body, maxLen);
      ReceiveRecordOk(Receive(r, p.header, p.body, maxLen).0, p.rest, maxLen);
    }
  }

  datatype Content = ApplicationData | ChangeCipherSpec | Handshake | OtherContent

  datatype Outcome = Success | Discard | Failure(alert: Alert)

  /** A decrypted record, by its content type.  Only handshake records may come under both kinds of
      keys: ChangeCipherSpec is never encrypted and application data always is. */
  function OpenRecord(r: Ring, content: Content, encrypted: bool, record: seq<Byte>, maxLen: nat): (Ring, Outcome)
    requires RingOk(r)
  {
    match content
    case ApplicationData => (r, if encrypted then Discard else Failure(UnexpectedMessage))
    case ChangeCipherSpec =>
      if encrypted then (r, Failure(UnexpectedMessage))
      else if record != [1] then (r, Failure(IllegalParameter))
      else (r.(hasCcs := true), Success)
    case Handshake =>
      var (r', v) := ReceiveRecord(r, record, maxLen);
      (r', if v.Ok? then Success else Failure(v.alert))
    case OtherContent => (r, Failure(UnexpectedMessage))
  }

  /** Whatever arrives, the ring stays in order and nothing already delivered is touched. */
  lemma OpenRecordOk(r: Ring, content: Content, encrypted: bool, record: seq<Byte>, maxLen: nat)
    requires RingOk(r)
    ensures var r' := OpenRecord(r, content, encrypted, record, maxLen).0;
            && RingOk(r') && r'.readSeq == r.readSeq && r'.epoch == r.epoch && r'.hasMessage == r.hasMessage
            && (r'.hasCcs != r.hasCcs ==> content.ChangeCipherSpec? && !encrypted)
  {
    ReceiveRecordOk(r, record, maxLen);
  }

  /** Waiting for a ChangeCipherSpec. */
  function TakeChange(r: Ring, content: Content, encrypted: bool, record: seq<Byte>, maxLen: nat): (Ring, Outcome)
    requires RingOk(r)
  {
    var (r', outcome) := if r.hasCcs then (r, Success) else OpenRecord(r, content, encrypted, record, maxLen);
    if !outcome.Success? then (r', outcome)
    else if r'.hasCcs then (r'.(hasCcs := false), Success)
    else (r', Discard)
  }

  /** A ChangeCipherSpec that came early is kept, whatever is waited for then, and serves one wait for it; the
      next wait is not over before another one came. */
  lemma ChangeServesOnce(r: Ring, content: Content, encrypted: bool, record: seq<Byte>, maxLen: nat)
    requires RingOk(r)
    ensures var kept := OpenRecord(r, ChangeCipherSpec, false, [1], maxLen).0;
            TakeChange(kept, content, encrypted, record, maxLen) == (r.(hasCcs := false), Success)
    ensures !r.hasCcs && (!content.ChangeCipherSpec? || encrypted || record != [1]) ==>
              !TakeChange(r, content, encrypted, record, maxLen).1.Success?
  {
    OpenRecordOk(r, content, encrypted, record, maxLen);
  }

  predicate CurrentComplete(r: Ring)
    requires RingOk(r)
  {
    var s := r.slots[r.readSeq % MAX_FLIGHT];
    s.Some? && s.value.progress.Complete?
  }

  function Current(r: Ring): Slot
    requires RingOk(r) && CurrentComplete(r)
  {
    r.slots[r.readSeq % MAX_FLIGHT].value
  }

  function NextMessage(r: Ring): Ring
    requires RingOk(r)
  {
    r.(slots := r.slots[r.readSeq % MAX_FLIGHT := None], readSeq := (r.readSeq + 1) % MAX_U16, hasMessage := false)
  }

  /** The ring stays in order even where the 16-bit sequence number wraps to zero: nothing can be
      waiting then. */
  lemma NextMessageOk(r: Ring)
    requires RingOk(r)
    ensures RingOk(NextMessage(r))
  {
    var r' := NextMessage(r);
    forall i | 0 <= i < MAX_FLIGHT && r'.slots[i].Some? ensures SlotOk(r'.readSeq, i, r'.slots[i].value) {
      assert r'.slots[i] == r.slots[i];
      assert SlotOk(r.readSeq, i, r.slots[i].value);
    }
  }

  /** Whether anything is left over apart from the message being looked at. */
  predicate HasUnprocessed(r: Ring)
    requires |r.slots| == MAX_FLIGHT
  {
    r.hasCcs || exists i :: 0 <= i < MAX_FLIGHT && !(r.hasMessage && i == r.readSeq % MAX_FLIGHT) && r.slots[i].Some?
  }

  // ---- the object ----

  class HandshakeReader {
    var readSeq: nat
    const incoming: array<HmFragment?>
    var epoch: nat
    var hasMessage: bool
    var hasCcs: bool
    ghost var Repr: set<object>

    ghost predicate Shape()
      reads this, Repr
    {
      && this in Repr && incoming in Repr && incoming.Length == MAX_FLIGHT
      && (forall i :: 0 <= i < MAX_FLIGHT && incoming[i] != null ==>
            && incoming[i] in Repr && incoming[i].Footprint() <= Repr
            && this !in incoming[i].Footprint() && incoming !in incoming[i].Footprint()
            && incoming[i].Valid())
      && forall i, j :: 0 <= i < j < MAX_FLIGHT && incoming[i] != null && incoming[j] != null ==>
           incoming[i].Footprint() !! incoming[j].Footprint()
    }

    ghost function SlotAt(i: nat): Option<Slot>
      requires Shape() && i < MAX_FLIGHT
      reads this, Repr
    {
      if incoming[i] == null then None else Some(incoming[i].View())
    }

    ghost function View(): Ring
      requires Shape()
      reads this, Repr
    {
      Ring(readSeq, seq(MAX_FLIGHT, i requires 0 <= i < MAX_FLIGHT && Shape() reads this, Repr => SlotAt(i)),
           epoch, hasMessage, hasCcs)
    }

    ghost predicate Valid()
      reads this, Repr
    {
      Shape() && RingOk(View())
    }

    constructor ()
      ensures Valid() && fresh(Repr) && View() == EmptyRing()
    {
      readSeq, epoch, hasMessage, hasCcs := 0, 0, false, false;
      incoming := new HmFragment?[MAX_FLIGHT](_ => null);
      Repr := {this, incoming};
    }

    method GetIncoming(h: Header) returns (frag: HmFragment?, verdict: Verdict)
      requires Valid() && Encodable(h)
      modifies this`Repr, incoming
      ensures Valid() && fresh(Repr - old(Repr)) && (View(), verdict) == Lookup(old(View()), h)
      ensures verdict.Ok? ==> frag != null && frag == incoming[h.seqNo % MAX_FLIGHT]
    {
      if h.seqNo < readSeq || h.seqNo - readSeq >= MAX_FLIGHT {
        return null, Error(InternalError);
      }
      frag := incoming[h.seqNo % MAX_FLIGHT];
      if frag != null {
        assert View().slots[h.seqNo % MAX_FLIGHT] == Some(frag.View());
        if frag.typ != h.typ || frag.msgLen != h.msgLen {
          return frag, Error(IllegalParameter);
        }
        return frag, Ok;
      }
      ghost var was := View();
      assert was.slots[h.seqNo % MAX_FLIGHT] == SlotAt(h.seqNo % MAX_FLIGHT);
      LookupOk(was, h);
      frag := AddSlot(h);
      return frag, Ok;
    }

    /** The first fragment of a message makes its slot. */
    method AddSlot(h: Header) returns (frag: HmFragment)
      requires Shape() && Encodable(h) && incoming[h.seqNo % MAX_FLIGHT] == null
      modifies this`Repr, incoming
      ensures Shape() && fresh(Repr - old(Repr)) && frag == incoming[h.seqNo % MAX_FLIGHT]
      ensures View().slots == old(View()).slots[h.seqNo % MAX_FLIGHT := Some(NewSlot(h))]
      ensures View() == old(View()).(slots := View().slots)
    {
      ghost var was := View();
      frag := new HmFragment(h);
      assert Repr !! frag.Footprint();
      incoming[h.seqNo % MAX_FLIGHT] := frag;
      Repr := Repr + frag.Footprint();
      assert Shape();
      assert View().slots == was.slots[h.seqNo % MAX_FLIGHT := Some(NewSlot(h))];
    }

    method ReceiveFragment(h: Header, body: seq<Byte>, maxLen: nat) returns (verdict: Verdict)
      requires Valid() && Encodable(h) && |body| == h.len
      modifies Repr
      ensures Valid() && fresh(Repr - old(Repr)) && (View(), verdict) == Receive(old(View()), h, body, maxLen)
    {
      ghost var was := View();
      ReceiveOk(was, h, body, maxLen);
      if h.off > h.msgLen || h.off + h.len > h.msgLen || h.msgLen > maxLen {
        return Error(IllegalParameter);
      }
      if epoch == 1 && h.seqNo != readSeq {
        return Error(UnexpectedMessage);
      }
      if h.seqNo < readSeq || h.seqNo > readSeq + MAX_FLIGHT {
        return Ok;
      }
      var frag, v := GetIncoming(h);
      if v.Error? {
        return v;
      }
      LookupOk(was, h);
      Store(frag, h, body);
      return Ok;
    }

    /** Stores a fragment in its message; no other message is touched. */
    method Store(frag: HmFragment, h: Header, body: seq<Byte>)
      requires Shape() && frag == incoming[h.seqNo % MAX_FLIGHT]
      requires h.off + |body| <= frag.msgLen
      modifies frag.Footprint()
      ensures Shape() && Repr == old(Repr)
      ensures View().slots == old(View()).slots[h.seqNo % MAX_FLIGHT := Some(Stored(old(frag.View()), h, body))]
      ensures View() == old(View()).(slots := View().slots)
    {
      ghost var was, i := View(), h.seqNo % MAX_FLIGHT;
      assert forall j :: 0 <= j < MAX_FLIGHT && j != i && incoming[j] != null ==>
                           incoming[j].Footprint() !! frag.Footprint();
      frag.Store(h, body);
      assert View().slots == was.slots[i := Some(frag.View())];
    }

    /** The fragment loop over a decrypted handshake record. */
    method ReadFragments(record: seq<Byte>, maxLen: nat) returns (verdict: Verdict)
      requires Valid()
      modifies Repr
      ensures Valid() && fresh(Repr - old(Repr)) && (View(), verdict) == ReceiveRecord(old(View()), record, maxLen)
    {
      var rest := record;
      while |rest| > 0
        invariant Valid() && fresh(Repr - old(Repr))
        invariant ReceiveRecord(View(), rest, maxLen) == ReceiveRecord(old(View()), record, maxLen)
        decreases |rest|
      {
        var parsed := Parse(rest);
        if parsed.None? {
          return Error(DecodeError);
        }
        SerializeParse(rest);
        var p := parsed.value;
        var v := ReceiveFragment(p.header, p.body, maxLen);
        if v.Error? {
          return v;
        }
        rest := p.rest;
      }
      return Ok;
    }

    /** What is done with a decrypted record of any content type. */
    method OpenHandshake(content: Content, encrypted: bool, record: seq<Byte>, maxLen: nat) returns (outcome: Outcome)
      requires Valid()
      modifies Repr
      ensures Valid() && fresh(Repr - old(Repr))
      ensures (View(), outcome) == OpenRecord(old(View()), content, encrypted, record, maxLen)
    {
      ghost var was := View();
      match content
      case ApplicationData =>
        return if encrypted then Discard else Failure(UnexpectedMessage);
      case ChangeCipherSpec =>
        if encrypted {
          return Failure(UnexpectedMessage);
        }
        if |record| != 1 || record[0] != 1 {
          return Failure(IllegalParameter);
        }
        FlagChange();
        return Success;
      case OtherContent =>
        return Failure(UnexpectedMessage);
      case Handshake =>
        var v := ReadFragments(record, maxLen);
        return if v.Ok? then Success else Failure(v.alert);
    }

    method FlagChange()
      requires Valid()
      modifies this`hasCcs
      ensures Valid() && Repr == old(Repr) && View() == old(View()).(hasCcs := true)
    {
      ghost var was := View();
      hasCcs := true;
      assert View().slots == was.slots;
    }

    /** The flag of a ChangeCipherSpec is used up; without one the record is opened first. */
    method OpenChangeCipherSpec(content: Content, encrypted: bool, record: seq<Byte>, maxLen: nat)
      returns (outcome: Outcome)
      requires Valid()
      modifies Repr
      ensures Valid() && fresh(Repr - old(Repr))
      ensures (View(), outcome) == TakeChange(old(View()), content, encrypted, record, maxLen)
    {
      if !hasCcs {
        outcome := OpenHandshake(content, encrypted, record, maxLen);
        if !outcome.Success? {
          return;
        }
      }
      if hasCcs {
        ghost var was := View();
        hasCcs := false;
        assert View().slots == was.slots;
        return Success;
      }
      return Discard;
    }

    /** The current message, once complete; looking does not consume it. */
    method GetMessage() returns (message: Option<Slot>)
      requires Valid()
      modifies this`hasMessage
      ensures Valid()
      ensures message == if CurrentComplete(old(View())) then Some(Current(old(View()))) else None
      ensures View() == old(View()).(hasMessage := old(View()).hasMessage || CurrentComplete(old(View())))
    {
      ghost var was := View();
      var frag := incoming[readSeq % MAX_FLIGHT];
      assert was.slots[readSeq % MAX_FLIGHT] == SlotAt(readSeq % MAX_FLIGHT);
      if frag == null || frag.reassembly != null {
        return None;
      }
      hasMessage := true;
      assert View().slots == was.slots;
      return Some(Slot(frag.typ, frag.seqNo, frag.msgLen, frag.data[..], Complete));
    }

    method Next()
      requires Valid() && hasMessage && CurrentComplete(View())
      modifies this, incoming
      ensures Valid() && Repr == old(Repr) && View() == NextMessage(old(View()))
    {
      ghost var was := View();
      NextMessageOk(was);
      incoming[readSeq % MAX_FLIGHT] := null;
      readSeq := (readSeq + 1) % MAX_U16;
      hasMessage := false;
      assert View().slots == NextMessage(was).slots;
    }

    method HasUnprocessedData() returns (b: bool)
      requires Valid()
      ensures b <==> HasUnprocessed(View())
    {
      ghost var r := View();
      if hasCcs {
        return true;
      }
      var current := readSeq % MAX_FLIGHT;
      for i := 0 to MAX_FLIGHT
        invariant forall j :: 0 <= j < i && !(hasMessage && j == current) ==> r.slots[j].None?
      {
        assert r.slots[i] == SlotAt(i);
        if hasMessage && i == current {
          continue;
        }
        if incoming[i] != null {
          return true;
        }
      }
      return false;
    }

    /** A key change is refused while messages of the old epoch are left over. */
    method SetReadState() returns (ok: bool)
      requires Valid()
      modifies this`epoch
      ensures Valid() && ok == !HasUnprocessed(old(View()))
      ensures View() == if ok then old(View()).(epoch := (old(View()).epoch + 1) % MAX_U16) else old(View())
    {
      var left := HasUnprocessedData();
      if left {
        return false;
      }
      ghost var was := View();
      epoch := (epoch + 1) % MAX_U16;
      assert View().slots == was.slots;
      return true;
    }
  }
}
