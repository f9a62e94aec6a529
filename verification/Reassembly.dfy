/** One incoming handshake message put together from fragments (section 4.2.3 of RFC 6347).

    `Slot` is what the receiver knows; `HmFragment` is the object with the body buffer and the
    bitmask that is OR-ed in place and dropped when the message is complete. */
module Reassembly {
  import opened Words
  import opened Fragments

  datatype Progress = Complete | Pending(got: seq<bool>)

  /** `raw` is header and body as one single fragment. */
  datatype Slot = Slot(typ: Byte, seqNo: nat, msgLen: nat, raw: seq<Byte>, progress: Progress)

  function NewSlot(h: Header): Slot
    requires Encodable(h)
  {
    Slot(h.typ, h.seqNo, h.msgLen, Serialize(Whole(h.typ, h.seqNo, h.msgLen)) + seq(h.msgLen, _ => 0),
         if h.msgLen == 0 then Complete else Pending(seq(h.msgLen, _ => false)))
  }

  predicate All(got: seq<bool>) {
    forall i :: 0 <= i < |got| ==> got[i]
  }

  function Covered(got: seq<bool>): Progress {
    if All(got) then Complete else Pending(got)
  }

  function With(got: seq<bool>, start: nat, end: nat): (r: seq<bool>)
    ensures |r| == |got|
  {
    seq(|got|, i requires 0 <= i < |got| => got[i] || start <= i < end)
  }

  /** What marking bytes start..end as received comes to. */
  function Marking(p: Progress, start: nat, end: nat): Progress {
    if p.Complete? || start >= end || end > |p.got| then p else Covered(With(p.got, start, end))
  }

  function Filled(raw: seq<Byte>, off: nat, body: seq<Byte>): seq<Byte>
    requires HEADER_LENGTH + off + |body| <= |raw|
  {
    raw[..HEADER_LENGTH + off] + body + raw[HEADER_LENGTH + off + |body|..]
  }

  /** What storing a fragment of the message comes to. */
  function Stored(s: Slot, h: Header, body: seq<Byte>): Slot
    requires HEADER_LENGTH + h.off + |body| <= |s.raw|
  {
    if s.progress.Complete? then s
    else s.(raw := Filled(s.raw, h.off, body), progress := Marking(s.progress, h.off, h.off + |body|))
  }

  // ---- bits of the mask ----

  predicate IsRange(b: Byte, start: nat, end: nat) {
    forall k: nat :: k < 8 ==> (Bit(b, k) <==> start <= k < end)
  }

  /** A byte with bits start..end set, computed on a 32-bit word. */
  method BitRange(start: nat, end: nat) returns (b: Byte)
    requires start <= 8 && end <= 8
    ensures IsRange(b, start, end)
  {
    ShlPositive(1, start);
    ShlPositive(1, end);
    var below := Not(Shl(1, start) - 1, 32);
    var word := And(below, Shl(1, end) - 1);
    TruncBound(word, 8);
    assert Pow2(8) == 256;
    b := Trunc(word, 8);
    forall k: nat | k < 8 ensures Bit(b, k) <==> start <= k < end {
      BitOfTrunc(word, 8, k);
      BitOfAnd(below, Shl(1, end) - 1, k);
      BitOfNot(Shl(1, start) - 1, 32, k);
      BitOfOnes(start, k);
      BitOfOnes(end, k);
    }
  }

  /** The byte whose lowest n bits are set. */
  function Ones(n: nat): (b: Byte)
    requires n <= 8
  {
    [0, 1, 3, 7, 15, 31, 63, 127, 255][n]
  }

  lemma {:induction false} OnesIsShift(n: nat)
    requires n <= 8
    ensures Shl(1, n) == Ones(n) + 1
  {
    if n > 0 { OnesIsShift(n - 1); }
  }

  lemma OnesAreLowBits(n: nat)
    requires n <= 8
    ensures IsRange(Ones(n), 0, n)
  {
    OnesIsShift(n);
    forall k: nat | k < 8 ensures Bit(Ones(n), k) <==> k < n {
      BitOfOnes(n, k);
    }
  }

  /** A byte equals the low bit range exactly when it has those bits and no others. */
  lemma LowBitsIsOnes(b: Byte, n: nat)
    requires n <= 8
    ensures b == Ones(n) <==> IsRange(b, 0, n)
  {
    OnesAreLowBits(n);
    if IsRange(b, 0, n) {
      SameLowBits(b, Ones(n), n);
    }
  }

  lemma SameLowBits(a: Byte, b: Byte, n: nat)
    requires IsRange(a, 0, n) && IsRange(b, 0, n)
    ensures a == b
  {
    assert Pow2(8) == 256;
    SameBits(a, b, 8);
  }

  predicate Marked(mask: seq<Byte>, i: nat)
    requires i < 8 * |mask|
  {
    Bit(mask[i / 8], i % 8)
  }

  /** OR-ing a bit range into one byte of the mask marks that range and nothing else. */
  lemma OrIntoByte(mask: seq<Byte>, j: nat, start: nat, end: nat, range: Byte, b: Byte)
    requires j < |mask| && start <= 8 && end <= 8
    requires IsRange(range, start, end) && b == Or(mask[j], range)
    ensures MarkedBetween(mask, mask[j := b], 8 * j + start, 8 * j + end)
  {
    forall i: nat | i < 8 * |mask|
      ensures Marked(mask[j := b], i) <==> Marked(mask, i) || 8 * j + start <= i < 8 * j + end
    {
      if i / 8 == j {
        BitOfOr(mask[j], range, i % 8);
      }
    }
  }

  lemma SetByte(mask: seq<Byte>, j: nat)
    requires j < |mask|
    ensures MarkedBetween(mask, mask[j := 255], 8 * j, 8 * j + 8)
  {
    OnesAreLowBits(8);
    forall i: nat | i < 8 * |mask|
      ensures Marked(mask[j := 255], i) <==> Marked(mask, i) || 8 * j <= i < 8 * j + 8
    {
      if i / 8 == j {
        assert Bit(Ones(8), i % 8);
      }
    }
  }

  ghost predicate MarkedBetween(was: seq<Byte>, now: seq<Byte>, start: nat, end: nat) {
    && |now| == |was|
    && forall i: nat :: i < 8 * |was| ==> (Marked(now, i) <==> Marked(was, i) || start <= i < end)
  }

  /** No bit at or past the message length is set. */
  ghost predicate NothingPast(mask: seq<Byte>, msgLen: nat) {
    forall i: nat :: msgLen <= i < 8 * |mask| ==> !Marked(mask, i)
  }

  ghost function Got(mask: seq<Byte>, msgLen: nat): (got: seq<bool>)
    requires msgLen <= 8 * |mask|
    ensures |got| == msgLen && forall i :: 0 <= i < msgLen ==> (got[i] <==> Marked(mask, i))
  {
    seq(msgLen, i requires 0 <= i < msgLen => Marked(mask, i))
  }

  /** How many bits of byte j of the mask stand for bytes of the message. */
  function BitsIn(msgLen: nat, j: nat): (n: nat)
    requires j < (msgLen + 7) / 8
    ensures n <= 8 && 8 * j + n <= msgLen
  {
    if j < msgLen / 8 then 8 else msgLen % 8
  }

  ghost predicate AllOf(mask: seq<Byte>, from: nat, to: nat) {
    forall i: nat :: from <= i < to && i < 8 * |mask| ==> Marked(mask, i)
  }

  lemma LowBitsMeanAll(mask: seq<Byte>, j: nat, n: nat)
    requires j < |mask| && n <= 8
    requires forall i: nat :: 8 * j + n <= i < 8 * j + 8 ==> !Marked(mask, i)
    ensures IsRange(mask[j], 0, n) <==> AllOf(mask, 8 * j, 8 * j + n)
  {
    forall k: nat | k < 8 ensures Bit(mask[j], k) <==> Marked(mask, 8 * j + k) {
      assert (8 * j + k) / 8 == j && (8 * j + k) % 8 == k;
    }
    if IsRange(mask[j], 0, n) {
      forall i: nat | 8 * j <= i < 8 * j + n ensures Marked(mask, i) {
        assert Bit(mask[j], i - 8 * j) <==> Marked(mask, 8 * j + (i - 8 * j));
      }
    }
  }

  lemma ByteIsFull(mask: seq<Byte>, msgLen: nat, j: nat)
    requires |mask| == (msgLen + 7) / 8 && NothingPast(mask, msgLen) && j < |mask|
    ensures mask[j] == Ones(BitsIn(msgLen, j)) <==> AllOf(mask, 8 * j, 8 * j + BitsIn(msgLen, j))
  {
    LowBitsIsOnes(mask[j], BitsIn(msgLen, j));
    LowBitsMeanAll(mask, j, BitsIn(msgLen, j));
  }

  ghost predicate AllFull(mask: seq<Byte>, msgLen: nat, n: nat)
    requires n <= |mask| == (msgLen + 7) / 8
  {
    forall j :: 0 <= j < n ==> mask[j] == Ones(BitsIn(msgLen, j))
  }

  /** The completeness test byte by byte means that every byte of the message was received. */
  lemma CompleteBytes(mask: seq<Byte>, msgLen: nat)
    requires |mask| == (msgLen + 7) / 8 && NothingPast(mask, msgLen)
    ensures AllFull(mask, msgLen, |mask|) <==> All(Got(mask, msgLen))
  {
    if All(Got(mask, msgLen)) {
      forall j | 0 <= j < |mask| ensures mask[j] == Ones(BitsIn(msgLen, j)) {
        ByteIsFull(mask, msgLen, j);
      }
    }
    if AllFull(mask, msgLen, |mask|) {
      forall i | 0 <= i < msgLen ensures Marked(mask, i) {
        ByteIsFull(mask, msgLen, i / 8);
        assert mask[i / 8] == Ones(BitsIn(msgLen, i / 8));
      }
    }
  }

  // ---- the object ----

  class HmFragment {
    const typ: Byte
    const seqNo: nat
    const msgLen: nat
    const data: array<Byte>
    var reassembly: array?<Byte>

    ghost predicate Valid()
      reads this, reassembly
    {
      && msgLen < MAX_U24 && seqNo < MAX_U16
      && data.Length == HEADER_LENGTH + msgLen
      && (reassembly != null ==>
            && msgLen > 0
            && reassembly != data
            && reassembly.Length == (msgLen + 7) / 8
            && NothingPast(reassembly[..], msgLen)
            && !All(Got(reassembly[..], msgLen)))
    }

    ghost function Footprint(): set<object>
      reads this
    {
      {this, data} + if reassembly == null then {} else {reassembly}
    }

    ghost function Progress(): Progress
      requires Valid()
      reads this, reassembly
    {
      if reassembly == null then Complete else Pending(Got(reassembly[..], msgLen))
    }

    ghost function View(): Slot
      requires Valid()
      reads this, data, reassembly
    {
      Slot(typ, seqNo, msgLen, data[..], Progress())
    }

    constructor (h: Header)
      requires Encodable(h)
      ensures Valid() && View() == NewSlot(h)
      ensures fresh(Footprint())
    {
      typ, seqNo, msgLen := h.typ, h.seqNo, h.msgLen;
      var header := Serialize(Whole(h.typ, h.seqNo, h.msgLen));
      var bytes := header + seq(h.msgLen, _ => 0);
      var mask: array?<Byte> := null;
      data := new Byte[HEADER_LENGTH + h.msgLen](i requires 0 <= i < |bytes| => bytes[i]);
      if h.msgLen > 0 {
        mask := new Byte[(h.msgLen + 7) / 8](_ => 0);
      }
      reassembly := mask;
      new;
      assert data[..] == bytes;
      if h.msgLen > 0 {
        forall i: nat | i < 8 * reassembly.Length ensures !Marked(reassembly[..], i) {
          BitOfZero(i % 8);
        }
        assert Got(reassembly[..], msgLen) == seq(msgLen, _ => false);
        assert !Got(reassembly[..], msgLen)[0];
      }
    }

    /** Copies the body of a fragment into the buffer. */
    method Fill(off: nat, body: seq<Byte>)
      requires Valid() && off + |body| <= msgLen
      modifies data
      ensures Valid() && data[..] == Filled(old(data[..]), off, body)
    {
      forall i | 0 <= i < |body| {
        data[HEADER_LENGTH + off + i] := body[i];
      }
    }

    /** Stores a fragment, unless the message is already complete. */
    method Store(h: Header, body: seq<Byte>)
      requires Valid() && h.off + |body| <= msgLen
      modifies Footprint()
      ensures Valid() && View() == Stored(old(View()), h, body)
      ensures Footprint() <= old(Footprint())
    {
      if reassembly != null {
        Fill(h.off, body);
        Mark(h.off, h.off + |body|);
      }
    }

    method Mark(start: nat, end: nat)
      requires Valid()
      modifies this`reassembly, reassembly
      ensures Valid() && Progress() == Marking(old(Progress()), start, end)
      ensures reassembly == null || reassembly == old(reassembly)
    {
      if reassembly == null || start > end || end > msgLen {
        return;
      }
      if start == end {
        return;
      }
      ghost var was := reassembly[..];
      SetBits(start, end);
      assert Got(reassembly[..], msgLen) == With(Got(was, msgLen), start, end);
      CompleteBytes(reassembly[..], msgLen);
      var complete := IsComplete();
      if complete {
        reassembly := null;
      }
    }

    /** The test whether every byte of the message was received, a byte of the mask at a time. */
    method IsComplete() returns (complete: bool)
      requires reassembly != null && reassembly.Length == (msgLen + 7) / 8
      ensures complete <==> AllFull(reassembly[..], msgLen, reassembly.Length)
    {
      ghost var mask := reassembly[..];
      var i := 0;
      while i < msgLen / 8
        invariant 0 <= i <= msgLen / 8
        invariant AllFull(mask, msgLen, i)
      {
        assert mask[i] == reassembly[i];
        if reassembly[i] != 255 {
          assert mask[i] != Ones(BitsIn(msgLen, i));
          return false;
        }
        i := i + 1;
      }
      if msgLen % 8 != 0 {
        var lastByte := BitRange(0, msgLen % 8);
        LowBitsIsOnes(lastByte, msgLen % 8);
        if reassembly[msgLen / 8] != lastByte {
          assert mask[i] != Ones(BitsIn(msgLen, i));
          return false;
        }
      }
      return true;
    }

    method SetBits(start: nat, end: nat)
      requires Valid() && reassembly != null && start < end <= msgLen
      modifies reassembly
      ensures MarkedBetween(old(reassembly[..]), reassembly[..], start, end)
    {
      var r: array<Byte> := reassembly;
      ghost var was := r[..];
      var first, last := start / 8, end / 8;
      if first == last {
        OrInto(r, first, start % 8, end % 8);
      } else {
        OrInto(r, first, start % 8, 8);
        for i := first + 1 to last
          invariant MarkedBetween(was, r[..], start, 8 * i)
        {
          ghost var before := r[..];
          SetByte(before, i);
          r[i] := 255;
          assert r[..] == before[i := 255];
        }
        if end % 8 != 0 {
          OrInto(r, last, 0, end % 8);
        }
      }
    }
  }

  /** `mask[j] |= bit_range(start, end)` */
  method OrInto(mask: array<Byte>, j: nat, start: nat, end: nat)
    requires j < mask.Length && start <= 8 && end <= 8
    modifies mask
    ensures MarkedBetween(old(mask[..]), mask[..], 8 * j + start, 8 * j + end)
  {
    ghost var was := mask[..];
    var range := BitRange(start, end);
    assert Pow2(8) == 256;
    OrBound(mask[j], range, 8);
    mask[j] := Or(mask[j], range);
    OrIntoByte(was, j, start, end, range, mask[j]);
    assert mask[..] == was[j := mask[j]];
  }

  // ---- sequences of marks ----

  datatype Interval = Interval(start: nat, end: nat)

  function Marks(p: Progress, pieces: seq<Interval>): Progress
    decreases |pieces|
  {
    if pieces == [] then p else Marks(Marking(p, pieces[0].start, pieces[0].end), pieces[1..])
  }

  predicate Covers(pieces: seq<Interval>, i: nat) {
    exists q :: q in pieces && q.start <= i < q.end
  }

  function WithAll(got: seq<bool>, pieces: seq<Interval>): (r: seq<bool>)
    ensures |r| == |got|
  {
    seq(|got|, i requires 0 <= i < |got| => got[i] || Covers(pieces, i))
  }

  /** Pieces in any order, overlapping or repeated, add up: the message is complete exactly when
      every byte is covered by one of them, and until then bit i of the mask says whether byte i is. */
  lemma {:induction false} MarksAddUp(got: seq<bool>, pieces: seq<Interval>)
    requires !All(got)
    requires forall q :: q in pieces ==> q.end <= |got|
    ensures Marks(Pending(got), pieces) == Covered(WithAll(got, pieces))
    decreases |pieces|
  {
    if pieces == [] {
      assert WithAll(got, pieces) == got;
    } else {
      var q, rest := pieces[0], pieces[1..];
      var got' := With(got, q.start, q.end);
      assert forall i: nat :: Covers(pieces, i) <==> Covers(rest, i) || q.start <= i < q.end by {
        assert pieces == [q] + rest;
      }
      assert WithAll(got, pieces) == WithAll(got', rest);
      if q.start >= q.end {
        assert got' == got;
        MarksAddUp(got, rest);
      } else if All(got') {
        assert All(WithAll(got', rest));
        CompleteStays(rest);
      } else {
        MarksAddUp(got', rest);
      }
    }
  }

  lemma {:induction false} CompleteStays(pieces: seq<Interval>)
    ensures Marks(Complete, pieces) == Complete
    decreases |pieces|
  {
    if pieces != [] {
      CompleteStays(pieces[1..]);
    }
  }
}
