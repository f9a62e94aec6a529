/** The encoder: output streams, and the functions that write a message to one.

    A stream either writes to a buffer or only counts.  Every method says what it emits in terms of
    `PbMessage`'s encoding, and the same contract covers both kinds of stream: the counting pass and
    the writing pass agree because both are that encoding. */
module PbEncode {
  import opened Basics
  import opened Words
  import opened PbWire
  import opened PbMessage

  datatype Error = NoError | StreamFull | ArraySize | BytesSize | InvalidSize

  lemma VarintStep(before: seq<Byte>, v: nat)
    requires v > 0
    ensures v >= 128 ==> before + [v % 128 + 128] + Varint(v / 128) == before + Varint(v)
    ensures v < 128 ==> before + [(v % 128 + 128) % 128] == before + Varint(v) && |Varint(v)| == 1
  {
    assert v >= 128 ==> Varint(v) == [v % 128 + 128] + Varint(v / 128);
  }

  /** The ten-byte buffer that a varint is put together in. */
  method VarintBytes(value: nat) returns (bytes: seq<Byte>)
    requires value < TWO64
    ensures bytes == Varint(value)
  {
    if value <= 0x7F {
      return [value];
    }
    var buffer := new Byte[10](_ => 0);
    var v: nat, i: nat := value, 0;
    Pow128Constants();
    VarintAtMost(value, 10);
    while v > 0
      invariant i <= 10 && (v > 0 ==> i + |Varint(v)| == |Varint(value)|) && (v == 0 ==> i == |Varint(value)|)
      invariant v > 0 ==> buffer[..i] + Varint(v) == Varint(value)
      invariant v == 0 ==> buffer[..i - 1] + [buffer[i - 1] % 128] == Varint(value)
      decreases v
    {
      ghost var before := buffer[..i];
      buffer[i] := v % 128 + 128;
      VarintStep(before, v);
      assert buffer[..i + 1] == before + [v % 128 + 128] && buffer[..i] == before;
      v := v / 128;
      i := i + 1;
    }
    assert buffer[..i - 1] + [buffer[i - 1] % 128] == Varint(value);
    buffer[i - 1] := buffer[i - 1] % 128;
    assert buffer[..i] == buffer[..i - 1] + [buffer[i - 1]];
    return buffer[..i];
  }

  class OStream {
    const sizing: bool
    const buf: array<Byte>
    var state: nat
    const maxSize: nat
    var bytesWritten: nat
    var error: Error

    ghost predicate Valid()
      reads this
    {
      !sizing ==> bytesWritten <= maxSize && state + (maxSize - bytesWritten) <= buf.Length
    }

    constructor Sizing()
      ensures Valid() && sizing && bytesWritten == 0 && fresh(buf)
    {
      sizing, buf, state, maxSize, bytesWritten, error := true, new Byte[0], 0, 0, 0, NoError;
    }

    constructor FromBuffer(buf: array<Byte>, size: nat)
      requires size <= buf.Length
      ensures Valid() && !sizing && this.buf == buf && state == 0 && bytesWritten == 0 && maxSize == size
    {
      sizing, state, maxSize, bytesWritten, error := false, 0, size, 0, NoError;
      this.buf := buf;
    }

    /** A writing stream that continues `parent` for at most `size` bytes. */
    constructor Substream(parent: OStream, size: nat)
      requires parent.Valid() && !parent.sizing && parent.bytesWritten + size <= parent.maxSize
      ensures Valid() && !sizing && buf == parent.buf && state == parent.state && bytesWritten == 0 && maxSize == size
    {
      sizing, buf, state, maxSize, bytesWritten, error := false, parent.buf, parent.state, size, 0, NoError;
    }

    /** Since the old state the stream took exactly `e`; or it failed, because `e` is an encoding
        error or because it does not fit. */
    twostate predicate Emitted(new e: Option<seq<Byte>>, ok: bool)
      requires state <= buf.Length || sizing
      requires old(state) <= buf.Length || sizing
      reads this, buf
    {
      && ok == (e.Some? && (sizing || old(bytesWritten) + |e.value| <= maxSize))
      && (ok ==>
            && bytesWritten == old(bytesWritten) + |e.value|
            && (!sizing ==> buf[..state] == old(buf[..state]) + e.value))
    }

    method SetError(e: Error)
      requires Valid()
      modifies this`error
      ensures Valid()
    {
      if error == NoError {
        error := e;
      }
    }

    method Write(data: seq<Byte>) returns (ok: bool)
      requires Valid()
      modifies this, buf
      ensures Valid() && Emitted(Some(data), ok)
    {
      if !sizing {
        if bytesWritten + |data| > maxSize {
          SetError(StreamFull);
          return false;
        }
        for i := 0 to |data|
          invariant Valid() && state == old(state) && bytesWritten == old(bytesWritten)
          invariant buf[..state + i] == old(buf[..state]) + data[..i]
        {
          buf[state + i] := data[i];
        }
        state := state + |data|;
      }
      bytesWritten := bytesWritten + |data|;
      return true;
    }

    /** `pb_write` without data on a counting stream */
    method Count(n: nat)
      requires Valid() && sizing
      modifies this`bytesWritten
      ensures Valid() && bytesWritten == old(bytesWritten) + n
    {
      bytesWritten := bytesWritten + n;
    }

    method EncodeVarint(value: nat) returns (ok: bool)
      requires Valid() && value < TWO64
      modifies this, buf
      ensures Valid() && Emitted(Some(Varint(value)), ok)
    {
      var bytes := VarintBytes(value);
      ok := Write(bytes);
    }

    method EncodeTag(tag: nat, wt: nat) returns (ok: bool)
      requires Valid() && tag < TWO32 && wt < 8
      modifies this, buf
      ensures Valid() && Emitted(Some(TagBytes(tag, wt)), ok)
    {
      ok := EncodeVarint(tag * 8 + wt);
    }

    method EncodeString(data: seq<Byte>) returns (ok: bool)
      requires Valid() && |data| < TWO64
      modifies this, buf
      ensures Valid() && Emitted(Some(Varint(|data|) + data), ok)
    {
      ok := EncodeVarint(|data|);
      if !ok {
        return;
      }
      ok := Write(data);
    }
  }

  // ---- what the encoder is called with ----

  /** The value is one that a C field of this kind can hold, and encodings fit a 64-bit size. */
  ghost predicate Holds(k: Kind, v: Value)
    decreases v, 0
  {
    match k
    case SignedKind(size) => v.Number? && (SizeOk(size) ==> FitsSigned(v.n, size))
    case UnsignedKind(size) => v.Number? && (SizeOk(size) ==> FitsUnsigned(v.n, size))
    case ZigzagKind(size) => v.Number? && (SizeOk(size) ==> FitsSigned(v.n, size))
    case Fixed32Kind => v.Number? && FitsUnsigned(v.n, 4)
    case Fixed64Kind => v.Number? && FitsUnsigned(v.n, 8)
    case BytesKind(_) => v.Bytes? && |v.bytes| < TWO32
    case StringKind(n) => v.Text? && |v.buffer| == n < TWO32
    case FixedBytesKind(n) => v.Bytes? && |v.bytes| == n < TWO32
    case SubmessageKind(fs) =>
      && v.Message? && HoldsAll(fs, v.slots)
      && (EncodeFields(fs, v.slots, v.which).Some? ==> |EncodeFields(fs, v.slots, v.which).value| < TWO64)
  }

  ghost predicate SlotHolds(f: Field, slot: Slot)
    decreases slot, 1
  {
    && f.tag < TWO32 && (f.rule.Implicit? ==> NoUnion(f.kind))
    && match slot
       case One(_, v) => !f.rule.Repeated? && Holds(f.kind, v)
       case Many(items) =>
         && f.rule.Repeated? && (forall v :: v in items ==> Holds(f.kind, v))
         && (EncodePacked(f.kind, items).Some? ==> |EncodePacked(f.kind, items).value| < TWO64)
  }

  ghost predicate HoldsAll(fs: Fields, slots: seq<Slot>)
    decreases slots, 2
  {
    |fs| == |slots| && forall i :: 0 <= i < |slots| ==> SlotHolds(fs[i], slots[i])
  }

  lemma {:induction false} FixedPackedSize(k: Kind, items: seq<Value>)
    requires k.Fixed32Kind? || k.Fixed64Kind?
    requires forall v :: v in items ==> Holds(k, v)
    ensures EncodePacked(k, items).Some?
    ensures |EncodePacked(k, items).value| == (if k.Fixed32Kind? then 4 else 8) * |items|
  {
    if items != [] {
      assert Holds(k, items[0]) by { assert items[0] in items; }
      assert forall v :: v in items[1..] ==> v in items;
      FixedPackedSize(k, items[1..]);
    }
  }

  // ---- the encoder ----

  /** `strnlen` */
  method MeasureText(buffer: seq<Byte>) returns (size: nat)
    ensures size == TextLen(buffer)
  {
    size := 0;
    while size < |buffer| && buffer[size] != 0
      invariant size <= |buffer| && size + TextLen(buffer[size..]) == TextLen(buffer)
    {
      assert buffer[size..][1..] == buffer[size + 1..];
      size := size + 1;
    }
  }

  method EncodeValueTo(stream: OStream, k: Kind, v: Value) returns (ok: bool)
    requires stream.Valid() && Holds(k, v)
    modifies stream, stream.buf
    ensures stream.Valid() && stream.Emitted(EncodeValue(k, v), ok)
    decreases v, 1
  {
    match k
    case SignedKind(size) =>
      if !SizeOk(size) {
        stream.SetError(InvalidSize);
        return false;
      }
      ok := stream.EncodeVarint(ToUnsigned(v.n));
    case UnsignedKind(size) =>
      if !SizeOk(size) {
        stream.SetError(InvalidSize);
        return false;
      }
      ok := stream.EncodeVarint(v.n);
    case ZigzagKind(size) =>
      if !SizeOk(size) {
        stream.SetError(InvalidSize);
        return false;
      }
      ZigzagRoundTrip(v.n);
      ok := stream.EncodeVarint(Zigzag(v.n));
    case Fixed32Kind => ok := stream.Write(Fixed(v.n, 4));
    case Fixed64Kind => ok := stream.Write(Fixed(v.n, 8));
    case BytesKind(dataSize) =>
      if |v.bytes| + BYTES_OFFSET > dataSize {
        stream.SetError(BytesSize);
        return false;
      }
      ok := stream.EncodeString(v.bytes);
    case StringKind(dataSize) =>
      var size := MeasureText(v.buffer);
      ok := stream.EncodeString(v.buffer[..size]);
    case FixedBytesKind(_) => ok := stream.EncodeString(v.bytes);
    case SubmessageKind(fs) => ok := EncodeSubmessage(stream, fs, v.slots, v.which);
  }

  lemma JoinStart(items: Option<seq<Byte>>)
    ensures Join(Some([]), items) == items
  {
    if items.Some? { assert [] + items.value == items.value; }
  }

  lemma JoinNext(done: seq<Byte>, a: seq<Byte>, b: Option<seq<Byte>>)
    ensures Join(Some(done), Join(Some(a), b)) == Join(Some(done + a), b)
  {
    if b.Some? { assert done + (a + b.value) == done + a + b.value; }
  }

  lemma JoinLonger(done: seq<Byte>, a: Option<seq<Byte>>, b: Option<seq<Byte>>)
    ensures var all := Join(Some(done), Join(a, b));
            all.Some? ==> a.Some? && |all.value| >= |done| + |a.value|
  {
  }

  lemma JoinEnd(done: seq<Byte>)
    ensures Join(Some(done), Some([])) == Some(done)
  {
    assert done + [] == done;
  }

  /** Two passes: the first counts, the second writes into a stream limited to that count. */
  method EncodeSubmessage(stream: OStream, fs: Fields, slots: seq<Slot>, which: map<nat, nat>) returns (ok: bool)
    requires stream.Valid() && HoldsAll(fs, slots)
    requires EncodeFields(fs, slots, which).Some? ==> |EncodeFields(fs, slots, which).value| < TWO64
    modifies stream, stream.buf
    ensures stream.Valid()
    ensures var e := EncodeFields(fs, slots, which);
            stream.Emitted(if e.Some? then Some(Varint(|e.value|) + e.value) else None, ok)
    decreases slots, 9
  {
    var counter := new OStream.Sizing();
    ok := Encode(counter, fs, slots, which);
    if !ok {
      stream.SetError(counter.error);
      return;
    }
    var size := counter.bytesWritten;
    ok := stream.EncodeVarint(size);
    if !ok {
      return;
    }
    if stream.sizing {
      stream.Count(size);
      return;
    }
    if stream.bytesWritten + size > stream.maxSize {
      stream.SetError(StreamFull);
      return false;
    }
    var sub := new OStream.Substream(stream, size);
    ok := Encode(sub, fs, slots, which);
    stream.bytesWritten := stream.bytesWritten + sub.bytesWritten;
    stream.state := sub.state;
    stream.error := sub.error;
    // the "submsg size changed" error cannot happen
    if sub.bytesWritten != size { assert false; }
  }

  method EncodeTagged(stream: OStream, k: Kind, tag: nat, v: Value) returns (ok: bool)
    requires stream.Valid() && Holds(k, v) && tag < TWO32
    modifies stream, stream.buf
    ensures stream.Valid() && stream.Emitted(Tagged(k, tag, v), ok)
    decreases v, 2
  {
    ghost var was, e := if stream.sizing then [] else stream.buf[..stream.state], EncodeValue(k, v);
    assert Tagged(k, tag, v) == Join(Some(TagBytes(tag, WireType(k))), e);
    ok := stream.EncodeTag(tag, WireType(k));
    if !ok {
      return;
    }
    ok := EncodeValueTo(stream, k, v);
    if e.Some? {
      Assoc(was, TagBytes(tag, WireType(k)), e.value);
    }
  }

  lemma NextEntry(k: Kind, items: seq<Value>, i: nat)
    requires i < |items|
    ensures items[i] in items
    ensures EncodePacked(k, items[i..]) == Join(EncodeValue(k, items[i]), EncodePacked(k, items[i + 1..]))
  {
    assert items[i..][1..] == items[i + 1..];
  }

  /** The entries of a packed array, counted or written */
  method EncodeEntries(stream: OStream, k: Kind, items: seq<Value>) returns (ok: bool)
    requires stream.Valid() && forall v :: v in items ==> Holds(k, v)
    modifies stream, stream.buf
    ensures stream.Valid() && stream.Emitted(EncodePacked(k, items), ok)
    decreases items, 3
  {
    ghost var done: seq<Byte>, was := [], if stream.sizing then [] else stream.buf[..stream.state];
    JoinStart(EncodePacked(k, items));
    assert items[0..] == items;
    for i := 0 to |items|
      invariant stream.Valid() && stream.Emitted(Some(done), true)
      invariant Join(Some(done), EncodePacked(k, items[i..])) == EncodePacked(k, items)
    {
      ghost var e, rest := EncodeValue(k, items[i]), EncodePacked(k, items[i + 1..]);
      NextEntry(k, items, i);
      JoinLonger(done, e, rest);
      ok := EncodeValueTo(stream, k, items[i]);
      if !ok {
        return;
      }
      Assoc(was, done, e.value);
      JoinNext(done, e.value, rest);
      done := done + e.value;
    }
    JoinEnd(done);
    return true;
  }

  lemma NextTaggedEntry(k: Kind, tag: nat, items: seq<Value>, i: nat)
    requires i < |items|
    ensures items[i] in items
    ensures EncodeItems(k, tag, items[i..]) == Join(Tagged(k, tag, items[i]), EncodeItems(k, tag, items[i + 1..]))
  {
    assert items[i..][1..] == items[i + 1..];
  }

  method EncodeTaggedEntries(stream: OStream, k: Kind, tag: nat, items: seq<Value>) returns (ok: bool)
    requires stream.Valid() && tag < TWO32 && forall v :: v in items ==> Holds(k, v)
    modifies stream, stream.buf
    ensures stream.Valid() && stream.Emitted(EncodeItems(k, tag, items), ok)
    decreases items, 3
  {
    ghost var done: seq<Byte>, was := [], if stream.sizing then [] else stream.buf[..stream.state];
    JoinStart(EncodeItems(k, tag, items));
    assert items[0..] == items;
    for i := 0 to |items|
      invariant stream.Valid() && stream.Emitted(Some(done), true)
      invariant Join(Some(done), EncodeItems(k, tag, items[i..])) == EncodeItems(k, tag, items)
    {
      ghost var e, rest := Tagged(k, tag, items[i]), EncodeItems(k, tag, items[i + 1..]);
      NextTaggedEntry(k, tag, items, i);
      ok := EncodeTagged(stream, k, tag, items[i]);
      if !ok {
        return;
      }
      Assoc(was, done, e.value);
      JoinNext(done, e.value, rest);
      done := done + e.value;
    }
    JoinEnd(done);
    return true;
  }

  method EncodeArrayTo(stream: OStream, f: Field, items: seq<Value>) returns (ok: bool)
    requires stream.Valid() && SlotHolds(f, Many(items))
    modifies stream, stream.buf
    ensures stream.Valid() && stream.Emitted(EncodeArray(f, items), ok)
    decreases items, 6
  {
    if |items| == 0 {
      return true;
    }
    if |items| > f.rule.max {
      stream.SetError(ArraySize);
      return false;
    }
    if !Packable(f.kind) {
      ok := EncodeTaggedEntries(stream, f.kind, f.tag, items);
      return;
    }
    ok := EncodePackedTo(stream, f, items);
  }

  /** The size of a packed array: computed for fixed-width entries, counted for the others */
  method PackedSize(k: Kind, items: seq<Value>) returns (ok: bool, size: nat)
    requires Packable(k) && forall v :: v in items ==> Holds(k, v)
    ensures ok == EncodePacked(k, items).Some?
    ensures ok ==> size == |EncodePacked(k, items).value|
    decreases items, 4
  {
    if k.Fixed32Kind? {
      FixedPackedSize(k, items);
      return true, 4 * |items|;
    }
    if k.Fixed64Kind? {
      FixedPackedSize(k, items);
      return true, 8 * |items|;
    }
    var counter := new OStream.Sizing();
    ok := EncodeEntries(counter, k, items);
    size := counter.bytesWritten;
  }

  method EncodePackedTo(stream: OStream, f: Field, items: seq<Value>) returns (ok: bool)
    requires stream.Valid() && SlotHolds(f, Many(items)) && Packable(f.kind)
    modifies stream, stream.buf
    ensures stream.Valid()
    ensures var p := EncodePacked(f.kind, items);
            stream.Emitted(if p.Some? then Some(TagBytes(f.tag, WT_STRING) + Varint(|p.value|) + p.value) else None, ok)
    decreases items, 5
  {
    ghost var p := EncodePacked(f.kind, items);
    ok := stream.EncodeTag(f.tag, WT_STRING);
    if !ok {
      return;
    }
    var size;
    ok, size := PackedSize(f.kind, items);
    if !ok {
      return;
    }
    ok := stream.EncodeVarint(size);
    if !ok {
      return;
    }
    if stream.sizing {
      stream.Count(size);
      return;
    }
    ok := EncodeEntries(stream, f.kind, items);
    if ok {
      AssocFour(old(stream.buf[..stream.state]), TagBytes(f.tag, WT_STRING), Varint(|p.value|), p.value);
    }
  }

  /** Whether a field without a has-flag is left out.  A submessage is looked through field by field. */
  method HasZeroValue(k: Kind, v: Value) returns (zero: bool)
    requires Holds(k, v)
    ensures zero == IsZero(k, v)
    decreases v
  {
    match v
    case Number(n) => return n == 0;
    case Bytes(bytes) => return if k.FixedBytesKind? then k.dataSize == 0 else |bytes| == 0;
    case Text(buffer) => return |buffer| == 0 || buffer[0] == 0;
    case Message(slots, _) =>
      for i := 0 to |slots|
        invariant forall j :: 0 <= j < i ==> SlotIsZero(k.fields[j].kind, slots[j])
      {
        assert SlotHolds(k.fields[i], slots[i]);
        match slots[i] {
          case One(_, w) => zero := HasZeroValue(k.fields[i].kind, w);
          case Many(items) =>
            zero := true;
            if |items| > 0 {
              zero := HasZeroValue(k.fields[i].kind, items[0]);
            }
        }
        if !zero {
          assert !SlotIsZero(k.fields[i].kind, slots[i]);
          return;
        }
      }
      return true;
  }

  method EncodeFieldTo(stream: OStream, f: Field, slot: Slot, which: map<nat, nat>) returns (ok: bool)
    requires stream.Valid() && SlotHolds(f, slot)
    modifies stream, stream.buf
    ensures stream.Valid() && stream.Emitted(EncodeField(f, slot, which), ok)
    decreases slot, 7
  {
    match f.rule
    case Repeated(_) => ok := EncodeArrayTo(stream, f, slot.items);
    case Required => ok := EncodeTagged(stream, f.kind, f.tag, slot.value);
    case Optional =>
      if slot.has {
        ok := EncodeTagged(stream, f.kind, f.tag, slot.value);
      } else {
        ok := true;
      }
    case Implicit =>
      var zero := HasZeroValue(f.kind, slot.value);
      if !zero {
        ok := EncodeTagged(stream, f.kind, f.tag, slot.value);
      } else {
        ok := true;
      }
    case Oneof(group) =>
      if group in which && which[group] == f.tag {
        ok := EncodeTagged(stream, f.kind, f.tag, slot.value);
      } else {
        ok := true;
      }
  }

  /** All fields in the order of the descriptor */
  method Encode(stream: OStream, fs: Fields, slots: seq<Slot>, which: map<nat, nat>) returns (ok: bool)
    requires stream.Valid() && HoldsAll(fs, slots)
    modifies stream, stream.buf
    ensures stream.Valid() && stream.Emitted(EncodeFields(fs, slots, which), ok)
    decreases slots, 8
  {
    ghost var done: seq<Byte> := [];
    JoinStart(EncodeFields(fs, slots, which));
    assert fs[0..] == fs && slots[0..] == slots;
    for i := 0 to |fs|
      invariant stream.Valid() && stream.Emitted(Some(done), true)
      invariant Join(Some(done), EncodeFields(fs[i..], slots[i..], which)) == EncodeFields(fs, slots, which)
    {
      assert fs[i..][1..] == fs[i + 1..] && slots[i..][1..] == slots[i + 1..];
      assert slots[i] in slots;
      ok := EncodeFieldTo(stream, fs[i], slots[i], which);
      if !ok {
        return;
      }
      JoinNext(done, EncodeField(fs[i], slots[i], which).value, EncodeFields(fs[i + 1..], slots[i + 1..], which));
      done := done + EncodeField(fs[i], slots[i], which).value;
    }
    JoinEnd(done);
    return true;
  }

  method GetEncodedSize(fs: Fields, slots: seq<Slot>, which: map<nat, nat>) returns (ok: bool, size: nat)
    requires HoldsAll(fs, slots)
    ensures ok <==> EncodeFields(fs, slots, which).Some?
    ensures ok ==> size == |EncodeFields(fs, slots, which).value|
  {
    var stream := new OStream.Sizing();
    ok := Encode(stream, fs, slots, which);
    size := stream.bytesWritten;
  }

  /** Encoding into a buffer succeeds exactly when the computed size exists and fits. */
  method EncodeToBuffer(buf: array<Byte>, fs: Fields, slots: seq<Slot>, which: map<nat, nat>)
    returns (ok: bool, size: nat)
    requires HoldsAll(fs, slots)
    modifies buf
    ensures ok <==> EncodeFields(fs, slots, which).Some? && |EncodeFields(fs, slots, which).value| <= buf.Length
    ensures ok ==> size <= buf.Length && buf[..size] == EncodeFields(fs, slots, which).value
  {
    var stream := new OStream.FromBuffer(buf, buf.Length);
    ok := Encode(stream, fs, slots, which);
    size := stream.bytesWritten;
    if ok {
      assert stream.state == size;
    }
  }
}
