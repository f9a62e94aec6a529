/** Decoding what was encoded gives back the same message, exactly when the tags written can be read. */
module PbRoundTrip {
  import opened Basics
  import opened Words
  import opened PbWire
  import opened PbMessage

  // ---- descriptors and messages the round trip is promised for ----

  ghost predicate KindOk(k: Kind)
    decreases k, 0
  {
    match k
    case SignedKind(size) => SizeOk(size)
    case UnsignedKind(size) => SizeOk(size)
    case ZigzagKind(size) => SizeOk(size)
    case BytesKind(n) => n < TWO32
    case StringKind(n) => n < TWO32
    case FixedBytesKind(n) => n < TWO32
    case SubmessageKind(fs) => FieldsOk(fs)
    case _ => true
  }

  ghost predicate FieldOk(f: Field)
    decreases f, 1
  {
    && 0 < f.tag < TWO32 && KindOk(f.kind)
    && (f.initial.Some? && !f.kind.SubmessageKind? ==> EncodeValue(f.kind, f.initial.value).Some?)
    && (f.rule.Implicit? ==> f.initial.None? && NoUnion(f.kind))
    && (f.rule.Implicit? && (f.kind.SubmessageKind? || (f.kind.FixedBytesKind? && f.kind.dataSize > 0)) ==>
          f.tag < MAX_TAG)
  }

  ghost predicate FieldsOk(fs: Fields)
    decreases fs, 2
  {
    && (forall i :: 0 <= i < |fs| ==> FieldOk(fs[i]))
    && forall i, j :: 0 <= i < j < |fs| ==> fs[i].tag != fs[j].tag
  }

  /** Lengths fit the 32 bits they are read back into. */
  ghost predicate ValueOk(k: Kind, v: Value)
    decreases v, 0
  {
    match k
    case SubmessageKind(fs) =>
      v.Message? ==>
        && SlotsOk(fs, v.slots)
        && (EncodeFields(fs, v.slots, v.which).Some? ==> |EncodeFields(fs, v.slots, v.which).value| < TWO32)
    case _ => true
  }

  /** An implicit field holds a value of its type whether or not it is written. */
  ghost predicate SlotOk(f: Field, slot: Slot)
    decreases slot, 1
  {
    match slot
    case One(_, v) => ValueOk(f.kind, v) && (f.rule.Implicit? ==> EncodeValue(f.kind, v).Some?)
    case Many(items) =>
      && (forall v :: v in items ==> ValueOk(f.kind, v))
      && (EncodePacked(f.kind, items).Some? ==> |EncodePacked(f.kind, items).value| < TWO32)
  }

  ghost predicate SlotsOk(fs: Fields, slots: seq<Slot>)
    decreases slots, 2
  {
    |fs| == |slots| && forall i :: 0 <= i < |slots| ==> SlotOk(fs[i], slots[i])
  }

  // ---- what can be read again ----

  /** Whether the encoder writes anything for the field. */
  predicate Written(f: Field, slot: Slot, which: map<nat, nat>) {
    match slot
    case One(_, _) => Present(f, slot, which)
    case Many(items) => items != []
  }

  /** A string has room for its NUL, and of a submessage everything can be read again. */
  ghost predicate Readable(k: Kind, v: Value)
    decreases v, 0
  {
    match k
    case StringKind(_) => v.Text? ==> TextLen(v.buffer) < |v.buffer|
    case SubmessageKind(fs) => v.Message? ==> SlotsReadable(fs, v.slots, v.which)
    case _ => true
  }

  /** What is written has a tag below 2^29 and can be read; what is not written although it has no
      has-flag is what its absence is read as. */
  ghost predicate SlotReadable(f: Field, slot: Slot, which: map<nat, nat>)
    decreases slot, 1
  {
    if Written(f, slot, which) then
      && f.tag < MAX_TAG
      && match slot
         case One(_, v) => Readable(f.kind, v)
         case Many(items) => forall v :: v in items ==> Readable(f.kind, v)
    else f.rule.Implicit? && slot.One? ==> Blank(f.kind, slot.value)
  }

  ghost predicate SlotsReadable(fs: Fields, slots: seq<Slot>, which: map<nat, nat>)
    decreases slots, 2
  {
    forall i :: 0 <= i < |slots| && i < |fs| ==> SlotReadable(fs[i], slots[i], which)
  }

  /** Of a submessage that counts as zero: no optional field is there, no array has an entry, and no field
      has a default other than zero. */
  ghost predicate Blank(k: Kind, v: Value)
    decreases v, 0
  {
    k.SubmessageKind? && v.Message? ==>
      forall i :: 0 <= i < |v.slots| && i < |k.fields| ==> BlankSlot(k.fields[i], v.slots[i])
  }

  ghost predicate BlankSlot(f: Field, slot: Slot)
    decreases slot, 1
  {
    match slot
    case Many(items) => items == []
    case One(has, v) =>
      if f.rule.Optional? then !has
      else if f.kind.SubmessageKind? then Blank(f.kind, v)
      else f.initial.Some? ==> IsZero(f.kind, f.initial.value)
  }

  // ---- the same message ----

  /** Equal up to the bytes after a string's NUL and the values of absent fields. */
  ghost predicate Same(k: Kind, v: Value, w: Value)
    decreases v, 0
  {
    match v
    case Text(a) => w.Text? && a[..TextLen(a)] == w.buffer[..TextLen(w.buffer)]
    case Message(slots, which) =>
      k.SubmessageKind? && w.Message? && SameMessage(k.fields, slots, which, w.slots, w.which)
    case _ => v == w
  }

  ghost predicate SameSlot(f: Field, a: Slot, aWhich: map<nat, nat>, b: Slot, bWhich: map<nat, nat>)
    decreases a, 1
  {
    match f.rule
    case Repeated(_) =>
      a.Many? && b.Many? && |a.items| == |b.items| &&
      forall i :: 0 <= i < |a.items| ==> Same(f.kind, a.items[i], b.items[i])
    case Optional => a.One? && b.One? && a.has == b.has && (a.has ==> Same(f.kind, a.value, b.value))
    case Oneof(_) =>
      a.One? && b.One? && Active(f, aWhich) == Active(f, bWhich) &&
      (Active(f, aWhich) ==> Same(f.kind, a.value, b.value))
    case _ => a.One? && b.One? && Same(f.kind, a.value, b.value)
  }

  ghost predicate SameMessage(fs: Fields, a: seq<Slot>, aWhich: map<nat, nat>, b: seq<Slot>, bWhich: map<nat, nat>)
    decreases a, 2
  {
    |fs| == |a| == |b| && forall i :: 0 <= i < |a| ==> SameSlot(fs[i], a[i], aWhich, b[i], bWhich)
  }

  // ---- scalars ----

  lemma SignedBack(n: int, size: nat)
    requires FitsSigned(n, size)
    ensures ToUnsigned(n) < TWO64
    ensures (if size == 8 then ToSigned(ToUnsigned(n)) else ToSigned32(ToUnsigned(n))) == n
  {
    if size != 8 && n < 0 {
      assert n + TWO64 == TWO32 * (TWO32 - 1) + (n + TWO32);
      RemainderIs(n + TWO64, TWO32, TWO32 - 1, n + TWO32);
    } else if size != 8 {
      SmallMod(n, TWO32);
    }
  }

  lemma FixedBack(n: nat, width: nat, rest: seq<Byte>)
    requires (width == 4 && n < TWO32) || (width == 8 && n < TWO64)
    ensures DecodeFixed(width, Fixed(n, width) + rest) == Ok(Number(n), rest)
  {
    Pow256Constants();
    FixedRoundTrip(n, width);
    TakeAll(Fixed(n, width), rest);
  }

  lemma LengthBack(body: seq<Byte>, rest: seq<Byte>)
    requires |body| < TWO32
    ensures DecodeVarint32(Varint(|body|) + body + rest) == Ok(|body|, body + rest)
  {
    Varint32RoundTrip(|body|, body + rest);
    Assoc(Varint(|body|), body, rest);
  }

  lemma DelimitedFrom(s: seq<Byte>, body: seq<Byte>, rest: seq<Byte>)
    requires DecodeVarint32(s) == Ok(|body|, body + rest)
    ensures Delimited(s) == Ok(body, rest)
  {
    TakeAll(body, rest);
  }

  lemma DelimitedBack(body: seq<Byte>, rest: seq<Byte>)
    requires |body| < TWO32
    ensures Delimited(Varint(|body|) + body + rest) == Ok(body, rest)
    ensures DecodeVarint32(Varint(|body|) + body + rest) == Ok(|body|, body + rest)
  {
    LengthBack(body, rest);
    DelimitedFrom(Varint(|body|) + body + rest, body, rest);
  }

  lemma TextBack(buffer: seq<Byte>, was: seq<Byte>, rest: seq<Byte>)
    requires TextLen(buffer) < |buffer| < TWO32
    ensures var text := buffer[..TextLen(buffer)];
            var r := DecodeText(|buffer|, Varint(|text|) + text + rest, was);
            r.Ok? && r.rest == rest && r.value.Text? && r.value.buffer[..TextLen(r.value.buffer)] == text
  {
    var text := buffer[..TextLen(buffer)];
    DelimitedBack(text, rest);
    SmallMod(|text| + 1, TWO32);
    TakeAll(text, rest);
    var tail: seq<Byte> := [0] + (if |text| + 1 <= |was| then was[|text| + 1..] else []);
    TextLenOf(text, tail);
    assert text + tail == text + [0] + (if |text| + 1 <= |was| then was[|text| + 1..] else []);
  }

  /** No size leaves room for a NUL in a buffer of that size, also when the size wraps. */
  lemma NoRoomForNul(n: nat)
    requires n < TWO32
    ensures (n + 1) % TWO32 < n || (n + 1) % TWO32 > n
  {
    if n + 1 < TWO32 { SmallMod(n + 1, TWO32); }
  }

  lemma NoNulNoText(n: nat, s: seq<Byte>, was: seq<Byte>, tail: seq<Byte>)
    requires n < TWO32 && DecodeVarint32(s) == Ok(n, tail)
    ensures DecodeText(n, s, was).Fail?
  {
    NoRoomForNul(n);
  }

  lemma FullTextIsWritten(k: Kind, v: Value)
    requires k.StringKind? && v.Text? && TextLen(v.buffer) == |v.buffer| == k.dataSize
    ensures EncodeValue(k, v) == Some(Varint(|v.buffer|) + v.buffer)
  {
    assert v.buffer[..|v.buffer|] == v.buffer;
  }

  /** A string that fills its buffer is written whole, and then there is no room for its NUL. */
  lemma FullTextIsRefused(k: Kind, v: Value, isEntry: bool, was: Value, rest: seq<Byte>)
    requires k.StringKind? && v.Text? && TextLen(v.buffer) == |v.buffer| == k.dataSize < TWO32
    ensures EncodeValue(k, v) == Some(Varint(|v.buffer|) + v.buffer)
    ensures DecodeValue(k, isEntry, Varint(|v.buffer|) + v.buffer + rest, was).Fail?
  {
    FullTextIsWritten(k, v);
    LengthBack(v.buffer, rest);
    NoNulNoText(k.dataSize, Varint(|v.buffer|) + v.buffer + rest,
                if was.Text? then was.buffer else Zeros(k.dataSize), v.buffer + rest);
  }

  lemma {:induction false} TextLenOf(text: seq<Byte>, tail: seq<Byte>)
    requires (forall i :: 0 <= i < |text| ==> text[i] != 0) && tail != [] && tail[0] == 0
    ensures TextLen(text + tail) == |text|
    ensures (text + tail)[..|text|] == text
  {
    if text == [] {
      assert text + tail == tail;
    } else {
      assert (text + tail)[1..] == text[1..] + tail;
      TextLenOf(text[1..], tail);
    }
  }

  // ---- values ----

  /** The value is back, with nothing of the data left over but `rest`. */
  ghost predicate Back(k: Kind, v: Value, r: Result<Value>, rest: seq<Byte>) {
    r.Ok? && r.rest == rest && Same(k, v, r.value)
  }

  lemma SignedValueBack(k: Kind, v: Value, isEntry: bool, was: Value, rest: seq<Byte>)
    requires k.SignedKind? && EncodeValue(k, v).Some?
    ensures Back(k, v, DecodeValue(k, isEntry, EncodeValue(k, v).value + rest, was), rest)
  {
    SignedBack(v.n, k.size);
    VarintRoundTrip(ToUnsigned(v.n), rest);
  }

  lemma UnsignedValueBack(k: Kind, v: Value, isEntry: bool, was: Value, rest: seq<Byte>)
    requires k.UnsignedKind? && EncodeValue(k, v).Some?
    ensures Back(k, v, DecodeValue(k, isEntry, EncodeValue(k, v).value + rest, was), rest)
  {
    VarintRoundTrip(v.n, rest);
  }

  lemma ZigzagValueBack(k: Kind, v: Value, isEntry: bool, was: Value, rest: seq<Byte>)
    requires k.ZigzagKind? && EncodeValue(k, v).Some?
    ensures Back(k, v, DecodeValue(k, isEntry, EncodeValue(k, v).value + rest, was), rest)
  {
    ZigzagRoundTrip(v.n);
    VarintRoundTrip(Zigzag(v.n), rest);
  }

  lemma BytesValueBack(k: Kind, v: Value, isEntry: bool, was: Value, rest: seq<Byte>)
    requires (k.BytesKind? || k.FixedBytesKind?) && KindOk(k) && EncodeValue(k, v).Some?
    ensures Back(k, v, DecodeValue(k, isEntry, EncodeValue(k, v).value + rest, was), rest)
  {
    DelimitedBack(v.bytes, rest);
    TakeAll(v.bytes, rest);
    assert v.bytes == [] ==> v.bytes == Zeros(0);
  }

  lemma TextValueBack(k: Kind, v: Value, isEntry: bool, was: Value, rest: seq<Byte>)
    requires k.StringKind? && KindOk(k) && EncodeValue(k, v).Some?
    ensures var r := DecodeValue(k, isEntry, EncodeValue(k, v).value + rest, was);
            if Readable(k, v) then Back(k, v, r, rest) else r.Fail?
  {
    if Readable(k, v) {
      TextBack(v.buffer, if was.Text? then was.buffer else Zeros(k.dataSize), rest);
    } else {
      FullTextIsRefused(k, v, isEntry, was, rest);
    }
  }

  /** Every value but a submessage comes back, over any previous contents; only a string without room for
      its NUL is refused. */
  lemma ScalarBack(k: Kind, v: Value, isEntry: bool, was: Value, rest: seq<Byte>)
    requires !k.SubmessageKind? && KindOk(k) && EncodeValue(k, v).Some?
    ensures var r := DecodeValue(k, isEntry, EncodeValue(k, v).value + rest, was);
            if Readable(k, v) then Back(k, v, r, rest) else r.Fail?
  {
    match k
    case SignedKind(_) => SignedValueBack(k, v, isEntry, was, rest);
    case UnsignedKind(_) => UnsignedValueBack(k, v, isEntry, was, rest);
    case ZigzagKind(_) => ZigzagValueBack(k, v, isEntry, was, rest);
    case Fixed32Kind => FixedBack(v.n, 4, rest);
    case Fixed64Kind => FixedBack(v.n, 8, rest);
    case StringKind(_) => TextValueBack(k, v, isEntry, was, rest);
    case BytesKind(_) => BytesValueBack(k, v, isEntry, was, rest);
    case FixedBytesKind(_) => BytesValueBack(k, v, isEntry, was, rest);
  }

  /** Where a value is decoded at all nothing is left over but `rest`, and it is back exactly when
      it is readable. */
  lemma {:induction false} ValueBack(k: Kind, v: Value, isEntry: bool, was: Value, rest: seq<Byte>)
    requires KindOk(k) && ValueOk(k, v) && EncodeValue(k, v).Some?
    requires k.SubmessageKind? && !isEntry ==> was == Zero(k)
    ensures var r := DecodeValue(k, isEntry, EncodeValue(k, v).value + rest, was);
            (r.Ok? ==> r.rest == rest) && (Back(k, v, r, rest) <==> Readable(k, v))
    decreases v, 10
  {
    if k.SubmessageKind? {
      var e := EncodeFields(k.fields, v.slots, v.which).value;
      DelimitedBack(e, rest);
      MessageBack(k.fields, v.slots, v.which);
    } else {
      ScalarBack(k, v, isEntry, was, rest);
    }
  }

  /** The list `all` is `done` followed by the items, each back if it is readable. */
  ghost predicate Appended(k: Kind, done: seq<Value>, items: seq<Value>, all: seq<Value>) {
    && |all| == |done| + |items| && all[..|done|] == done
    && forall i :: 0 <= i < |items| ==> (Same(k, items[i], all[|done| + i]) <==> Readable(k, items[i]))
  }

  lemma AppendedOne(k: Kind, done: seq<Value>, items: seq<Value>, w: Value, all: seq<Value>)
    requires items != [] && (Same(k, items[0], w) <==> Readable(k, items[0]))
    requires Appended(k, done + [w], items[1..], all)
    ensures Appended(k, done, items, all)
  {
    var d := done + [w];
    assert all[..|done|] == d[..|done|] == done by { assert d == all[..|d|]; }
    assert all[|done|] == d[|done|] == w by { assert d == all[..|d|]; }
    forall i | 0 <= i < |items| ensures Same(k, items[i], all[|done| + i]) <==> Readable(k, items[i]) {
      assert i > 0 ==> (Same(k, items[1..][i - 1], all[|d| + (i - 1)]) <==> Readable(k, items[1..][i - 1]));
    }
  }

  lemma {:induction false} PackedBack(k: Kind, items: seq<Value>, max: nat, done: seq<Value>)
    requires Packable(k) && KindOk(k) && EncodePacked(k, items).Some? && |done| + |items| <= max
    requires forall v :: v in items ==> ValueOk(k, v)
    ensures var r := DecodePacked(k, max, done, EncodePacked(k, items).value);
            r.Some? && Appended(k, done, items, r.value)
    decreases items, 11
  {
    if items != [] {
      var e, tail := EncodeValue(k, items[0]).value, EncodePacked(k, items[1..]).value;
      ScalarBack(k, items[0], true, Zero(k), tail);
      var w := DecodeValue(k, true, e + tail, Zero(k)).value;
      PackedBack(k, items[1..], max, done + [w]);
      AppendedOne(k, done, items, w, DecodePacked(k, max, done + [w], tail).value);
    }
  }

  // ---- records ----

  lemma {:induction false} FindBetweenIs(fs: Fields, a: nat, n: nat, i: nat)
    requires a <= n <= |fs| && i < |fs| && forall j :: 0 <= j < |fs| && j != i ==> fs[j].tag != fs[i].tag
    ensures FindBetween(fs, a, n, fs[i].tag) == if a <= i < n then Some(i) else None
    decreases n - a
  {
    if a < n { FindBetweenIs(fs, a + 1, n, i); }
  }

  lemma FindIs(fs: Fields, pos: nat, i: nat)
    requires FieldsOk(fs) && pos <= |fs| && i < |fs|
    ensures Find(fs, pos, fs[i].tag) == Some(i)
  {
    forall j | 0 <= j < |fs| && j != i ensures fs[j].tag != fs[i].tag {
      if j < i { assert fs[j].tag != fs[i].tag; } else { assert fs[i].tag != fs[j].tag; }
    }
    FindBetweenIs(fs, pos, |fs|, i);
    FindBetweenIs(fs, 0, pos, i);
  }

  /** A record with a readable tag is one round of the loop, or stops it. */
  lemma OneRecord(fs: Fields, i: nat, wt: nat, s: seq<Byte>, st: State)
    requires FieldsOk(fs) && StateOk(fs, st) && i < |fs| && wt < 8 && fs[i].tag < MAX_TAG
    ensures var r := DecodeField(fs[i], wt, st.slots[i], st.which, s);
            DecodeLoop(fs, TagBytes(fs[i].tag, wt) + s, st) ==
            if r.Fail? then Broken else DecodeLoop(fs, r.rest, Store(fs, st, i, r.value.0, r.value.1))
  {
    assert FieldOk(fs[i]);
    TagRoundTrip(fs[i].tag, wt, s);
    FindIs(fs, st.pos, i);
  }

  // ---- fields ----

  /** The first i fields are back if they are readable, the others are as they were initialized. */
  ghost predicate Progress(fs: Fields, slots: seq<Slot>, which: map<nat, nat>, i: nat, st: State) {
    && StateOk(fs, st) && |slots| == |fs| && i <= |fs|
    && (forall j :: 0 <= j < i ==> BackIfReadable(fs[j], slots[j], which, st.slots[j], st.which))
    && (forall j :: i <= j < |fs| ==> st.slots[j] == Default(fs[j]))
    && (forall g :: g in st.which ==> Chosen(fs, which, i, g, st.which[g]))
    && forall j :: 0 <= j < i && fs[j].rule.Required? ==> j in st.seen
  }

  ghost predicate BackIfReadable(f: Field, a: Slot, aWhich: map<nat, nat>, b: Slot, bWhich: map<nat, nat>) {
    var all := SameSlot(f, a, aWhich, b, bWhich) <==> SlotReadable(f, a, aWhich);
    all
  }

  ghost predicate Chosen(fs: Fields, which: map<nat, nat>, i: nat, g: nat, tag: nat) {
    g in which && which[g] == tag && exists j :: 0 <= j < i <= |fs| && fs[j].rule == Oneof(g) && fs[j].tag == tag
  }

  /** Filling field i completes one more field. */
  lemma ProgressStep(fs: Fields, slots: seq<Slot>, which: map<nat, nat>, i: nat, st: State, slot: Slot,
                     w: map<nat, nat>)
    requires FieldsOk(fs) && i < |fs| && Progress(fs, slots, which, i, st)
    requires || w == st.which
             || (fs[i].rule.Oneof? && Active(fs[i], which) && w == st.which[fs[i].rule.group := fs[i].tag])
    requires BackIfReadable(fs[i], slots[i], which, slot, w)
    ensures Progress(fs, slots, which, i + 1, Store(fs, st, i, slot, w))
  {
    var st' := Store(fs, st, i, slot, w);
    forall g | g in st'.which ensures Chosen(fs, which, i + 1, g, st'.which[g]) {
      if g in st.which && st'.which[g] == st.which[g] {
        assert Chosen(fs, which, i, g, st.which[g]);
      } else {
        assert fs[i].rule == Oneof(g) && fs[i].tag == st'.which[g];
      }
    }
    forall j | 0 <= j < i ensures BackIfReadable(fs[j], slots[j], which, st'.slots[j], w) {
      assert BackIfReadable(fs[j], slots[j], which, st.slots[j], st.which);
      OthersActive(fs, slots, which, i, j, st, w);
      StillBack(fs[j], slots[j], which, st.slots[j], st.which, w);
    }
  }

  /** A field does not depend on the members chosen in other groups. */
  lemma StillBack(f: Field, a: Slot, aWhich: map<nat, nat>, b: Slot, bWhich: map<nat, nat>, w: map<nat, nat>)
    requires BackIfReadable(f, a, aWhich, b, bWhich) && Active(f, w) == Active(f, bWhich)
    ensures BackIfReadable(f, a, aWhich, b, w)
  {
  }

  /** Choosing field i changes nothing for the fields before it. */
  lemma OthersActive(fs: Fields, slots: seq<Slot>, which: map<nat, nat>, i: nat, j: nat, st: State, w: map<nat, nat>)
    requires FieldsOk(fs) && j < i < |fs| && Progress(fs, slots, which, i, st)
    requires || w == st.which
             || (fs[i].rule.Oneof? && Active(fs[i], which) && w == st.which[fs[i].rule.group := fs[i].tag])
    ensures Active(fs[j], w) == Active(fs[j], st.which)
  {
    if w != st.which && fs[j].rule == fs[i].rule {
      var g := fs[i].rule.group;
      assert fs[j].tag != fs[i].tag;
      assert g in st.which ==> Chosen(fs, which, i, g, st.which[g]);
    }
  }

  /** An absent field needs no record. */
  lemma AbsentBack(fs: Fields, slots: seq<Slot>, which: map<nat, nat>, i: nat, st: State)
    requires FieldsOk(fs) && i < |fs| && Progress(fs, slots, which, i, st)
    requires SlotOk(fs[i], slots[i]) && EncodeField(fs[i], slots[i], which).Some?
    requires !Written(fs[i], slots[i], which)
    ensures Progress(fs, slots, which, i + 1, st)
  {
    var f := fs[i];
    forall g | g in st.which ensures Chosen(fs, which, i + 1, g, st.which[g]) {
      assert Chosen(fs, which, i, g, st.which[g]);
    }
    assert BackIfReadable(f, slots[i], which, st.slots[i], st.which) by { AbsentIsSame(fs, slots, which, i, st); }
  }

  lemma AbsentIsSame(fs: Fields, slots: seq<Slot>, which: map<nat, nat>, i: nat, st: State)
    requires FieldsOk(fs) && i < |fs| && Progress(fs, slots, which, i, st)
    requires SlotOk(fs[i], slots[i]) && EncodeField(fs[i], slots[i], which).Some?
    requires !Written(fs[i], slots[i], which)
    ensures BackIfReadable(fs[i], slots[i], which, st.slots[i], st.which)
  {
    var f := fs[i];
    assert FieldOk(f) && st.slots[i] == Default(f);
    if f.rule.Implicit? {
      ZeroIsSame(f.kind, slots[i].value);
    }
    if f.rule.Oneof? && f.rule.group in st.which {
      assert Chosen(fs, which, i, f.rule.group, st.which[f.rule.group]);
    }
  }

  // ---- values that count as zero ----

  lemma ScalarZeroIsSame(k: Kind, v: Value, w: Value)
    requires !k.SubmessageKind? && IsZero(k, v)
    requires EncodeValue(k, v).Some? && EncodeValue(k, w).Some?
    ensures Same(k, v, w) <==> IsZero(k, w)
  {
    if k.StringKind? {
      var a, b := v.buffer, w.buffer;
      assert a[..TextLen(a)] == [];
    }
  }

  lemma ZeroEncodes(k: Kind)
    requires !k.SubmessageKind? && KindOk(k) && (k.BytesKind? ==> k.dataSize >= BYTES_OFFSET)
    ensures EncodeValue(k, Zero(k)).Some? && (IsZero(k, Zero(k)) || k.FixedBytesKind?)
  {
  }

  /** A value that counts as zero is what its absence is read as, exactly when it is blank. */
  lemma {:induction false} ZeroIsSame(k: Kind, v: Value)
    requires KindOk(k) && NoUnion(k) && ValueOk(k, v) && IsZero(k, v) && EncodeValue(k, v).Some?
    ensures Same(k, v, Zero(k)) <==> Blank(k, v)
    decreases v, 1
  {
    if k.SubmessageKind? {
      var fs, slots := k.fields, v.slots;
      forall i | 0 <= i < |slots|
        ensures SameSlot(fs[i], slots[i], v.which, Defaults(fs)[i], map[]) <==> BlankSlot(fs[i], slots[i])
      {
        DefaultsAre(fs, i);
        EveryFieldEncodes(fs, slots, v.which, i);
        assert fs[i] in fs && FieldOk(fs[i]) && SlotOk(fs[i], slots[i]);
        ZeroSlotIsSame(fs[i], slots[i], v.which);
      }
    } else {
      ZeroEncodes(k);
      ScalarZeroIsSame(k, v, Zero(k));
    }
  }

  lemma {:induction false} ZeroSlotIsSame(f: Field, slot: Slot, which: map<nat, nat>)
    requires FieldOk(f) && !f.rule.Oneof? && NoUnion(f.kind) && SlotOk(f, slot) && SlotIsZero(f.kind, slot)
    requires EncodeField(f, slot, which).Some?
    ensures SameSlot(f, slot, which, Default(f), map[]) <==> BlankSlot(f, slot)
    decreases slot, 1
  {
    if slot.One? && !f.rule.Optional? {
      if f.kind.SubmessageKind? || f.initial.None? {
        ZeroIsSame(f.kind, slot.value);
      } else {
        ScalarZeroIsSame(f.kind, slot.value, f.initial.value);
      }
    }
  }

  /** One item with its tag is one round of the loop, or stops it. */
  lemma {:induction false} ItemBack(fs: Fields, i: nat, v: Value, st: State, rest: seq<Byte>) returns (w: Option<Value>)
    requires FieldsOk(fs) && StateOk(fs, st) && i < |fs| && fs[i].rule.Repeated? && !Packable(fs[i].kind)
    requires st.slots[i].Many? && |st.slots[i].items| < fs[i].rule.max && fs[i].tag < MAX_TAG
    requires Tagged(fs[i].kind, fs[i].tag, v).Some? && ValueOk(fs[i].kind, v)
    ensures w.None? ==> !Readable(fs[i].kind, v)
    ensures w.Some? ==> (Same(fs[i].kind, v, w.value) <==> Readable(fs[i].kind, v))
    ensures DecodeLoop(fs, Tagged(fs[i].kind, fs[i].tag, v).value + rest, st) ==
            if w.None? then Broken
            else DecodeLoop(fs, rest, Store(fs, st, i, Many(st.slots[i].items + [w.value]), st.which))
    decreases v, 11
  {
    var f := fs[i];
    assert FieldOk(f);
    var e, wt := EncodeValue(f.kind, v).value, WireType(f.kind);
    ValueBack(f.kind, v, true, Zero(f.kind), rest);
    var r := DecodeValue(f.kind, true, e + rest, Zero(f.kind));
    Assoc(TagBytes(f.tag, wt), e, rest);
    OneRecord(fs, i, wt, e + rest, st);
    w := if r.Ok? then Some(r.value) else None;
  }

  /** Items with a tag in front of each, one round of the loop for each. */
  lemma {:induction false} ItemsBack(fs: Fields, i: nat, items: seq<Value>, st: State, rest: seq<Byte>)
    returns (all: Option<seq<Value>>)
    requires FieldsOk(fs) && StateOk(fs, st) && i < |fs| && fs[i].rule.Repeated? && !Packable(fs[i].kind)
    requires st.slots[i].Many? && |st.slots[i].items| + |items| <= fs[i].rule.max && items != []
    requires EncodeItems(fs[i].kind, fs[i].tag, items).Some? && fs[i].tag < MAX_TAG
    requires forall v :: v in items ==> ValueOk(fs[i].kind, v)
    ensures all.None? ==> exists v :: v in items && !Readable(fs[i].kind, v)
    ensures all.Some? ==> Appended(fs[i].kind, st.slots[i].items, items, all.value)
    ensures DecodeLoop(fs, EncodeItems(fs[i].kind, fs[i].tag, items).value + rest, st) ==
            if all.None? then Broken else DecodeLoop(fs, rest, Store(fs, st, i, Many(all.value), st.which))
    decreases items, 12
  {
    var f, had := fs[i], st.slots[i].items;
    var e := Tagged(f.kind, f.tag, items[0]).value;
    var tail := EncodeItems(f.kind, f.tag, items[1..]).value;
    var w := ItemBack(fs, i, items[0], st, tail + rest);
    Assoc(e, tail, rest);
    if w.None? {
      return None;
    }
    var st' := Store(fs, st, i, Many(had + [w.value]), st.which);
    if items[1..] == [] {
      all := Some(had + [w.value]);
      assert tail + rest == rest;
      assert all.value[..|all.value|] == all.value;
    } else {
      all := ItemsBack(fs, i, items[1..], st', rest);
      if all.None? {
        return;
      }
      assert Store(fs, st', i, Many(all.value), st.which) == Store(fs, st, i, Many(all.value), st.which);
    }
    AppendedOne(f.kind, had, items, w.value, all.value);
  }

  /** The records of field i bring it back, if it is readable. */
  lemma {:induction false} FieldBack(fs: Fields, slots: seq<Slot>, which: map<nat, nat>, i: nat, st: State,
                                     rest: seq<Byte>)
    returns (st': Option<State>)
    requires FieldsOk(fs) && i < |fs| && Progress(fs, slots, which, i, st)
    requires SlotOk(fs[i], slots[i]) && EncodeField(fs[i], slots[i], which).Some?
    requires Written(fs[i], slots[i], which) ==> fs[i].tag < MAX_TAG
    ensures Passed(fs, slots, which, i, EncodeField(fs[i], slots[i], which).value, st, rest, st')
    decreases slots[i], 12
  {
    var f, slot := fs[i], slots[i];
    assert FieldOk(f) && st.slots[i] == Default(f);
    var e := EncodeField(f, slot, which).value;
    if !Written(f, slot, which) {
      AbsentBack(fs, slots, which, i, st);
      assert e + rest == rest;
      st' := Some(st);
    } else if slot.One? {
      st' := SingleBack(fs, slots, which, i, st, rest);
    } else if Packable(f.kind) {
      st' := PackedFieldBack(fs, slots, which, i, st, rest);
    } else {
      st' := ItemsFieldBack(fs, slots, which, i, st, rest);
    }
  }

  /** The loop goes past the records e of field i with one more field filled, or breaks off because
      the field is not readable. */
  ghost predicate Passed(fs: Fields, slots: seq<Slot>, which: map<nat, nat>, i: nat, e: seq<Byte>, st: State,
                         rest: seq<Byte>, st': Option<State>)
    requires StateOk(fs, st) && i < |fs| == |slots|
  {
    match st'
    case None => !SlotReadable(fs[i], slots[i], which) && DecodeLoop(fs, e + rest, st) == Broken
    case Some(s) =>
      Progress(fs, slots, which, i + 1, s) && DecodeLoop(fs, e + rest, st) == DecodeLoop(fs, rest, s)
  }

  lemma {:induction false} ItemsFieldBack(fs: Fields, slots: seq<Slot>, which: map<nat, nat>, i: nat, st: State,
                                          rest: seq<Byte>)
    returns (st': Option<State>)
    requires FieldsOk(fs) && i < |fs| && Progress(fs, slots, which, i, st) && fs[i].tag < MAX_TAG
    requires SlotOk(fs[i], slots[i]) && EncodeField(fs[i], slots[i], which).Some?
    requires slots[i].Many? && slots[i].items != [] && !Packable(fs[i].kind)
    ensures Passed(fs, slots, which, i, EncodeField(fs[i], slots[i], which).value, st, rest, st')
    decreases slots[i], 11
  {
    assert FieldOk(fs[i]) && st.slots[i] == Default(fs[i]);
    var ws := ItemsBack(fs, i, slots[i].items, st, rest);
    if ws.None? {
      return None;
    }
    ItemsAreSlot(fs[i], slots[i], which, ws.value, st.which);
    ProgressStep(fs, slots, which, i, st, Many(ws.value), st.which);
    st' := Some(Store(fs, st, i, Many(ws.value), st.which));
  }

  lemma ItemsAreSlot(f: Field, slot: Slot, which: map<nat, nat>, ws: seq<Value>, w: map<nat, nat>)
    requires f.rule.Repeated? && slot.Many? && slot.items != [] && f.tag < MAX_TAG
    requires Appended(f.kind, [], slot.items, ws)
    ensures BackIfReadable(f, slot, which, Many(ws), w)
  {
    if SlotReadable(f, slot, which) {
      assert forall i :: 0 <= i < |ws| ==> Readable(f.kind, slot.items[i]);
    } else {
      var v :| v in slot.items && !Readable(f.kind, v);
      var i :| 0 <= i < |slot.items| && slot.items[i] == v;
      assert !Same(f.kind, slot.items[i], ws[0 + i]);
    }
  }

  lemma {:induction false} PackedFieldBack(fs: Fields, slots: seq<Slot>, which: map<nat, nat>, i: nat, st: State,
                                           rest: seq<Byte>)
    returns (st': Option<State>)
    requires FieldsOk(fs) && i < |fs| && Progress(fs, slots, which, i, st) && fs[i].tag < MAX_TAG
    requires SlotOk(fs[i], slots[i]) && EncodeField(fs[i], slots[i], which).Some?
    requires slots[i].Many? && slots[i].items != [] && Packable(fs[i].kind)
    ensures Passed(fs, slots, which, i, EncodeField(fs[i], slots[i], which).value, st, rest, st')
    decreases slots[i], 11
  {
    var f, items := fs[i], slots[i].items;
    assert FieldOk(f) && st.slots[i] == Default(f);
    var p := EncodePacked(f.kind, items).value;
    var s := Varint(|p|) + p + rest;
    assert EncodeField(f, slots[i], which).value == TagBytes(f.tag, WT_STRING) + Varint(|p|) + p;
    AssocFour(TagBytes(f.tag, WT_STRING), Varint(|p|), p, rest);
    DelimitedBack(p, rest);
    PackedBack(f.kind, items, f.rule.max, []);
    var ws := DecodePacked(f.kind, f.rule.max, [], p).value;
    OneRecord(fs, i, WT_STRING, s, st);
    ItemsAreSlot(f, slots[i], which, ws, st.which);
    ProgressStep(fs, slots, which, i, st, Many(ws), st.which);
    st' := Some(Store(fs, st, i, Many(ws), st.which));
  }

  lemma {:induction false} SingleBack(fs: Fields, slots: seq<Slot>, which: map<nat, nat>, i: nat, st: State,
                                      rest: seq<Byte>)
    returns (st': Option<State>)
    requires FieldsOk(fs) && i < |fs| && Progress(fs, slots, which, i, st) && fs[i].tag < MAX_TAG
    requires SlotOk(fs[i], slots[i]) && EncodeField(fs[i], slots[i], which).Some?
    requires slots[i].One? && Present(fs[i], slots[i], which) && !fs[i].rule.Repeated?
    ensures Passed(fs, slots, which, i, EncodeField(fs[i], slots[i], which).value, st, rest, st')
    decreases slots[i], 11
  {
    var f, v := fs[i], slots[i].value;
    assert FieldOk(f) && st.slots[i] == Default(f);
    var e, wt := EncodeValue(f.kind, v).value, WireType(f.kind);
    var w := SingleField(f, v, st.which, rest);
    assert EncodeField(f, slots[i], which).value == TagBytes(f.tag, wt) + e;
    Assoc(TagBytes(f.tag, wt), e, rest);
    OneRecord(fs, i, wt, e + rest, st);
    if w.None? {
      return None;
    }
    var which' := if f.rule.Oneof? then st.which[f.rule.group := f.tag] else st.which;
    ProgressStep(fs, slots, which, i, st, One(f.rule.Optional?, w.value), which');
    st' := Some(Store(fs, st, i, One(f.rule.Optional?, w.value), which'));
  }

  /** A present field decodes over its default. */
  lemma {:induction false} SingleField(f: Field, v: Value, which: map<nat, nat>, rest: seq<Byte>)
    returns (w: Option<Value>)
    requires FieldOk(f) && !f.rule.Repeated? && ValueOk(f.kind, v) && EncodeValue(f.kind, v).Some?
    ensures w.None? ==> !Readable(f.kind, v)
    ensures w.Some? ==> (Same(f.kind, v, w.value) <==> Readable(f.kind, v))
    ensures var which' := if f.rule.Oneof? then which[f.rule.group := f.tag] else which;
            DecodeField(f, WireType(f.kind), Default(f), which, EncodeValue(f.kind, v).value + rest) ==
            if w.None? then Fail else Ok((One(f.rule.Optional?, w.value), which'), rest)
    decreases v, 11
  {
    var s := EncodeValue(f.kind, v).value + rest;
    var was := if f.rule.Oneof? && f.kind.SubmessageKind? then Zero(f.kind) else Default(f).value;
    ValueBack(f.kind, v, false, was, rest);
    var r := DecodeValue(f.kind, false, s, was);
    w := if r.Ok? then Some(r.value) else None;
  }

  /** All the tags written here can be read, whatever is in the submessages. */
  ghost predicate TagsReadable(fs: Fields, slots: seq<Slot>, which: map<nat, nat>)
    requires |fs| == |slots|
  {
    forall i :: 0 <= i < |fs| && Written(fs[i], slots[i], which) ==> fs[i].tag < MAX_TAG
  }

  lemma {:induction false} FieldsBack(fs: Fields, slots: seq<Slot>, which: map<nat, nat>, i: nat, st: State)
    requires FieldsOk(fs) && i <= |fs| && SlotsOk(fs, slots) && Progress(fs, slots, which, i, st)
    requires EncodeFields(fs[i..], slots[i..], which).Some? && TagsReadable(fs, slots, which)
    ensures var r := DecodeLoop(fs, EncodeFields(fs[i..], slots[i..], which).value, st);
            && (r.Broken? ==> !SlotsReadable(fs, slots, which))
            && (r.End? ==> r.unread == [] && Progress(fs, slots, which, |fs|, r.state))
    decreases slots, 13, |fs| - i
  {
    if i < |fs| {
      assert fs[i..][1..] == fs[i + 1..] && slots[i..][1..] == slots[i + 1..];
      assert SlotOk(fs[i], slots[i]) && slots[i] in slots;
      var tail := EncodeFields(fs[i + 1..], slots[i + 1..], which).value;
      var st' := FieldBack(fs, slots, which, i, st, tail);
      if st'.Some? {
        FieldsBack(fs, slots, which, i + 1, st'.value);
      }
    }
  }

  // ---- tags that cannot be read ----

  lemma OtherField(fs: Fields, i: nat, tag: nat, wt: nat, s: seq<Byte>, st: State)
    requires FieldsOk(fs) && StateOk(fs, st) && i < |fs| && tag != fs[i].tag
    requires i !in st.seen && !Active(fs[i], st.which)
    ensures var r := DecodeOne(fs, tag, wt, s, st);
            r.Ok? ==> r.value.slots[i] == st.slots[i] && i !in r.value.seen && !Active(fs[i], r.value.which)
  {
    var j := Find(fs, st.pos, tag);
    if j.Some? {
      OnlyItsGroup(fs[j.value], wt, st.slots[j.value], st.which, s);
    }
  }

  lemma OnlyItsGroup(f: Field, wt: nat, slot: Slot, which: map<nat, nat>, s: seq<Byte>)
    ensures var r := DecodeField(f, wt, slot, which, s);
            r.Ok? ==> r.value.1 == which || (f.rule.Oneof? && r.value.1 == which[f.rule.group := f.tag])
  {
  }

  /** No record is ever read for a field whose tag is 2^29 or more. */
  lemma {:induction false} NeverRead(fs: Fields, i: nat, s: seq<Byte>, st: State)
    requires FieldsOk(fs) && StateOk(fs, st) && i < |fs| && fs[i].tag >= MAX_TAG
    requires i !in st.seen && !Active(fs[i], st.which)
    ensures var r := DecodeLoop(fs, s, st);
            r.End? ==> r.state.slots[i] == st.slots[i] && i !in r.state.seen && !Active(fs[i], r.state.which)
    decreases |s|
  {
    if s != [] && DecodeTag(s).Tag? {
      var Tag(tag, wt, rest) := DecodeTag(s);
      OtherField(fs, i, tag, wt, rest, st);
      var r := DecodeOne(fs, tag, wt, rest, st);
      if r.Ok? {
        NeverRead(fs, i, r.rest, r.value);
      }
    }
  }

  /** What such a field holds is not what it is initialized to. */
  lemma DefaultIsNot(f: Field, slot: Slot, which: map<nat, nat>, w: map<nat, nat>)
    requires FieldOk(f) && f.tag >= MAX_TAG && SlotOk(f, slot) && Written(f, slot, which)
    requires EncodeField(f, slot, which).Some? && !f.rule.Required? && !Active(f, w)
    ensures !SameSlot(f, slot, which, Default(f), w)
  {
    if f.rule.Implicit? {
      var v, z := slot.value, Zero(f.kind);
      assert !IsZero(f.kind, v);
      if v.Text? {
        assert TextLen(v.buffer) > 0 && z.Text? && TextLen(z.buffer) == 0;
      }
    }
  }

  lemma LostIsNotBack(fs: Fields, slots: seq<Slot>, which: map<nat, nat>, i: nat)
    requires FieldsOk(fs) && SlotsOk(fs, slots) && EncodeFields(fs, slots, which).Some?
    requires i < |fs| && Written(fs[i], slots[i], which) && fs[i].tag >= MAX_TAG
    ensures var r := DecodeMessage(fs, EncodeFields(fs, slots, which).value, Defaults(fs), map[]);
            r.Fail? || !SameMessage(fs, slots, which, r.value.slots, r.value.which)
  {
    var st := State(Defaults(fs), map[], 0, {});
    var e := EncodeFields(fs, slots, which).value;
    NeverRead(fs, i, e, st);
    DefaultsAre(fs, i);
    var r := DecodeMessage(fs, e, Defaults(fs), map[]);
    if r.Ok? {
      assert !fs[i].rule.Required?;
      EveryFieldEncodes(fs, slots, which, i);
      assert FieldOk(fs[i]) && SlotOk(fs[i], slots[i]);
      DefaultIsNot(fs[i], slots[i], which, r.value.which);
    }
  }

  lemma {:induction false} EveryFieldEncodes(fs: Fields, slots: seq<Slot>, which: map<nat, nat>, i: nat)
    requires |fs| == |slots| && i < |fs| && EncodeFields(fs, slots, which).Some?
    ensures EncodeField(fs[i], slots[i], which).Some?
  {
    if i > 0 { EveryFieldEncodes(fs[1..], slots[1..], which, i - 1); }
  }

  lemma {:induction false} DefaultsAre(fs: Fields, i: nat)
    requires i < |fs|
    ensures Defaults(fs)[i] == Default(fs[i])
  {
    if i > 0 { DefaultsAre(fs[1..], i - 1); }
  }

  /** A message decoded over its defaults is the message that was encoded, exactly when, in it and in its
      submessages, every tag that was written is below 2^29, every string that was written has room for its
      NUL, and every submessage that was left out as zero is blank. */
  lemma {:induction false} MessageBack(fs: Fields, slots: seq<Slot>, which: map<nat, nat>)
    requires FieldsOk(fs) && SlotsOk(fs, slots) && EncodeFields(fs, slots, which).Some?
    ensures var r := DecodeMessage(fs, EncodeFields(fs, slots, which).value, Defaults(fs), map[]);
            && ((r.Ok? && SameMessage(fs, slots, which, r.value.slots, r.value.which)) <==>
                SlotsReadable(fs, slots, which))
            && (SlotsReadable(fs, slots, which) ==> r.rest == [])
    decreases slots, 14
  {
    if TagsReadable(fs, slots, which) {
      var st := State(Defaults(fs), map[], 0, {});
      forall j | 0 <= j < |fs| ensures st.slots[j] == Default(fs[j]) { DefaultsAre(fs, j); }
      assert fs[0..] == fs && slots[0..] == slots;
      FieldsBack(fs, slots, which, 0, st);
    } else {
      var i :| 0 <= i < |fs| && Written(fs[i], slots[i], which) && fs[i].tag >= MAX_TAG;
      LostIsNotBack(fs, slots, which, i);
      assert !SlotReadable(fs[i], slots[i], which);
    }
  }

  /** An optional 32-bit number. */
  function NumberField(tag: nat): Field {
    Field(tag, UnsignedKind(4), Optional, None)
  }

  /** An optional number with tag 2^29 is encoded without an error, and decoding ends at its tag without
      an error and without the number. */
  lemma HighTagIsLost(n: nat)
    requires n < TWO32
    ensures var fs := [NumberField(MAX_TAG)];
            var e := EncodeFields(fs, [One(true, Number(n))], map[]);
            && e.Some?
            && DecodeMessage(fs, e.value, Defaults(fs), map[]) == Ok(Message([One(false, Number(0))], map[]), Varint(n))
  {
    var fs := [NumberField(MAX_TAG)];
    var e := TagBytes(MAX_TAG, WT_VARINT) + Varint(n);
    OneNumber(MAX_TAG, n, Some([]), [], []);
    assert e + [] == e;
    assert fs + [] == fs && [One(true, Number(n))] + [] == [One(true, Number(n))];
    TagReadsAs(MAX_TAG, WT_VARINT, Varint(n));
    assert fs[1..] == [];
    assert Defaults(fs) == [One(false, Number(0))];
  }

  lemma OnlyField(f: Field, slot: Slot, which: map<nat, nat>)
    ensures EncodeFields([f], [slot], which) == EncodeField(f, slot, which)
  {
    assert [f][1..] == [] && [slot][1..] == [];
    var e := EncodeField(f, slot, which);
    assert EncodeFields([f], [slot], which) == Join(e, Some([]));
    assert e.Some? ==> e.value + [] == e.value;
  }

  /** An implicit submessage whose array starts with a zero counts as zero: it is not written, and the
      entries behind the zero are lost. */
  lemma ZeroFirstIsLost(n: nat)
    requires n < TWO32
    ensures var inner := [Field(1, UnsignedKind(4), Repeated(2), None)];
            var fs := [Field(1, SubmessageKind(inner), Implicit, None)];
            var m := Message([Many([Number(0), Number(n)])], map[]);
            && EncodeFields(fs, [One(false, m)], map[]) == Some([])
            && DecodeMessage(fs, [], Defaults(fs), map[]) ==
               Ok(Message([One(false, Message([Many([])], map[]))], map[]), [])
  {
    var inner := [Field(1, UnsignedKind(4), Repeated(2), None)];
    var f := Field(1, SubmessageKind(inner), Implicit, None);
    var slot := One(false, Message([Many([Number(0), Number(n)])], map[]));
    assert SlotIsZero(inner[0].kind, slot.value.slots[0]);
    assert IsZero(f.kind, slot.value);
    assert EncodeField(f, slot, map[]) == Some([]);
    OnlyField(f, slot, map[]);
    assert inner[1..] == [] && Defaults(inner) == [Many([])];
    assert Defaults([f]) == [One(false, Message([Many([])], map[]))];
  }

  /** What the loop has stored when a single number, `n`, was read last. */
  function NumberState(n: Option<nat>): State {
    State([if n.Some? then One(true, Number(n.value)) else One(false, Number(0)), One(false, Number(0))], map[], 0, {})
  }

  lemma NextNumber(fs: Fields, tag: nat, n: nat, was: Option<nat>, s: seq<Byte>, rest: seq<Byte>)
    requires |fs| == 2 && fs[0] == NumberField(tag % MAX_TAG) && 0 < tag % MAX_TAG && tag < TWO32 && n < TWO32
    requires s == TagBytes(tag, WT_VARINT) + (Varint(n) + rest)
    ensures DecodeLoop(fs, s, NumberState(was)) == DecodeLoop(fs, rest, NumberState(Some(n)))
  {
    var st := NumberState(was);
    NumberStored(fs, tag, n, rest, st);
    assert Store(fs, st, 0, One(true, Number(n)), map[]) == NumberState(Some(n));
  }

  /** Two numbers read one after the other. */
  lemma SecondOverFirst(fs: Fields, tag: nat, next: nat, a: nat, b: nat, s: seq<Byte>, second: seq<Byte>)
    requires 0 < tag < MAX_TAG && next == MAX_TAG + tag && a < TWO32 && b < TWO32
    requires |fs| == 2 && fs[0] == NumberField(tag)
    requires s == TagBytes(tag, WT_VARINT) + (Varint(a) + second)
    requires second == TagBytes(next, WT_VARINT) + (Varint(b) + [])
    ensures DecodeLoop(fs, s, NumberState(None)) == DecodeLoop(fs, [], NumberState(Some(b)))
  {
    SmallMod(tag, MAX_TAG);
    RemainderIs(next, MAX_TAG, 1, tag);
    var r := DecodeLoop(fs, second, NumberState(Some(a)));
    assert r == DecodeLoop(fs, [], NumberState(Some(b))) by { NextNumber(fs, next, b, Some(a), second, []); }
    assert DecodeLoop(fs, s, NumberState(None)) == r by { NextNumber(fs, tag, a, None, s, second); }
  }

  /** A number whose tag is 2^29 more than another field's is decoded into that other field. */
  lemma HighTagOverwrites(tag: nat, a: nat, b: nat)
    requires 0 < tag < MAX_TAG && a < TWO32 && b < TWO32
    ensures var fs := [NumberField(tag), NumberField(MAX_TAG + tag)];
            var e := EncodeFields(fs, [One(true, Number(a)), One(true, Number(b))], map[]);
            && e.Some?
            && DecodeMessage(fs, e.value, Defaults(fs), map[]) ==
               Ok(Message([One(true, Number(b)), One(false, Number(0))], map[]), [])
  {
    TwoNumbers(tag, MAX_TAG + tag, a, b);
    TwoDefaults(tag, MAX_TAG + tag);
    var second := TagBytes(MAX_TAG + tag, WT_VARINT) + Varint(b);
    Assoc(TagBytes(tag, WT_VARINT), Varint(a), second);
    assert Varint(b) + [] == Varint(b);
    SecondOverFirst([NumberField(tag), NumberField(MAX_TAG + tag)], tag, MAX_TAG + tag, a, b,
                    TagBytes(tag, WT_VARINT) + Varint(a) + second, second);
  }

  /** A number is stored in the field whose tag is the low bits of the one written. */
  lemma NumberStored(fs: Fields, tag: nat, n: nat, rest: seq<Byte>, st: State)
    requires StateOk(fs, st) && fs != [] && fs[0] == NumberField(tag % MAX_TAG) && st.pos == 0
    requires 0 < tag % MAX_TAG && tag < TWO32 && n < TWO32 && st.slots[0].One?
    ensures DecodeLoop(fs, TagBytes(tag, WT_VARINT) + (Varint(n) + rest), st) ==
            DecodeLoop(fs, rest, Store(fs, st, 0, One(true, Number(n)), st.which))
  {
    TagReadsAs(tag, WT_VARINT, Varint(n) + rest);
    VarintRoundTrip(n, rest);
    var low, s := tag % MAX_TAG, Varint(n) + rest;
    assert DecodeValue(fs[0].kind, false, s, st.slots[0].value) == Ok(Number(n), rest);
    assert Find(fs, st.pos, low) == Some(0);
    assert DecodeOne(fs, low, WT_VARINT, s, st) == Ok(Store(fs, st, 0, One(true, Number(n)), st.which), rest);
  }

  lemma OneNumber(tag: nat, n: nat, tail: Option<seq<Byte>>, fs: Fields, slots: seq<Slot>)
    requires n < TWO32 && EncodeFields(fs, slots, map[]) == tail
    ensures EncodeFields([NumberField(tag)] + fs, [One(true, Number(n))] + slots, map[]) ==
            Join(Some(TagBytes(tag, WT_VARINT) + Varint(n)), tail)
  {
    var f, slot := NumberField(tag), One(true, Number(n));
    assert EncodeValue(f.kind, slot.value) == Some(Varint(n));
    assert EncodeField(f, slot, map[]) == Some(TagBytes(tag, WT_VARINT) + Varint(n));
    assert ([f] + fs)[1..] == fs && ([slot] + slots)[1..] == slots;
  }

  lemma TwoNumbers(tag: nat, next: nat, a: nat, b: nat)
    requires a < TWO32 && b < TWO32
    ensures EncodeFields([NumberField(tag), NumberField(next)], [One(true, Number(a)), One(true, Number(b))], map[]) ==
            Some(TagBytes(tag, WT_VARINT) + Varint(a) + (TagBytes(next, WT_VARINT) + Varint(b)))
  {
    var second := TagBytes(next, WT_VARINT) + Varint(b);
    OneNumber(next, b, Some([]), [], []);
    assert second + [] == second;
    assert [NumberField(next)] + [] == [NumberField(next)];
    assert [One(true, Number(b))] + [] == [One(true, Number(b))];
    OneNumber(tag, a, Some(second), [NumberField(next)], [One(true, Number(b))]);
    assert [NumberField(tag)] + [NumberField(next)] == [NumberField(tag), NumberField(next)];
    assert [One(true, Number(a))] + [One(true, Number(b))] == [One(true, Number(a)), One(true, Number(b))];
  }

  lemma TwoDefaults(tag: nat, next: nat)
    ensures Defaults([NumberField(tag), NumberField(next)]) == [One(false, Number(0)), One(false, Number(0))]
  {
    var fs := [NumberField(tag), NumberField(next)];
    assert Default(fs[0]) == Default(fs[1]) == One(false, Number(0));
    DefaultsAre(fs, 0);
    DefaultsAre(fs, 1);
  }
}
