/** What fits: which messages the encoder refuses, and that nothing the decoder stores is larger than its
    place. */
module PbLimits {
  import opened Basics
  import opened Words
  import opened PbWire
  import opened PbMessage
  import R = PbRoundTrip
  import Enc = PbEncode

  // ---- what the encoder refuses ----

  /** A byte array longer than its field, or a submessage with something of the kind in it */
  ghost predicate Overfull(k: Kind, v: Value)
    decreases v, 0
  {
    match k
    case BytesKind(dataSize) => v.Bytes? && |v.bytes| + BYTES_OFFSET > dataSize
    case SubmessageKind(fs) => v.Message? && SomeOverfull(fs, v.slots, v.which)
    case _ => false
  }

  ghost predicate SlotOverfull(f: Field, slot: Slot, which: map<nat, nat>)
    decreases slot, 1
  {
    && R.Written(f, slot, which)
    && match slot
       case One(_, v) => Overfull(f.kind, v)
       case Many(items) => (f.rule.Repeated? && |items| > f.rule.max) || exists v :: v in items && Overfull(f.kind, v)
  }

  /** A field that is written has too many entries or holds something overfull. */
  ghost predicate SomeOverfull(fs: Fields, slots: seq<Slot>, which: map<nat, nat>)
    decreases slots, 2
  {
    exists i :: 0 <= i < |slots| && i < |fs| && SlotOverfull(fs[i], slots[i], which)
  }

  lemma {:induction false} ValueEncodes(k: Kind, v: Value)
    requires R.KindOk(k) && Enc.Holds(k, v)
    ensures EncodeValue(k, v).Some? <==> !Overfull(k, v)
    decreases v, 0
  {
    if k.SubmessageKind? {
      FieldsEncode(k.fields, v.slots, v.which);
    }
  }

  lemma {:induction false} PackedEncodes(k: Kind, items: seq<Value>)
    requires R.KindOk(k) && forall v :: v in items ==> Enc.Holds(k, v)
    ensures EncodePacked(k, items).Some? <==> forall v :: v in items ==> !Overfull(k, v)
    decreases items, 3
  {
    if items != [] {
      ValueEncodes(k, items[0]);
      PackedEncodes(k, items[1..]);
      assert items == [items[0]] + items[1..];
    }
  }

  lemma {:induction false} ItemsEncode(k: Kind, tag: nat, items: seq<Value>)
    requires R.KindOk(k) && forall v :: v in items ==> Enc.Holds(k, v)
    ensures EncodeItems(k, tag, items).Some? <==> forall v :: v in items ==> !Overfull(k, v)
    decreases items, 3
  {
    if items != [] {
      ValueEncodes(k, items[0]);
      ItemsEncode(k, tag, items[1..]);
      assert items == [items[0]] + items[1..];
    }
  }

  lemma {:induction false} FieldEncodes(f: Field, slot: Slot, which: map<nat, nat>)
    requires R.FieldOk(f) && Enc.SlotHolds(f, slot)
    ensures EncodeField(f, slot, which).Some? <==> !SlotOverfull(f, slot, which)
    decreases slot, 4
  {
    match slot
    case One(_, v) => ValueEncodes(f.kind, v);
    case Many(items) =>
      if Packable(f.kind) {
        PackedEncodes(f.kind, items);
      } else {
        ItemsEncode(f.kind, f.tag, items);
      }
  }

  /** The encoder refuses a message exactly when a field that is written, in it or in a submessage that is
      written, has more entries than it may have or more bytes than it has room for.  Every other message
      that its C type can hold is encoded. */
  lemma {:induction false} FieldsEncode(fs: Fields, slots: seq<Slot>, which: map<nat, nat>)
    requires R.FieldsOk(fs) && Enc.HoldsAll(fs, slots)
    ensures EncodeFields(fs, slots, which).Some? <==> !SomeOverfull(fs, slots, which)
    decreases slots, 5
  {
    if fs != [] {
      assert R.FieldOk(fs[0]) && Enc.SlotHolds(fs[0], slots[0]);
      FieldEncodes(fs[0], slots[0], which);
      assert R.FieldsOk(fs[1..]) && Enc.HoldsAll(fs[1..], slots[1..]);
      FieldsEncode(fs[1..], slots[1..], which);
      OverfullRest(fs, slots, which);
    }
  }

  lemma OverfullRest(fs: Fields, slots: seq<Slot>, which: map<nat, nat>)
    requires |fs| == |slots| > 0
    ensures SomeOverfull(fs, slots, which) <==>
            SlotOverfull(fs[0], slots[0], which) || SomeOverfull(fs[1..], slots[1..], which)
  {
    if i :| 0 <= i < |slots| - 1 && SlotOverfull(fs[1..][i], slots[1..][i], which) {
      assert SlotOverfull(fs[i + 1], slots[i + 1], which);
    }
    if i :| 0 < i < |slots| && SlotOverfull(fs[i], slots[i], which) {
      assert SlotOverfull(fs[1..][i - 1], slots[1..][i - 1], which);
    }
  }

  // ---- what the decoder stores ----

  /** The value fits the place of its field: numbers their size, arrays and byte arrays their room, and a
      string ends before its buffer does. */
  ghost predicate Fits(k: Kind, v: Value)
    decreases v, 0
  {
    match k
    case SignedKind(size) => v.Number? && FitsSigned(v.n, size)
    case UnsignedKind(size) => v.Number? && FitsUnsigned(v.n, size)
    case ZigzagKind(size) => v.Number? && FitsSigned(v.n, size)
    case Fixed32Kind => v.Number? && FitsUnsigned(v.n, 4)
    case Fixed64Kind => v.Number? && FitsUnsigned(v.n, 8)
    case BytesKind(dataSize) => v.Bytes? && |v.bytes| + BYTES_OFFSET <= dataSize
    case StringKind(dataSize) => v.Text? && TextLen(v.buffer) < |v.buffer| == dataSize
    case FixedBytesKind(dataSize) => v.Bytes? && |v.bytes| == dataSize
    case SubmessageKind(fs) => v.Message? && SlotsFit(fs, v.slots)
  }

  ghost predicate SlotFits(f: Field, slot: Slot)
    decreases slot, 1
  {
    match slot
    case One(_, v) => !f.rule.Repeated? && Fits(f.kind, v)
    case Many(items) => f.rule.Repeated? && |items| <= f.rule.max && forall v :: v in items ==> Fits(f.kind, v)
  }

  ghost predicate SlotsFit(fs: Fields, slots: seq<Slot>)
    decreases slots, 2
  {
    |fs| == |slots| && forall i :: 0 <= i < |slots| ==> SlotFits(fs[i], slots[i])
  }

  /** Each submessage's initial contents fit, at any depth. */
  ghost predicate StartsFit(k: Kind) {
    k.SubmessageKind? ==> SlotsFit(k.fields, Defaults(k.fields)) && forall f :: f in k.fields ==> StartsFit(f.kind)
  }

  lemma TextFits(dataSize: nat, s: seq<Byte>, was: seq<Byte>)
    requires |was| == dataSize < TWO32 && DecodeText(dataSize, s, was).Ok?
    ensures Fits(StringKind(dataSize), DecodeText(dataSize, s, was).value)
  {
    var n, rest := DecodeVarint32(s).value, DecodeVarint32(s).rest;
    var text, tail := rest[..n], was[n + 1..];
    NulEnds(text, tail);
  }

  lemma {:induction false} NulEnds(text: seq<Byte>, tail: seq<Byte>)
    ensures TextLen(text + [0] + tail) <= |text|
  {
    var s := text + [0] + tail;
    if text != [] && text[0] != 0 {
      assert s[1..] == text[1..] + [0] + tail;
      NulEnds(text[1..], tail);
    }
  }

  /** What a value is decoded over fits, as far as it matters. */
  ghost predicate Usable(k: Kind, was: Value) {
    && (k.StringKind? && was.Text? ==> |was.buffer| == k.dataSize)
    && (k.SubmessageKind? && was.Message? && |was.slots| == |k.fields| ==> SlotsFit(k.fields, was.slots))
  }

  lemma ScalarFits(k: Kind, isEntry: bool, s: seq<Byte>, was: Value)
    requires !k.SubmessageKind? && R.KindOk(k) && Usable(k, was) && DecodeValue(k, isEntry, s, was).Ok?
    ensures Fits(k, DecodeValue(k, isEntry, s, was).value)
  {
    match k
    case StringKind(n) => TextFits(n, s, if was.Text? then was.buffer else Zeros(n));
    case Fixed32Kind => FixedFits(s[..4]);
    case Fixed64Kind => FixedFits(s[..8]);
    case _ =>
  }

  lemma {:induction false} FixedFits(s: seq<Byte>)
    ensures FixedValue(s) < Pow256(|s|)
    ensures |s| == 4 ==> FixedValue(s) < TWO32
    ensures |s| == 8 ==> FixedValue(s) < TWO64
  {
    Pow256Constants();
    if s != [] { FixedFits(s[1..]); }
  }

  lemma {:induction false} ValueFits(k: Kind, isEntry: bool, s: seq<Byte>, was: Value)
    requires R.KindOk(k) && StartsFit(k) && Usable(k, was) && DecodeValue(k, isEntry, s, was).Ok?
    ensures Fits(k, DecodeValue(k, isEntry, s, was).value)
    decreases |s|, 1
  {
    if k.SubmessageKind? {
      var sub := Delimited(s).value;
      var start := if isEntry || !was.Message? || |was.slots| != |k.fields| then Zero(k) else was;
      MessageFits(k.fields, sub, start.slots, start.which);
    } else {
      ScalarFits(k, isEntry, s, was);
    }
  }

  lemma {:induction false} PackedFits(k: Kind, max: nat, items: seq<Value>, sub: seq<Byte>)
    requires R.KindOk(k) && StartsFit(k) && |items| <= max && (forall v :: v in items ==> Fits(k, v))
    ensures var r := DecodePacked(k, max, items, sub);
            r.Some? ==> |r.value| <= max && forall v :: v in r.value ==> Fits(k, v)
    decreases |sub|, 2
  {
    if sub != [] && |items| < max && DecodeValue(k, true, sub, Zero(k)).Ok? {
      var r := DecodeValue(k, true, sub, Zero(k));
      ValueFits(k, true, sub, Zero(k));
      PackedFits(k, max, items + [r.value], r.rest);
    }
  }

  lemma {:induction false} FieldFits(f: Field, wt: nat, slot: Slot, which: map<nat, nat>, s: seq<Byte>)
    requires R.FieldOk(f) && StartsFit(f.kind) && SlotFits(f, slot) && DecodeField(f, wt, slot, which, s).Ok?
    ensures SlotFits(f, DecodeField(f, wt, slot, which, s).value.0)
    decreases |s|, 3
  {
    match f.rule
    case Repeated(max) =>
      if wt == WT_STRING && Packable(f.kind) {
        PackedFits(f.kind, max, slot.items, Delimited(s).value);
      } else {
        ValueFits(f.kind, true, s, Zero(f.kind));
      }
    case Oneof(_) => ValueFits(f.kind, false, s, if f.kind.SubmessageKind? then Zero(f.kind) else slot.value);
    case _ => ValueFits(f.kind, false, s, slot.value);
  }

  lemma {:induction false} LoopFits(fs: Fields, s: seq<Byte>, st: State)
    requires R.FieldsOk(fs) && (forall f :: f in fs ==> StartsFit(f.kind)) && StateOk(fs, st) && SlotsFit(fs, st.slots)
    ensures DecodeLoop(fs, s, st).End? ==> SlotsFit(fs, DecodeLoop(fs, s, st).state.slots)
    decreases |s|, 5
  {
    if s != [] && DecodeTag(s).Tag? {
      var t := DecodeTag(s);
      var one := DecodeOne(fs, t.tag, t.wt, t.rest, st);
      if one.Ok? {
        OneFits(fs, t.tag, t.wt, t.rest, st);
        LoopFits(fs, one.rest, one.value);
      }
    }
  }

  lemma {:induction false} OneFits(fs: Fields, tag: nat, wt: nat, s: seq<Byte>, st: State)
    requires R.FieldsOk(fs) && (forall f :: f in fs ==> StartsFit(f.kind)) && StateOk(fs, st) && SlotsFit(fs, st.slots)
    requires DecodeOne(fs, tag, wt, s, st).Ok?
    ensures SlotsFit(fs, DecodeOne(fs, tag, wt, s, st).value.slots)
    decreases |s|, 4
  {
    var found := Find(fs, st.pos, tag);
    if found.Some? {
      var i := found.value;
      assert fs[i] in fs && R.FieldOk(fs[i]) && SlotFits(fs[i], st.slots[i]);
      FieldFits(fs[i], wt, st.slots[i], st.which, s);
    }
  }

  /** Whatever the data is, a message that is accepted fits the memory it is decoded into: no array has more
      entries than its maximum, no string or byte array more bytes than its buffer, and no number is cut. */
  lemma {:induction false} MessageFits(fs: Fields, s: seq<Byte>, slots: seq<Slot>, which: map<nat, nat>)
    requires R.FieldsOk(fs) && (forall f :: f in fs ==> StartsFit(f.kind)) && SlotsFit(fs, slots)
    ensures var r := DecodeMessage(fs, s, slots, which);
            r.Ok? ==> SlotsFit(fs, r.value.slots)
    decreases |s|, 6
  {
    LoopFits(fs, s, State(slots, which, 0, {}));
  }
}
