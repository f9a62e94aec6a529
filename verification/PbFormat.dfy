/** The wire format as other readers and writers see it: which bytes are written, that they do not depend on
    the size of the field, and how much of them a reader passes over that does not know the field. */
module PbFormat {
  import opened Basics
  import opened Words
  import opened PbWire
  import opened PbMessage
  import opened PbRoundTrip

  // ---- which bytes ----

  lemma DivTwice(n: nat, p: nat)
    requires p > 0
    ensures (n / 128) / p == n / (128 * p)
  {
    var a, b := n / (128 * p), n % (128 * p);
    assert n == 128 * (p * a) + b by { assert (128 * p) * a == 128 * (p * a); }
    assert n / 128 == p * a + b / 128;
    assert b / 128 < p;
    RemainderIs(n / 128, p, a, b / 128);
  }

  /** Byte i of a varint has seven bits of the number, the lowest ones first, and says whether more follow. */
  lemma {:induction false} VarintLayout(n: nat, i: nat)
    requires i < |Varint(n)|
    ensures Varint(n)[i] % 128 == (n / Pow128(i)) % 128
    ensures Varint(n)[i] >= 128 <==> i + 1 < |Varint(n)|
  {
    if n >= 128 {
      assert Varint(n) == [n % 128 + 128] + Varint(n / 128);
      if i > 0 {
        VarintLayout(n / 128, i - 1);
        DivTwice(n, Pow128(i - 1));
      }
    }
  }

  lemma DivTwice256(n: nat, p: nat)
    requires p > 0
    ensures (n / 256) / p == n / (256 * p)
  {
    var a, b := n / (256 * p), n % (256 * p);
    assert n == 256 * (p * a) + b by { assert (256 * p) * a == 256 * (p * a); }
    assert n / 256 == p * a + b / 256;
    assert b / 256 < p;
    RemainderIs(n / 256, p, a, b / 256);
  }

  /** Byte i of a fixed-width number has eight bits of it, the lowest ones first. */
  lemma {:induction false} FixedLayout(n: nat, width: nat, i: nat)
    requires i < width
    ensures Fixed(n, width)[i] == (n / Pow256(i)) % 256
    decreases i
  {
    assert Fixed(n, width) == [n % 256] + Fixed(n / 256, width - 1);
    if i > 0 {
      FixedLayout(n / 256, width - 1, i - 1);
      DivTwice256(n, Pow256(i - 1));
    }
  }

  /** Fields are written one after the other in the order of the descriptor. */
  lemma {:induction false} FieldsInOrder(fs: Fields, slots: seq<Slot>, gs: Fields, more: seq<Slot>,
                                         which: map<nat, nat>)
    requires |fs| == |slots| && |gs| == |more|
    ensures EncodeFields(fs + gs, slots + more, which) ==
            Join(EncodeFields(fs, slots, which), EncodeFields(gs, more, which))
    decreases |fs|
  {
    var g := EncodeFields(gs, more, which);
    if fs == [] {
      assert fs + gs == gs && slots + more == more;
      assert g.Some? ==> [] + g.value == g.value;
    } else {
      assert (fs + gs)[1..] == fs[1..] + gs && (slots + more)[1..] == slots[1..] + more;
      FieldsInOrder(fs[1..], slots[1..], gs, more, which);
      var e, tail := EncodeField(fs[0], slots[0], which), EncodeFields(fs[1..], slots[1..], which);
      if e.Some? && tail.Some? && g.Some? { Assoc(e.value, tail.value, g.value); }
    }
  }

  // ---- integers of any size ----

  lemma NegativeIsTen(n: nat)
    requires TWO63 <= n < TWO64
    ensures |Varint(n)| == 10
  {
    Pow128Constants();
    VarintAtMost(n, 10);
    VarintSize(n);
    if |Varint(n)| <= 9 { Pow128Grows(|Varint(n)|, 9); }
  }

  /** What is written of an integer does not depend on the size of its field: a reader that takes the field
      as 64 bits wide gets the same number, because a negative one is extended to 64 bits, in ten bytes. */
  lemma ReadWider(k: Kind, v: Value, rest: seq<Byte>)
    requires EncodeValue(k, v).Some?
    ensures k.SignedKind? ==>
              && DecodeSigned(8, EncodeValue(k, v).value + rest) == Ok(v, rest)
              && (v.n < 0 ==> |EncodeValue(k, v).value| == 10)
    ensures k.UnsignedKind? ==> DecodeUnsigned(8, EncodeValue(k, v).value + rest) == Ok(v, rest)
    ensures k.ZigzagKind? ==> DecodeZigzag(8, EncodeValue(k, v).value + rest) == Ok(v, rest)
  {
    if k.SignedKind? {
      VarintRoundTrip(ToUnsigned(v.n), rest);
      if v.n < 0 { NegativeIsTen(ToUnsigned(v.n)); }
    } else if k.UnsignedKind? {
      VarintRoundTrip(v.n, rest);
    } else if k.ZigzagKind? {
      ZigzagRoundTrip(v.n);
      VarintRoundTrip(Zigzag(v.n), rest);
    }
  }

  /** The other way round, fields of up to 32 bits also take a negative number that was extended to 32 bits
      only. */
  lemma ReadShort(n: int, size: nat, rest: seq<Byte>)
    requires FitsSigned(n, size) && size != 8
    ensures DecodeSigned(size, Varint(if n < 0 then n + TWO32 else n) + rest) == Ok(Number(n), rest)
  {
    var u := if n < 0 then n + TWO32 else n;
    VarintRoundTrip(u, rest);
    SmallMod(u, TWO32);
  }

  // ---- passing over what is not known ----

  lemma {:induction false} SkipOne(n: nat, rest: seq<Byte>)
    ensures SkipVarint(Varint(n) + rest) == Ok((), rest)
  {
    var s := Varint(n) + rest;
    if n >= 128 {
      assert s[1..] == Varint(n / 128) + rest;
      SkipOne(n / 128, rest);
    } else {
      assert s[1..] == rest;
    }
  }

  lemma SkipDelimited(body: seq<Byte>, rest: seq<Byte>)
    requires |body| < TWO32
    ensures SkipField(WT_STRING, Varint(|body|) + body + rest) == Ok((), rest)
  {
    DelimitedBack(body, rest);
  }

  /** What was written of any value is passed over, to the byte, by its wire type alone. */
  lemma SkipBack(k: Kind, v: Value, rest: seq<Byte>)
    requires KindOk(k) && ValueOk(k, v) && EncodeValue(k, v).Some?
    ensures SkipField(WireType(k), EncodeValue(k, v).value + rest) == Ok((), rest)
  {
    var e := EncodeValue(k, v).value;
    match k
    case SignedKind(_) => SkipOne(ToUnsigned(v.n), rest);
    case UnsignedKind(_) => SkipOne(v.n, rest);
    case ZigzagKind(_) => SkipOne(Zigzag(v.n), rest);
    case Fixed32Kind => TakeAll(e, rest);
    case Fixed64Kind => TakeAll(e, rest);
    case BytesKind(_) => SkipDelimited(v.bytes, rest);
    case FixedBytesKind(_) => SkipDelimited(v.bytes, rest);
    case StringKind(_) => SkipDelimited(v.buffer[..TextLen(v.buffer)], rest);
    case SubmessageKind(fs) => SkipDelimited(EncodeFields(fs, v.slots, v.which).value, rest);
  }

  /** A record of a tag that the descriptor does not have leaves everything as it is. */
  lemma UnknownRecord(fs: Fields, tag: nat, wt: nat, body: seq<Byte>, rest: seq<Byte>, st: State)
    requires StateOk(fs, st) && 0 < tag < MAX_TAG && wt < 8 && forall i :: 0 <= i < |fs| ==> fs[i].tag != tag
    requires SkipField(wt, body + rest) == Ok((), rest)
    ensures DecodeLoop(fs, TagBytes(tag, wt) + body + rest, st) == DecodeLoop(fs, rest, st)
  {
    Assoc(TagBytes(tag, wt), body, rest);
    TagRoundTrip(tag, wt, body + rest);
    assert Find(fs, st.pos, tag).None?;
  }

  lemma {:induction false} UnknownItems(gs: Fields, k: Kind, tag: nat, items: seq<Value>, rest: seq<Byte>, st: State)
    requires StateOk(gs, st) && 0 < tag < MAX_TAG && forall i :: 0 <= i < |gs| ==> gs[i].tag != tag
    requires KindOk(k) && (forall v :: v in items ==> ValueOk(k, v)) && EncodeItems(k, tag, items).Some?
    ensures DecodeLoop(gs, EncodeItems(k, tag, items).value + rest, st) == DecodeLoop(gs, rest, st)
    decreases |items|
  {
    if items == [] {
      assert EncodeItems(k, tag, items).value + rest == rest;
    } else {
      var tail := EncodeItems(k, tag, items[1..]).value;
      SkipBack(k, items[0], tail + rest);
      UnknownRecord(gs, tag, WireType(k), EncodeValue(k, items[0]).value, tail + rest, st);
      Assoc(Tagged(k, tag, items[0]).value, tail, rest);
      UnknownItems(gs, k, tag, items[1..], rest, st);
    }
  }

  /** All that a field writes is passed over by a reader that does not have its tag. */
  lemma UnknownField(gs: Fields, f: Field, slot: Slot, which: map<nat, nat>, rest: seq<Byte>, st: State)
    requires StateOk(gs, st) && FieldOk(f) && f.tag < MAX_TAG && forall i :: 0 <= i < |gs| ==> gs[i].tag != f.tag
    requires SlotOk(f, slot) && EncodeField(f, slot, which).Some?
    ensures DecodeLoop(gs, EncodeField(f, slot, which).value + rest, st) == DecodeLoop(gs, rest, st)
  {
    var e := EncodeField(f, slot, which).value;
    if e == [] {
      assert e + rest == rest;
    } else if slot.One? {
      SkipBack(f.kind, slot.value, rest);
      UnknownRecord(gs, f.tag, WireType(f.kind), EncodeValue(f.kind, slot.value).value, rest, st);
    } else if Packable(f.kind) {
      var p := EncodePacked(f.kind, slot.items).value;
      SkipDelimited(p, rest);
      Assoc(TagBytes(f.tag, WT_STRING), Varint(|p|), p);
      UnknownRecord(gs, f.tag, WT_STRING, Varint(|p|) + p, rest, st);
    } else {
      UnknownItems(gs, f.kind, f.tag, slot.items, rest, st);
    }
  }

  // ---- readers and writers that know fewer fields ----

  function KnownFields(fs: Fields, known: set<nat>): (gs: Fields)
    ensures forall g :: g in gs ==> g in fs && g.tag in known
  {
    if fs == [] then [] else (if fs[0].tag in known then [fs[0]] else []) + KnownFields(fs[1..], known)
  }

  function KnownSlots(fs: Fields, slots: seq<Slot>, known: set<nat>): (gs: seq<Slot>)
    requires |fs| == |slots|
    ensures |gs| == |KnownFields(fs, known)|
  {
    if fs == [] then []
    else (if fs[0].tag in known then [slots[0]] else []) + KnownSlots(fs[1..], slots[1..], known)
  }

  lemma {:induction false} KnownFieldsOk(fs: Fields, known: set<nat>)
    requires FieldsOk(fs)
    ensures FieldsOk(KnownFields(fs, known))
    decreases |fs|
  {
    if fs != [] {
      KnownFieldsOk(fs[1..], known);
      OneFieldMore(fs[0], KnownFields(fs[1..], known), fs);
    }
  }

  lemma OneFieldMore(f: Field, gs: Fields, fs: Fields)
    requires FieldsOk(fs) && fs != [] && f == fs[0] && FieldsOk(gs) && forall g :: g in gs ==> g in fs[1..]
    ensures FieldsOk([f] + gs)
  {
    var all := [f] + gs;
    forall i | 0 <= i < |all| ensures FieldOk(all[i]) {
      if i > 0 { assert all[i] == gs[i - 1]; }
    }
    forall i, j | 0 <= i < j < |all| ensures all[i].tag != all[j].tag {
      assert all[j] == gs[j - 1] && gs[j - 1] in fs[1..];
      if i > 0 { assert all[i] == gs[i - 1]; }
    }
  }

  lemma {:induction false} KnownSlotsOk(fs: Fields, slots: seq<Slot>, known: set<nat>)
    requires SlotsOk(fs, slots)
    ensures SlotsOk(KnownFields(fs, known), KnownSlots(fs, slots, known))
    decreases |fs|
  {
    if fs != [] {
      assert SlotOk(fs[0], slots[0]);
      KnownSlotsOk(fs[1..], slots[1..], known);
    }
  }

  /** The known fields of fs from i on are those of gs from j on. */
  ghost predicate Aligned(fs: Fields, slots: seq<Slot>, known: set<nat>, i: nat, gs: Fields, gslots: seq<Slot>, j: nat)
  {
    && i <= |fs| == |slots| && j <= |gs| == |gslots|
    && gs[j..] == KnownFields(fs[i..], known) && gslots[j..] == KnownSlots(fs[i..], slots[i..], known)
  }

  lemma AlignedNext(fs: Fields, slots: seq<Slot>, known: set<nat>, i: nat, gs: Fields, gslots: seq<Slot>, j: nat)
    requires Aligned(fs, slots, known, i, gs, gslots, j) && i < |fs|
    ensures fs[i..][1..] == fs[i + 1..] && slots[i..][1..] == slots[i + 1..]
    ensures if fs[i].tag in known then
              j < |gs| && gs[j] == fs[i] && gslots[j] == slots[i] && Aligned(fs, slots, known, i + 1, gs, gslots, j + 1)
            else Aligned(fs, slots, known, i + 1, gs, gslots, j)
  {
    assert fs[i..][1..] == fs[i + 1..] && slots[i..][1..] == slots[i + 1..];
    if fs[i].tag in known {
      assert gs[j..][0] == fs[i] && gslots[j..][0] == slots[i];
      assert gs[j..][1..] == gs[j + 1..] && gslots[j..][1..] == gslots[j + 1..];
    }
  }

  lemma {:induction false} KnownFieldsBack(fs: Fields, slots: seq<Slot>, which: map<nat, nat>, known: set<nat>, i: nat,
                                           gs: Fields, gslots: seq<Slot>, j: nat, st: State)
    requires FieldsOk(fs) && SlotsOk(fs, slots) && TagsReadable(fs, slots, which)
    requires FieldsOk(gs) && SlotsOk(gs, gslots) && SlotsReadable(gs, gslots, which)
    requires Aligned(fs, slots, known, i, gs, gslots, j) && forall g :: g in gs ==> g.tag in known
    requires EncodeFields(fs[i..], slots[i..], which).Some? && Progress(gs, gslots, which, j, st)
    ensures var r := DecodeLoop(gs, EncodeFields(fs[i..], slots[i..], which).value, st);
            r.End? && r.unread == [] && Progress(gs, gslots, which, |gs|, r.state)
    decreases |fs| - i
  {
    if i < |fs| {
      AlignedNext(fs, slots, known, i, gs, gslots, j);
      var tail := EncodeFields(fs[i + 1..], slots[i + 1..], which).value;
      assert FieldOk(fs[i]) && SlotOk(fs[i], slots[i]);
      if fs[i].tag in known {
        assert SlotReadable(gs[j], gslots[j], which);
        var st' := FieldBack(gs, gslots, which, j, st, tail);
        KnownFieldsBack(fs, slots, which, known, i + 1, gs, gslots, j + 1, st'.value);
      } else {
        SkippedField(gs, fs[i], slots[i], which, tail, st);
        KnownFieldsBack(fs, slots, which, known, i + 1, gs, gslots, j, st);
      }
    }
  }

  lemma SkippedField(gs: Fields, f: Field, slot: Slot, which: map<nat, nat>, rest: seq<Byte>, st: State)
    requires StateOk(gs, st) && FieldOk(f) && SlotOk(f, slot) && EncodeField(f, slot, which).Some?
    requires Written(f, slot, which) ==> f.tag < MAX_TAG
    requires forall i :: 0 <= i < |gs| ==> gs[i].tag != f.tag
    ensures DecodeLoop(gs, EncodeField(f, slot, which).value + rest, st) == DecodeLoop(gs, rest, st)
  {
    if f.tag < MAX_TAG {
      UnknownField(gs, f, slot, which, rest, st);
    } else {
      assert EncodeField(f, slot, which).value + rest == rest;
    }
  }

  lemma NothingRead(gs: Fields, gslots: seq<Slot>, which: map<nat, nat>)
    requires |gslots| == |gs|
    ensures Progress(gs, gslots, which, 0, State(Defaults(gs), map[], 0, {}))
  {
    forall j | 0 <= j < |gs| ensures Defaults(gs)[j] == Default(gs[j]) { DefaultsAre(gs, j); }
  }

  lemma AllRead(gs: Fields, gslots: seq<Slot>, which: map<nat, nat>, st: State)
    requires Progress(gs, gslots, which, |gs|, st) && SlotsReadable(gs, gslots, which)
    ensures AllRequired(gs, st.seen) && SameMessage(gs, gslots, which, st.slots, st.which)
  {
    forall j | 0 <= j < |gs| ensures SameSlot(gs[j], gslots[j], which, st.slots[j], st.which) {
      assert BackIfReadable(gs[j], gslots[j], which, st.slots[j], st.which);
    }
  }

  /** A reader that knows only some of the fields gets just those of the message, and uses up all of it. */
  lemma OldReader(fs: Fields, slots: seq<Slot>, which: map<nat, nat>, known: set<nat>)
    requires FieldsOk(fs) && SlotsOk(fs, slots) && EncodeFields(fs, slots, which).Some?
    requires TagsReadable(fs, slots, which)
    requires SlotsReadable(KnownFields(fs, known), KnownSlots(fs, slots, known), which)
    ensures var gs, gslots := KnownFields(fs, known), KnownSlots(fs, slots, known);
            var r := DecodeMessage(gs, EncodeFields(fs, slots, which).value, Defaults(gs), map[]);
            r.Ok? && r.rest == [] && SameMessage(gs, gslots, which, r.value.slots, r.value.which)
  {
    var gs, gslots := KnownFields(fs, known), KnownSlots(fs, slots, known);
    KnownFieldsOk(fs, known);
    KnownSlotsOk(fs, slots, known);
    var st := State(Defaults(gs), map[], 0, {});
    NothingRead(gs, gslots, which);
    assert fs[0..] == fs && slots[0..] == slots && gs[0..] == gs && gslots[0..] == gslots;
    KnownFieldsBack(fs, slots, which, known, 0, gs, gslots, 0, st);
    AllRead(gs, gslots, which, DecodeLoop(gs, EncodeFields(fs, slots, which).value, st).state);
  }

  /** A field that is as it was initialized is not written, but for required ones. */
  ghost predicate Unset(f: Field, slot: Slot, which: map<nat, nat>) {
    && slot == Default(f) && !f.rule.Required? && !Active(f, which)
    && (f.rule.Implicit? ==> f.initial.None? && IsZero(f.kind, Zero(f.kind)))
  }

  lemma UnsetWritesNothing(f: Field, slot: Slot, which: map<nat, nat>)
    requires Unset(f, slot, which)
    ensures EncodeField(f, slot, which) == Some([])
  {
  }

  /** A writer that does not know some fields writes what one that knows them writes while they are unset, so
      what it wrote can be read with the longer descriptor as well. */
  lemma {:induction false} OldWriter(fs: Fields, slots: seq<Slot>, which: map<nat, nat>, known: set<nat>)
    requires |fs| == |slots|
    requires forall i :: 0 <= i < |fs| && fs[i].tag !in known ==> Unset(fs[i], slots[i], which)
    ensures EncodeFields(KnownFields(fs, known), KnownSlots(fs, slots, known), which) == EncodeFields(fs, slots, which)
    decreases |fs|
  {
    if fs != [] {
      OldWriter(fs[1..], slots[1..], which, known);
      var gs, gslots := KnownFields(fs[1..], known), KnownSlots(fs[1..], slots[1..], known);
      var e := EncodeFields(fs[1..], slots[1..], which);
      assert EncodeFields(fs, slots, which) == Join(EncodeField(fs[0], slots[0], which), e);
      if fs[0].tag in known {
        assert ([fs[0]] + gs)[1..] == gs && ([slots[0]] + gslots)[1..] == gslots;
      } else {
        UnsetWritesNothing(fs[0], slots[0], which);
        assert e.Some? ==> [] + e.value == e.value;
        assert KnownFields(fs, known) == gs && KnownSlots(fs, slots, known) == gslots;
      }
    }
  }

  // ---- known encodings ----

  /** The smallest examples of each wire type, as the format's own description has them. */
  lemma KnownNumbers()
    ensures Varint(1) == [0x01] && Varint(150) == [0x96, 0x01] && Varint(300) == [0xAC, 0x02]
    ensures TagBytes(1, WireType(SignedKind(4))) == [0x08] && TagBytes(2, WireType(StringKind(8))) == [0x12]
    ensures TagBytes(3, WireType(SubmessageKind([]))) == [0x1A] && TagBytes(4, WT_STRING) == [0x22]
    ensures TagBytes(5, WireType(Fixed32Kind)) == [0x2D] && TagBytes(6, WireType(Fixed64Kind)) == [0x31]
    ensures EncodeValue(SignedKind(4), Number(150)) == Some([0x96, 0x01])
    ensures Fixed(1, 4) == [1, 0, 0, 0]
  {
    assert Varint(150 / 128) == [0x01] && Varint(300 / 128) == [0x02];
    assert Fixed(0, 1) == [0] + Fixed(0, 0) && Fixed(0, 2) == [0] + Fixed(0, 1) && Fixed(0, 3) == [0] + Fixed(0, 2);
    assert Fixed(1, 4) == [1] + Fixed(0, 3);
  }

  lemma KnownZigzags()
    ensures EncodeValue(ZigzagKind(4), Number(0)) == Some([0x00])
    ensures EncodeValue(ZigzagKind(4), Number(-1)) == Some([0x01])
    ensures EncodeValue(ZigzagKind(4), Number(1)) == Some([0x02])
    ensures EncodeValue(ZigzagKind(4), Number(-2)) == Some([0x03])
  {
    ZigzagRoundTrip(-1);
    ZigzagRoundTrip(-2);
  }

  lemma OneMore(k: Kind, n: nat, items: seq<Value>)
    requires k == UnsignedKind(4) && n < TWO32
    ensures EncodePacked(k, [Number(n)] + items) == Join(Some(Varint(n)), EncodePacked(k, items))
  {
    var all := [Number(n)] + items;
    assert all[1..] == items && all[0] == Number(n);
    assert FitsUnsigned(n, 4) && EncodeValue(k, all[0]) == Some(Varint(n));
  }

  lemma ThreeNumbers(k: Kind, a: nat, b: nat, c: nat)
    requires k == UnsignedKind(4) && a < TWO32 && b < TWO32 && c < TWO32
    ensures EncodePacked(k, [Number(a), Number(b), Number(c)]) == Some(Varint(a) + (Varint(b) + Varint(c)))
  {
    OneMore(k, c, []);
    OneMore(k, b, [Number(c)]);
    OneMore(k, a, [Number(b), Number(c)]);
    assert [Number(a)] + [Number(b), Number(c)] == [Number(a), Number(b), Number(c)];
    assert [Number(b)] + [Number(c)] == [Number(b), Number(c)] && [Number(c)] + [] == [Number(c)];
    assert Varint(c) + [] == Varint(c);
  }

  lemma KnownBytes()
    ensures Varint(3) + (Varint(270) + Varint(86942)) == [0x03, 0x8E, 0x02, 0x9E, 0xA7, 0x05]
    ensures Varint(6) == [0x06] && TagBytes(4, WT_STRING) == [0x22]
  {
    assert Varint(3) == [0x03] && Varint(5) == [0x05] && Varint(2) == [0x02];
    assert Varint(270) == [0x8E] + Varint(2);
    assert Varint(679) == [0xA7] + Varint(5);
    assert Varint(86942) == [0x9E] + Varint(679);
  }

  /** An array of numbers is written packed: one tag, the length, and the entries. */
  lemma KnownArray(f: Field)
    requires f == Field(4, UnsignedKind(4), Repeated(3), None)
    ensures EncodeArray(f, [Number(3), Number(270), Number(86942)]) ==
            Some([0x22, 0x06, 0x03, 0x8E, 0x02, 0x9E, 0xA7, 0x05])
  {
    ThreeNumbers(f.kind, 3, 270, 86942);
    KnownBytes();
    var items, p := [Number(3), Number(270), Number(86942)], [0x03, 0x8E, 0x02, 0x9E, 0xA7, 0x05];
    assert EncodePacked(f.kind, items) == Some(p) && |p| == 6;
    assert EncodeArray(f, items) == Some(TagBytes(f.tag, WT_STRING) + Varint(|p|) + p);
    assert [0x22] + [0x06] + p == [0x22, 0x06, 0x03, 0x8E, 0x02, 0x9E, 0xA7, 0x05];
  }
}
