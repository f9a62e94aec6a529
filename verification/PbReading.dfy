/** What a reader may rely on, whatever wrote the data: the last value counts, arrays come packed or not,
    what is absent is at its default, what breaks off is refused, and where a message ends. */
module PbReading {
  import opened Basics
  import opened Words
  import opened PbWire
  import opened PbMessage
  import opened PbRoundTrip
  import opened PbMerge

  /** A single value replaces what was there, has its has-flag set if it has one, and becomes the current
      member of its oneof. */
  lemma LastWins(f: Field, v: Value, slot: Slot, which: map<nat, nat>, rest: seq<Byte>)
    requires FieldOk(f) && !f.rule.Repeated? && !f.kind.SubmessageKind? && slot.One?
    requires EncodeValue(f.kind, v).Some? && Readable(f.kind, v)
    ensures var r := DecodeField(f, WireType(f.kind), slot, which, EncodeValue(f.kind, v).value + rest);
            && r.Ok? && r.rest == rest && r.value.0.One? && Same(f.kind, v, r.value.0.value)
            && r.value.0.has == f.rule.Optional?
            && r.value.1 == if f.rule.Oneof? then which[f.rule.group := f.tag] else which
  {
    ScalarBack(f.kind, v, false, slot.value, rest);
  }

  // ---- arrays, packed or not ----

  lemma OneEntry(f: Field, had: seq<Value>, v: Value, which: map<nat, nat>, rest: seq<Byte>)
    requires f.rule.Repeated? && Packable(f.kind) && KindOk(f.kind) && |had| < f.rule.max
    requires EncodeValue(f.kind, v).Some?
    ensures DecodeField(f, WireType(f.kind), Many(had), which, EncodeValue(f.kind, v).value + rest) ==
            Ok((Many(had + [v]), which), rest)
  {
    ScalarBack(f.kind, v, true, Zero(f.kind), rest);
  }

  lemma OneUnpacked(fs: Fields, i: nat, v: Value, st: State, rest: seq<Byte>)
    requires FieldsOk(fs) && StateOk(fs, st) && i < |fs| && fs[i].rule.Repeated? && Packable(fs[i].kind)
    requires st.slots[i].Many? && |st.slots[i].items| < fs[i].rule.max
    requires Tagged(fs[i].kind, fs[i].tag, v).Some? && fs[i].tag < MAX_TAG
    ensures DecodeLoop(fs, Tagged(fs[i].kind, fs[i].tag, v).value + rest, st) ==
            DecodeLoop(fs, rest, Store(fs, st, i, Many(st.slots[i].items + [v]), st.which))
  {
    var f := fs[i];
    assert FieldOk(f);
    var e := EncodeValue(f.kind, v).value;
    Assoc(TagBytes(f.tag, WireType(f.kind)), e, rest);
    OneEntry(f, st.slots[i].items, v, st.which, rest);
    PbRoundTrip.OneRecord(fs, i, WireType(f.kind), e + rest, st);
  }

  lemma {:induction false} UnpackedArray(fs: Fields, i: nat, items: seq<Value>, st: State, rest: seq<Byte>)
    requires FieldsOk(fs) && StateOk(fs, st) && i < |fs| && fs[i].rule.Repeated? && Packable(fs[i].kind)
    requires st.slots[i].Many? && |st.slots[i].items| + |items| <= fs[i].rule.max && items != []
    requires EncodeItems(fs[i].kind, fs[i].tag, items).Some? && fs[i].tag < MAX_TAG
    ensures DecodeLoop(fs, EncodeItems(fs[i].kind, fs[i].tag, items).value + rest, st) ==
            DecodeLoop(fs, rest, Store(fs, st, i, Many(st.slots[i].items + items), st.which))
    decreases |items|
  {
    var f, had := fs[i], st.slots[i].items;
    var e, tail := Tagged(f.kind, f.tag, items[0]).value, EncodeItems(f.kind, f.tag, items[1..]).value;
    Assoc(e, tail, rest);
    OneUnpacked(fs, i, items[0], st, tail + rest);
    var st' := Store(fs, st, i, Many(had + [items[0]]), st.which);
    if |items| == 1 {
      assert tail + rest == rest && items == [items[0]];
    } else {
      UnpackedArray(fs, i, items[1..], st', rest);
      StoredTwice(fs, i, items, st, had);
    }
  }

  lemma StoredTwice(fs: Fields, i: nat, items: seq<Value>, st: State, had: seq<Value>)
    requires StateOk(fs, st) && i < |fs| && items != []
    ensures had + [items[0]] + items[1..] == had + items
    ensures Store(fs, Store(fs, st, i, Many(had + [items[0]]), st.which), i, Many(had + items), st.which) ==
            Store(fs, st, i, Many(had + items), st.which)
  {
    assert [items[0]] + items[1..] == items;
  }

  lemma PackedArray(fs: Fields, i: nat, items: seq<Value>, st: State, rest: seq<Byte>)
    requires FieldsOk(fs) && StateOk(fs, st) && i < |fs| && fs[i].rule.Repeated? && Packable(fs[i].kind)
    requires st.slots[i].Many? && |st.slots[i].items| + |items| <= fs[i].rule.max && fs[i].tag < MAX_TAG
    requires EncodePacked(fs[i].kind, items).Some? && |EncodePacked(fs[i].kind, items).value| < TWO32
    ensures var p := EncodePacked(fs[i].kind, items).value;
            DecodeLoop(fs, TagBytes(fs[i].tag, WT_STRING) + Varint(|p|) + p + rest, st) ==
            DecodeLoop(fs, rest, Store(fs, st, i, Many(st.slots[i].items + items), st.which))
  {
    var f, had := fs[i], st.slots[i].items;
    assert FieldOk(f);
    var p := EncodePacked(f.kind, items).value;
    AssocFour(TagBytes(f.tag, WT_STRING), Varint(|p|), p, rest);
    DelimitedBack(p, rest);
    forall v | v in items ensures ValueOk(f.kind, v) { }
    PackedBack(f.kind, items, f.rule.max, had);
    NumbersSame(f.kind, had, items, DecodePacked(f.kind, f.rule.max, had, p).value);
    PbRoundTrip.OneRecord(fs, i, WT_STRING, Varint(|p|) + p + rest, st);
  }

  lemma {:induction false} PackedNumbers(k: Kind, items: seq<Value>)
    requires Packable(k) && EncodePacked(k, items).Some?
    ensures forall v :: v in items ==> v.Number?
    decreases |items|
  {
    if items != [] { PackedNumbers(k, items[1..]); }
  }

  lemma NumbersSame(k: Kind, had: seq<Value>, items: seq<Value>, all: seq<Value>)
    requires Packable(k) && EncodePacked(k, items).Some? && Appended(k, had, items, all)
    ensures all == had + items
  {
    PackedNumbers(k, items);
    forall i | 0 <= i < |all| ensures all[i] == (had + items)[i] {
      if i < |had| {
        assert all[i] == all[..|had|][i];
      } else {
        var j := i - |had|;
        assert items[j] in items && Same(k, items[j], all[|had| + j]);
      }
    }
  }

  /** An array of numbers may come packed or one by one, over whatever entries there are already: the reader
      stores the same. */
  lemma PackedOrNot(fs: Fields, i: nat, items: seq<Value>, st: State, rest: seq<Byte>)
    requires FieldsOk(fs) && StateOk(fs, st) && i < |fs| && fs[i].rule.Repeated? && Packable(fs[i].kind)
    requires st.slots[i].Many? && |st.slots[i].items| + |items| <= fs[i].rule.max && items != []
    requires fs[i].tag < MAX_TAG && EncodeItems(fs[i].kind, fs[i].tag, items).Some?
    requires EncodePacked(fs[i].kind, items).Some? && |EncodePacked(fs[i].kind, items).value| < TWO32
    ensures var p, stored := EncodePacked(fs[i].kind, items).value,
                             Store(fs, st, i, Many(st.slots[i].items + items), st.which);
            && DecodeLoop(fs, TagBytes(fs[i].tag, WT_STRING) + Varint(|p|) + p + rest, st) ==
               DecodeLoop(fs, rest, stored)
            && DecodeLoop(fs, EncodeItems(fs[i].kind, fs[i].tag, items).value + rest, st) ==
               DecodeLoop(fs, rest, stored)
  {
    PackedArray(fs, i, items, st, rest);
    UnpackedArray(fs, i, items, st, rest);
  }

  // ---- what is not there ----

  ghost predicate Blanked(k: Kind, v: Value) {
    match k
    case BytesKind(_) => v == Bytes([])
    case StringKind(n) => v.Text? && |v.buffer| == n && forall x :: x in v.buffer ==> x == 0
    case FixedBytesKind(n) => v.Bytes? && |v.bytes| == n && forall x :: x in v.bytes ==> x == 0
    case SubmessageKind(_) => false
    case _ => v == Number(0)
  }

  /** What a descriptor declares for a field that has no record: no entries, no has-flag, and the field's own
      default value or else zero; in a submessage the same for each of its fields. */
  ghost predicate Declared(f: Field, slot: Slot)
    decreases slot
  {
    match slot
    case Many(items) => f.rule.Repeated? && items == []
    case One(has, v) =>
      && !f.rule.Repeated? && !has
      && (f.rule.Oneof? ||
          if f.kind.SubmessageKind? then
            && v.Message? && v.which == map[] && |v.slots| == |f.kind.fields|
            && forall i :: 0 <= i < |v.slots| ==> Declared(f.kind.fields[i], v.slots[i])
          else if f.initial.Some? then v == f.initial.value
          else Blanked(f.kind, v))
  }

  lemma {:induction false} DefaultsDeclared(fs: Fields, i: nat)
    requires i < |fs|
    ensures Declared(fs[i], Defaults(fs)[i])
    decreases fs, 1
  {
    if i == 0 {
      DefaultDeclared(fs[0]);
    } else {
      DefaultsDeclared(fs[1..], i - 1);
    }
  }

  lemma {:induction false} DefaultDeclared(f: Field)
    ensures Declared(f, Default(f))
    decreases f, 0
  {
    if f.kind.SubmessageKind? {
      var fs := f.kind.fields;
      forall i | 0 <= i < |fs| ensures Declared(fs[i], Defaults(fs)[i]) {
        DefaultsDeclared(fs, i);
      }
    }
  }

  lemma OptionalSet(f: Field, wt: nat, slot: Slot, which: map<nat, nat>, s: seq<Byte>)
    requires f.rule.Optional?
    ensures var r := DecodeField(f, wt, slot, which, s);
            r.Ok? ==> r.value.0.One? && r.value.0.has
  {
  }

  lemma {:induction false} KeptOrSet(fs: Fields, i: nat, s: seq<Byte>, st: State, was: Slot)
    requires StateOk(fs, st) && i < |fs| && fs[i].rule.Optional?
    requires st.slots[i] == was || (st.slots[i].One? && st.slots[i].has)
    ensures var r := DecodeLoop(fs, s, st);
            r.End? ==> r.state.slots[i] == was || (r.state.slots[i].One? && r.state.slots[i].has)
    decreases |s|
  {
    if s != [] && DecodeTag(s).Tag? {
      var Tag(tag, wt, rest) := DecodeTag(s);
      var r, j := DecodeOne(fs, tag, wt, rest, st), Find(fs, st.pos, tag);
      if j == Some(i) { OptionalSet(fs[i], wt, st.slots[i], st.which, rest); }
      if r.Ok? { KeptOrSet(fs, i, r.rest, r.value, was); }
    }
  }

  /** Whatever the data and the descriptor: an optional field is there, or it is what the descriptor declares
      for it. */
  lemma AbsentIsDeclared(fs: Fields, s: seq<Byte>, i: nat)
    requires i < |fs| && fs[i].rule.Optional?
    ensures var r := DecodeMessage(fs, s, Defaults(fs), map[]);
            r.Ok? ==>
              var slot := r.value.slots[i];
              (slot.One? && slot.has) || Declared(fs[i], slot)
  {
    DefaultsDeclared(fs, i);
    KeptOrSet(fs, i, s, State(Defaults(fs), map[], 0, {}), Defaults(fs)[i]);
  }

  // ---- values that break off ----

  lemma {:induction false} CutVarint(s: seq<Byte>, limit: nat, n: nat)
    requires n <= |s| && VarintLen(s, limit) > 0
    ensures VarintLen(s[..n], limit) == if n < VarintLen(s, limit) then 0 else VarintLen(s, limit)
    decreases limit
  {
    if n > 0 && s[0] >= 128 {
      assert s[..n][1..] == s[1..][..n - 1];
      CutVarint(s[1..], limit - 1, n - 1);
    }
  }

  lemma CutLength(s: seq<Byte>, n: nat)
    requires n <= |s| && DecodeVarint32(s).Ok?
    ensures var k, r := VarintLen(s, 5), DecodeVarint32(s[..n]);
            if n < k then r.Fail?
            else k <= |s| && r.Ok? && r.value == DecodeVarint32(s).value && |r.rest| == n - k
  {
    CutVarint(s, 5, n);
    var k := VarintLen(s, 5);
    if n >= k { assert s[..n][..k] == s[..k]; }
  }

  lemma CutBody(s: seq<Byte>, n: nat)
    requires DecodeVarint32(s).Ok? && n < |s| - |DecodeVarint32(s).rest| + DecodeVarint32(s).value <= |s|
    ensures DecodeVarint32(s[..n]).Fail? ||
            (DecodeVarint32(s[..n]).value == DecodeVarint32(s).value > |DecodeVarint32(s[..n]).rest|)
  {
    CutLength(s, n);
  }

  lemma CutDelimited(s: seq<Byte>, n: nat)
    requires Delimited(s).Ok? && n < |s| - |Delimited(s).rest|
    ensures Delimited(s[..n]).Fail?
  {
    CutBody(s, n);
  }

  lemma CutText(dataSize: nat, s: seq<Byte>, was: seq<Byte>, n: nat)
    requires DecodeText(dataSize, s, was).Ok? && n < |s| - |DecodeText(dataSize, s, was).rest|
    ensures DecodeText(dataSize, s[..n], was).Fail?
  {
    CutBody(s, n);
  }

  lemma CutBytes(dataSize: nat, s: seq<Byte>, n: nat)
    ensures DecodeBytes(dataSize, s).Ok? && n < |s| - |DecodeBytes(dataSize, s).rest| ==>
              DecodeBytes(dataSize, s[..n]).Fail?
    ensures DecodeFixedBytes(dataSize, s).Ok? && n < |s| - |DecodeFixedBytes(dataSize, s).rest| ==>
              DecodeFixedBytes(dataSize, s[..n]).Fail?
  {
    if DecodeVarint32(s).Ok? && n < |s| - |DecodeVarint32(s).rest| + DecodeVarint32(s).value <= |s| { CutBody(s, n); }
  }

  /** A value that breaks off is refused: no part of what was read as a value reads as one. */
  lemma CutValueFails(k: Kind, isEntry: bool, s: seq<Byte>, was: Value, n: nat)
    requires DecodeValue(k, isEntry, s, was).Ok? && n < |s| - |DecodeValue(k, isEntry, s, was).rest|
    ensures DecodeValue(k, isEntry, s[..n], was).Fail?
  {
    match k
    case SubmessageKind(_) => CutDelimited(s, n);
    case StringKind(dataSize) => CutText(dataSize, s, if was.Text? then was.buffer else Zeros(dataSize), n);
    case BytesKind(dataSize) => CutBytes(dataSize, s, n);
    case FixedBytesKind(dataSize) => CutBytes(dataSize, s, n);
    case Fixed32Kind =>
    case Fixed64Kind =>
    case _ => CutVarint(s, 10, n);
  }

  // ---- where a message ends ----

  lemma {:induction false} NoEnd(cut: seq<Byte>, limit: nat)
    requires forall i :: 0 <= i < |cut| ==> cut[i] >= 128
    ensures VarintLen(cut, limit) == 0
    decreases limit
  {
    if cut != [] && limit > 0 { NoEnd(cut[1..], limit - 1); }
  }

  /** Data that breaks off inside a tag is taken for the end of the message: what came before it counts. */
  lemma CutTagEnds(fs: Fields, a: seq<Byte>, cut: seq<Byte>, slots: seq<Slot>, which: map<nat, nat>)
    requires |slots| == |fs| && WholeFields(fs, a, slots, which)
    requires |cut| <= 5 && forall i :: 0 <= i < |cut| ==> cut[i] >= 128
    ensures DecodeMessage(fs, a + cut, slots, which) == DecodeMessage(fs, a, slots, which)
  {
    var st := State(slots, which, 0, {});
    LoopContinues(fs, a, cut, st);
    EndsUnread(fs, a, st);
    NoEnd(cut, 5);
    var after := DecodeLoop(fs, a, st).state;
    assert cut != [] ==> DecodeTag(cut) == Eof([]);
    assert DecodeLoop(fs, cut, after).End? && DecodeLoop(fs, cut, after).unread == [];
  }

  /** A zero byte in place of a tag ends the message, and what follows it is left unread. */
  lemma ZeroEnds(fs: Fields, a: seq<Byte>, b: seq<Byte>, slots: seq<Slot>, which: map<nat, nat>)
    requires |slots| == |fs| && WholeFields(fs, a, slots, which)
    ensures var r := DecodeMessage(fs, a, slots, which);
            r.Ok? && DecodeMessage(fs, a + ([0] + b), slots, which) == Ok(r.value, b)
  {
    var st := State(slots, which, 0, {});
    LoopContinues(fs, a, [0] + b, st);
    ZeroTag(b);
  }

  lemma ZeroTag(b: seq<Byte>)
    ensures DecodeTag([0] + b) == Eof(b)
  {
    var s: seq<Byte> := [0] + b;
    assert s[..1] == [0] && s[1..] == b;
    assert PbWire.Value([0]) == 0;
  }
}
