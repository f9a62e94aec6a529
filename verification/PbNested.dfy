/** Submessages that come in parts: a single submessage is decoded over what is there, so its parts add up,
    at any depth; entries of arrays and members of oneofs start anew. */
module PbNested {
  import opened Basics
  import opened Words
  import opened PbWire
  import opened PbMessage
  import opened PbMerge
  import R = PbRoundTrip

  /** A length and the bytes */
  function Counted(body: seq<Byte>): seq<Byte> {
    Varint(|body|) + body
  }

  /** A submessage with its tag */
  function Part(tag: nat, body: seq<Byte>): seq<Byte> {
    TagBytes(tag, WT_STRING) + Counted(body)
  }

  predicate Single(f: Field) {
    f.kind.SubmessageKind? && (f.rule.Required? || f.rule.Optional? || f.rule.Implicit?)
  }

  predicate Shaped(fs: Fields, v: Value) {
    v.Message? && |v.slots| == |fs|
  }

  // ---- where decoding starts ----

  /** A single submessage starts from what is there. */
  lemma StartsFromThere(f: Field, slot: Slot, which: map<nat, nat>, body: seq<Byte>, rest: seq<Byte>)
    requires Single(f) && slot.One? && Shaped(f.kind.fields, slot.value) && |body| < TWO32
    ensures var m := DecodeMessage(f.kind.fields, body, slot.value.slots, slot.value.which);
            DecodeField(f, WT_STRING, slot, which, Counted(body) + rest) ==
            if m.Fail? then Fail else Ok((One(f.rule.Optional?, m.value), which), rest)
  {
    R.DelimitedBack(body, rest);
  }

  /** Every entry of an array starts from its defaults, whatever the entries before it are. */
  lemma EntryStartsAnew(f: Field, items: seq<Value>, which: map<nat, nat>, body: seq<Byte>, rest: seq<Byte>)
    requires f.kind.SubmessageKind? && f.rule.Repeated? && |items| < f.rule.max && |body| < TWO32
    ensures var m := DecodeMessage(f.kind.fields, body, Defaults(f.kind.fields), map[]);
            DecodeField(f, WT_STRING, Many(items), which, Counted(body) + rest) ==
            if m.Fail? then Fail else Ok((Many(items + [m.value]), which), rest)
  {
    R.DelimitedBack(body, rest);
  }

  /** So does a member of a oneof, whatever was there; it becomes the current one. */
  lemma MemberStartsAnew(f: Field, slot: Slot, which: map<nat, nat>, body: seq<Byte>, rest: seq<Byte>)
    requires f.kind.SubmessageKind? && f.rule.Oneof? && |body| < TWO32
    ensures var m := DecodeMessage(f.kind.fields, body, Defaults(f.kind.fields), map[]);
            DecodeField(f, WT_STRING, slot, which, Counted(body) + rest) ==
            if m.Fail? then Fail else Ok((One(false, m.value), which[f.rule.group := f.tag]), rest)
  {
    R.DelimitedBack(body, rest);
  }

  // ---- parts ----

  /** What is stored by a part of field i */
  lemma OnePart(fs: Fields, i: nat, body: seq<Byte>, rest: seq<Byte>, st: State)
    requires StateOk(fs, st) && i < |fs| && 0 < fs[i].tag < MAX_TAG && Find(fs, st.pos, fs[i].tag) == Some(i)
    requires Single(fs[i]) && st.slots[i].One? && Shaped(fs[i].kind.fields, st.slots[i].value) && |body| < TWO32
    ensures var m := DecodeMessage(fs[i].kind.fields, body, st.slots[i].value.slots, st.slots[i].value.which);
            DecodeLoop(fs, Part(fs[i].tag, body) + rest, st) ==
            if m.Fail? then Broken
            else DecodeLoop(fs, rest, Store(fs, st, i, One(fs[i].rule.Optional?, m.value), st.which))
  {
    StartsFromThere(fs[i], st.slots[i], st.which, body, rest);
    Assoc(TagBytes(fs[i].tag, WT_STRING), Counted(body), rest);
    TagRoundTrip(fs[i].tag, WT_STRING, Counted(body) + rest);
  }

  /** Two parts one after the other are one part with the contents of both, whatever is there before them and
      whatever follows; provided that the first is whole fields and the second can be read. */
  lemma TwoParts(fs: Fields, i: nat, a: seq<Byte>, b: seq<Byte>, rest: seq<Byte>, st: State)
    requires StateOk(fs, st) && i < |fs| && 0 < fs[i].tag < MAX_TAG && Find(fs, st.pos, fs[i].tag) == Some(i)
    requires Single(fs[i]) && st.slots[i].One? && Shaped(fs[i].kind.fields, st.slots[i].value) && |a + b| < TWO32
    requires var gs, was := fs[i].kind.fields, st.slots[i].value;
             && Unambiguous(gs) && WholeFields(gs, a, was.slots, was.which)
             && var m := DecodeMessage(gs, a, was.slots, was.which).value;
                || DecodeMessage(gs, b, m.slots, m.which).Ok?
                || forall j :: 0 <= j < |gs| ==> !gs[j].rule.Required?
    ensures DecodeLoop(fs, Part(fs[i].tag, a) + (Part(fs[i].tag, b) + rest), st) ==
            DecodeLoop(fs, Part(fs[i].tag, a + b) + rest, st)
  {
    var gs, was := fs[i].kind.fields, st.slots[i].value;
    ConcatenationIsMerge(gs, a, b, was.slots, was.which);
    var m := DecodeMessage(gs, a, was.slots, was.which).value;
    OnePart(fs, i, a, Part(fs[i].tag, b) + rest, st);
    var st1 := Store(fs, st, i, One(fs[i].rule.Optional?, m), st.which);
    FoundAgain(fs, i);
    OnePart(fs, i, b, rest, st1);
    OnePart(fs, i, a + b, rest, st);
    var second := DecodeMessage(gs, b, m.slots, m.which);
    if second.Ok? {
      StoredAgain(fs, i, st, st1, One(fs[i].rule.Optional?, m), One(fs[i].rule.Optional?, second.value));
    }
  }

  lemma FoundAgain(fs: Fields, i: nat)
    requires i < |fs|
    ensures Find(fs, i, fs[i].tag) == Some(i)
  {
  }

  lemma StoredAgain(fs: Fields, i: nat, st: State, st1: State, first: Slot, second: Slot)
    requires StateOk(fs, st) && i < |fs| && st1 == Store(fs, st, i, first, st.which)
    ensures Store(fs, st1, i, second, st1.which) == Store(fs, st, i, second, st.which)
  {
  }

  // ---- at any depth ----

  /** The data as a part of a submessage of a submessage, and so on along the path */
  function Wrapped(fs: Fields, path: seq<nat>, body: seq<Byte>): seq<Byte>
    decreases |path|
  {
    if path == [] || path[0] >= |fs| || !fs[path[0]].kind.SubmessageKind? then body
    else Part(fs[path[0]].tag, Wrapped(fs[path[0]].kind.fields, path[1..], body))
  }

  /** The path leads through single submessages; at its end the data does not stop early. */
  ghost predicate Leads(fs: Fields, path: seq<nat>, a: seq<Byte>, slots: seq<Slot>, which: map<nat, nat>)
    decreases |path|
  {
    && |slots| == |fs|
    && if path == [] then
         DecodeLoop(fs, a, State(slots, which, 0, {})).End? ==> DecodeLoop(fs, a, State(slots, which, 0, {})).clean
       else
         && path[0] < |fs|
         && var f, slot := fs[path[0]], slots[path[0]];
            && Single(f) && 0 < f.tag < MAX_TAG && Find(fs, 0, f.tag) == Some(path[0]) && Unambiguous(f.kind.fields)
            && slot.One? && Shaped(f.kind.fields, slot.value)
            && Leads(f.kind.fields, path[1..], a, slot.value.slots, slot.value.which)
  }

  ghost predicate AllShort(fs: Fields, path: seq<nat>, body: seq<Byte>)
    decreases |path|
  {
    path != [] && path[0] < |fs| && fs[path[0]].kind.SubmessageKind? ==>
      |Wrapped(fs[path[0]].kind.fields, path[1..], body)| < TWO32 && AllShort(fs[path[0]].kind.fields, path[1..], body)
  }

  lemma AloneEnds(fs: Fields, i: nat, body: seq<Byte>, st: State)
    requires StateOk(fs, st) && i < |fs| && 0 < fs[i].tag < MAX_TAG && Find(fs, st.pos, fs[i].tag) == Some(i)
    requires Single(fs[i]) && st.slots[i].One? && Shaped(fs[i].kind.fields, st.slots[i].value) && |body| < TWO32
    ensures var m := DecodeMessage(fs[i].kind.fields, body, st.slots[i].value.slots, st.slots[i].value.which);
            DecodeLoop(fs, Part(fs[i].tag, body), st) ==
            if m.Fail? then Broken else End(Store(fs, st, i, One(fs[i].rule.Optional?, m.value), st.which), [], true)
  {
    OnePart(fs, i, body, [], st);
    assert Part(fs[i].tag, body) + [] == Part(fs[i].tag, body);
  }

  lemma WrappedIsWhole(fs: Fields, path: seq<nat>, a: seq<Byte>, slots: seq<Slot>, which: map<nat, nat>)
    requires Leads(fs, path, a, slots, which) && AllShort(fs, path, a)
    requires DecodeMessage(fs, Wrapped(fs, path, a), slots, which).Ok?
    ensures WholeFields(fs, Wrapped(fs, path, a), slots, which)
  {
    if path != [] {
      AloneEnds(fs, path[0], Wrapped(fs[path[0]].kind.fields, path[1..], a), State(slots, which, 0, {}));
    }
  }

  /** The first part, the second over it, and both as they stand in one submessage */
  lemma PartsRead(fs: Fields, i: nat, x: seq<Byte>, y: seq<Byte>, slots: seq<Slot>, which: map<nat, nat>)
    returns (m1: Value, m2: Value)
    requires |slots| == |fs| && i < |fs| && 0 < fs[i].tag < MAX_TAG && Find(fs, 0, fs[i].tag) == Some(i)
    requires Single(fs[i]) && slots[i].One? && Shaped(fs[i].kind.fields, slots[i].value)
    requires |x| < TWO32 && |y| < TWO32
    requires DecodeMessage(fs, Part(fs[i].tag, x) + Part(fs[i].tag, y), slots, which).Ok?
    ensures var gs, was := fs[i].kind.fields, slots[i].value;
            && DecodeMessage(gs, x, was.slots, was.which).Ok? && m1 == DecodeMessage(gs, x, was.slots, was.which).value
            && Shaped(gs, m1)
            && DecodeMessage(gs, y, m1.slots, m1.which).Ok? && m2 == DecodeMessage(gs, y, m1.slots, m1.which).value
    ensures var st := State(slots, which, 0, {});
            DecodeLoop(fs, Part(fs[i].tag, x) + Part(fs[i].tag, y), st) ==
            End(Store(fs, st, i, One(fs[i].rule.Optional?, m2), which), [], true)
  {
    var gs, was, st := fs[i].kind.fields, slots[i].value, State(slots, which, 0, {});
    OnePart(fs, i, x, Part(fs[i].tag, y), st);
    m1 := DecodeMessage(gs, x, was.slots, was.which).value;
    var st1 := Store(fs, st, i, One(fs[i].rule.Optional?, m1), which);
    FoundAgain(fs, i);
    AloneEnds(fs, i, y, st1);
    m2 := DecodeMessage(gs, y, m1.slots, m1.which).value;
    StoredAgain(fs, i, st, st1, One(fs[i].rule.Optional?, m1), One(fs[i].rule.Optional?, m2));
  }

  /** At any depth: a submessage that comes in two parts, each wrapped in parts of the submessages around it,
      reads as if it had come in one. */
  lemma {:induction false} PartsAddUp(fs: Fields, path: seq<nat>, a: seq<Byte>, b: seq<Byte>, slots: seq<Slot>,
                                      which: map<nat, nat>)
    requires Leads(fs, path, a, slots, which)
    requires AllShort(fs, path, a) && AllShort(fs, path, b) && AllShort(fs, path, a + b)
    requires DecodeMessage(fs, Wrapped(fs, path, a) + Wrapped(fs, path, b), slots, which).Ok?
    ensures DecodeMessage(fs, Wrapped(fs, path, a + b), slots, which) ==
            DecodeMessage(fs, Wrapped(fs, path, a) + Wrapped(fs, path, b), slots, which)
    decreases |path|
  {
    if path != [] {
      var i := path[0];
      var gs, was := fs[i].kind.fields, slots[i].value;
      var x, y, z := Wrapped(gs, path[1..], a), Wrapped(gs, path[1..], b), Wrapped(gs, path[1..], a + b);
      var m1, m2 := PartsRead(fs, i, x, y, slots, which);
      WrappedIsWhole(gs, path[1..], a, was.slots, was.which);
      ConcatenationIsMerge(gs, x, y, was.slots, was.which);
      PartsAddUp(gs, path[1..], a, b, was.slots, was.which);
      AloneEnds(fs, i, z, State(slots, which, 0, {}));
    }
  }

  lemma NumberRead(inner: Fields, head: Byte, n: Byte, slots: seq<Slot>, i: nat)
    requires inner == [R.NumberField(1), R.NumberField(2)] && |slots| == 2 && slots[0].One? && slots[1].One?
    requires (head == 8 && i == 0) || (head == 16 && i == 1)
    requires n < 128
    ensures DecodeMessage(inner, [head, n], slots, map[]) == Ok(Message(slots[i := One(true, Number(n))], map[]), [])
  {
    assert FindBetween(inner, 0, 2, 2) == FindBetween(inner, 1, 2, 2);
    OneNumber(inner, head, n, State(slots, map[], 0, {}), i);
  }

  lemma OuterDefaults(inner: Fields, f: Field)
    requires inner == [R.NumberField(1), R.NumberField(2)] && f == Field(1, SubmessageKind(inner), Optional, None)
    ensures Defaults([f]) == [One(false, Message([One(false, Number(0)), One(false, Number(0))], map[]))]
  {
    R.TwoDefaults(1, 2);
    assert [f][1..] == [] && Defaults([f]) == [Default(f)] + Defaults([]);
    assert Default(f) == One(false, Zero(f.kind)) && Zero(f.kind) == Message(Defaults(inner), map[]);
  }

  lemma ExampleBytes()
    ensures Part(1, [8, 5]) + Part(1, [16, 6]) == [0x0A, 2, 8, 5, 0x0A, 2, 16, 6]
  {
    assert TagBytes(1, WT_STRING) == [0x0A] && Varint(2) == [2];
  }

  lemma ExampleNumbers(inner: Fields, none: Slot, five: Slot, six: Slot)
    requires inner == [R.NumberField(1), R.NumberField(2)]
    requires none == One(false, Number(0)) && five == One(true, Number(5)) && six == One(true, Number(6))
    ensures DecodeMessage(inner, [8, 5], [none, none], map[]) == Ok(Message([five, none], map[]), [])
    ensures DecodeMessage(inner, [16, 6], [five, none], map[]) == Ok(Message([five, six], map[]), [])
  {
    NumberRead(inner, 8, 5, [none, none], 0);
    NumberRead(inner, 16, 6, [five, none], 1);
    assert [none, none][0 := five] == [five, none];
    assert [five, none][1 := six] == [five, six];
  }

  lemma ExampleRuns(inner: Fields, f: Field, st: State, s: seq<Byte>)
    requires inner == [R.NumberField(1), R.NumberField(2)] && f == Field(1, SubmessageKind(inner), Optional, None)
    requires s == Part(1, [8, 5]) + Part(1, [16, 6]) && st == State(Defaults([f]), map[], 0, {})
    ensures DecodeLoop([f], s, st) ==
            End(State([One(true, Message([One(true, Number(5)), One(true, Number(6))], map[]))], map[], 0, {}),
                [], true)
  {
    var none: Slot, five: Slot := One(false, Number(0)), One(true, Number(5));
    OuterDefaults(inner, f);
    ExampleNumbers(inner, none, five, One(true, Number(6)));
    OnePart([f], 0, [8, 5], Part(1, [16, 6]), st);
    AloneEnds([f], 0, [16, 6], Store([f], st, 0, One(true, Message([five, none], map[])), map[]));
  }

  /** For example: field 1 of the message in one part and field 2 in another. */
  lemma TwoPartsExample(inner: Fields, f: Field, s: seq<Byte>)
    requires inner == [R.NumberField(1), R.NumberField(2)] && f == Field(1, SubmessageKind(inner), Optional, None)
    requires s == [0x0A, 2, 8, 5, 0x0A, 2, 16, 6]
    ensures DecodeMessage([f], s, Defaults([f]), map[]) ==
            Ok(Message([One(true, Message([One(true, Number(5)), One(true, Number(6))], map[]))], map[]), [])
  {
    ExampleBytes();
    ExampleRuns(inner, f, State(Defaults([f]), map[], 0, {}), s);
  }
}
