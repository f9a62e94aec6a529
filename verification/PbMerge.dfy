/** Concatenating encodings merges messages: decoding a and then b into the same message is the same
    as decoding a followed by b. */
module PbMerge {
  import opened Basics
  import opened Words
  import opened PbWire
  import opened PbMessage

  // ---- what was decoded does not depend on what follows ----

  ghost predicate Extends<T(!new)>(short: Result<T>, long: Result<T>, t: seq<Byte>) {
    short.Ok? ==> long == Ok(short.value, short.rest + t)
  }

  lemma DelimitedExtends(s: seq<Byte>, t: seq<Byte>)
    ensures Extends(Delimited(s), Delimited(s + t), t)
  {
    if Delimited(s).Ok? {
      Varint32Prefix(s, t);
      TakeDrop(DecodeVarint32(s).rest, t, DecodeVarint32(s).value);
    }
  }

  lemma NumberExtends(k: Kind, s: seq<Byte>, t: seq<Byte>, was: Value)
    requires Packable(k)
    ensures Extends(DecodeValue(k, true, s, was), DecodeValue(k, true, s + t, was), t)
    ensures Extends(DecodeValue(k, false, s, was), DecodeValue(k, false, s + t, was), t)
  {
    if DecodeVarint(s).Ok? { VarintPrefix(s, t); }
    if |s| >= 4 { TakeDrop(s, t, 4); }
    if |s| >= 8 { TakeDrop(s, t, 8); }
  }

  lemma ValueExtends(k: Kind, isEntry: bool, s: seq<Byte>, t: seq<Byte>, was: Value)
    ensures Extends(DecodeValue(k, isEntry, s, was), DecodeValue(k, isEntry, s + t, was), t)
  {
    if Packable(k) {
      NumberExtends(k, s, t, was);
    } else if k.SubmessageKind? {
      DelimitedExtends(s, t);
    } else if DecodeVarint32(s).Ok? {
      Varint32Prefix(s, t);
      var r := DecodeVarint32(s);
      if r.value <= |r.rest| { TakeDrop(r.rest, t, r.value); }
    }
  }

  lemma ArrayExtends(f: Field, wt: nat, slot: Slot, which: map<nat, nat>, s: seq<Byte>, t: seq<Byte>)
    requires f.rule.Repeated?
    ensures Extends(DecodeField(f, wt, slot, which, s), DecodeField(f, wt, slot, which, s + t), t)
  {
    if wt == WT_STRING && Packable(f.kind) {
      DelimitedExtends(s, t);
    } else {
      ValueExtends(f.kind, true, s, t, Zero(f.kind));
    }
  }

  lemma SingleExtends(f: Field, wt: nat, slot: Slot, which: map<nat, nat>, s: seq<Byte>, t: seq<Byte>)
    requires !f.rule.Repeated?
    ensures Extends(DecodeField(f, wt, slot, which, s), DecodeField(f, wt, slot, which, s + t), t)
  {
    if slot.Many? || (f.rule.Oneof? && f.kind.SubmessageKind?) {
      ValueExtends(f.kind, false, s, t, Zero(f.kind));
    } else {
      ValueExtends(f.kind, false, s, t, slot.value);
    }
  }

  lemma FieldExtends(f: Field, wt: nat, slot: Slot, which: map<nat, nat>, s: seq<Byte>, t: seq<Byte>)
    ensures Extends(DecodeField(f, wt, slot, which, s), DecodeField(f, wt, slot, which, s + t), t)
  {
    if f.rule.Repeated? {
      ArrayExtends(f, wt, slot, which, s, t);
    } else {
      SingleExtends(f, wt, slot, which, s, t);
    }
  }

  lemma {:induction false} SkipVarintExtends(s: seq<Byte>, t: seq<Byte>)
    ensures Extends(SkipVarint(s), SkipVarint(s + t), t)
  {
    if s != [] {
      assert (s + t)[1..] == s[1..] + t;
      SkipVarintExtends(s[1..], t);
    }
  }

  lemma SkipExtends(wt: nat, s: seq<Byte>, t: seq<Byte>)
    ensures Extends(SkipField(wt, s), SkipField(wt, s + t), t)
  {
    if wt == WT_VARINT {
      SkipVarintExtends(s, t);
    } else if wt == WT_STRING {
      DelimitedExtends(s, t);
    } else if wt == WT_32BIT && |s| >= 4 {
      TakeDrop(s, t, 4);
    } else if wt == WT_64BIT && |s| >= 8 {
      TakeDrop(s, t, 8);
    }
  }

  lemma OneExtends(fs: Fields, tag: nat, wt: nat, s: seq<Byte>, t: seq<Byte>, st: State)
    requires StateOk(fs, st)
    ensures Extends(DecodeOne(fs, tag, wt, s, st), DecodeOne(fs, tag, wt, s + t, st), t)
  {
    SkipExtends(wt, s, t);
    var found := Find(fs, st.pos, tag);
    if found.Some? {
      FieldExtends(fs[found.value], wt, st.slots[found.value], st.which, s, t);
    }
  }

  /** Once the whole of a is read, with nothing ending the message early, b is decoded from the state
      that a left: message, iterator and required fields. */
  lemma {:induction false} LoopContinues(fs: Fields, a: seq<Byte>, b: seq<Byte>, st: State)
    requires StateOk(fs, st) && DecodeLoop(fs, a, st).End? && DecodeLoop(fs, a, st).clean
    ensures DecodeLoop(fs, a + b, st) == DecodeLoop(fs, b, DecodeLoop(fs, a, st).state)
    decreases |a|
  {
    if a == [] {
      assert a + b == b;
    } else {
      var tag := DecodeTag(a);
      Varint32Prefix(a, b);
      OneExtends(fs, tag.tag, tag.wt, tag.rest, b, st);
      var one := DecodeOne(fs, tag.tag, tag.wt, tag.rest, st);
      LoopContinues(fs, one.rest, b, one.value);
    }
  }

  // ---- where the iterator was left does not matter ----

  ghost predicate Distinct(fs: Fields) {
    forall i, j :: 0 <= i < j < |fs| ==> fs[i].tag != fs[j].tag
  }

  /** No field is found that would not be found from the start, wherever finding another one has left the
      iterator. */
  ghost predicate Unambiguous(fs: Fields) {
    forall t: nat, u: nat :: t < MAX_TAG && u < MAX_TAG && Find(fs, 0, t).Some? ==>
      Find(fs, Find(fs, 0, t).value, u) == Find(fs, 0, u)
  }

  lemma DistinctIsUnambiguous(fs: Fields)
    requires Distinct(fs)
    ensures Unambiguous(fs)
  {
    forall t: nat, u: nat | t < MAX_TAG && u < MAX_TAG && Find(fs, 0, t).Some?
      ensures Find(fs, Find(fs, 0, t).value, u) == Find(fs, 0, u)
    {
      FindAnywhere(fs, Find(fs, 0, t).value, 0, u);
    }
  }

  lemma FindAnywhere(fs: Fields, p: nat, q: nat, tag: nat)
    requires Distinct(fs) && p <= |fs| && q <= |fs|
    ensures Find(fs, p, tag) == Find(fs, q, tag)
  {
  }

  /** Where the iterator may be: at the start, or where a field was found */
  ghost predicate Reachable(fs: Fields, pos: nat) {
    pos == 0 || exists t: nat :: t < MAX_TAG && Find(fs, 0, t) == Some(pos)
  }

  lemma FindFromReached(fs: Fields, p: nat, tag: nat)
    requires Unambiguous(fs) && Reachable(fs, p) && p <= |fs| && tag < MAX_TAG
    ensures Find(fs, p, tag) == Find(fs, 0, tag)
    ensures Find(fs, p, tag).Some? ==> Reachable(fs, Find(fs, p, tag).value)
  {
    if p != 0 {
      var t: nat :| t < MAX_TAG && Find(fs, 0, t) == Some(p);
      assert Find(fs, Find(fs, 0, t).value, tag) == Find(fs, 0, tag);
    }
  }

  /** Two results that differ only in the iterator and in the required fields `extra` seen before */
  ghost predicate Alike(r: LoopResult, r': LoopResult, extra: set<nat>) {
    || (r.Broken? && r'.Broken?)
    || (&& r.End? && r'.End? && r.unread == r'.unread && r.clean == r'.clean
        && AlikeState(r.state, r'.state, extra))
  }

  ghost predicate AlikeState(st: State, st': State, extra: set<nat>) {
    && st.slots == st'.slots && st.which == st'.which && st.seen == st'.seen + extra
  }

  lemma OneAlike(fs: Fields, tag: nat, wt: nat, s: seq<Byte>, st: State, st': State, extra: set<nat>)
    requires Unambiguous(fs) && StateOk(fs, st) && StateOk(fs, st') && AlikeState(st, st', extra)
    requires Reachable(fs, st.pos) && Reachable(fs, st'.pos) && tag < MAX_TAG
    ensures DecodeOne(fs, tag, wt, s, st).Ok? <==> DecodeOne(fs, tag, wt, s, st').Ok?
    ensures DecodeOne(fs, tag, wt, s, st).Ok? ==>
              && DecodeOne(fs, tag, wt, s, st).rest == DecodeOne(fs, tag, wt, s, st').rest
              && AlikeState(DecodeOne(fs, tag, wt, s, st).value, DecodeOne(fs, tag, wt, s, st').value, extra)
              && Reachable(fs, DecodeOne(fs, tag, wt, s, st).value.pos)
              && Reachable(fs, DecodeOne(fs, tag, wt, s, st').value.pos)
  {
    FindFromReached(fs, st.pos, tag);
    FindFromReached(fs, st'.pos, tag);
  }

  lemma {:induction false} LoopAlike(fs: Fields, s: seq<Byte>, st: State, st': State, extra: set<nat>)
    requires Unambiguous(fs) && StateOk(fs, st) && StateOk(fs, st') && AlikeState(st, st', extra)
    requires Reachable(fs, st.pos) && Reachable(fs, st'.pos)
    ensures Alike(DecodeLoop(fs, s, st), DecodeLoop(fs, s, st'), extra)
    decreases |s|
  {
    if s != [] && DecodeTag(s).Tag? {
      var tag := DecodeTag(s);
      OneAlike(fs, tag.tag, tag.wt, tag.rest, st, st', extra);
      var one, one' := DecodeOne(fs, tag.tag, tag.wt, tag.rest, st), DecodeOne(fs, tag.tag, tag.wt, tag.rest, st');
      if one.Ok? {
        LoopAlike(fs, one.rest, one.value, one'.value, extra);
      }
    }
  }

  // ---- the merge ----

  /** a is whole fields, none of them with the zero tag that ends a message. */
  ghost predicate WholeFields(fs: Fields, a: seq<Byte>, slots: seq<Slot>, which: map<nat, nat>)
    requires |slots| == |fs|
  {
    var r := DecodeLoop(fs, a, State(slots, which, 0, {}));
    r.End? && r.clean && AllRequired(fs, r.state.seen)
  }

  /** Decoding a ++ b is decoding a and then b into the same message, whenever either of those is a
      success; and always when nothing is required. */
  lemma ConcatenationIsMerge(fs: Fields, a: seq<Byte>, b: seq<Byte>, slots: seq<Slot>, which: map<nat, nat>)
    requires |slots| == |fs| && Unambiguous(fs) && WholeFields(fs, a, slots, which)
    ensures DecodeMessage(fs, a, slots, which).Ok? && DecodeMessage(fs, a, slots, which).rest == []
    ensures var m := DecodeMessage(fs, a, slots, which).value;
            var both, second := DecodeMessage(fs, a + b, slots, which), DecodeMessage(fs, b, m.slots, m.which);
            && (second.Ok? ==> both == second)
            && ((forall i :: 0 <= i < |fs| ==> !fs[i].rule.Required?) ==> both == second)
  {
    var first := DecodeLoop(fs, a, State(slots, which, 0, {}));
    EndsUnread(fs, a, State(slots, which, 0, {}));
    LoopContinues(fs, a, b, State(slots, which, 0, {}));
    EndsReachable(fs, a, State(slots, which, 0, {}));
    LoopAlike(fs, b, first.state, State(first.state.slots, first.state.which, 0, {}), first.state.seen);
  }

  lemma {:induction false} EndsUnread(fs: Fields, s: seq<Byte>, st: State)
    requires StateOk(fs, st)
    ensures DecodeLoop(fs, s, st).End? && DecodeLoop(fs, s, st).clean ==> DecodeLoop(fs, s, st).unread == []
    decreases |s|
  {
    if s != [] && DecodeTag(s).Tag? {
      var tag := DecodeTag(s);
      var one := DecodeOne(fs, tag.tag, tag.wt, tag.rest, st);
      if one.Ok? { EndsUnread(fs, one.rest, one.value); }
    }
  }

  lemma {:induction false} EndsReachable(fs: Fields, s: seq<Byte>, st: State)
    requires Unambiguous(fs) && StateOk(fs, st) && Reachable(fs, st.pos)
    ensures DecodeLoop(fs, s, st).End? ==> Reachable(fs, DecodeLoop(fs, s, st).state.pos)
    decreases |s|
  {
    if s != [] && DecodeTag(s).Tag? {
      var tag := DecodeTag(s);
      FindFromReached(fs, st.pos, tag.tag);
      var one := DecodeOne(fs, tag.tag, tag.wt, tag.rest, st);
      if one.Ok? { EndsReachable(fs, one.rest, one.value); }
    }
  }

  /** Required fields seen in a still count when b lacks them: then only a ++ b is accepted. */
  lemma RequiredSeenInEither(fs: Fields, a: seq<Byte>, b: seq<Byte>, slots: seq<Slot>, which: map<nat, nat>)
    requires |slots| == |fs| && Unambiguous(fs) && WholeFields(fs, a, slots, which)
    ensures var m := DecodeMessage(fs, a, slots, which).value;
            DecodeMessage(fs, a + b, slots, which).Ok? <==>
            DecodeLoop(fs, b, State(m.slots, m.which, 0, {})).End?
  {
    var first := DecodeLoop(fs, a, State(slots, which, 0, {}));
    LoopContinues(fs, a, b, State(slots, which, 0, {}));
    EndsReachable(fs, a, State(slots, which, 0, {}));
    LoopAlike(fs, b, first.state, State(first.state.slots, first.state.which, 0, {}), first.state.seen);
    EndsWithSeen(fs, b, first.state);
  }

  lemma {:induction false} EndsWithSeen(fs: Fields, s: seq<Byte>, st: State)
    requires StateOk(fs, st)
    ensures DecodeLoop(fs, s, st).End? ==> st.seen <= DecodeLoop(fs, s, st).state.seen
    decreases |s|
  {
    if s != [] && DecodeTag(s).Tag? {
      var tag := DecodeTag(s);
      var one := DecodeOne(fs, tag.tag, tag.wt, tag.rest, st);
      if one.Ok? { EndsWithSeen(fs, one.rest, one.value); }
    }
  }

  // ---- where it does matter ----

  /** One record, for a field it can be read into */
  lemma OneRecord(fs: Fields, tag: nat, wt: nat, body: seq<Byte>, st: State)
    requires StateOk(fs, st) && 0 < tag < MAX_TAG && wt < 8 && Find(fs, st.pos, tag).Some?
    ensures var i := Find(fs, st.pos, tag).value;
            var r := DecodeField(fs[i], wt, st.slots[i], st.which, body);
            && (r.Ok? && r.rest == [] ==>
                  DecodeLoop(fs, TagBytes(tag, wt) + body, st) ==
                  End(Store(fs, st, i, r.value.0, r.value.1), [], true))
            && (r.Fail? ==> DecodeLoop(fs, TagBytes(tag, wt) + body, st) == Broken)
  {
    TagRoundTrip(tag, wt, body);
  }

  /** The field reads all of the body. */
  predicate Reads(f: Field, wt: nat, slot: Slot, which: map<nat, nat>, body: seq<Byte>) {
    var r := DecodeField(f, wt, slot, which, body);
    r.Ok? && r.rest == []
  }

  /** Field j is found from where the iterator is, and field i from the start. */
  lemma StoredElsewhere(fs: Fields, st: State, tag: nat, wt: nat, body: seq<Byte>, i: nat, j: nat)
    requires StateOk(fs, st) && 0 < tag < MAX_TAG && wt < 8
    requires Find(fs, 0, tag) == Some(i) && Find(fs, st.pos, tag) == Some(j) && i != j
    requires Reads(fs[i], wt, st.slots[i], st.which, body)
    requires DecodeField(fs[i], wt, st.slots[i], st.which, body).value.0 != st.slots[i]
    requires DecodeField(fs[j], wt, st.slots[j], st.which, body).Fail? || Reads(fs[j], wt, st.slots[j], st.which, body)
    ensures var s := TagBytes(tag, wt) + body;
            var alone, after := DecodeLoop(fs, s, State(st.slots, st.which, 0, {})), DecodeLoop(fs, s, st);
            alone.End? && (after.End? ==> after.state.slots != alone.state.slots)
  {
    OneRecord(fs, tag, wt, body, State(st.slots, st.which, 0, {}));
    OneRecord(fs, tag, wt, body, st);
    var s := TagBytes(tag, wt) + body;
    var alone, after := DecodeLoop(fs, s, State(st.slots, st.which, 0, {})), DecodeLoop(fs, s, st);
    assert alone.state.slots[i] != st.slots[i];
    if after.End? { assert after.state.slots[i] == st.slots[i]; }
  }

  /** Where field j is found after field p, and field i from the start, a record for them after one for
      field p is stored elsewhere than in a message of its own, whatever the fields are and hold. */
  lemma AmbiguousDiffers(fs: Fields, st: State, t: nat, wt: nat, first: seq<Byte>, u: nat, wu: nat, second: seq<Byte>,
                         p: nat, i: nat, j: nat, w: map<nat, nat>)
    requires StateOk(fs, st) && st.pos == 0 && 0 < t < MAX_TAG && 0 < u < MAX_TAG && wt < 8 && wu < 8
    requires Find(fs, 0, t) == Some(p) && Find(fs, 0, u) == Some(i) && Find(fs, p, u) == Some(j) && i != j
    requires Reads(fs[p], wt, st.slots[p], st.which, first)
    requires w == DecodeField(fs[p], wt, st.slots[p], st.which, first).value.1
    requires Reads(fs[i], wu, st.slots[i], w, second)
    requires DecodeField(fs[i], wu, st.slots[i], w, second).value.0 != st.slots[i]
    requires DecodeField(fs[j], wu, st.slots[j], w, second).Fail? || Reads(fs[j], wu, st.slots[j], w, second)
    ensures var a, b := TagBytes(t, wt) + first, TagBytes(u, wu) + second;
            var one, both := DecodeLoop(fs, a, st), DecodeLoop(fs, a + b, st);
            && one.End? && one.clean
            && var twice := DecodeLoop(fs, b, State(one.state.slots, one.state.which, 0, {}));
               twice.End? && (both.End? ==> both.state.slots != twice.state.slots)
  {
    var a, b := TagBytes(t, wt) + first, TagBytes(u, wu) + second;
    OneRecord(fs, t, wt, first, st);
    var now := DecodeLoop(fs, a, st).state;
    assert p != i && p != j && now.which == w && now.pos == p;
    assert now.slots[i] == st.slots[i] && now.slots[j] == st.slots[j];
    StoredElsewhere(fs, now, u, wu, second, i, j);
    LoopContinues(fs, a, b, st);
  }

  /** Concatenating merges, for these two halves over these contents */
  ghost predicate Merges(fs: Fields, a: seq<Byte>, b: seq<Byte>, slots: seq<Slot>, which: map<nat, nat>)
    requires |slots| == |fs|
  {
    WholeFields(fs, a, slots, which) ==>
      var m := DecodeMessage(fs, a, slots, which).value;
      DecodeMessage(fs, a + b, slots, which) == DecodeMessage(fs, b, m.slots, m.which)
  }

  ghost predicate IsNumber(f: Field) {
    0 < f.tag < MAX_TAG && f.kind == UnsignedKind(4) && f.rule.Optional?
  }

  /** For messages of optional 32-bit numbers, concatenating merges always, exactly when no field is found
      that would not be found from the start. */
  lemma MergesExactly(fs: Fields)
    requires forall i :: 0 <= i < |fs| ==> IsNumber(fs[i])
    ensures Unambiguous(fs) <==>
            forall a, b, slots, which :: |slots| == |fs| ==> Merges(fs, a, b, slots, which)
  {
    if Unambiguous(fs) {
      forall a, b, slots, which | |slots| == |fs| ensures Merges(fs, a, b, slots, which) {
        if WholeFields(fs, a, slots, which) { ConcatenationIsMerge(fs, a, b, slots, which); }
      }
    } else {
      var t: nat, u: nat :| t < MAX_TAG && u < MAX_TAG && Find(fs, 0, t).Some? &&
        Find(fs, Find(fs, 0, t).value, u) != Find(fs, 0, u);
      var a, b, slots := SomeNumbersDiffer(fs, t, u);
      assert !Merges(fs, a, b, slots, map[]);
    }
  }

  lemma SomeNumbersDiffer(fs: Fields, t: nat, u: nat) returns (a: seq<Byte>, b: seq<Byte>, slots: seq<Slot>)
    requires forall i :: 0 <= i < |fs| ==> IsNumber(fs[i])
    requires t < MAX_TAG && u < MAX_TAG && Find(fs, 0, t).Some?
    requires Find(fs, Find(fs, 0, t).value, u) != Find(fs, 0, u)
    ensures |slots| == |fs| && !Merges(fs, a, b, slots, map[])
  {
    var p := Find(fs, 0, t).value;
    assert Find(fs, 0, u).Some? && Find(fs, p, u).Some?;
    var i, j := Find(fs, 0, u).value, Find(fs, p, u).value;
    assert IsNumber(fs[p]) && IsNumber(fs[i]) && IsNumber(fs[j]);
    var zero: Slot := One(false, Number(0));
    slots := seq(|fs|, _ => zero);
    forall f | IsNumber(f)
      ensures DecodeField(f, 0, zero, map[], [1]) == Ok((One(true, Number(1)), map[]), [])
    {
      SmallNumber(1);
    }
    a, b := TagBytes(t, 0) + [1], TagBytes(u, 0) + [1];
    AmbiguousDiffers(fs, State(slots, map[], 0, {}), t, 0, [1], u, 0, [1], p, i, j, map[]);
  }

  /** For example: a tag that stands twice in the descriptor, around another one, is looked for from where
      the iterator stopped, so where field 1 of b is stored depends on a. */
  lemma RepeatedTagsDepend(fs: Fields, a: seq<Byte>, b: seq<Byte>, zero: Slot)
    requires fs == [Field(1, UnsignedKind(4), Optional, None), Field(2, UnsignedKind(4), Optional, None),
                    Field(1, UnsignedKind(4), Optional, None)]
    requires a == [16, 5] && b == [8, 7] && zero == One(false, Number(0))
    ensures DecodeLoop(fs, a, State([zero, zero, zero], map[], 0, {})) ==
              End(State([zero, One(true, Number(5)), zero], map[], 1, {}), [], true)
    ensures DecodeLoop(fs, b, State([zero, One(true, Number(5)), zero], map[], 0, {})) ==
              End(State([One(true, Number(7)), One(true, Number(5)), zero], map[], 0, {}), [], true)
    ensures DecodeLoop(fs, a + b, State([zero, zero, zero], map[], 0, {})) ==
              End(State([zero, One(true, Number(5)), One(true, Number(7))], map[], 2, {}), [], true)
  {
    var five: Slot, seven: Slot := One(true, Number(5)), One(true, Number(7));
    assert FindBetween(fs, 0, 3, 2) == FindBetween(fs, 1, 3, 2) == Some(1);
    OneNumber(fs, 16, 5, State([zero, zero, zero], map[], 0, {}), 1);
    assert [zero, zero, zero][1 := five] == [zero, five, zero];
    OneNumber(fs, 8, 7, State([zero, five, zero], map[], 0, {}), 0);
    assert [zero, five, zero][0 := seven] == [seven, five, zero];
    assert FindBetween(fs, 1, 3, 1) == FindBetween(fs, 2, 3, 1);
    OneNumber(fs, 8, 7, State([zero, five, zero], map[], 1, {}), 2);
    assert [zero, five, zero][2 := seven] == [zero, five, seven];
    LoopContinues(fs, a, b, State([zero, zero, zero], map[], 0, {}));
  }

  lemma SmallTag(head: Byte, n: Byte)
    requires 8 <= head < 128 && head % 8 == 0
    ensures DecodeTag([head, n]) == Tag(head / 8, 0, [n])
  {
    var s: seq<Byte> := [head, n];
    assert s[..1] == [head] && s[1..] == [n];
    assert PbWire.Value([head]) == head;
  }

  lemma SmallNumber(n: Byte)
    requires n < 128
    ensures DecodeUnsigned(4, [n]) == Ok(Number(n), [])
  {
    assert PbWire.Value([n]) == n;
    assert [n][..1] == [n] && [n][1..] == [];
    assert DecodeVarint([n]) == Ok(n, []);
  }

  /** One optional number in two bytes */
  lemma OneNumber(fs: Fields, head: Byte, n: Byte, st: State, i: nat)
    requires 8 <= head < 128 && head % 8 == 0 && n < 128 && StateOk(fs, st) && st.slots != []
    requires Find(fs, st.pos, head / 8) == Some(i)
    requires fs[i].kind == UnsignedKind(4) && fs[i].rule.Optional? && st.slots[i].One?
    ensures DecodeLoop(fs, [head, n], st) ==
              End(State(st.slots[i := One(true, Number(n))], st.which, i, st.seen), [], true)
  {
    SmallTag(head, n);
    SmallNumber(n);
    assert DecodeValue(UnsignedKind(4), false, [n], st.slots[i].value) == Ok(Number(n), []);
    assert DecodeField(fs[i], 0, st.slots[i], st.which, [n]) == Ok((One(true, Number(n)), st.which), []);
    var next := Store(fs, st, i, One(true, Number(n)), st.which);
    assert DecodeOne(fs, head / 8, 0, [n], st) == Ok(next, []);
  }
}
