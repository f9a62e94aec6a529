/** Message descriptors, message values, and what encoding and decoding mean.

    A descriptor is a list of fields.  A message has a slot for every field, and for every oneof
    group the tag of its current member.  `EncodeMessage` and `DecodeMessage` are the specification
    that the stream-based encoder and decoder are proved against. */
module PbMessage {
  import opened Basics
  import opened Words
  import opened PbWire

  /** The storage types, with the size of the C field where it matters. */
  datatype Kind =
    | SignedKind(size: nat)
    | UnsignedKind(size: nat)
    | ZigzagKind(size: nat)
    | Fixed32Kind
    | Fixed64Kind
    | BytesKind(dataSize: nat)
    | StringKind(dataSize: nat)
    | SubmessageKind(fields: seq<Field>)
    | FixedBytesKind(dataSize: nat)

  /** Implicit fields have no has-flag: they are written when not zero. */
  datatype Rule = Required | Optional | Implicit | Repeated(max: nat) | Oneof(group: nat)

  datatype Field = Field(tag: nat, kind: Kind, rule: Rule, initial: Option<Value>)

  datatype Value =
    | Number(n: int)
    | Bytes(bytes: seq<Byte>)
    | Text(buffer: seq<Byte>)
    | Message(slots: seq<Slot>, which: map<nat, nat>)

  datatype Slot = One(has: bool, value: Value) | Many(items: seq<Value>)

  type Fields = seq<Field>

  /** The size field in front of a bytes array */
  const BYTES_OFFSET: nat := 4

  predicate Packable(k: Kind) {
    k.SignedKind? || k.UnsignedKind? || k.ZigzagKind? || k.Fixed32Kind? || k.Fixed64Kind?
  }

  function WireType(k: Kind): nat {
    match k
    case SignedKind(_) | UnsignedKind(_) | ZigzagKind(_) => WT_VARINT
    case Fixed32Kind => WT_32BIT
    case Fixed64Kind => WT_64BIT
    case _ => WT_STRING
  }

  predicate SizeOk(size: nat) {
    size == 1 || size == 2 || size == 4 || size == 8
  }

  /** 2^(8 * size) for the four integer sizes */
  function Range(size: nat): int
    requires SizeOk(size)
  {
    if size == 1 then 0x100 else if size == 2 then 0x1_0000 else if size == 4 then TWO32 else TWO64
  }

  predicate FitsSigned(n: int, size: nat) {
    SizeOk(size) && -Range(size) <= 2 * n < Range(size)
  }

  predicate FitsUnsigned(n: int, size: nat) {
    SizeOk(size) && 0 <= n < Range(size)
  }

  /** The text up to the first NUL, or the whole buffer. */
  function TextLen(buffer: seq<Byte>): (n: nat)
    ensures n <= |buffer|
    ensures n < |buffer| ==> buffer[n] == 0
    ensures forall i :: 0 <= i < n ==> buffer[i] != 0
  {
    if buffer == [] || buffer[0] == 0 then 0 else 1 + TextLen(buffer[1..])
  }

  // ---- encoding ----

  /** A value without its tag; None where the encoder reports an error. */
  function EncodeValue(k: Kind, v: Value): Option<seq<Byte>>
    decreases v, 1
  {
    match k
    case SignedKind(size) =>
      if v.Number? && FitsSigned(v.n, size) then Some(Varint(ToUnsigned(v.n))) else None
    case UnsignedKind(size) =>
      if v.Number? && FitsUnsigned(v.n, size) then Some(Varint(v.n)) else None
    case ZigzagKind(size) =>
      if v.Number? && FitsSigned(v.n, size) then Some(Varint(Zigzag(v.n))) else None
    case Fixed32Kind => if v.Number? && FitsUnsigned(v.n, 4) then Some(Fixed(v.n, 4)) else None
    case Fixed64Kind => if v.Number? && FitsUnsigned(v.n, 8) then Some(Fixed(v.n, 8)) else None
    case BytesKind(dataSize) =>
      if v.Bytes? && |v.bytes| + BYTES_OFFSET <= dataSize then Some(Varint(|v.bytes|) + v.bytes) else None
    case StringKind(dataSize) =>
      if v.Text? && |v.buffer| == dataSize then
        Some(Varint(TextLen(v.buffer)) + v.buffer[..TextLen(v.buffer)])
      else None
    case SubmessageKind(fs) =>
      if !v.Message? then None
      else (match EncodeFields(fs, v.slots, v.which)
        case None => None
        case Some(e) => Some(Varint(|e|) + e))
    case FixedBytesKind(dataSize) =>
      if v.Bytes? && |v.bytes| == dataSize then Some(Varint(dataSize) + v.bytes) else None
  }

  function Join(a: Option<seq<Byte>>, b: Option<seq<Byte>>): Option<seq<Byte>> {
    if a.Some? && b.Some? then Some(a.value + b.value) else None
  }

  function Tagged(k: Kind, tag: nat, v: Value): Option<seq<Byte>>
    decreases v, 2
  {
    Join(Some(TagBytes(tag, WireType(k))), EncodeValue(k, v))
  }

  /** The entries of a packed array */
  function EncodePacked(k: Kind, items: seq<Value>): Option<seq<Byte>>
    decreases items, 3
  {
    if items == [] then Some([]) else Join(EncodeValue(k, items[0]), EncodePacked(k, items[1..]))
  }

  /** The entries of an array with a tag in front of each */
  function EncodeItems(k: Kind, tag: nat, items: seq<Value>): Option<seq<Byte>>
    decreases items, 3
  {
    if items == [] then Some([]) else Join(Tagged(k, tag, items[0]), EncodeItems(k, tag, items[1..]))
  }

  function EncodeArray(f: Field, items: seq<Value>): Option<seq<Byte>>
    requires f.rule.Repeated?
    decreases items, 4
  {
    if items == [] then Some([])
    else if |items| > f.rule.max then None
    else if !Packable(f.kind) then EncodeItems(f.kind, f.tag, items)
    else match EncodePacked(f.kind, items)
      case None => None
      case Some(p) => Some(TagBytes(f.tag, WT_STRING) + Varint(|p|) + p)
  }

  /** Whether an implicit field has its zero value.  In a submessage every field counts by its value alone,
      whatever its rule, and an array by its first entry. */
  predicate IsZero(k: Kind, v: Value)
    decreases v, 0
  {
    match v
    case Number(n) => n == 0
    case Bytes(b) => if k.FixedBytesKind? then k.dataSize == 0 else b == []
    case Text(b) => b == [] || b[0] == 0
    case Message(slots, _) => k.SubmessageKind? && AllZero(k.fields, slots)
  }

  predicate SlotIsZero(k: Kind, slot: Slot)
    decreases slot, 1
  {
    match slot
    case One(_, v) => IsZero(k, v)
    case Many(items) => items == [] || IsZero(k, items[0])
  }

  predicate AllZero(fs: Fields, slots: seq<Slot>)
    decreases slots, 2
  {
    |fs| == |slots| && forall i :: 0 <= i < |slots| ==> SlotIsZero(fs[i].kind, slots[i])
  }

  /** No oneof in a submessage, however deep: its members would share their memory. */
  ghost predicate NoUnion(k: Kind) {
    k.SubmessageKind? ==> forall f :: f in k.fields ==> !f.rule.Oneof? && NoUnion(f.kind)
  }

  predicate Active(f: Field, which: map<nat, nat>) {
    f.rule.Oneof? && f.rule.group in which && which[f.rule.group] == f.tag
  }

  predicate Present(f: Field, slot: Slot, which: map<nat, nat>)
    requires slot.One?
  {
    match f.rule
    case Required => true
    case Optional => slot.has
    case Implicit => !IsZero(f.kind, slot.value)
    case Oneof(_) => Active(f, which)
    case Repeated(_) => false
  }

  function EncodeField(f: Field, slot: Slot, which: map<nat, nat>): Option<seq<Byte>>
    decreases slot, 5
  {
    if f.rule.Repeated? then if slot.Many? then EncodeArray(f, slot.items) else None
    else if slot.Many? then None
    else if Present(f, slot, which) then Tagged(f.kind, f.tag, slot.value)
    else Some([])
  }

  function EncodeFields(fs: Fields, slots: seq<Slot>, which: map<nat, nat>): Option<seq<Byte>>
    decreases slots, 6
  {
    if fs == [] && slots == [] then Some([])
    else if fs == [] || slots == [] then None
    else Join(EncodeField(fs[0], slots[0], which), EncodeFields(fs[1..], slots[1..], which))
  }

  // ---- defaults ----

  function Zeros(n: nat): seq<Byte> {
    seq(n, _ => 0)
  }

  function Zero(k: Kind): Value
    decreases k, 0
  {
    match k
    case BytesKind(_) => Bytes([])
    case StringKind(dataSize) => Text(Zeros(dataSize))
    case SubmessageKind(fs) => Message(Defaults(fs), map[])
    case FixedBytesKind(dataSize) => Bytes(Zeros(dataSize))
    case _ => Number(0)
  }

  function Default(f: Field): Slot
    decreases f, 1
  {
    match f.rule
    case Repeated(_) => Many([])
    case Oneof(_) => One(false, Zero(f.kind))
    case _ => One(false, if f.kind.SubmessageKind? || f.initial.None? then Zero(f.kind) else f.initial.value)
  }

  function Defaults(fs: Fields): (slots: seq<Slot>)
    ensures |slots| == |fs|
    decreases fs, 2
  {
    if fs == [] then [] else [Default(fs[0])] + Defaults(fs[1..])
  }

  // ---- decoding ----

  /** A length and that many bytes */
  function Delimited(s: seq<Byte>): (r: Result<seq<Byte>>)
    ensures r.Ok? ==> |r.rest| < |s| && |r.value| < |s| && |r.value| < TWO32
  {
    match DecodeVarint32(s)
    case Fail => Fail
    case Ok(n, rest) => if |rest| < n then Fail else Ok(rest[..n], rest[n..])
  }

  function DecodeSigned(size: nat, s: seq<Byte>): (r: Result<Value>)
    ensures r.Ok? ==> |r.rest| < |s|
  {
    match DecodeVarint(s)
    case Fail => Fail
    case Ok(u, rest) =>
      var n := if size == 8 then ToSigned(u) else ToSigned32(u);
      if FitsSigned(n, size) then Ok(Number(n), rest) else Fail
  }

  function DecodeUnsigned(size: nat, s: seq<Byte>): (r: Result<Value>)
    ensures r.Ok? ==> |r.rest| < |s|
  {
    match DecodeVarint(s)
    case Fail => Fail
    case Ok(u, rest) => if FitsUnsigned(u, size) then Ok(Number(u), rest) else Fail
  }

  function DecodeZigzag(size: nat, s: seq<Byte>): (r: Result<Value>)
    ensures r.Ok? ==> |r.rest| < |s|
  {
    match DecodeVarint(s)
    case Fail => Fail
    case Ok(u, rest) => if FitsSigned(Unzigzag(u), size) then Ok(Number(Unzigzag(u)), rest) else Fail
  }

  function DecodeFixed(width: nat, s: seq<Byte>): (r: Result<Value>)
    requires width > 0
    ensures r.Ok? ==> |r.rest| < |s|
  {
    if |s| < width then Fail else Ok(Number(FixedValue(s[..width])), s[width..])
  }

  function DecodeBytes(dataSize: nat, s: seq<Byte>): (r: Result<Value>)
    ensures r.Ok? ==> |r.rest| < |s|
  {
    match DecodeVarint32(s)
    case Fail => Fail
    case Ok(n, rest) =>
      if n + BYTES_OFFSET > dataSize || |rest| < n then Fail else Ok(Bytes(rest[..n]), rest[n..])
  }

  /** The room for the NUL is computed on 32 bits and wraps for the largest size. */
  function DecodeText(dataSize: nat, s: seq<Byte>, was: seq<Byte>): (r: Result<Value>)
    ensures r.Ok? ==> |r.rest| < |s|
  {
    match DecodeVarint32(s)
    case Fail => Fail
    case Ok(n, rest) =>
      var needed := (n + 1) % TWO32;
      if needed < n || needed > dataSize || |rest| < n then Fail
      else Ok(Text(rest[..n] + [0] + (if n + 1 <= |was| then was[n + 1..] else [])), rest[n..])
  }

  function DecodeFixedBytes(dataSize: nat, s: seq<Byte>): (r: Result<Value>)
    ensures r.Ok? ==> |r.rest| < |s|
  {
    match DecodeVarint32(s)
    case Fail => Fail
    case Ok(n, rest) =>
      if n == 0 then Ok(Bytes(Zeros(dataSize)), rest)
      else if n != dataSize || |rest| < n then Fail
      else Ok(Bytes(rest[..n]), rest[n..])
  }

  /** One value over the previous contents of its field.  Array entries start from defaults. */
  function DecodeValue(k: Kind, isEntry: bool, s: seq<Byte>, was: Value): (r: Result<Value>)
    ensures r.Ok? ==> |r.rest| < |s|
    decreases |s|, 1
  {
    match k
    case SignedKind(size) => DecodeSigned(size, s)
    case UnsignedKind(size) => DecodeUnsigned(size, s)
    case ZigzagKind(size) => DecodeZigzag(size, s)
    case Fixed32Kind => DecodeFixed(4, s)
    case Fixed64Kind => DecodeFixed(8, s)
    case BytesKind(dataSize) => DecodeBytes(dataSize, s)
    case StringKind(dataSize) => DecodeText(dataSize, s, if was.Text? then was.buffer else Zeros(dataSize))
    case FixedBytesKind(dataSize) => DecodeFixedBytes(dataSize, s)
    case SubmessageKind(fs) =>
      match Delimited(s)
      case Fail => Fail
      case Ok(sub, rest) =>
        var start := if isEntry || !was.Message? || |was.slots| != |fs| then Zero(k) else was;
        match DecodeMessage(fs, sub, start.slots, start.which)
        case Fail => Fail
        case Ok(m, _) => Ok(m, rest)
  }

  /** The entries of a packed array until the data or the room runs out; data left over is an error. */
  function DecodePacked(k: Kind, max: nat, items: seq<Value>, sub: seq<Byte>): Option<seq<Value>>
    decreases |sub|, 2
  {
    if sub == [] then Some(items)
    else if |items| >= max then None
    else match DecodeValue(k, true, sub, Zero(k))
      case Fail => None
      case Ok(v, rest) => DecodePacked(k, max, items + [v], rest)
  }

  /** One field of the message.  The wire type matters only for arrays. */
  function DecodeField(f: Field, wt: nat, slot: Slot, which: map<nat, nat>, s: seq<Byte>)
    : (r: Result<(Slot, map<nat, nat>)>)
    ensures r.Ok? ==> |r.rest| < |s|
    decreases |s|, 3
  {
    match f.rule
    case Repeated(max) =>
      var items := if slot.Many? then slot.items else [];
      if wt == WT_STRING && Packable(f.kind) then
        (match Delimited(s)
         case Fail => Fail
         case Ok(sub, rest) =>
           match DecodePacked(f.kind, max, items, sub)
           case None => Fail
           case Some(items') => Ok((Many(items'), which), rest))
      else if |items| >= max then Fail
      else
        (match DecodeValue(f.kind, true, s, Zero(f.kind))
         case Fail => Fail
         case Ok(v, rest) => Ok((Many(items + [v]), which), rest))
    case Oneof(g) =>
      var was := if f.kind.SubmessageKind? || slot.Many? then Zero(f.kind) else slot.value;
      (match DecodeValue(f.kind, false, s, was)
       case Fail => Fail
       case Ok(v, rest) => Ok((One(false, v), which[g := f.tag]), rest))
    case _ =>
      var was := if slot.Many? then Zero(f.kind) else slot.value;
      match DecodeValue(f.kind, false, s, was)
      case Fail => Fail
      case Ok(v, rest) => Ok((One(f.rule.Optional?, v), which), rest)
  }

  function SkipVarint(s: seq<Byte>): (r: Result<()>)
    ensures r.Ok? ==> |r.rest| < |s|
  {
    if s == [] then Fail else if s[0] < 128 then Ok((), s[1..]) else SkipVarint(s[1..])
  }

  function SkipField(wt: nat, s: seq<Byte>): (r: Result<()>)
    ensures r.Ok? ==> |r.rest| < |s|
  {
    if wt == WT_VARINT then SkipVarint(s)
    else if wt == WT_64BIT then if |s| < 8 then Fail else Ok((), s[8..])
    else if wt == WT_32BIT then if |s| < 4 then Fail else Ok((), s[4..])
    else if wt == WT_STRING then match Delimited(s) case Fail => Fail case Ok(_, rest) => Ok((), rest)
    else Fail
  }

  /** The first field with the tag at or after index i, before index n */
  function FindBetween(fs: Fields, i: nat, n: nat, tag: nat): (r: Option<nat>)
    requires i <= n <= |fs|
    ensures r.Some? ==> i <= r.value < n && fs[r.value].tag == tag
    ensures r.None? ==> forall j :: i <= j < n ==> fs[j].tag != tag
    decreases n - i
  {
    if i == n then None else if fs[i].tag == tag then Some(i) else FindBetween(fs, i + 1, n, tag)
  }

  /** The search starts where the last one ended and goes round once. */
  function Find(fs: Fields, pos: nat, tag: nat): (r: Option<nat>)
    requires pos <= |fs|
    ensures r.Some? ==> r.value < |fs| && fs[r.value].tag == tag
    ensures r.None? ==> forall j :: 0 <= j < |fs| ==> fs[j].tag != tag
  {
    var r := FindBetween(fs, pos, |fs|, tag);
    if r.Some? then r else FindBetween(fs, 0, pos, tag)
  }

  /** The message being filled, the field the iterator is at, and the required fields seen. */
  datatype State = State(slots: seq<Slot>, which: map<nat, nat>, pos: nat, seen: set<nat>)

  predicate StateOk(fs: Fields, st: State) {
    |st.slots| == |fs| && (fs != [] ==> st.pos < |fs|) && (fs == [] ==> st.pos == 0)
  }

  /** `clean` tells an end at the end of the data from an early one. */
  datatype LoopResult = End(state: State, unread: seq<Byte>, clean: bool) | Broken

  function Store(fs: Fields, st: State, i: nat, slot: Slot, which: map<nat, nat>): (st': State)
    requires StateOk(fs, st) && i < |fs|
    ensures StateOk(fs, st')
  {
    State(st.slots[i := slot], which, i, if fs[i].rule.Required? then st.seen + {i} else st.seen)
  }

  /** One round of the loop after its tag.  In an empty descriptor tag 0 finds the terminator, which
      decodes as an integer of size 0: an error. */
  function DecodeOne(fs: Fields, tag: nat, wt: nat, s: seq<Byte>, st: State): (r: Result<State>)
    requires StateOk(fs, st)
    ensures r.Ok? ==> |r.rest| < |s| && StateOk(fs, r.value)
    decreases |s|, 4
  {
    if fs == [] && tag == 0 then Fail
    else match Find(fs, st.pos, tag)
      case None =>
        (match SkipField(wt, s) case Fail => Fail case Ok(_, rest) => Ok(st, rest))
      case Some(i) =>
        match DecodeField(fs[i], wt, st.slots[i], st.which, s)
        case Fail => Fail
        case Ok(p, rest) => Ok(Store(fs, st, i, p.0, p.1), rest)
  }

  function DecodeLoop(fs: Fields, s: seq<Byte>, st: State): (r: LoopResult)
    requires StateOk(fs, st)
    ensures r.End? ==> |r.unread| <= |s| && StateOk(fs, r.state)
    decreases |s|, 5
  {
    if s == [] then End(st, [], true)
    else match DecodeTag(s)
      case Eof(unread) => if |unread| <= |s| then End(st, unread, false) else Broken
      case BadTag => Broken
      case Tag(tag, wt, rest) =>
        match DecodeOne(fs, tag, wt, rest, st)
        case Fail => Broken
        case Ok(st', rest') => DecodeLoop(fs, rest', st')
  }

  predicate AllRequired(fs: Fields, seen: set<nat>) {
    forall i :: 0 <= i < |fs| && fs[i].rule.Required? ==> i in seen
  }

  /** Decoding over existing contents: what is not in the data stays. */
  function DecodeMessage(fs: Fields, s: seq<Byte>, slots: seq<Slot>, which: map<nat, nat>): (r: Result<Value>)
    requires |slots| == |fs|
    ensures r.Ok? ==> |r.rest| <= |s| && r.value.Message? && |r.value.slots| == |fs|
    decreases |s|, 6
  {
    match DecodeLoop(fs, s, State(slots, which, 0, {}))
    case Broken => Fail
    case End(st, unread, _) =>
      if AllRequired(fs, st.seen) then Ok(Message(st.slots, st.which), unread) else Fail
  }
}
