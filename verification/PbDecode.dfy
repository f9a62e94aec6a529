/** The decoder: functions that read a message from an input stream, and the words that remember
    which required fields were seen.  Every method does what `PbMessage` says. */
module PbDecode {
  import opened Basics
  import opened Words
  import opened PbWire
  import opened PbMessage
  import opened PbInput
  import I = FieldIter

  // ---- what the decoder asks of a descriptor ----

  function EntryOf(f: Field): I.Entry {
    var rule := match f.rule
      case Required => I.Required
      case Repeated(_) => I.Repeated
      case Oneof(_) => I.Oneof
      case _ => I.Optional;
    I.Entry(f.tag, false, I.Static, rule, 0, 0, 0, 0)
  }

  function Entries(fs: Fields): (es: I.Entries)
    ensures |es| == |fs| && forall i :: 0 <= i < |fs| ==> es[i] == EntryOf(fs[i])
  {
    seq(|fs|, i requires 0 <= i < |fs| => EntryOf(fs[i]))
  }

  /** The bit of a required field */
  function BitFor(fs: Fields, i: nat): (b: nat)
    requires i <= |fs|
    ensures b <= i
  {
    I.RequiredBefore(Entries(fs), i)
  }

  const WORDS: nat := 2
  const MAX_REQUIRED: nat := 64

  /** The descriptor and those inside it end where they should, and have a number of required fields that
      the last check is made for. */
  ghost predicate Decodable(fs: Fields)
    decreases fs, 2
  {
    (forall i :: 0 <= i < |fs| ==> FieldDecodable(fs[i])) && CountOk(BitFor(fs, |fs|))
  }

  /** With exactly 32 required fields the last shift is by the width of its word, and from 64 on the check
      reads past the words. */
  predicate CountOk(count: nat) {
    count < MAX_REQUIRED && count != 32
  }

  /** As above, but the descriptor itself may have any number of required fields. */
  ghost predicate FieldsDecodable(fs: Fields) {
    forall i :: 0 <= i < |fs| ==> FieldDecodable(fs[i])
  }

  /** Tag 0 ends a field list. */
  ghost predicate FieldDecodable(f: Field)
    decreases f, 1
  {
    f.tag != 0 && KindDecodable(f.kind)
  }

  ghost predicate KindDecodable(k: Kind)
    decreases k, 0
  {
    k.SubmessageKind? ==> Decodable(k.fields)
  }

  // ---- the words of required fields ----

  predicate SeenBit(words: seq<nat>, b: nat)
    requires |words| == WORDS && b < MAX_REQUIRED
  {
    Bit(words[b / 32], b % 32)
  }

  ghost predicate WordsOk(words: seq<nat>) {
    |words| == WORDS && words[0] < Pow2(32) && words[1] < Pow2(32)
  }

  /** The words stand for the set: a required field's bit is set exactly when it was seen, and no bit
      past the last required field is. */
  ghost predicate Tracks(fs: Fields, words: seq<nat>, seen: set<nat>) {
    && WordsOk(words)
    && (forall i :: 0 <= i < |fs| && fs[i].rule.Required? && BitFor(fs, i) < MAX_REQUIRED ==>
          (SeenBit(words, BitFor(fs, i)) <==> i in seen))
    && forall b: nat :: BitFor(fs, |fs|) <= b < MAX_REQUIRED ==> !SeenBit(words, b)
  }

  method NothingSeen(fs: Fields) returns (words: seq<nat>)
    ensures Tracks(fs, words, {})
  {
    words := [0, 0];
    forall k: nat ensures !Bit(0, k) { BitOfZero(k); }
  }

  method SetBit(words: seq<nat>, r: nat) returns (words': seq<nat>)
    requires WordsOk(words) && r < MAX_REQUIRED
    ensures WordsOk(words')
    ensures forall b: nat :: b < MAX_REQUIRED ==> (SeenBit(words', b) <==> SeenBit(words, b) || b == r)
  {
    var tmp := Shl(1, r % 32);
    words' := words[r / 32 := Or(words[r / 32], tmp)];
    ShlIsPow2(r % 32);
    Pow2Grows(r % 32 + 1, 32);
    OrBound(words[r / 32], tmp, 32);
    forall b: nat | b < MAX_REQUIRED ensures SeenBit(words', b) <==> SeenBit(words, b) || b == r {
      BitOfOr(words[r / 32], tmp, b % 32);
      BitOfOne(r % 32, b % 32);
    }
  }

  // Words of 32 bits: the low m bits set, and no bit from m on.

  ghost predicate LowSet(x: nat, m: nat) {
    forall k: nat :: k < m ==> Bit(x, k)
  }

  ghost predicate HighClear(x: nat, m: nat) {
    x < Pow2(32) && forall k: nat :: m <= k < 32 ==> !Bit(x, k)
  }

  lemma SameOnes(x: nat, ones: nat, m: nat)
    requires HighClear(x, m) && HighClear(ones, m) && LowSet(ones, m)
    ensures x == ones <==> LowSet(x, m)
  {
    if LowSet(x, m) {
      forall k: nat | k < 32 ensures Bit(x, k) <==> Bit(ones, k) {
        if k >= m {
          assert !Bit(x, k) && !Bit(ones, k);
        }
      }
      SameBits(x, ones, 32);
    }
  }

  ghost predicate AllBelow(words: seq<nat>, n: nat)
    requires |words| == WORDS && n <= MAX_REQUIRED
  {
    forall b: nat :: b < n ==> SeenBit(words, b)
  }

  /** Counting bits through the words: 32 * w of them in the words before w. */
  lemma WordBits(words: seq<nat>, w: nat, m: nat)
    requires |words| == WORDS && w < WORDS && m <= 32
    ensures AllBelow(words, 32 * w + m) <==> AllBelow(words, 32 * w) && LowSet(words[w], m)
  {
    if AllBelow(words, 32 * w + m) {
      forall k: nat | k < m ensures Bit(words[w], k) {
        assert SeenBit(words, 32 * w + k);
      }
    }
    if AllBelow(words, 32 * w) && LowSet(words[w], m) {
      forall b: nat | b < 32 * w + m ensures SeenBit(words, b) {
        if b >= 32 * w { assert Bit(words[w], b - 32 * w); }
      }
    }
  }

  /** The comparison of the words with as many ones as there are required fields.  It is undefined, by
      a shift of all 32 bits or by a read past the words, exactly when there are 32 of them or at least
      64 and every bit it gets to look at is set. */
  method AllSeen(words: seq<nat>, count: nat) returns (ok: bool, defined: bool)
    requires WordsOk(words)
    requires forall b: nat :: count <= b < MAX_REQUIRED ==> !SeenBit(words, b)
    ensures !defined <==>
              (count == 32 && AllBelow(words, 32)) || (count >= MAX_REQUIRED && AllBelow(words, MAX_REQUIRED))
    ensures defined ==> (ok <==> count < MAX_REQUIRED && AllBelow(words, count))
  {
    if count == 0 {
      return true, true;
    }
    var allbits := AllBits();
    for i := 0 to count / 32
      invariant i <= WORDS && AllBelow(words, 32 * i)
    {
      if i == WORDS {
        return false, false;
      }
      WordBits(words, i, 32);
      SameOnes(words[i], allbits, 32);
      if words[i] != allbits {
        assert !AllBelow(words, 32 * i + 32);
        return false, true;
      }
    }
    var w, m := count / 32, count % 32;
    if w == WORDS || m == 0 {
      return false, false;
    }
    LowOnes(allbits, m);
    NoneAbove(words, w, m);
    WordBits(words, w, m);
    SameOnes(words[w], Shr(allbits, 32 - m), m);
    return words[w] == Shr(allbits, 32 - m), true;
  }

  lemma NoneAbove(words: seq<nat>, w: nat, m: nat)
    requires WordsOk(words) && w < WORDS && m <= 32
    requires forall b: nat :: 32 * w + m <= b < MAX_REQUIRED ==> !SeenBit(words, b)
    ensures HighClear(words[w], m)
  {
    forall k: nat | m <= k < 32 ensures !Bit(words[w], k) {
      assert !SeenBit(words, 32 * w + k);
    }
  }

  /** `allbits >> (32 - m)` has just the low m bits. */
  lemma LowOnes(ones: nat, m: nat)
    requires ones < Pow2(32) && LowSet(ones, 32) && m <= 32
    ensures HighClear(Shr(ones, 32 - m), m) && LowSet(Shr(ones, 32 - m), m)
  {
    var x := Shr(ones, 32 - m);
    ShrBound(ones, 32 - m);
    forall k: nat | k < m ensures Bit(x, k) {
      BitOfShr(ones, 32 - m, k);
      assert Bit(ones, k + (32 - m));
    }
    forall k: nat | m <= k < 32 ensures !Bit(x, k) {
      BitOfShr(ones, 32 - m, k);
      NoBitAbove(ones, 32, k + (32 - m));
    }
  }

  lemma {:induction false} NoBitAbove(x: nat, w: nat, k: nat)
    requires x < Pow2(w) && w <= k
    ensures !Bit(x, k)
    decreases w
  {
    if w == 0 {
      BitOfZero(k);
    } else {
      NoBitAbove(x / 2, w - 1, k - 1);
    }
  }

  lemma {:induction false} ShrBound(a: nat, s: nat)
    ensures Shr(a, s) <= a
    decreases s
  {
    if s > 0 { ShrBound(a / 2, s - 1); }
  }

  /** `~(uint32_t)0` */
  method AllBits() returns (ones: nat)
    ensures HighClear(ones, 32) && LowSet(ones, 32)
  {
    ones := Not(0, 32);
    NotBound(0, 32);
    forall k: nat | k < 32 ensures Bit(ones, k) {
      BitOfNot(0, 32, k);
      BitOfZero(k);
    }
  }

  lemma {:induction false} NotBound(a: nat, w: nat)
    ensures Not(a, w) < Pow2(w)
    decreases w
  {
    if w > 0 { NotBound(a / 2, w - 1); }
  }

  // ---- required fields and their bits ----

  lemma {:induction false} BitsGrow(fs: Fields, i: nat, j: nat)
    requires i < j <= |fs|
    ensures BitFor(fs, i) <= BitFor(fs, j) && (fs[i].rule.Required? ==> BitFor(fs, i) < BitFor(fs, j))
    decreases j
  {
    if i < j - 1 { BitsGrow(fs, i, j - 1); }
  }

  lemma {:induction false} FieldOfBit(fs: Fields, n: nat, b: nat) returns (i: nat)
    requires n <= |fs| && b < BitFor(fs, n)
    ensures i < n && fs[i].rule.Required? && BitFor(fs, i) == b
    decreases n
  {
    if BitFor(fs, n - 1) == b && fs[n - 1].rule.Required? {
      i := n - 1;
    } else {
      i := FieldOfBit(fs, n - 1, b);
    }
  }

  lemma SetBitTracks(fs: Fields, words: seq<nat>, seen: set<nat>, i: nat, words': seq<nat>)
    requires Tracks(fs, words, seen) && i < |fs| && fs[i].rule.Required? && WordsOk(words')
    requires BitFor(fs, i) < MAX_REQUIRED
    requires forall b: nat :: b < MAX_REQUIRED ==> (SeenBit(words', b) <==> SeenBit(words, b) || b == BitFor(fs, i))
    ensures Tracks(fs, words', seen + {i})
  {
    BitsGrow(fs, i, |fs|);
    forall j | 0 <= j < |fs| && fs[j].rule.Required? && BitFor(fs, j) < MAX_REQUIRED
      ensures SeenBit(words', BitFor(fs, j)) <==> j in seen + {i}
    {
      if i < j {
        BitsGrow(fs, i, j);
      } else if j < i {
        BitsGrow(fs, j, i);
      }
    }
  }

  /** Every required field that has a bit was seen. */
  ghost predicate FirstSeen(fs: Fields, seen: set<nat>) {
    forall i :: 0 <= i < |fs| && fs[i].rule.Required? && BitFor(fs, i) < MAX_REQUIRED ==> i in seen
  }

  /** All bits there are for the required fields are set exactly when every field that has one was seen. */
  lemma BitsMeanRequired(fs: Fields, words: seq<nat>, seen: set<nat>)
    requires Tracks(fs, words, seen)
    ensures var count := BitFor(fs, |fs|);
            AllBelow(words, if count < MAX_REQUIRED then count else MAX_REQUIRED) <==> FirstSeen(fs, seen)
  {
    var n := if BitFor(fs, |fs|) < MAX_REQUIRED then BitFor(fs, |fs|) else MAX_REQUIRED;
    if FirstSeen(fs, seen) {
      forall b: nat | b < n ensures SeenBit(words, b) {
        var i := FieldOfBit(fs, |fs|, b);
        assert SeenBit(words, BitFor(fs, i));
      }
    }
    forall i | 0 <= i < |fs| && fs[i].rule.Required? ensures BitFor(fs, i) < BitFor(fs, |fs|) {
      BitsGrow(fs, i, |fs|);
    }
  }

  /** Up to 64 required fields all have a bit; of more, seeing the first 64 is needed but not enough. */
  lemma FirstAreAll(fs: Fields, seen: set<nat>)
    ensures AllRequired(fs, seen) ==> FirstSeen(fs, seen)
    ensures BitFor(fs, |fs|) <= MAX_REQUIRED && FirstSeen(fs, seen) ==> AllRequired(fs, seen)
  {
    forall i | 0 <= i < |fs| && fs[i].rule.Required? ensures BitFor(fs, i) < BitFor(fs, |fs|) {
      BitsGrow(fs, i, |fs|);
    }
  }

  /** What is undefined about decoding a message: its data ends, every required field that has a bit was
      in it, and the number of required fields is one that the last check is not made for. */
  ghost predicate Undefined(fs: Fields, r: LoopResult) {
    r.End? && !CountOk(BitFor(fs, |fs|)) && FirstSeen(fs, r.state.seen)
  }

  // ---- defaults ----

  method SetFieldToDefault(f: Field) returns (slot: Slot)
    ensures slot == Default(f)
    decreases f, 1
  {
    if f.rule.Repeated? {
      return Many([]);
    }
    if f.rule.Oneof? {
      return One(false, Zero(f.kind));
    }
    if f.kind.SubmessageKind? {
      var slots := SetToDefaults(f.kind.fields);
      return One(false, Message(slots, map[]));
    }
    return One(false, if f.initial.Some? then f.initial.value else Zero(f.kind));
  }

  method SetToDefaults(fs: Fields) returns (slots: seq<Slot>)
    ensures slots == Defaults(fs)
    decreases fs, 2
  {
    slots := [];
    for i := 0 to |fs|
      invariant slots + Defaults(fs[i..]) == Defaults(fs)
    {
      var slot := SetFieldToDefault(fs[i]);
      assert fs[i..][1..] == fs[i + 1..];
      slots := slots + [slot];
    }
    assert fs[|fs|..] == [];
  }

  // ---- values ----

  /** A decoder did what the specification says: same verdict, same value, same position. */
  twostate predicate Outcome<T>(s: IStream, new r: Result<T>, ok: bool, new v: T)
    reads s
  {
    var all := s.Within() && ok == r.Ok? && (ok ==> v == r.value && s.Advanced(r.rest));
    all
  }

  /** Conversion to a two's complement integer of `size` bytes */
  function WrapSigned(n: int, size: nat): int
    requires SizeOk(size)
  {
    var m := n % Range(size);
    if 2 * m >= Range(size) then m - Range(size) else m
  }

  function WrapUnsigned(n: nat, size: nat): nat
    requires SizeOk(size)
  {
    n % Range(size)
  }

  /** A conversion keeps the value exactly when the value fits. */
  lemma WrapKeeps(n: int, size: nat)
    requires SizeOk(size)
    ensures WrapSigned(n, size) == n <==> FitsSigned(n, size)
    ensures n >= 0 ==> (WrapUnsigned(n, size) == n <==> FitsUnsigned(n, size))
  {
    if FitsSigned(n, size) {
      if n >= 0 { SmallMod(n, Range(size)); } else { WrapNegative(n, Range(size)); }
    }
    if FitsUnsigned(n, size) {
      SmallMod(n, Range(size));
    }
  }

  lemma WrapNegative(n: int, range: int)
    requires range > 0 && -range <= n < 0
    ensures n % range == n + range || (n == -range && n % range == 0)
  {
    var q, r := n / range, n % range;
    assert n == range * q + r;
    assert q >= 0 ==> range * q >= 0;
    assert q <= -2 ==> range * q <= range * -2;
  }

  method DecVarint(s: IStream, size: nat) returns (ok: bool, v: Value)
    requires s.Valid()
    modifies s
    ensures Outcome(s, DecodeSigned(size, old(s.Input())), ok, v)
  {
    v := Number(0);
    var value;
    ok, value := s.DecodeVarint();
    if !ok {
      return;
    }
    var svalue := if size == 8 then ToSigned(value) else ToSigned32(value);
    if !SizeOk(size) {
      return false, v;
    }
    WrapKeeps(svalue, size);
    var clamped := WrapSigned(svalue, size);
    if clamped != svalue {
      return false, v;
    }
    return true, Number(clamped);
  }

  method DecUvarint(s: IStream, size: nat) returns (ok: bool, v: Value)
    requires s.Valid()
    modifies s
    ensures Outcome(s, DecodeUnsigned(size, old(s.Input())), ok, v)
  {
    v := Number(0);
    var value;
    ok, value := s.DecodeVarint();
    if !ok {
      return;
    }
    if !SizeOk(size) {
      return false, v;
    }
    WrapKeeps(value, size);
    var clamped := WrapUnsigned(value, size);
    if clamped != value {
      return false, v;
    }
    return true, Number(clamped);
  }

  method DecSvarint(s: IStream, size: nat) returns (ok: bool, v: Value)
    requires s.Valid()
    modifies s
    ensures Outcome(s, DecodeZigzag(size, old(s.Input())), ok, v)
  {
    v := Number(0);
    var u;
    ok, u := s.DecodeVarint();
    if !ok {
      return;
    }
    var value := if u % 2 == 1 then ToSigned(TWO64 - 1 - u / 2) else ToSigned(u / 2);
    if !SizeOk(size) {
      return false, v;
    }
    WrapKeeps(value, size);
    var clamped := WrapSigned(value, size);
    if clamped != value {
      return false, v;
    }
    return true, Number(clamped);
  }

  /** The word is put together from its bytes, lowest first. */
  method DecFixed(s: IStream, width: nat) returns (ok: bool, v: Value)
    requires s.Valid() && width > 0
    modifies s
    ensures Outcome(s, DecodeFixed(width, old(s.Input())), ok, v)
  {
    v := Number(0);
    var bytes;
    ok, bytes := s.Read(width);
    if !ok {
      return;
    }
    var n: nat := 0;
    for i := width downto 0
      invariant n == FixedValue(bytes[i..])
    {
      assert bytes[i..][1..] == bytes[i + 1..];
      n := bytes[i] + 256 * n;
    }
    assert bytes[0..] == bytes;
    return true, Number(n);
  }

  method DecBytes(s: IStream, dataSize: nat) returns (ok: bool, v: Value)
    requires s.Valid()
    modifies s
    ensures Outcome(s, DecodeBytes(dataSize, old(s.Input())), ok, v)
  {
    v := Bytes([]);
    var size;
    ok, size := s.DecodeVarint32();
    if !ok || size + BYTES_OFFSET > dataSize {
      return false, v;
    }
    var bytes;
    ok, bytes := s.Read(size);
    v := Bytes(bytes);
  }

  method DecString(s: IStream, dataSize: nat, was: seq<Byte>) returns (ok: bool, v: Value)
    requires s.Valid()
    modifies s
    ensures Outcome(s, DecodeText(dataSize, old(s.Input()), was), ok, v)
  {
    v := Text(was);
    var size;
    ok, size := s.DecodeVarint32();
    if !ok {
      return;
    }
    var allocSize := (size + 1) % TWO32;
    if allocSize < size || allocSize > dataSize {
      return false, v;
    }
    var bytes;
    ok, bytes := s.Read(size);
    v := Text(bytes + [0] + if size + 1 <= |was| then was[size + 1..] else []);
  }

  method DecFixedBytes(s: IStream, dataSize: nat) returns (ok: bool, v: Value)
    requires s.Valid()
    modifies s
    ensures Outcome(s, DecodeFixedBytes(dataSize, old(s.Input())), ok, v)
  {
    v := Bytes([]);
    var size;
    ok, size := s.DecodeVarint32();
    if !ok {
      return;
    }
    if size == 0 {
      return true, Bytes(Zeros(dataSize));
    }
    if size != dataSize {
      return false, v;
    }
    var bytes;
    ok, bytes := s.Read(size);
    v := Bytes(bytes);
  }

  /** Whether a submessage starts from its defaults rather than from what is there */
  predicate Anew(fs: Fields, isEntry: bool, was: Value) {
    isEntry || !was.Message? || |was.slots| != |fs|
  }

  function DecodeBody(fs: Fields, isEntry: bool, body: seq<Byte>, was: Value): Result<Value> {
    if Anew(fs, isEntry, was) then DecodeMessage(fs, body, Defaults(fs), map[])
    else DecodeMessage(fs, body, was.slots, was.which)
  }

  /** A length, and a submessage of that length that starts from its defaults or from what is there */
  function DecodeDelimited(fs: Fields, isEntry: bool, s: seq<Byte>, was: Value): Result<Value> {
    match Delimited(s)
    case Fail => Fail
    case Ok(body, rest) =>
      match DecodeBody(fs, isEntry, body, was)
      case Fail => Fail
      case Ok(m, _) => Ok(m, rest)
  }

  lemma SubmessageIs(fs: Fields, isEntry: bool, s: seq<Byte>, was: Value)
    ensures DecodeValue(SubmessageKind(fs), isEntry, s, was) == DecodeDelimited(fs, isEntry, s, was)
  {
  }

  /** New array entries start from their defaults, other submessages from what is there. */
  method DecodeBodyFrom(sub: IStream, fs: Fields, isEntry: bool, was: Value) returns (ok: bool, v: Value)
    requires sub.Valid() && Decodable(fs)
    modifies sub
    ensures Outcome(sub, DecodeBody(fs, isEntry, old(sub.Input()), was), ok, v)
    ensures ok ==> sub.state + sub.bytesLeft == old(sub.state + sub.bytesLeft)
    decreases sub.bytesLeft, 9
  {
    var defined;
    if Anew(fs, isEntry, was) {
      ok, defined, v := DecodeFresh(sub, fs);
    } else {
      ok, defined, v := DecodeNoInit(sub, fs, was.slots, was.which);
    }
  }

  method DecDelimited(s: IStream, fs: Fields, isEntry: bool, was: Value) returns (ok: bool, v: Value)
    requires s.Valid() && Decodable(fs)
    modifies s
    ensures Outcome(s, DecodeDelimited(fs, isEntry, old(s.Input()), was), ok, v)
    decreases s.bytesLeft, 0, 0
  {
    v := was;
    var sub;
    ok, sub := s.MakeSubstream();
    if !ok {
      return;
    }
    ghost var end, rest := sub.state + sub.bytesLeft, Delimited(old(s.Input())).rest;
    ok, v := DecodeBodyFrom(sub, fs, isEntry, was);
    s.CloseSubstream(sub);
    assert ok ==> s.state == end && s.buf[end..end + s.bytesLeft] == rest;
  }

  method DecSubmessage(s: IStream, fs: Fields, isEntry: bool, was: Value) returns (ok: bool, v: Value)
    requires s.Valid() && Decodable(fs)
    modifies s
    ensures Outcome(s, DecodeValue(SubmessageKind(fs), isEntry, old(s.Input()), was), ok, v)
    decreases s.bytesLeft, 0, 1
  {
    SubmessageIs(fs, isEntry, s.Input(), was);
    ok, v := DecDelimited(s, fs, isEntry, was);
  }

  method DecodeValueFrom(s: IStream, k: Kind, isEntry: bool, was: Value) returns (ok: bool, v: Value)
    requires s.Valid() && KindDecodable(k)
    modifies s
    ensures Outcome(s, DecodeValue(k, isEntry, old(s.Input()), was), ok, v)
    decreases s.bytesLeft, 1
  {
    match k
    case SignedKind(size) => ok, v := DecVarint(s, size);
    case UnsignedKind(size) => ok, v := DecUvarint(s, size);
    case ZigzagKind(size) => ok, v := DecSvarint(s, size);
    case Fixed32Kind => ok, v := DecFixed(s, 4);
    case Fixed64Kind => ok, v := DecFixed(s, 8);
    case BytesKind(dataSize) => ok, v := DecBytes(s, dataSize);
    case StringKind(dataSize) => ok, v := DecString(s, dataSize, if was.Text? then was.buffer else Zeros(dataSize));
    case FixedBytesKind(dataSize) => ok, v := DecFixedBytes(s, dataSize);
    case SubmessageKind(fs) => ok, v := DecSubmessage(s, fs, isEntry, was);
  }

  /** The entries of a packed array, until the substream or the room runs out. */
  method DecodePackedFrom(sub: IStream, k: Kind, max: nat, items: seq<Value>) returns (ok: bool, all: seq<Value>)
    requires sub.Valid() && KindDecodable(k)
    modifies sub
    ensures sub.Within() && (ok ==> sub.Advanced([]))
    ensures ok == DecodePacked(k, max, items, old(sub.Input())).Some?
    ensures ok ==> Some(all) == DecodePacked(k, max, items, old(sub.Input()))
    decreases sub.bytesLeft, 2
  {
    all := items;
    while sub.bytesLeft > 0 && |all| < max
      invariant sub.Within() && sub.state + sub.bytesLeft == old(sub.state + sub.bytesLeft)
      invariant DecodePacked(k, max, all, sub.Input()) == DecodePacked(k, max, items, old(sub.Input()))
      decreases sub.bytesLeft
    {
      var v;
      ok, v := DecodeValueFrom(sub, k, true, Zero(k));
      if !ok {
        return;
      }
      all := all + [v];
    }
    ok := sub.bytesLeft == 0;
  }

  lemma PackedIs(f: Field, slot: Slot, which: map<nat, nat>, s: seq<Byte>)
    requires f.rule.Repeated? && Packable(f.kind)
    ensures Delimited(s).Fail? ==> DecodeField(f, WT_STRING, slot, which, s).Fail?
    ensures Delimited(s).Ok? ==>
              var all := DecodePacked(f.kind, f.rule.max, Items(slot), Delimited(s).value);
              DecodeField(f, WT_STRING, slot, which, s) ==
              if all.Some? then Ok((Many(all.value), which), Delimited(s).rest) else Fail
  {
  }

  function Items(slot: Slot): seq<Value> {
    if slot.Many? then slot.items else []
  }

  method DecodePackedArray(s: IStream, f: Field, slot: Slot, which: map<nat, nat>)
    returns (ok: bool, r: (Slot, map<nat, nat>))
    requires s.Valid() && KindDecodable(f.kind) && f.rule.Repeated? && Packable(f.kind)
    modifies s
    ensures Outcome(s, DecodeField(f, WT_STRING, slot, which, old(s.Input())), ok, r)
    decreases s.bytesLeft, 3
  {
    r := (slot, which);
    PackedIs(f, slot, which, s.Input());
    var sub, items;
    ok, sub := s.MakeSubstream();
    if !ok {
      return;
    }
    ghost var end, rest := sub.state + sub.bytesLeft, Delimited(old(s.Input())).rest;
    ok, items := DecodePackedFrom(sub, f.kind, f.rule.max, Items(slot));
    if !ok {
      return;
    }
    s.CloseSubstream(sub);
    assert s.state == end && s.buf[end..end + s.bytesLeft] == rest;
    r := (Many(items), which);
  }

  method DecodeArrayFrom(s: IStream, f: Field, wt: nat, slot: Slot, which: map<nat, nat>)
    returns (ok: bool, r: (Slot, map<nat, nat>))
    requires s.Valid() && KindDecodable(f.kind) && f.rule.Repeated?
    modifies s
    ensures Outcome(s, DecodeField(f, wt, slot, which, old(s.Input())), ok, r)
    decreases s.bytesLeft, 4
  {
    r := (slot, which);
    var items := Items(slot);
    if wt == WT_STRING && Packable(f.kind) {
      ok, r := DecodePackedArray(s, f, slot, which);
      return;
    }
    if |items| >= f.rule.max {
      return false, r;
    }
    var v;
    ok, v := DecodeValueFrom(s, f.kind, true, Zero(f.kind));
    r := (Many(items + [v]), which);
  }

  /** `decode_static_field` */
  method DecodeFieldFrom(s: IStream, f: Field, wt: nat, slot: Slot, which: map<nat, nat>)
    returns (ok: bool, r: (Slot, map<nat, nat>))
    requires s.Valid() && KindDecodable(f.kind)
    modifies s
    ensures Outcome(s, DecodeField(f, wt, slot, which, old(s.Input())), ok, r)
    decreases s.bytesLeft, 5
  {
    if f.rule.Repeated? {
      ok, r := DecodeArrayFrom(s, f, wt, slot, which);
      return;
    }
    var v := if slot.Many? then Zero(f.kind) else slot.value;
    if f.rule.Oneof? {
      if f.kind.SubmessageKind? {
        v := Zero(f.kind);
      }
      ok, v := DecodeValueFrom(s, f.kind, false, v);
      return ok, (One(false, v), which[f.rule.group := f.tag]);
    }
    ok, v := DecodeValueFrom(s, f.kind, false, v);
    return ok, (One(f.rule.Optional?, v), which);
  }

  // ---- messages ----

  /** The iterator stops where the specification's search does. */
  lemma FindAgrees(fs: Fields, pos: nat, tag: nat, at: nat, found: bool)
    requires pos < |fs| && at < |fs|
    requires found <==> !I.NoMatch(Entries(fs), 0, |fs|, tag)
    requires found ==>
               && I.Matches(Entries(fs)[at], tag)
               && I.NoMatch(Entries(fs), pos, if pos <= at then at else |fs|, tag)
               && (at < pos ==> I.NoMatch(Entries(fs), 0, at, tag))
    ensures Find(fs, pos, tag) == if found then Some(at) else None
  {
    if found {
      if pos <= at {
        FirstBetween(fs, pos, |fs|, tag, at);
      } else {
        assert forall j :: pos <= j < |fs| ==> !I.Matches(Entries(fs)[j], tag);
        FirstBetween(fs, 0, pos, tag, at);
      }
    } else if Find(fs, pos, tag).Some? {
      assert I.Matches(Entries(fs)[Find(fs, pos, tag).value], tag);
    }
  }

  lemma {:induction false} FirstBetween(fs: Fields, i: nat, n: nat, tag: nat, at: nat)
    requires i <= at < n <= |fs| && fs[at].tag == tag && I.NoMatch(Entries(fs), i, at, tag)
    ensures FindBetween(fs, i, n, tag) == Some(at)
    decreases n - i
  {
    if i < at {
      assert !I.Matches(Entries(fs)[i], tag);
      FirstBetween(fs, i + 1, n, tag, at);
    }
  }

  /** The locals of the decoding loop, standing for a state of the specification's. */
  ghost predicate Represents(fs: Fields, iter: I.FieldIter, words: seq<nat>, slots: seq<Slot>, which: map<nat, nat>,
                             st: State)
    reads iter
  {
    && StateOk(fs, st) && st.slots == slots && st.which == which
    && iter.Valid() && iter.entries == Entries(fs) && iter.pos == st.pos
    && Tracks(fs, words, st.seen)
  }

  /** Field i was found: its bit is set and its value is stored. */
  method DecodeFound(s: IStream, fs: Fields, i: nat, required: nat, wt: nat, words: seq<nat>, slots: seq<Slot>,
                     which: map<nat, nat>, ghost st: State)
    returns (ok: bool, words': seq<nat>, slots': seq<Slot>, which': map<nat, nat>, ghost st': State)
    requires s.Valid() && FieldsDecodable(fs) && i < |fs| && required == BitFor(fs, i)
    requires StateOk(fs, st) && st.slots == slots && st.which == which && Tracks(fs, words, st.seen)
    modifies s
    ensures var r := DecodeField(fs[i], wt, slots[i], which, old(s.Input()));
            Outcome(s, if r.Fail? then Fail else Ok(Store(fs, st, i, r.value.0, r.value.1), r.rest), ok, st')
    ensures StateOk(fs, st') && st'.slots == slots' && st'.which == which' && st'.pos == i
    ensures Tracks(fs, words', st'.seen)
    decreases s.bytesLeft, 6, 0
  {
    words' := words;
    if fs[i].rule.Required? && required < MAX_REQUIRED {
      words' := SetBit(words, required);
      SetBitTracks(fs, words, st.seen, i, words');
    }
    assert FieldDecodable(fs[i]);
    var r;
    ok, r := DecodeFieldFrom(s, fs[i], wt, slots[i], which);
    slots', which' := slots[i := r.0], r.1;
    st' := Store(fs, st, i, r.0, r.1);
  }

  /** One round of the loop after its tag */
  method DecodeRound(s: IStream, fs: Fields, iter: I.FieldIter, tag: nat, wt: nat, words: seq<nat>,
                     slots: seq<Slot>, which: map<nat, nat>, ghost st: State)
    returns (ok: bool, words': seq<nat>, slots': seq<Slot>, which': map<nat, nat>, ghost st': State)
    requires s.Valid() && FieldsDecodable(fs) && Represents(fs, iter, words, slots, which, st)
    modifies s, iter
    ensures Outcome(s, DecodeOne(fs, tag, wt, old(s.Input()), st), ok, st')
    ensures ok ==> Represents(fs, iter, words', slots', which', st')
    decreases s.bytesLeft, 6, 1
  {
    words', slots', which', st' := words, slots, which, st;
    var found := iter.Find(tag);
    if fs == [] && found {
      // The terminator reads as a required integer of size 0.
      var v;
      ok, v := DecVarint(s, 0);
      return;
    }
    if fs != [] {
      FindAgrees(fs, old(iter.pos), tag, iter.pos, found);
    }
    if !found {
      ok := s.SkipField(wt);
      return;
    }
    ok, words', slots', which', st' := DecodeFound(s, fs, iter.pos, iter.required, wt, words, slots, which, st);
  }

  /** `pb_decode` */
  method DecodeFresh(s: IStream, fs: Fields) returns (ok: bool, defined: bool, m: Value)
    requires s.Valid() && FieldsDecodable(fs)
    modifies s
    ensures defined <==> !Undefined(fs, DecodeLoop(fs, old(s.Input()), State(Defaults(fs), map[], 0, {})))
    ensures defined ==> Outcome(s, DecodeMessage(fs, old(s.Input()), Defaults(fs), map[]), ok, m)
    decreases s.bytesLeft, 8
  {
    var slots := SetToDefaults(fs);
    ok, defined, m := DecodeNoInit(s, fs, slots, map[]);
  }

  /** `pb_decode_noinit`: what it does is undefined exactly where its last check is. */
  method DecodeNoInit(s: IStream, fs: Fields, slots: seq<Slot>, which: map<nat, nat>)
    returns (ok: bool, defined: bool, m: Value)
    requires s.Valid() && |slots| == |fs| && FieldsDecodable(fs)
    modifies s
    ensures defined <==> !Undefined(fs, DecodeLoop(fs, old(s.Input()), State(slots, which, 0, {})))
    ensures defined ==> Outcome(s, DecodeMessage(fs, old(s.Input()), slots, which), ok, m)
    decreases s.bytesLeft, 7
  {
    m, defined := Message(slots, which), true;
    var words := NothingSeen(fs);
    var iter := new I.FieldIter.Begin(Entries(fs), 0);
    var now, cases := slots, which;
    ghost var st := State(slots, which, 0, {});
    var early := false;
    while s.bytesLeft != 0 && !early
      invariant s.Within() && fresh(iter) && Represents(fs, iter, words, now, cases, st)
      invariant s.state + s.bytesLeft == old(s.state + s.bytesLeft)
      invariant !early ==> DecodeLoop(fs, old(s.Input()), State(slots, which, 0, {})) == DecodeLoop(fs, s.Input(), st)
      invariant early ==> DecodeLoop(fs, old(s.Input()), State(slots, which, 0, {})) == End(st, s.Input(), false)
      modifies s, iter
      decreases s.bytesLeft, !early
    {
      var wt, tag;
      ok, wt, tag, early := s.DecodeTag();
      if !ok {
        if !early {
          return;
        }
      } else {
        ok, words, now, cases, st := DecodeRound(s, fs, iter, tag, wt, words, now, cases, st);
        if !ok {
          return;
        }
      }
    }
    ok, defined := CheckRequired(fs, iter, words, st.seen);
    m := Message(now, cases);
  }

  /** The check at the end of a message's data */
  method CheckRequired(fs: Fields, iter: I.FieldIter, words: seq<nat>, ghost seen: set<nat>)
    returns (ok: bool, defined: bool)
    requires iter.Valid() && iter.entries == Entries(fs) && Tracks(fs, words, seen)
    modifies iter
    ensures defined <==> CountOk(BitFor(fs, |fs|)) || !FirstSeen(fs, seen)
    ensures defined ==> ok == AllRequired(fs, seen)
  {
    var count := iter.CountRequired();
    BitsMeanRequired(fs, words, seen);
    FirstAreAll(fs, seen);
    ok, defined := AllSeen(words, count);
  }
}
