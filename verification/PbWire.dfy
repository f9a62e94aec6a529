/** The scalar encodings of the Protocol Buffers wire format: base-128 varints, zigzag, fixed-width
    little-endian numbers and tags. */
module PbWire {
  import opened Basics
  import opened Words

  const TWO32: int := 0x1_0000_0000
  const TWO63: int := 0x8000_0000_0000_0000
  const TWO64: int := 0x1_0000_0000_0000_0000

  /** The shortest base-128 encoding of a number, low groups first. */
  function Varint(n: nat): (s: seq<Byte>)
    ensures s != []
  {
    if n < 128 then [n] else [n % 128 + 128] + Varint(n / 128)
  }

  /** The number that base-128 groups stand for. */
  function Value(s: seq<Byte>): nat {
    if s == [] then 0 else s[0] % 128 + 128 * Value(s[1..])
  }

  /** How many bytes the varint at the front of s takes; 0 if it does not end within `limit` bytes. */
  function VarintLen(s: seq<Byte>, limit: nat): (k: nat)
    ensures k <= |s| && k <= limit
    decreases limit
  {
    if s == [] || limit == 0 then 0
    else if s[0] < 128 then 1
    else
      var k := VarintLen(s[1..], limit - 1);
      if k == 0 then 0 else k + 1
  }

  function Pow128(k: nat): (p: nat)
    ensures p > 0
  {
    if k == 0 then 1 else 128 * Pow128(k - 1)
  }

  lemma {:induction false} ValueOfVarint(n: nat)
    ensures Value(Varint(n)) == n
  {
    if n >= 128 {
      ValueOfVarint(n / 128);
      assert Varint(n)[1..] == Varint(n / 128);
    }
  }

  /** An encoding takes one byte for every seven bits of the number, and at least one. */
  lemma {:induction false} VarintSize(n: nat)
    ensures n < Pow128(|Varint(n)|) && (|Varint(n)| > 1 ==> n >= Pow128(|Varint(n)| - 1))
  {
    if n >= 128 {
      VarintSize(n / 128);
      assert Varint(n)[1..] == Varint(n / 128);
      assert |Varint(n / 128)| == 1 ==> Pow128(1) == 128;
    }
  }

  lemma {:induction false} Pow128Grows(a: nat, b: nat)
    requires a <= b
    ensures Pow128(a) <= Pow128(b)
    decreases b
  {
    if a < b { Pow128Grows(a, b - 1); }
  }

  /** At most k bytes for a number below 128^k. */
  lemma VarintAtMost(n: nat, k: nat)
    requires n < Pow128(k) && k > 0
    ensures |Varint(n)| <= k
  {
    VarintSize(n);
    if |Varint(n)| > k { Pow128Grows(k, |Varint(n)| - 1); }
  }

  lemma {:induction false} LenOfVarint(n: nat, rest: seq<Byte>, limit: nat)
    requires |Varint(n)| <= limit
    ensures VarintLen(Varint(n) + rest, limit) == |Varint(n)|
    decreases n
  {
    var s := Varint(n) + rest;
    if n >= 128 {
      assert s[1..] == Varint(n / 128) + rest;
      LenOfVarint(n / 128, rest, limit - 1);
    }
  }

  /** Bytes past the end of a varint do not matter. */
  lemma {:induction false} LenOfPrefix(s: seq<Byte>, t: seq<Byte>, limit: nat)
    requires VarintLen(s, limit) > 0
    ensures VarintLen(s + t, limit) == VarintLen(s, limit)
    decreases limit
  {
    assert (s + t)[0] == s[0];
    if s[0] >= 128 {
      assert (s + t)[1..] == s[1..] + t;
      LenOfPrefix(s[1..], t, limit - 1);
    }
  }

  /** A higher limit finds the same end. */
  lemma {:induction false} LenOfLimit(s: seq<Byte>, a: nat, b: nat)
    requires a <= b
    ensures VarintLen(s, a) > 0 ==> VarintLen(s, b) == VarintLen(s, a)
    ensures VarintLen(s, b) <= a ==> VarintLen(s, a) == VarintLen(s, b)
    decreases b
  {
    if s != [] && a > 0 { LenOfLimit(s[1..], a - 1, b - 1); }
  }

  // ---- decoding ----

  datatype Result<T> = Ok(value: T, rest: seq<Byte>) | Fail

  /** Up to ten bytes; the value is cut to 64 bits. */
  function DecodeVarint(s: seq<Byte>): (r: Result<nat>)
    ensures r.Ok? ==> |r.rest| < |s| && r.value < TWO64
  {
    var k := VarintLen(s, 10);
    if k == 0 then Fail else Ok(Value(s[..k]) % TWO64, s[k..])
  }

  /** Up to five bytes; the value is cut to 32 bits. */
  function DecodeVarint32(s: seq<Byte>): (r: Result<nat>)
    ensures r.Ok? ==> |r.rest| < |s| && r.value < TWO32
  {
    var k := VarintLen(s, 5);
    if k == 0 then Fail else Ok(Value(s[..k]) % TWO32, s[k..])
  }

  lemma Pow128Constants()
    ensures Pow128(5) == 0x8_0000_0000 && Pow128(9) == TWO63 && Pow128(10) == 64 * TWO64
  {
    assert Pow128(2) == 0x4000 && Pow128(4) == 0x1000_0000;
    assert Pow128(8) == 128 * (128 * (128 * (128 * Pow128(4))));
  }

  /** Decoding undoes encoding, for every 64-bit number and whatever follows. */
  lemma {:induction false} VarintRoundTrip(n: nat, rest: seq<Byte>)
    requires n < TWO64
    ensures |Varint(n)| <= 10 && DecodeVarint(Varint(n) + rest) == Ok(n, rest)
  {
    Pow128Constants();
    VarintAtMost(n, 10);
    LenOfVarint(n, rest, 10);
    ValueOfVarint(n);
    SmallMod(n, TWO64);
    TakeAll(Varint(n), rest);
  }

  /** Five bytes hold 35 bits, of which the 32-bit decoder keeps the low 32. */
  lemma Varint32Cuts(n: nat, rest: seq<Byte>)
    requires n < Pow128(5)
    ensures |Varint(n)| <= 5 && DecodeVarint32(Varint(n) + rest) == Ok(n % TWO32, rest)
  {
    VarintAtMost(n, 5);
    LenOfVarint(n, rest, 5);
    ValueOfVarint(n);
    TakeAll(Varint(n), rest);
  }

  lemma Varint32RoundTrip(n: nat, rest: seq<Byte>)
    requires n < TWO32
    ensures |Varint(n)| <= 5 && DecodeVarint32(Varint(n) + rest) == Ok(n, rest)
  {
    Pow128Constants();
    Varint32Cuts(n, rest);
    SmallMod(n, TWO32);
  }

  /** The 32-bit decoder succeeds exactly when the varint ends within five bytes; then it leaves the
      same bytes as the 64-bit decoder and its value is the other's modulo 2^32. */
  lemma Varint32IsVarintModulo(s: seq<Byte>)
    ensures DecodeVarint32(s).Ok? <==> 0 < VarintLen(s, 10) <= 5
    ensures DecodeVarint32(s).Ok? ==>
              && DecodeVarint(s).Ok? && DecodeVarint32(s).rest == DecodeVarint(s).rest
              && DecodeVarint32(s).value == DecodeVarint(s).value % TWO32
  {
    LenOfLimit(s, 5, 10);
    if DecodeVarint32(s).Ok? {
      LowWord(Value(s[..VarintLen(s, 5)]));
    }
  }

  lemma LowWord(v: nat)
    ensures (v % TWO64) % TWO32 == v % TWO32
  {
    var q, r := v / TWO64, v % TWO64;
    RemainderIs(v, TWO32, TWO32 * q + r / TWO32, r % TWO32);
  }

  lemma VarintPrefix(s: seq<Byte>, t: seq<Byte>)
    requires DecodeVarint(s).Ok?
    ensures DecodeVarint(s + t) == Ok(DecodeVarint(s).value, DecodeVarint(s).rest + t)
  {
    LenOfPrefix(s, t, 10);
    TakeDrop(s, t, VarintLen(s, 10));
  }

  lemma Varint32Prefix(s: seq<Byte>, t: seq<Byte>)
    requires DecodeVarint32(s).Ok?
    ensures DecodeVarint32(s + t) == Ok(DecodeVarint32(s).value, DecodeVarint32(s).rest + t)
  {
    LenOfPrefix(s, t, 5);
    TakeDrop(s, t, VarintLen(s, 5));
  }

  // ---- signed numbers ----

  /** `(uint64_t)value` */
  function ToUnsigned(n: int): nat
    requires -TWO63 <= n < TWO64
  {
    if n < 0 then n + TWO64 else n
  }

  /** `(int64_t)value` */
  function ToSigned(n: nat): int
    requires n < TWO64
  {
    if n >= TWO63 then n - TWO64 else n
  }

  /** `(int32_t)value` */
  function ToSigned32(n: nat): int {
    var m := n % TWO32;
    if m >= 0x8000_0000 then m - TWO32 else m
  }

  /** Zigzag: shift left, and complement when negative, on 64-bit words. */
  function Zigzag(n: int): nat
    requires -TWO63 <= n < TWO63
  {
    var shifted := (ToUnsigned(n) * 2) % TWO64;
    if n < 0 then TWO64 - 1 - shifted else shifted
  }

  function Unzigzag(n: nat): int
    requires n < TWO64
  {
    if n % 2 == 1 then ToSigned(TWO64 - 1 - n / 2) else ToSigned(n / 2)
  }

  lemma ZigzagRoundTrip(n: int)
    requires -TWO63 <= n < TWO63
    ensures Zigzag(n) < TWO64 && Unzigzag(Zigzag(n)) == n
    ensures Zigzag(n) == if n < 0 then -2 * n - 1 else 2 * n
  {
    if n < 0 {
      assert (n + TWO64) * 2 == TWO64 + (2 * n + TWO64);
      assert ((n + TWO64) * 2) % TWO64 == 2 * n + TWO64;
    }
  }

  // ---- fixed width ----

  /** n as `width` little-endian bytes */
  function Fixed(n: nat, width: nat): (s: seq<Byte>)
    ensures |s| == width
    decreases width
  {
    if width == 0 then [] else [n % 256] + Fixed(n / 256, width - 1)
  }

  function FixedValue(s: seq<Byte>): nat {
    if s == [] then 0 else s[0] + 256 * FixedValue(s[1..])
  }

  lemma {:induction false} FixedRoundTrip(n: nat, width: nat)
    requires n < Pow256(width)
    ensures FixedValue(Fixed(n, width)) == n
    decreases width
  {
    if width > 0 { FixedRoundTrip(n / 256, width - 1); }
  }

  lemma Pow256Constants()
    ensures Pow256(4) == TWO32 && Pow256(8) == TWO64
  {
    assert Pow256(4) == TWO32;
    assert Pow256(8) == 256 * (256 * (256 * (256 * Pow256(4))));
  }

  // ---- tags ----

  const WT_VARINT: nat := 0
  const WT_64BIT: nat := 1
  const WT_STRING: nat := 2
  const WT_32BIT: nat := 5

  /** Tags are read back with 29 bits. */
  const MAX_TAG: nat := 0x2000_0000

  /** `(tag << 3) | wiretype`, on 64 bits */
  function TagBytes(tag: nat, wt: nat): seq<Byte> {
    Varint(tag * 8 + wt)
  }

  datatype TagResult = Tag(tag: nat, wt: nat, rest: seq<Byte>) | Eof(unread: seq<Byte>) | BadTag

  /** A tag that cannot be read is the end of the message if nothing is left after the attempt, and a
      zero byte where a tag should be ends the message early. */
  function DecodeTag(s: seq<Byte>): (r: TagResult)
    ensures r.Tag? ==> |r.rest| < |s| && r.tag < MAX_TAG && r.wt < 8
  {
    match DecodeVarint32(s)
    case Fail => if |s| <= 5 then Eof([]) else BadTag
    case Ok(n, rest) => if n == 0 then Eof(rest) else Tag(n / 8, n % 8, rest)
  }

  /** A tag is written with its 32 bits and read back without the three highest.  When nothing but zero
      is left of it, it reads as the end of the message. */
  lemma TagReadsAs(tag: nat, wt: nat, rest: seq<Byte>)
    requires tag < TWO32 && wt < 8
    ensures var low := tag % MAX_TAG;
            DecodeTag(TagBytes(tag, wt) + rest) == if low == 0 && wt == 0 then Eof(rest) else Tag(low, wt, rest)
  {
    var n, high, low := tag * 8 + wt, tag / MAX_TAG, tag % MAX_TAG;
    Pow128Constants();
    Varint32Cuts(n, rest);
    RemainderIs(n, TWO32, high, low * 8 + wt);
  }

  /** So a tag comes back exactly when it is below 2^29; only the pair of zeros does not. */
  lemma TagRoundTrip(tag: nat, wt: nat, rest: seq<Byte>)
    requires tag < TWO32 && wt < 8
    ensures DecodeTag(TagBytes(tag, wt) + rest) == Tag(tag, wt, rest) <==> tag < MAX_TAG && tag + wt != 0
  {
    TagReadsAs(tag, wt, rest);
    if tag < MAX_TAG { SmallMod(tag, MAX_TAG); }
  }
}
