/** The input stream: a window onto a buffer that every read moves forward, and the readers of
    varints, tags and skipped fields on top of it. */
module PbInput {
  import opened Words
  import opened PbWire
  import M = PbMessage

  // ---- bit arithmetic of the varint loops ----

  lemma {:induction false} TruncIsMod(a: nat, w: nat)
    ensures Trunc(a, w) == a % Pow2(w)
    decreases w
  {
    if w > 0 {
      TruncIsMod(a / 2, w - 1);
      HalfMod(a, Pow2(w - 1));
    }
  }

  lemma HalfMod(a: nat, p: nat)
    requires p > 0
    ensures a % (2 * p) == 2 * ((a / 2) % p) + a % 2
  {
    var q, r := (a / 2) / p, (a / 2) % p;
    Regroup(p, q);
    RemainderIs(a, 2 * p, q, 2 * r + a % 2);
  }

  lemma Regroup(p: nat, q: nat)
    ensures 2 * (p * q) == (2 * p) * q
  {
  }

  /** Or-ing in bits above the ones in use adds. */
  lemma {:induction false} OrIsPlus(a: nat, b: nat, n: nat)
    requires a < Pow2(n)
    ensures Or(a, Shl(b, n)) == a + b * Pow2(n)
    decreases n
  {
    if n == 0 {
      assert Or(0, b) == b;
    } else {
      ShlIsTimes(b, n);
      if a > 0 {
        var x := Shl(b, n);
        assert x / 2 == Shl(b, n - 1) && x % 2 == 0;
        OrIsPlus(a / 2, b, n - 1);
        Regroup(b, Pow2(n - 1));
        assert b * Pow2(n) == 2 * (b * Pow2(n - 1)) by { Doubles(b, Pow2(n - 1)); }
      }
    }
  }

  lemma Doubles(b: nat, p: nat)
    ensures b * (2 * p) == 2 * (b * p)
  {
  }

  lemma {:induction false} ShlIsTimes(b: nat, n: nat)
    ensures Shl(b, n) == b * Pow2(n)
  {
    if n > 0 {
      ShlIsTimes(b, n - 1);
      Doubles(b, Pow2(n - 1));
    }
  }

  /** What one round of the loop does to a word of w bits. */
  lemma OrShifted(a: nat, b: nat, n: nat, w: nat)
    requires a < Pow2(n) && n <= w
    ensures Or(a, Trunc(Shl(b, n), w)) == (a + b * Pow2(n)) % Pow2(w)
  {
    Pow2Grows(n, w);
    var x, y := Or(a, Trunc(Shl(b, n), w)), Trunc(Or(a, Shl(b, n)), w);
    TruncBound(Shl(b, n), w);
    OrBound(a, Trunc(Shl(b, n), w), w);
    TruncBound(Or(a, Shl(b, n)), w);
    forall k: nat | k < w ensures Bit(x, k) <==> Bit(y, k) {
      BitOfOr(a, Trunc(Shl(b, n), w), k);
      BitOfTrunc(Shl(b, n), w, k);
      BitOfTrunc(Or(a, Shl(b, n)), w, k);
      BitOfOr(a, Shl(b, n), k);
    }
    SameBits(x, y, w);
    OrIsPlus(a, b, n);
    TruncIsMod(Or(a, Shl(b, n)), w);
  }

  /** `n & (2^w - 1)` */
  lemma MaskIsMod(n: nat, w: nat)
    ensures Shl(1, w) > 0 && And(n, Shl(1, w) - 1) == n % Pow2(w)
  {
    ShlIsPow2(w);
    AndBound(n, Shl(1, w) - 1, w);
    TruncBound(n, w);
    forall k: nat | k < w ensures Bit(And(n, Shl(1, w) - 1), k) <==> Bit(Trunc(n, w), k) {
      BitOfAnd(n, Shl(1, w) - 1, k);
      BitOfOnes(w, k);
      BitOfTrunc(n, w, k);
    }
    SameBits(And(n, Shl(1, w) - 1), Trunc(n, w), w);
    TruncIsMod(n, w);
  }

  lemma Masks(n: nat)
    ensures And(n, 0x7F) == n % 128 && And(n, 7) == n % 8
  {
    MaskIsMod(n, 7);
    MaskIsMod(n, 3);
    assert Shl(1, 3) == 8 && Pow2(3) == 8;
    assert Shl(1, 7) == 128 && Pow2(7) == 128;
  }

  /** `byte & 0x80` */
  lemma TopBit(b: Byte)
    ensures And(b, 0x80) != 0 <==> b >= 128
  {
    assert Shl(1, 7) == 128;
    BitTest(b, 7);
    assert Bit(b, 7) <==> Bit(b / 2 / 2 / 2 / 2, 3);
  }

  lemma {:induction false} Pow2IsPow128(k: nat)
    ensures Pow2(7 * k) == Pow128(k)
  {
    if k > 0 {
      Pow2IsPow128(k - 1);
      SevenMore(7 * (k - 1));
    }
  }

  lemma SevenMore(n: nat)
    ensures Pow2(n + 7) == 128 * Pow2(n)
  {
    assert Pow2(n + 3) == 2 * Pow2(n + 2) == 8 * Pow2(n);
    assert Pow2(n + 6) == 2 * Pow2(n + 5) == 8 * Pow2(n + 3);
  }

  lemma {:induction false} ValueAppend(s: seq<Byte>, b: Byte)
    ensures Value(s + [b]) == Value(s) + (b % 128) * Pow128(|s|)
  {
    if s == [] {
      assert (s + [b])[1..] == [];
    } else {
      assert (s + [b])[1..] == s[1..] + [b];
      ValueAppend(s[1..], b);
      Distribute(b % 128, Pow128(|s| - 1), Value(s[1..]));
    }
  }

  lemma Distribute(x: nat, p: nat, v: nat)
    ensures 128 * (v + x * p) == 128 * v + x * (128 * p)
  {
  }

  lemma {:induction false} ValueBound(s: seq<Byte>)
    ensures Value(s) < Pow128(|s|)
  {
    if s != [] { ValueBound(s[1..]); }
  }

  /** The first k bytes of s all say that more follow. */
  ghost predicate Unfinished(s: seq<Byte>, k: nat) {
    k <= |s| && forall i :: 0 <= i < k ==> s[i] >= 128
  }

  lemma {:induction false} LenAt(s: seq<Byte>, k: nat, limit: nat)
    requires Unfinished(s, k) && k <= limit
    ensures k < |s| && k < limit && s[k] < 128 ==> VarintLen(s, limit) == k + 1
    ensures k == |s| || k == limit ==> VarintLen(s, limit) == 0
    decreases limit
  {
    if k > 0 { LenAt(s[1..], k - 1, limit - 1); }
  }

  /** The loop's word after k bytes, when they all fit. */
  lemma VarintRound(s: seq<Byte>, k: nat, w: nat)
    requires k < |s| && 7 * k <= w
    ensures Or(Value(s[..k]), Trunc(Shl(s[k] % 128, 7 * k), w)) == Value(s[..k + 1]) % Pow2(w)
  {
    ValueBound(s[..k]);
    Pow2IsPow128(k);
    OrShifted(Value(s[..k]), s[k] % 128, 7 * k, w);
    assert s[..k + 1] == s[..k] + [s[k]];
    ValueAppend(s[..k], s[k]);
  }

  lemma FitsWord(s: seq<Byte>, w: nat)
    requires 7 * |s| <= w
    ensures Value(s) % Pow2(w) == Value(s)
  {
    ValueBound(s);
    Pow2IsPow128(|s|);
    Pow2Grows(7 * |s|, w);
    SmallMod(Value(s), Pow2(w));
  }

  lemma WordSizes()
    ensures Pow2(32) == TWO32 && Pow2(64) == TWO64
  {
    Pow2IsPow128(4);
    Pow128Constants();
    Pow2IsPow128(9);
    assert Pow128(2) == 0x4000 && Pow128(4) == 0x1000_0000;
    assert Pow2(32) == 2 * (2 * (2 * (2 * Pow2(28))));
    assert Pow2(64) == 2 * Pow2(63);
  }

  /** `byte & 0x80` */
  method Continues(byte: Byte) returns (more: bool)
    ensures more == (byte >= 128)
  {
    TopBit(byte);
    return And(byte, 0x80) != 0;
  }

  /** `byte & 0x7F` */
  method LowBits(byte: Byte) returns (low: nat)
    ensures low == byte % 128
  {
    Masks(byte);
    return And(byte, 0x7F);
  }

  /** `result |= (byte & 0x7F) << bitpos` on a word of w bits, in terms of the bytes s read so far. */
  method OrGroup(result: nat, byte: Byte, bitpos: nat, w: nat, ghost s: seq<Byte>, ghost k: nat) returns (r: nat)
    requires k < |s| && bitpos == 7 * k <= w && s[k] == byte && result == Value(s[..k])
    ensures r == Value(s[..k + 1]) % Pow2(w)
    ensures 7 * (k + 1) <= w ==> r == Value(s[..k + 1])
  {
    VarintRound(s, k, w);
    if 7 * (k + 1) <= w { FitsWord(s[..k + 1], w); }
    var low := LowBits(byte);
    return Or(result, Trunc(Shl(low, bitpos), w));
  }

  /** The first byte is the whole varint, or its low seven bits. */
  lemma FirstGroup(s: seq<Byte>)
    requires s != []
    ensures Value(s[..1]) == s[0] % 128
    ensures s[0] < 128 ==> PbWire.DecodeVarint32(s) == Ok(s[0] as nat, s[1..])
  {
    assert s[..1] == [s[0]] && s[..1][1..] == [];
    if s[0] < 128 {
      LenAt(s, 0, 5);
      SmallMod(s[0], TWO32);
    }
  }

  /** What a failed attempt at a 32-bit varint has read: five bytes, or all there are. */
  function Attempted(s: seq<Byte>): nat {
    if |s| <= 5 then |s| else 5
  }

  lemma Windows(buf: seq<Byte>, start: nat, n: nat, size: nat)
    requires start + n <= |buf| && size <= n
    ensures buf[start..start + n][..size] == buf[start..start + size]
    ensures buf[start..start + n][size..] == buf[start + size..start + n]
  {
  }

  class IStream {
    const buf: seq<Byte>
    var state: nat
    var bytesLeft: nat

    ghost predicate Valid()
      reads this
    {
      state + bytesLeft <= |buf|
    }

    /** The bytes that may still be read: no byte past the limit is part of it. */
    ghost function Input(): seq<Byte>
      requires Valid()
      reads this
    {
      buf[state..state + bytesLeft]
    }

    /** The stream moved on to `rest`, and its position by just as much as its limit. */
    twostate predicate Advanced(rest: seq<Byte>)
      reads this
    {
      Valid() && Input() == rest && state + bytesLeft == old(state + bytesLeft)
    }

    /** Whatever happened, nothing past the limit was read. */
    twostate predicate Within()
      reads this
    {
      Valid() && state + bytesLeft <= old(state + bytesLeft) && bytesLeft <= old(bytesLeft)
    }

    constructor FromBuffer(buf: seq<Byte>, size: nat)
      requires size <= |buf|
      ensures Valid() && Input() == buf[..size] && this.buf == buf && state == 0
    {
      this.buf, state, bytesLeft := buf, 0, size;
    }

    /** `*substream = *stream`, with the limit set to `size` */
    constructor Copy(parent: IStream, size: nat)
      requires parent.Valid() && size <= parent.bytesLeft
      ensures Valid() && buf == parent.buf && state == parent.state && bytesLeft == size
    {
      buf, state, bytesLeft := parent.buf, parent.state, size;
    }

    method Read(count: nat) returns (ok: bool, data: seq<Byte>)
      requires Valid()
      modifies this
      ensures Within() && ok == (count <= |old(Input())|)
      ensures ok ==> data == old(Input())[..count] && Advanced(old(Input())[count..])
      ensures !ok ==> Advanced(old(Input()))
    {
      data := [];
      if bytesLeft < count {
        return false, data;
      }
      var source := state;
      state := state + count;
      for i := 0 to count
        invariant data == buf[source..source + i]
      {
        data := data + [buf[source + i]];
      }
      bytesLeft := bytesLeft - count;
      return true, data;
    }

    method Skip(count: nat) returns (ok: bool)
      requires Valid()
      modifies this
      ensures Within() && ok == (count <= |old(Input())|)
      ensures ok ==> Advanced(old(Input())[count..])
      ensures !ok ==> Advanced(old(Input()))
    {
      if bytesLeft < count {
        return false;
      }
      state := state + count;
      bytesLeft := bytesLeft - count;
      return true;
    }

    method ReadByte() returns (ok: bool, byte: Byte)
      requires Valid()
      modifies this
      ensures Within() && ok == (old(Input()) != [])
      ensures ok ==> byte == old(Input())[0] && Advanced(old(Input())[1..])
      ensures !ok ==> Advanced(old(Input()))
    {
      if bytesLeft == 0 {
        return false, 0;
      }
      byte := buf[state];
      state := state + 1;
      bytesLeft := bytesLeft - 1;
      return true, byte;
    }

    method DecodeVarint32() returns (ok: bool, value: nat)
      requires Valid()
      modifies this
      ensures Within() && ok == PbWire.DecodeVarint32(old(Input())).Ok?
      ensures ok ==>
                && value == PbWire.DecodeVarint32(old(Input())).value
                && Advanced(PbWire.DecodeVarint32(old(Input())).rest)
      ensures !ok ==> Advanced(old(Input())[Attempted(old(Input()))..])
    {
      ghost var s := Input();
      var byte: Byte;
      ok, byte := ReadByte();
      if !ok {
        return false, 0;
      }
      var more := Continues(byte);
      FirstGroup(s);
      if !more {
        return true, byte;
      }
      value := LowBits(byte);
      ok, value := DecodeMore(value, s);
    }

    /** The bytes after a first one that announced more; `s` is what there was before it. */
    method DecodeMore(low: nat, ghost s: seq<Byte>) returns (ok: bool, value: nat)
      requires Valid() && Unfinished(s, 1) && low == Value(s[..1]) && Input() == s[1..]
      modifies this
      ensures Within() && ok == PbWire.DecodeVarint32(s).Ok?
      ensures ok ==> value == PbWire.DecodeVarint32(s).value && Advanced(PbWire.DecodeVarint32(s).rest)
      ensures !ok ==> Advanced(s[Attempted(s)..])
    {
      WordSizes();
      var bitpos := 7;
      value := low;
      ghost var k := 1;
      while true
        invariant Valid() && k <= 5 && bitpos == 7 * k && Unfinished(s, k) && Advanced(s[k..])
        invariant k < 5 ==> value == Value(s[..k])
        decreases 5 - k
      {
        LenAt(s, k, 5);
        if bitpos >= 32 {
          return false, 0;
        }
        var byte: Byte;
        ok, byte := ReadByte();
        if !ok {
          return false, 0;
        }
        value := OrGroup(value, byte, bitpos, 32, s, k);
        bitpos := bitpos + 7;
        k := k + 1;
        var more := Continues(byte);
        if !more {
          return true, value;
        }
      }
    }

    method DecodeVarint() returns (ok: bool, value: nat)
      requires Valid()
      modifies this
      ensures Within() && ok == PbWire.DecodeVarint(old(Input())).Ok?
      ensures ok ==>
                && value == PbWire.DecodeVarint(old(Input())).value
                && Advanced(PbWire.DecodeVarint(old(Input())).rest)
    {
      ghost var s := Input();
      var bitpos := 0;
      value := 0;
      ghost var k := 0;
      assert s[..0] == [];
      WordSizes();
      while true
        invariant Valid() && k <= 10 && bitpos == 7 * k && Unfinished(s, k) && Advanced(s[k..])
        invariant k < 10 ==> value == Value(s[..k])
        decreases 10 - k
      {
        LenAt(s, k, 10);
        if bitpos >= 64 {
          return false, 0;
        }
        var more, byte := ReadByte();
        if !more {
          return false, 0;
        }
        value := OrGroup(value, byte, bitpos, 64, s, k);
        bitpos := bitpos + 7;
        k := k + 1;
        more := Continues(byte);
        if !more {
          return true, value;
        }
      }
    }

    method SkipVarint() returns (ok: bool)
      requires Valid()
      modifies this
      ensures Within() && ok == M.SkipVarint(old(Input())).Ok?
      ensures ok ==> Advanced(M.SkipVarint(old(Input())).rest)
    {
      var byte: Byte;
      while true
        invariant Within() && state + bytesLeft == old(state + bytesLeft)
        invariant M.SkipVarint(Input()) == M.SkipVarint(old(Input()))
        decreases bytesLeft
      {
        var data;
        ok, data := Read(1);
        if !ok {
          return false;
        }
        byte := data[0];
        var more := Continues(byte);
        if !more {
          return true;
        }
      }
    }

    method SkipString() returns (ok: bool)
      requires Valid()
      modifies this
      ensures Within() && ok == M.Delimited(old(Input())).Ok?
      ensures ok ==> Advanced(M.Delimited(old(Input())).rest)
    {
      ghost var s := Input();
      var length;
      ok, length := DecodeVarint32();
      if !ok {
        return false;
      }
      ghost var rest := Input();
      assert M.Delimited(s) == if |rest| < length then Fail else Ok(rest[..length], rest[length..]);
      ok := Skip(length);
    }

    /** The outcome is the specification's: a tag, the end of the message, or an error. */
    method DecodeTag() returns (ok: bool, wireType: nat, tag: nat, eof: bool)
      requires Valid()
      modifies this
      ensures Within() && ok == PbWire.DecodeTag(old(Input())).Tag? && eof == PbWire.DecodeTag(old(Input())).Eof?
      ensures ok ==>
                && PbWire.DecodeTag(old(Input())) == Tag(tag, wireType, PbWire.DecodeTag(old(Input())).rest)
                && Advanced(PbWire.DecodeTag(old(Input())).rest)
      ensures eof ==> Advanced(PbWire.DecodeTag(old(Input())).unread)
    {
      eof, wireType, tag := false, 0, 0;
      var temp;
      ok, temp := DecodeVarint32();
      if !ok {
        if bytesLeft == 0 {
          eof := true;
        }
        return;
      }
      if temp == 0 {
        return false, 0, 0, true;
      }
      Masks(temp);
      assert Shr(temp, 3) == temp / 2 / 2 / 2 == temp / 8;
      tag := Shr(temp, 3);
      wireType := And(temp, 7);
    }

    method SkipField(wireType: nat) returns (ok: bool)
      requires Valid()
      modifies this
      ensures Within() && ok == M.SkipField(wireType, old(Input())).Ok?
      ensures ok ==> Advanced(M.SkipField(wireType, old(Input())).rest)
    {
      if wireType == WT_VARINT {
        ok := SkipVarint();
      } else if wireType == WT_64BIT {
        ok := Skip(8);
      } else if wireType == WT_STRING {
        ok := SkipString();
      } else if wireType == WT_32BIT {
        ok := Skip(4);
      } else {
        ok := false;
      }
    }

    /** A substream is open: it ends where what the stream has left begins. */
    ghost predicate Open(sub: IStream)
      reads this, sub
    {
      sub != this && sub.buf == buf && sub.Valid() && sub.state + sub.bytesLeft + bytesLeft <= |buf|
    }

    /** The stream's bytes fell into a length, the substream's `body` and `rest`. */
    twostate predicate Split(new sub: IStream, body: seq<Byte>, rest: seq<Byte>)
      reads this, sub
    {
      && Open(sub) && sub.Input() == body
      && rest == buf[sub.state + sub.bytesLeft..sub.state + sub.bytesLeft + bytesLeft]
      && sub.state + sub.bytesLeft + bytesLeft == old(state + bytesLeft)
    }

    method MakeSubstream() returns (ok: bool, sub: IStream)
      requires Valid()
      modifies this
      ensures Within() && fresh(sub) && ok == M.Delimited(old(Input())).Ok?
      ensures ok ==> Split(sub, M.Delimited(old(Input())).value, M.Delimited(old(Input())).rest)
    {
      var size;
      ok, size := DecodeVarint32();
      if !ok || bytesLeft < size {
        sub := new IStream.Copy(this, 0);
        return false, sub;
      }
      ghost var rest := Input();
      Windows(buf, state, bytesLeft, size);
      assert M.Delimited(old(Input())) == Ok(rest[..size], rest[size..]);
      sub := new IStream.Copy(this, size);
      bytesLeft := bytesLeft - size;
      assert sub.Input() == rest[..size];
    }

    /** What the reader left of the substream is passed over. */
    method CloseSubstream(sub: IStream)
      requires Valid() && Open(sub)
      modifies this, sub
      ensures Valid() && bytesLeft == old(bytesLeft) && state == old(sub.state + sub.bytesLeft)
      ensures Input() == buf[state..state + bytesLeft]
    {
      if sub.bytesLeft != 0 {
        var _ := sub.Skip(sub.bytesLeft);
      }
      state := sub.state;
    }
  }
}
