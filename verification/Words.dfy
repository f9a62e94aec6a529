/** C's operators on unsigned machine words, defined bit by bit on natural numbers.

    `Bit(m, k)` is bit k of m.  Each operator comes with the lemma that says what its bits are, and
    `SameBits` says that a word is determined by its bits. */
module Words {

  type Byte = b: int | 0 <= b < 256

  function Pow2(n: nat): (p: nat)
    ensures p > 0
  {
    if n == 0 then 1 else 2 * Pow2(n - 1)
  }

  function Pow256(n: nat): (p: nat)
    ensures p > 0
  {
    if n == 0 then 1 else 256 * Pow256(n - 1)
  }

  predicate Bit(m: nat, k: nat)
    decreases k
  {
    if k == 0 then m % 2 == 1 else Bit(m / 2, k - 1)
  }

  /** `a | b` */
  function Or(a: nat, b: nat): nat {
    if a == 0 then b else 2 * Or(a / 2, b / 2) + (if a % 2 == 1 || b % 2 == 1 then 1 else 0)
  }

  /** `a & b` */
  function And(a: nat, b: nat): nat {
    if a == 0 then 0 else 2 * And(a / 2, b / 2) + (if a % 2 == 1 && b % 2 == 1 then 1 else 0)
  }

  /** `~a` on a word of w bits */
  function Not(a: nat, w: nat): nat
    decreases w
  {
    if w == 0 then 0 else 2 * Not(a / 2, w - 1) + (1 - a % 2)
  }

  /** The low w bits of a: a conversion to a w-bit type. */
  function Trunc(a: nat, w: nat): nat
    decreases w
  {
    if w == 0 then 0 else 2 * Trunc(a / 2, w - 1) + a % 2
  }

  /** `a << s` before the result is cut to the width of its type */
  function Shl(a: nat, s: nat): nat {
    if s == 0 then a else 2 * Shl(a, s - 1)
  }

  /** `a >> s` */
  function Shr(a: nat, s: nat): nat
    decreases s
  {
    if s == 0 then a else Shr(a / 2, s - 1)
  }

  lemma {:induction false} BitOfZero(k: nat)
    ensures !Bit(0, k)
    decreases k
  {
    if k > 0 { BitOfZero(k - 1); }
  }

  lemma {:induction false} BitOfOr(a: nat, b: nat, k: nat)
    ensures Bit(Or(a, b), k) <==> Bit(a, k) || Bit(b, k)
    decreases k
  {
    if a == 0 {
      BitOfZero(k);
    } else if k > 0 {
      BitOfOr(a / 2, b / 2, k - 1);
    }
  }

  lemma {:induction false} BitOfAnd(a: nat, b: nat, k: nat)
    ensures Bit(And(a, b), k) <==> Bit(a, k) && Bit(b, k)
    decreases k
  {
    if a == 0 {
      BitOfZero(k);
    } else if k > 0 {
      BitOfAnd(a / 2, b / 2, k - 1);
    }
  }

  lemma {:induction false} BitOfNot(a: nat, w: nat, k: nat)
    ensures Bit(Not(a, w), k) <==> k < w && !Bit(a, k)
    decreases k
  {
    if w == 0 {
      BitOfZero(k);
    } else if k > 0 {
      BitOfNot(a / 2, w - 1, k - 1);
    }
  }

  lemma {:induction false} BitOfTrunc(a: nat, w: nat, k: nat)
    ensures Bit(Trunc(a, w), k) <==> k < w && Bit(a, k)
    decreases k
  {
    if w == 0 {
      BitOfZero(k);
    } else if k > 0 {
      BitOfTrunc(a / 2, w - 1, k - 1);
    }
  }

  lemma {:induction false} BitOfShl(a: nat, s: nat, k: nat)
    ensures Bit(Shl(a, s), k) <==> k >= s && Bit(a, k - s)
    decreases s
  {
    if s > 0 && k > 0 {
      BitOfShl(a, s - 1, k - 1);
    }
  }

  lemma {:induction false} BitOfShr(a: nat, s: nat, k: nat)
    ensures Bit(Shr(a, s), k) <==> Bit(a, k + s)
    decreases s
  {
    if s > 0 {
      BitOfShr(a / 2, s - 1, k);
    }
  }

  /** `1 << s` has bit s and no other. */
  lemma BitOfOne(s: nat, k: nat)
    ensures Bit(Shl(1, s), k) <==> k == s
  {
    BitOfShl(1, s, k);
    if k > s {
      BitOfZero(k - s - 1);
    }
  }

  lemma {:induction false} ShlPositive(a: nat, s: nat)
    ensures a > 0 ==> Shl(a, s) > 0
  {
    if s > 0 { ShlPositive(a, s - 1); }
  }

  /** `(1 << n) - 1` has exactly the bits below n. */
  lemma {:induction false} BitOfOnes(n: nat, k: nat)
    ensures Shl(1, n) > 0 && (Bit(Shl(1, n) - 1, k) <==> k < n)
    decreases k
  {
    ShlPositive(1, n);
    if n == 0 {
      BitOfZero(k);
    } else {
      ShlPositive(1, n - 1);
      var x, y := Shl(1, n - 1), Shl(1, n) - 1;
      assert y == 2 * (x - 1) + 1;
      assert y / 2 == x - 1 && y % 2 == 1;
      if k > 0 {
        BitOfOnes(n - 1, k - 1);
      }
    }
  }

  lemma {:induction false} TruncBound(a: nat, w: nat)
    ensures Trunc(a, w) < Pow2(w)
    decreases w
  {
    if w > 0 { TruncBound(a / 2, w - 1); }
  }

  lemma {:induction false} OrBound(a: nat, b: nat, w: nat)
    requires a < Pow2(w) && b < Pow2(w)
    ensures Or(a, b) < Pow2(w)
    decreases w
  {
    if a != 0 && w > 0 { OrBound(a / 2, b / 2, w - 1); }
  }

  lemma {:induction false} AndBound(a: nat, b: nat, w: nat)
    requires b < Pow2(w)
    ensures And(a, b) < Pow2(w)
    decreases w
  {
    if a != 0 {
      if w > 0 { AndBound(a / 2, b / 2, w - 1); } else { AndWithZero(a); }
    }
  }

  lemma {:induction false} AndWithZero(a: nat)
    ensures And(a, 0) == 0
  {
    if a != 0 { AndWithZero(a / 2); }
  }

  lemma {:induction false} ShlIsPow2(s: nat)
    ensures Shl(1, s) == Pow2(s)
  {
    if s > 0 { ShlIsPow2(s - 1); }
  }

  lemma {:induction false} Pow2Grows(m: nat, n: nat)
    requires m <= n
    ensures Pow2(m) <= Pow2(n)
    decreases n
  {
    if m < n { Pow2Grows(m, n - 1); }
  }

  /** Words of w bits with the same bits are equal. */
  lemma {:induction false} SameBits(a: nat, b: nat, w: nat)
    requires a < Pow2(w) && b < Pow2(w)
    requires forall k: nat :: k < w ==> (Bit(a, k) <==> Bit(b, k))
    ensures a == b
    decreases w
  {
    if w > 0 {
      assert Bit(a, 0) <==> Bit(b, 0);
      forall k: nat | k < w - 1 ensures Bit(a / 2, k) <==> Bit(b / 2, k) {
        assert Bit(a, k + 1) <==> Bit(b, k + 1);
      }
      SameBits(a / 2, b / 2, w - 1);
    }
  }

  /** A test `m & (1 << k)` asks for bit k. */
  lemma BitTest(m: nat, k: nat)
    ensures And(m, Shl(1, k)) != 0 <==> Bit(m, k)
  {
    var t := And(m, Shl(1, k));
    BitOfAnd(m, Shl(1, k), k);
    BitOfOne(k, k);
    if t == 0 {
      BitOfZero(k);
    } else if !Bit(m, k) {
      forall j: nat | j < t ensures Bit(t, j) <==> Bit(0, j) {
        BitOfAnd(m, Shl(1, k), j);
        BitOfOne(k, j);
        BitOfZero(j);
      }
      Pow2Exceeds(t);
      SameBits(t, 0, t);
    }
  }

  lemma {:induction false} Pow2Exceeds(n: nat)
    ensures n < Pow2(n)
  {
    if n > 0 { Pow2Exceeds(n - 1); }
  }

  // ---- byte strings ----

  /** Big-endian value of a byte string. */
  function BigEndian(s: seq<Byte>): nat {
    if s == [] then 0 else BigEndian(s[..|s| - 1]) * 256 + s[|s| - 1]
  }

  /** A sequence field is determined by its value: comparing values compares the wire bytes. */
  lemma {:induction false} BigEndianInjective(s: seq<Byte>, t: seq<Byte>)
    requires |s| == |t| && BigEndian(s) == BigEndian(t)
    ensures s == t
  {
    if s != [] {
      var n := |s| - 1;
      assert BigEndian(s) % 256 == s[n] && BigEndian(t) % 256 == t[n];
      BigEndianInjective(s[..n], t[..n]);
      assert s == s[..n] + [s[n]] && t == t[..n] + [t[n]];
    }
  }

  // ---- remainders ----

  lemma SmallMod(n: nat, m: nat)
    requires n < m
    ensures n % m == n
  {
  }

  lemma OneMoreTime(m: nat, q: nat)
    ensures m * (q + 1) == m * q + m
  {
  }

  lemma ModStep(n: nat, m: nat)
    requires m > 0
    ensures (n % m + 1) % m == (n + 1) % m
  {
    var q, r := n / m, n % m;
    if r + 1 == m {
      OneMoreTime(m, q);
      RemainderIs(n + 1, m, q + 1, 0);
      RemainderIs(m, m, 1, 0);
    } else {
      RemainderIs(n + 1, m, q, r + 1);
      SmallMod(r + 1, m);
    }
  }

  lemma RemainderIs(n: nat, m: nat, q: nat, r: nat)
    requires m > 0 && n == m * q + r && r < m
    ensures n % m == r
  {
    var d := n / m - q;
    assert m * d == r - n % m;
    assert d >= 1 ==> m * d >= m;
    assert d <= -1 ==> m * d <= m * -1;
  }
}
