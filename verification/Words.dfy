/** Unsigned machine words as natural numbers: powers of two, the C operators
    `&`, `|`, `~` and `ilog2`, each with the arithmetic facts the models use. */
module Words {
  import opened Wrappers

  function Pow2(k: nat): (r: nat)
    ensures r >= 1
  {
    if k == 0 then 1 else 2 * Pow2(k - 1)
  }

  /** The C operator `&` on unsigned words. */
  function BitAnd(x: nat, y: nat): nat
  {
    if x == 0 || y == 0 then 0
    else (if x % 2 == 1 && y % 2 == 1 then 1 else 0) + 2 * BitAnd(x / 2, y / 2)
  }

  /** The C operator `|` on unsigned words. */
  function BitOr(x: nat, y: nat): nat
  {
    if x == 0 && y == 0 then 0
    else (if x % 2 == 1 || y % 2 == 1 then 1 else 0) + 2 * BitOr(x / 2, y / 2)
  }

  /** The C operator `^` on unsigned words. */
  function BitXor(x: nat, y: nat): nat
  {
    if x == 0 && y == 0 then 0
    else (if (x % 2 == 1) != (y % 2 == 1) then 1 else 0) + 2 * BitXor(x / 2, y / 2)
  }

  /** The kernel's `ilog2`: the position of the most significant set bit. */
  function Ilog2(x: nat): (k: nat)
    requires x > 0
    ensures Pow2(k) <= x < Pow2(k + 1)
  {
    if x == 1 then assert Pow2(1) == 2 * Pow2(0); 0 else 1 + Ilog2(x / 2)
  }

  predicate Bit(x: nat, k: nat) {
    if k == 0 then x % 2 == 1 else Bit(x / 2, k - 1)
  }

  /** The C operator `>>`. */
  function Shr(x: nat, k: nat): nat {
    if k == 0 then x else Shr(x / 2, k - 1)
  }

  lemma DivDiv(x: nat, a: nat, b: nat)
    requires a > 0 && b > 0
    ensures a * b > 0 && x / a / b == x / (a * b)
  {
    assert a * b > 0 by { MulMono(1, a, b); }
    var q, s := x / a / b, x / a % b;
    assert x == x / a * a + x % a;
    assert x / a == q * b + s;
    assert x == (q * b + s) * a + x % a == q * (a * b) + (s * a + x % a) by {
      assert (q * b + s) * a == q * b * a + s * a;
      assert q * b * a == q * (a * b);
    }
    MulMono(s, b - 1, a);
    assert (b - 1) * a == b * a - a;
    QuotientIs(x, a * b, q, s * a + x % a);
  }

  lemma MulMono(x: int, y: int, z: nat)
    requires x <= y
    ensures x * z <= y * z
  {
  }

  lemma SmallMultiple(k: int, d: int, r: int)
    requires d > 0 && k * d == r && -d < r < d
    ensures k == 0
  {
    if k >= 1 { MulMono(1, k, d); }
    if k <= -1 { MulMono(k, -1, d); }
  }

  /** The quotient and the remainder are unique. */
  lemma QuotientIs(x: int, d: int, q: int, r: int)
    requires d > 0 && x == q * d + r && 0 <= r < d
    ensures x / d == q && x % d == r
  {
    var q', r' := x / d, x % d;
    assert x == d * q' + r' && d * q' == q' * d;
    assert (q' - q) * d == q' * d - q * d;
    SmallMultiple(q' - q, d, r - r');
  }

  lemma {:induction false} ShrIs(x: nat, k: nat)
    ensures Shr(x, k) == x / Pow2(k)
  {
    if k > 0 {
      ShrIs(x / 2, k - 1);
      DivDiv(x, 2, Pow2(k - 1));
    }
  }

  lemma {:induction false} ShrBits(x: nat, s: nat, k: nat)
    ensures Bit(Shr(x, s), k) == Bit(x, s + k)
  {
    if s > 0 { ShrBits(x / 2, s - 1, k); }
  }

  lemma BitIs(x: nat, k: nat)
    ensures Bit(x, k) <==> x / Pow2(k) % 2 == 1
  {
    ShrBits(x, k, 0);
    ShrIs(x, k);
  }

  lemma {:induction false} AndBits(x: nat, y: nat, k: nat)
    ensures Bit(BitAnd(x, y), k) <==> Bit(x, k) && Bit(y, k)
  {
    if x == 0 || y == 0 {
      ZeroBit(k);
    } else if k > 0 {
      AndBits(x / 2, y / 2, k - 1);
    }
  }

  lemma {:induction false} ZeroBit(k: nat)
    ensures !Bit(0, k)
  {
    if k > 0 { ZeroBit(k - 1); }
  }

  lemma {:induction false} OrBelow(x: nat, y: nat, w: nat)
    requires x < Pow2(w) && y < Pow2(w)
    ensures BitOr(x, y) < Pow2(w)
  {
    if w > 0 && (x != 0 || y != 0) {
      OrBelow(x / 2, y / 2, w - 1);
    }
  }

  lemma {:induction false} OrBits(x: nat, y: nat, k: nat)
    ensures Bit(BitOr(x, y), k) <==> Bit(x, k) || Bit(y, k)
  {
    if x == 0 && y == 0 {
      ZeroBit(k);
    } else if k > 0 {
      OrBits(x / 2, y / 2, k - 1);
    }
  }

  lemma {:induction false} AndBelow(x: nat, y: nat)
    ensures BitAnd(x, y) <= x
  {
    if x != 0 && y != 0 { AndBelow(x / 2, y / 2); }
  }

  lemma {:induction false} XorBelow(x: nat, y: nat, w: nat)
    requires x < Pow2(w) && y < Pow2(w)
    ensures BitXor(x, y) < Pow2(w)
    decreases w
  {
    if x != 0 || y != 0 { XorBelow(x / 2, y / 2, w - 1); }
  }

  lemma {:induction false} XorBits(x: nat, y: nat, k: nat)
    ensures Bit(BitXor(x, y), k) <==> Bit(x, k) != Bit(y, k)
    decreases k
  {
    if x == 0 && y == 0 {
      ZeroBit(k);
    } else if k > 0 {
      XorBits(x / 2, y / 2, k - 1);
    }
  }

  /** The bits of `~x` in a word of `w` bits. */
  lemma {:induction false} ComplementBits(x: nat, w: nat, k: nat)
    requires x < Pow2(w) && k < w
    ensures Bit(Pow2(w) - 1 - x, k) <==> !Bit(x, k)
  {
    if k > 0 {
      ComplementBits(x / 2, w - 1, k - 1);
      assert (Pow2(w) - 1 - x) / 2 == Pow2(w - 1) - 1 - x / 2;
    }
  }

  /** The bits of `-2^t` in a word of `w` bits. */
  lemma {:induction false} NegatedPowerBits(t: nat, w: nat, k: nat)
    requires t <= w && k < w
    ensures Pow2(t) <= Pow2(w) && (Bit(Pow2(w) - Pow2(t), k) <==> k >= t)
  {
    Pow2Mono(t, w);
    if t == 0 {
      ComplementBits(0, w, k);
      ZeroBit(k);
    } else if k > 0 {
      NegatedPowerBits(t - 1, w - 1, k - 1);
      assert (Pow2(w) - Pow2(t)) / 2 == Pow2(w - 1) - Pow2(t - 1);
    } else {
      assert Pow2(w) - Pow2(t) == 2 * (Pow2(w - 1) - Pow2(t - 1));
    }
  }

  lemma DoubleBits(x: nat, k: nat)
    ensures Bit(2 * x, k) <==> k > 0 && Bit(x, k - 1)
  {
    assert 2 * x / 2 == x;
  }

  /** A carry out of `w` bits leaves the bits below. */
  lemma {:induction false} CarryBits(y: nat, w: nat, k: nat)
    requires k < w
    ensures Bit(y + Pow2(w), k) == Bit(y, k)
  {
    if k > 0 {
      CarryBits(y / 2, w - 1, k - 1);
      assert (y + Pow2(w)) / 2 == y / 2 + Pow2(w - 1);
    } else {
      assert y + Pow2(w) == y + 2 * Pow2(w - 1);
    }
  }

  /** `ilog2` finds the highest set bit. */
  lemma {:induction false} HighestBit(x: nat, k: nat)
    requires x > 0
    ensures Bit(x, Ilog2(x)) && (k > Ilog2(x) ==> !Bit(x, k))
    decreases x
  {
    if x > 1 {
      HighestBit(x / 2, if k == 0 then 0 else k - 1);
    } else if k > 0 {
      ZeroBit(k - 1);
    }
  }

  /** The only bit of a power of two. */
  lemma {:induction false} PowerBit(j: nat, k: nat)
    ensures Bit(Pow2(j), k) <==> j == k
  {
    if j == 0 {
      if k > 0 { ZeroBit(k - 1); }
    } else if k > 0 {
      PowerBit(j - 1, k - 1);
    }
  }

  /** `y << k`. */
  function Shl(y: nat, k: nat): nat {
    if k == 0 then y else 2 * Shl(y, k - 1)
  }

  lemma {:induction false} ShlIs(y: nat, k: nat)
    ensures Shl(y, k) == Pow2(k) * y
  {
    if k > 0 {
      ShlIs(y, k - 1);
      DoubleProduct(Pow2(k - 1), y);
    }
  }

  /** Low zeros of a mask can be shifted out of both operands of `&`. */
  lemma {:induction false} AndShl(x: nat, y: nat, k: nat)
    ensures BitAnd(x, Shl(y, k)) == Shl(BitAnd(Shr(x, k), y), k)
  {
    if k > 0 {
      AndShl(x / 2, y, k - 1);
      AndDouble(x, Shl(y, k - 1));
    }
  }

  lemma AndDouble(x: nat, y: nat)
    ensures BitAnd(x, 2 * y) == 2 * BitAnd(x / 2, y)
  {
  }

  lemma HalfMod(x: nat, h: nat)
    requires h > 0
    ensures x % (2 * h) == 2 * (x / 2 % h) + x % 2
  {
    var q, r := x / 2 / h, x / 2 % h;
    assert x / 2 == h * q + r;
    assert q * (2 * h) == 2 * (h * q);
    QuotientIs(x, 2 * h, q, 2 * r + x % 2);
  }

  /** `x & (2^k - 1)` is the remainder modulo 2^k. */
  lemma {:induction false} AndMask(x: nat, k: nat)
    ensures BitAnd(x, Pow2(k) - 1) == x % Pow2(k)
  {
    if k == 0 {
    } else if x == 0 {
      QuotientIs(0, Pow2(k), 0, 0);
    } else {
      var h := Pow2(k - 1);
      AndMask(x / 2, k - 1);
      assert (Pow2(k) - 1) / 2 == h - 1;
      HalfMod(x, h);
    }
  }

  lemma {:induction false} AndComplement(x: nat, k: nat)
    requires x < Pow2(k)
    ensures BitAnd(x, Pow2(k) - 1 - x) == 0
  {
    if x != 0 && Pow2(k) - 1 - x != 0 {
      AndComplement(x / 2, k - 1);
      assert (Pow2(k) - 1 - x) / 2 == Pow2(k - 1) - 1 - x / 2;
    }
  }

  /** `x & -x` in a word of `w` bits is the largest power of two dividing `x`;
      the quotient is the odd part. */
  lemma {:induction false} LowBit(x: nat, w: nat) returns (t: nat, odd: nat)
    requires 0 < x < Pow2(w)
    ensures t < w && BitAnd(x, Pow2(w) - x) == Pow2(t)
    ensures x == Pow2(t) * odd && odd % 2 == 1
  {
    if x % 2 == 1 {
      t, odd := 0, x;
      OddLowBit(x, w);
    } else {
      var s;
      s, odd := LowBit(x / 2, w - 1);
      t := s + 1;
      EvenLowBit(x, w);
      DoubleProduct(Pow2(s), odd);
    }
  }

  lemma OddLowBit(x: nat, w: nat)
    requires 0 < x < Pow2(w) && x % 2 == 1
    ensures w > 0 && BitAnd(x, Pow2(w) - x) == 1
  {
    assert (Pow2(w) - x) / 2 == Pow2(w - 1) - 1 - x / 2;
    AndComplement(x / 2, w - 1);
  }

  lemma EvenLowBit(x: nat, w: nat)
    requires 0 < x < Pow2(w) && x % 2 == 0
    ensures w > 0 && x / 2 < Pow2(w - 1) && BitAnd(x, Pow2(w) - x) == 2 * BitAnd(x / 2, Pow2(w - 1) - x / 2)
  {
    assert (Pow2(w) - x) / 2 == Pow2(w - 1) - x / 2;
  }

  lemma DoubleProduct(x: nat, y: nat)
    ensures (2 * x) * y == 2 * (x * y)
  {
  }

  lemma {:induction false} Pow2Add(a: nat, b: nat)
    ensures Pow2(a + b) == Pow2(a) * Pow2(b)
  {
    if a > 0 {
      Pow2Add(a - 1, b);
      DoubleProduct(Pow2(a - 1), Pow2(b));
    }
  }

  lemma {:induction false} Pow2Mono(a: nat, b: nat)
    requires a <= b
    ensures Pow2(a) <= Pow2(b)
  {
    if a < b { Pow2Mono(a, b - 1); }
  }

  lemma Pow2Less(a: nat, b: nat)
    requires Pow2(a) < Pow2(b)
    ensures a < b
  {
    if b <= a { Pow2Mono(b, a); }
  }

  lemma Pow2Words()
    ensures Pow2(16) == 0x1_0000 && Pow2(31) == 0x8000_0000 && Pow2(32) == B32
    ensures Pow2(63) == 0x8000_0000_0000_0000 && Pow2(64) == B64
  {
    assert Pow2(8) == 0x100;
    Pow2Add(8, 8);
    Pow2Add(16, 15);
    assert Pow2(15) == 0x8000 by { Pow2Add(8, 7); assert Pow2(7) == 0x80; }
    Pow2Add(16, 16);
    Pow2Add(32, 31);
    Pow2Add(32, 32);
  }
}
