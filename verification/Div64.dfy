/** `asm-generic/div64.h`, the 32-bit half: dividing a 64-bit word by a constant
    with one multiplication by a precomputed reciprocal. */
module Div64 {
  import opened Words
  import opened Wrappers

  function Lo(x: u64): u32 { x % B32 }

  function Hi(x: u64): u32 { x / B32 }

  function Wrap64(x: int): u64 { x % B64 }

  /** The C operator unary `-` on unsigned words. */
  function Neg32(x: u32): u32 { if x == 0 then 0 else B32 - x }

  function Neg64(x: u64): u64 { if x == 0 then 0 else B64 - x }

  /** Bits 63 and 31, the two that decide whether the cross product can carry. */
  const OVERFLOW_BITS: nat := 0x8000_0000_8000_0000

  /** The largest product of two 32-bit halves. */
  const COLUMN_MAX: nat := 0xffff_fffe_0000_0001

  lemma MulBound(x: int, xMax: int, y: int, yMax: int)
    requires 0 <= x <= xMax && 0 <= y <= yMax
    ensures 0 <= x * y <= xMax * yMax
  {
    MulMono(x, xMax, y);
    MulMono(y, yMax, xMax);
    assert 0 <= x * y by { MulMono(0, x, y); }
  }

  lemma SplitProduct(m: u64, n: u64)
    ensures m * n == Hi(m) * Hi(n) * B64 + (Lo(m) * Hi(n) + Hi(m) * Lo(n)) * B32 + Lo(m) * Lo(n)
  {
    var mh, ml, nh, nl := Hi(m), Lo(m), Hi(n), Lo(n);
    assert m == mh * B32 + ml && n == nh * B32 + nl;
    calc {
      m * n;
      (mh * B32 + ml) * n;
      mh * B32 * n + ml * n;
      { assert mh * B32 * n == mh * n * B32; }
      mh * n * B32 + ml * n;
      { assert mh * n == mh * (nh * B32) + mh * nl; assert ml * n == ml * (nh * B32) + ml * nl; }
      (mh * (nh * B32) + mh * nl) * B32 + ml * (nh * B32) + ml * nl;
      { assert mh * (nh * B32) == mh * nh * B32; assert ml * (nh * B32) == ml * nh * B32; }
      mh * nh * B64 + (ml * nh + mh * nl) * B32 + ml * nl;
    }
  }

  /** Dropping the low half after each column of the long multiplication loses nothing:
      the floor of the whole 128-bit sum divided by 2^64 remains. */
  lemma ColumnSum(c0: nat, cross: nat, high: nat)
    ensures (c0 / B32 + cross) / B32 + high == (c0 + cross * B32 + high * B64) / B64
  {
  }

  /** A column sum that exceeds 64 bits shows as a result below one of its
      addends; adding 2^32 back restores the shifted sum. */
  lemma CarryCaptured(x: u64, y: u64)
    ensures Wrap64(x + y) / B32 + (if Wrap64(x + y) < x then B32 else 0) == (x + y) / B32
  {
  }

  /** The mask is clear exactly when both halves are below 2^31. */
  lemma OverflowBitsClear(m: u64)
    ensures BitAnd(m, OVERFLOW_BITS) == 0 <==> Hi(m) < 0x8000_0000 && Lo(m) < 0x8000_0000
  {
    if BitAnd(m, OVERFLOW_BITS) == 0 {
      MaskedBitClear(m, OVERFLOW_BITS, 63, 0x8000_0000_0000_0000);
      MaskedBitClear(m, OVERFLOW_BITS, 31, 0x8000_0000);
      LowHalfBelow(m);
    }
    if Hi(m) < 0x8000_0000 && Lo(m) < 0x8000_0000 { MaskClear(m); }
  }

  lemma MaskClear(m: u64)
    requires Hi(m) < 0x8000_0000 && Lo(m) < 0x8000_0000
    ensures BitAnd(m, OVERFLOW_BITS) == 0
  {
    Pow2Words();
    var x := m / 0x8000_0000;
    ShlIs(0x1_0000_0001, 31);
    ShrIs(m, 31);
    AndShl(m, 0x1_0000_0001, 31);
    ShlIs(BitAnd(x, 0x1_0000_0001), 31);
    HalvesOf(m, x);
    ShlIs(1, 31);
    ShrIs(Hi(m), 31);
    AndShl(Hi(m), 1, 31);
    ShlIs(BitAnd(0, 1), 31);
    HighOnly(x);
  }

  lemma HalvesOf(m: u64, x: nat)
    requires Hi(m) < 0x8000_0000 && Lo(m) < 0x8000_0000 && x == m / 0x8000_0000
    ensures x % 2 == 0 && x / 2 == Hi(m) && Hi(m) / 0x8000_0000 == 0
  {
  }

  lemma HighOnly(x: nat)
    requires x % 2 == 0
    ensures BitAnd(x, 0x1_0000_0001) == 2 * BitAnd(x / 2, 0x8000_0000)
  {
  }

  lemma MaskedBitClear(m: nat, mask: nat, k: nat, bit: nat)
    requires BitAnd(m, mask) == 0 && (k == 63 || k == 31)
    requires bit == (if k == 63 then 0x8000_0000_0000_0000 else 0x8000_0000) && mask / bit % 2 == 1
    ensures m / bit % 2 == 0
  {
    Pow2Words();
    AndBits(m, mask, k);
    ZeroBit(k);
    BitIs(m, k);
    BitIs(mask, k);
  }

  lemma LowHalfBelow(m: u64)
    requires m / 0x8000_0000 % 2 == 0
    ensures Lo(m) < 0x8000_0000
  {
  }

  /** The first part of `__arch_xprod_64`: the low column, with `low` the product of
      the low halves, shifted down by 32. */
  method LowColumn(m: u64, low: u64, bias: bool) returns (res: u64)
    requires low <= Lo(m) * (B32 - 1)
    ensures res == ((if bias then m else 0) + low) / B32
    ensures res <= 0x1_ffff_fffe && (BitAnd(m, OVERFLOW_BITS) == 0 ==> res < B32)
  {
    OverflowBitsClear(m);
    if !bias {
      res := low / B32;
    } else if BitAnd(m, OVERFLOW_BITS) == 0 {
      res := Wrap64(m + low) / B32;
    } else {
      CarryCaptured(m, low);
      res := Wrap64(m + low);
      var tmp: u64 := if res < m then B32 else 0;
      res := res / B32 + tmp;
    }
  }

  /** The second part: both cross products added to `carryIn` and shifted down by 32. */
  method CrossColumn(m: u64, carryIn: u64, loHi: u64, hiLo: u64) returns (res: u64)
    requires carryIn <= 0x1_ffff_fffe && loHi <= COLUMN_MAX && hiLo <= COLUMN_MAX
    requires BitAnd(m, OVERFLOW_BITS) == 0 ==> carryIn < B32 && loHi <= COLUMN_MAX / 2 && hiLo <= COLUMN_MAX / 2
    ensures res == (carryIn + loHi + hiLo) / B32
  {
    res := carryIn;
    if BitAnd(m, OVERFLOW_BITS) == 0 {
      res := Wrap64(res + loHi);
      res := Wrap64(res + hiLo);
      res := res / B32;
    } else {
      res := Wrap64(res + loHi);
      var tmp := res;
      CarryCaptured(tmp, hiLo);
      res := Wrap64(res + hiLo);
      tmp := if res < tmp then B32 else 0;
      res := res / B32 + tmp;
    }
  }

  /** `(uint64_t)x * y` for two 32-bit words: no bit is lost. */
  function Mul32(x: u32, y: u32): (r: u64)
    ensures r <= COLUMN_MAX
  {
    MulBound(x, B32 - 1, y, B32 - 1);
    (x as int) * (y as int)
  }

  /** Adds up the columns of the product, keeping the upper half. */
  method SumColumns(m: u64, low: u64, loHi: u64, hiLo: u64, high: u64, bias: bool) returns (res: u64)
    requires low <= Lo(m) * (B32 - 1) && loHi <= COLUMN_MAX && hiLo <= COLUMN_MAX
    requires BitAnd(m, OVERFLOW_BITS) == 0 ==> loHi <= COLUMN_MAX / 2 && hiLo <= COLUMN_MAX / 2
    requires (((if bias then m else 0) + low) / B32 + loHi + hiLo) / B32 + high < B64
    ensures res == (((if bias then m else 0) + low) / B32 + loHi + hiLo) / B32 + high
  {
    res := LowColumn(m, low, bias);
    res := CrossColumn(m, res, loHi, hiLo);
    res := Wrap64(res + high);
  }

  /** `__arch_xprod_64`: the upper half of the 128-bit value `m * n`, plus `m` with bias. */
  method ArchXprod64(m: u64, n: u64, bias: bool) returns (res: u64)
    ensures res == ((if bias then m else 0) + m * n) / B64
  {
    var mLo, mHi, nLo, nHi := Lo(m), Hi(m), Lo(n), Hi(n);
    ColumnBounds(m, n);
    ColumnsMakeProduct(m, n, bias);
    res := SumColumns(m, Mul32(mLo, nLo), Mul32(mLo, nHi), Mul32(mHi, nLo), Mul32(mHi, nHi), bias);
  }

  lemma ColumnBounds(m: u64, n: u64)
    ensures Mul32(Lo(m), Lo(n)) <= Lo(m) * (B32 - 1)
    ensures BitAnd(m, OVERFLOW_BITS) == 0 ==>
              Mul32(Lo(m), Hi(n)) <= COLUMN_MAX / 2 && Mul32(Hi(m), Lo(n)) <= COLUMN_MAX / 2
  {
    MulBound(Lo(m), Lo(m), Lo(n), B32 - 1);
    if BitAnd(m, OVERFLOW_BITS) == 0 {
      OverflowBitsClear(m);
      MulBound(Lo(m), 0x7fff_ffff, Hi(n), B32 - 1);
      MulBound(Hi(m), 0x7fff_ffff, Lo(n), B32 - 1);
    }
  }

  lemma ColumnsMakeProduct(m: u64, n: u64, bias: bool)
    ensures var add := if bias then m else 0;
            (((add + Mul32(Lo(m), Lo(n))) / B32 + Mul32(Lo(m), Hi(n)) + Mul32(Hi(m), Lo(n))) / B32
              + Mul32(Hi(m), Hi(n)) == (add + m * n) / B64) && 0 <= (add + m * n) / B64 < B64
  {
    var add := if bias then m else 0;
    ColumnSum(add + Mul32(Lo(m), Lo(n)), Mul32(Lo(m), Hi(n)) + Mul32(Hi(m), Lo(n)), Mul32(Hi(m), Hi(n)));
    SplitProduct(m, n);
    ProductFits(m, n, bias);
  }

  /** The same without a bias. */
  lemma ColumnsMakePlainProduct(m: u64, n: u64, high: nat)
    requires high == (Mul32(Lo(m), Lo(n)) / B32 + Mul32(Lo(m), Hi(n)) + Mul32(Hi(m), Lo(n))) / B32 + Mul32(Hi(m), Hi(n))
    ensures high == m * n / B64 && high < B64
  {
    ColumnsMakeProduct(m, n, false);
  }

  lemma ProductFits(m: u64, n: u64, bias: bool)
    ensures 0 <= ((if bias then m else 0) + m * n) / B64 < B64
  {
    MulBound(m, B64 - 1, n, B64 - 1);
  }

  // ----- The reciprocal: how far the rounded multiplier is from (p << 64) / b -----

  /** `~0ULL / b` and `~0ULL % b + 1`, so that 2^64 == Quot(b) * b + Rem(b). */
  function Quot(b: u32): u64 requires b > 0 { (B64 - 1) / b }

  function Rem(b: u32): nat requires b > 0 { (B64 - 1) % b + 1 }

  function Scale(b: u32): nat requires b > 0 { Pow2(Ilog2(b)) }

  lemma QuotRem(b: u32)
    requires b > 0
    ensures B64 == Quot(b) * b + Rem(b) && 1 <= Rem(b) <= b
    ensures 1 <= Quot(b) && 1 <= Quot(b) * b
  {
    assert B64 - 1 == b * ((B64 - 1) / b) + (B64 - 1) % b;
    assert b * Quot(b) == Quot(b) * b;
    MulMono(1, Quot(b), b);
  }

  lemma ScaleBounds(b: u32)
    requires b > 0
    ensures 1 <= Scale(b) <= b < 2 * Scale(b) && Scale(b) <= 0x8000_0000 && Ilog2(b) <= 31
  {
    Pow2Words();
    if Ilog2(b) > 31 { Pow2Mono(32, Ilog2(b)); }
    Pow2Mono(Ilog2(b), 31);
  }

  /** The multiplier rounded down and rounded up. */
  function FloorMagic(b: u32): nat requires b > 0 { Scale(b) * B64 / b }

  function CeilMagic(b: u32): nat requires b > 0 { (Scale(b) * B64 + b - 1) / b }

  /** Splitting 2^64 keeps both roundings exact although (p << 64) does not fit a word. */
  lemma MagicFromParts(b: u32)
    requires b > 0
    ensures var p := Scale(b);
            Quot(b) * p + (Rem(b) * p + b - 1) / b == CeilMagic(b) &&
            Quot(b) * p + Rem(b) * p / b == FloorMagic(b)
  {
    QuotRem(b);
    DivideParts(Scale(b), Quot(b), Rem(b), b);
  }

  lemma DivideParts(p: nat, q: nat, r: nat, b: nat)
    requires b > 0 && B64 == q * b + r
    ensures q * p + (r * p + b - 1) / b == (p * B64 + b - 1) / b
    ensures q * p + r * p / b == p * B64 / b
  {
    ScaledParts(p, q, r, b);
    AddMultiple(r * p, q * p, b);
    AddMultiple(r * p + b - 1, q * p, b);
  }

  lemma ScaledParts(p: nat, q: nat, r: nat, b: nat)
    requires B64 == q * b + r
    ensures p * B64 == q * p * b + r * p
  {
    Distribute(p, q * b, r);
    MulAssoc(p, q, b);
    Distribute(p, q, 0);
    Distribute(p, r, 0);
  }

  lemma AddMultiple(x: nat, k: nat, d: nat)
    requires d > 0
    ensures (k * d + x) / d == k + x / d
  {
    var q, r := x / d, x % d;
    assert x == d * q + r && d * q == q * d;
    assert (k + q) * d == k * d + q * d;
    QuotientIs(k * d + x, d, k + q, r);
  }

  /** What the computation of the multiplier needs of its intermediate words. */
  lemma MagicFits(b: u32)
    requires b > 0
    ensures var p := Scale(b); 0 <= Quot(b) * p < B64 && 0 <= Rem(b) * p && Rem(b) * p + b - 1 < B64
  {
    QuotRem(b);
    ScaleBounds(b);
    MulBound(Scale(b), b, Quot(b), Quot(b));
    assert Scale(b) * Quot(b) == Quot(b) * Scale(b) && b * Quot(b) == Quot(b) * b;
    MulBound(Rem(b), B32, Scale(b), 0x8000_0000);
  }

  lemma {:induction false} OddFactorOfPow2(a: nat, o: nat, j: nat)
    requires a * o == Pow2(j) && o % 2 == 1
    ensures o == 1
  {
    if j == 0 {
      if o > 1 { if a > 0 { MulMono(1, a, o); } }
    } else {
      OddTimesOdd(a, o);
      assert a == 2 * (a / 2);
      assert 2 * (a / 2 * o) == 2 * (a / 2) * o;
      OddFactorOfPow2(a / 2, o, j - 1);
    }
  }

  lemma OddTimesOdd(a: nat, o: nat)
    requires o % 2 == 1
    ensures a * o % 2 == a % 2
  {
    var h := o / 2;
    assert a * o == 2 * (a * h) + a by { assert a * (2 * h + 1) == 2 * (a * h) + a; }
  }

  /** The odd part of the divisor, `b / (b & -b)`. */
  function OddPart(b: u32): nat
    requires b > 0
  {
    var low := BitAnd(b, B32 - b);
    if low == 0 then 0 else b / low
  }

  lemma OddPartIs(b: u32) returns (t: nat)
    requires b > 0
    ensures BitAnd(b, B32 - b) == Pow2(t) && b == Pow2(t) * OddPart(b) && OddPart(b) % 2 == 1
  {
    Pow2Words();
    var odd;
    t, odd := LowBit(b, 32);
    Distribute(odd, Pow2(t), 0);
    QuotientIs(b, Pow2(t), odd, 0);
  }

  lemma DivExact(x: nat, d: nat)
    requires d > 0 && x % d == 0
    ensures x == d * (x / d)
  {
  }

  /** A power of two is no multiple of a number with an odd factor above one. */
  lemma OddPartBlocksPow2(b: u32, k: nat, j: nat)
    requires b > 0 && OddPart(b) != 1
    ensures k * b != Pow2(j)
  {
    var t := OddPartIs(b);
    var o := OddPart(b);
    if k * b == Pow2(j) {
      MulAssoc(k, Pow2(t), o);
      OddFactorOfPow2(k * Pow2(t), o, j);
    }
  }

  lemma ScaleBelow(b: u32)
    requires b > 0 && OddPart(b) != 1
    ensures Scale(b) < b
  {
    ScaleBounds(b);
    OddPartBlocksPow2(b, 1, Ilog2(b));
  }

  /** Unless `b` is a power of two, (p << 64) is no multiple of it. */
  lemma NotMultiple(b: u32, m: nat)
    requires b > 0 && OddPart(b) != 1
    ensures m * b != Scale(b) * B64
  {
    Pow2Words();
    Pow2Add(Ilog2(b), 64);
    OddPartBlocksPow2(b, m, Ilog2(b) + 64);
  }

  lemma RemBelowDivisor(b: u32)
    requires b > 0 && OddPart(b) != 1
    ensures Rem(b) < b
  {
    QuotRem(b);
    Pow2Words();
    Distribute(b, Quot(b), 1);
    OddPartBlocksPow2(b, Quot(b) + 1, 64);
  }

  lemma MulAssoc(x: int, y: int, z: int)
    ensures x * y * z == x * (y * z)
  {
  }

  lemma Distribute(x: int, y: int, z: int)
    ensures x * (y + z) == x * y + x * z
    ensures (y + z) * x == x * y + x * z
    ensures x * y == y * x
  {
  }

  ghost predicate Rounding(b: u32, up: nat, r: nat, down: nat, e: nat) {
    && b > 0
    && up * b == Scale(b) * B64 + r
    && down * b + e == Scale(b) * B64
    && 0 < r && 0 < e && r + e == b
    && up == down + 1 && up < B64
    && Scale(b) < b < 2 * Scale(b)
  }

  lemma Roundings(b: u32) returns (r: nat, e: nat)
    requires b > 0 && OddPart(b) != 1
    ensures Rounding(b, CeilMagic(b), r, FloorMagic(b), e)
  {
    ScaleBounds(b);
    ScaleBelow(b);
    NotMultiple(b, FloorMagic(b));
    e := Scale(b) * B64 % b;
    RoundBoth(Scale(b) * B64, b, e);
    r := b - e;
    if CeilMagic(b) >= B64 { MulMono(B64, CeilMagic(b), b); }
  }

  lemma RoundBoth(num: nat, b: nat, e: nat)
    requires b > 0 && e == num % b && num / b * b != num
    ensures e > 0 && num / b * b + e == num
    ensures (num + b - 1) / b == num / b + 1
    ensures (num + b - 1) / b * b == num + (b - e)
  {
    var d := num / b;
    assert num == b * d + e;
    Distribute(b, d, 1);
    QuotientIs(num + b - 1, b, d + 1, e - 1);
  }

  // ----- One dividend decides the bias for all -----

  /** The dividend the macro tests: one less than the largest multiple of `b` below 2^64. */
  function TestDividend(b: u32): int requires b > 0 { Quot(b) * b - 1 }

  /** Multiplying the dividend q * b + s by a multiplier whose error is `r`. */
  lemma ScaledProduct(m: int, b: int, num: int, r: int, q: int, s: int)
    requires m * b == num + r
    ensures m * (q * b + s) == q * num + q * r + m * s
  {
    Distribute(m, q * b, s);
    calc {
      m * (q * b);
      { MulAssoc(m, q, b); assert m * q == q * m; }
      q * m * b;
      { MulAssoc(q, m, b); }
      q * (num + r);
      { Distribute(q, num, r); }
      q * num + q * r;
    }
  }

  lemma TestOutcome(b: u32, m: nat, r: nat)
    requires b > 0 && m * b == Scale(b) * B64 + r && 1 <= m <= B64
    ensures 0 <= TestDividend(b) < B64 && TestDividend(b) / b == Quot(b) - 1
    ensures m * TestDividend(b) / (Scale(b) * B64) == TestDividend(b) / b <==> Quot(b) * r < m
  {
    QuotRem(b);
    ScaleBounds(b);
    Distribute(b, Quot(b), -1);
    QuotientIs(TestDividend(b), b, Quot(b) - 1, b - 1);
    ScaledProduct(m, b, Scale(b) * B64, r, Quot(b), -1);
    MulMono(0, Quot(b), r);
    QuotientAround(Scale(b) * B64, Quot(b), Quot(b) * r - m);
  }

  lemma QuotientAround(num: nat, q: int, rest: int)
    requires num > 0 && 0 <= num + rest
    ensures (q * num + rest) / num == q - 1 <==> rest < 0
  {
    if rest < 0 {
      Distribute(num, q, -1);
      QuotientIs(q * num + rest, num, q - 1, num + rest);
    } else {
      var x := q * num + rest;
      Distribute(num, q, rest / num);
      assert rest == num * (rest / num) + rest % num;
      QuotientIs(x, num, q + rest / num, rest % num);
    }
  }

  /** Without a bias the multiplier rounded up is exact for every dividend once the
      test dividend passes. */
  lemma UnbiasedExact(b: u32, m: nat, r: nat, n: u64)
    requires 0 < r < b && OddPart(b) != 1 && m * b == Scale(b) * B64 + r && Quot(b) * r < m
    ensures m * n / (Scale(b) * B64) == n / b
  {
    QuotRem(b);
    RemBelowDivisor(b);
    var q, s := DivSplit(n, b);
    UnbiasedQuotient(b, m, r, Scale(b) * B64, Quot(b), Rem(b), q, s);
  }

  lemma DivSplit(n: nat, b: nat) returns (q: nat, s: nat)
    requires b > 0
    ensures q == n / b && n == q * b + s && s == n % b && s < b
  {
    q, s := n / b, n % b;
    assert n == b * q + s;
    Distribute(b, q, 0);
  }

  lemma UnbiasedQuotient(b: nat, m: nat, r: nat, num: nat, last: nat, rem: nat, q: nat, s: nat)
    requires 0 < r < b && m * b == num + r && last * r < m && 1 <= last && num > 0
    requires rem < b && s < b && q * b + s < last * b + rem
    ensures m * (q * b + s) / num == q
  {
    ScaledProduct(m, b, num, r, q, s);
    UnbiasedError(b, m, r, num, last, rem, q, s);
    QuotientIs(m * (q * b + s), num, q, q * r + m * s);
  }

  lemma UnbiasedError(b: nat, m: nat, r: nat, num: nat, last: nat, rem: nat, q: nat, s: nat)
    requires 0 < r < b && m * b == num + r && last * r < m && 1 <= last
    requires rem < b && s < b && q * b + s < last * b + rem
    ensures 0 <= q * r + m * s < num
  {
    MulMono(0, q, r);
    MulMono(0, s, m);
    if q > last { MulMono(last + 1, q, b); Distribute(b, last, 1); }
    if q == last {
      MulMono(s, b - 2, m);
      Distribute(m, b, -2);
      Distribute(m, s, 0);
      MulMono(1, last, r);
    } else {
      MulMono(q, last - 1, r);
      Distribute(r, last, -1);
      MulMono(s, b - 1, m);
      Distribute(m, b, -1);
      Distribute(m, s, 0);
    }
  }

  /** With a bias the multiplier rounded down is exact for every dividend, as
      long as its error does not exceed the scale. */
  lemma BiasedExact(b: u32, m: nat, e: nat, n: u64)
    requires 0 < e < b && e <= Scale(b) && m * b + e == Scale(b) * B64
    ensures (m + m * n) / (Scale(b) * B64) == n / b
  {
    var q, s := DivSplit(n, b);
    BiasedQuotient(b, m, e, Scale(b) * B64, q, s);
  }

  lemma BiasedQuotient(b: nat, m: nat, e: int, num: nat, q: nat, s: nat)
    requires 0 < e < b && s < b && q * b + s <= B64 - 1 && e * B64 <= num && m * b + e == num
    ensures (m + m * (q * b + s)) / num == q
  {
    ScaledProduct(m, b, num, -e, q, s);
    BiasedError(b, m, e, num, q, s);
    Distribute(m, s, 1);
    QuotientIs(m + m * (q * b + s), num, q, m * (s + 1) - q * e);
  }

  lemma BiasedError(b: nat, m: nat, e: int, num: nat, q: nat, s: nat)
    requires 0 < e < b && s < b && q * b <= B64 - 1 && e * B64 <= num && m * b + e == num
    ensures q * (-e) == -(q * e) && 0 <= m * (s + 1) - q * e < num
  {
    MulMono(0, q, e);
    MulMono(s + 1, b, m);
    Distribute(m, s + 1, 0);
    Distribute(m, b, 0);
    MulMono(1, s + 1, m);
    BiasCoversError(b, m, e, q);
  }

  lemma BiasCoversError(b: nat, m: nat, e: nat, q: nat)
    requires 0 < b && 0 < e && q * b <= B64 - 1 && e * B64 <= m * b + e
    ensures q * e <= m
  {
    if q * e > m {
      MulMono(m + 1, q * e, b);
      Distribute(b, m, 1);
      MulAssoc(q, e, b);
      MulAssoc(q, b, e);
      Distribute(b, e, 0);
      MulMono(q * b, B64 - 1, e);
    }
  }

  /** When the odd part divides 2^64 - 1 the quotient of the two is an exact biased reciprocal. */
  lemma MersenneExact(o: nat, m: nat, n: u64)
    requires o > 0 && m * o == B64 - 1
    ensures (m + m * n) / B64 == n / o
  {
    var q, s := n / o, n % o;
    assert n == o * q + s;
    Distribute(o, q, 0);
    ScaledProduct(m, o, B64, -1, q, s);
    Distribute(m, s, 1);
    Distribute(m, o, 0);
    MulMono(s + 1, o, m);
    MulMono(1, s + 1, m);
    NoLarger(q, m, o);
    QuotientIs(m + m * n, B64, q, m * (s + 1) - q);
  }

  lemma NoLarger(q: nat, m: nat, o: nat)
    requires q * o <= m * o && o > 0
    ensures q <= m
  {
    if q > m { MulMono(m + 1, q, o); Distribute(o, m, 1); }
  }

  /** The macro's single test dividend decides for all 2^64 dividends whether the
      multiplier rounded up needs no bias. */
  lemma OneTestDecides(b: u32)
    requires b > 0 && OddPart(b) != 1
    ensures 0 <= TestDividend(b) < B64
    ensures CeilMagic(b) * TestDividend(b) / (Scale(b) * B64) == TestDividend(b) / b
       <==> forall n: u64 :: CeilMagic(b) * n / (Scale(b) * B64) == n / b
  {
    var r, e := Roundings(b);
    var m := CeilMagic(b);
    TestOutcome(b, m, r);
    if Quot(b) * r < m {
      forall n: u64 ensures m * n / (Scale(b) * B64) == n / b {
        UnbiasedExact(b, m, r, n);
      }
    } else {
      var x: u64 := TestDividend(b);
      assert m * x / (Scale(b) * B64) != x / b;
    }
  }

  /** Where the test fails, the multiplier rounded down with a bias is exact for all dividends. */
  lemma BiasRescues(b: u32, n: u64)
    requires b > 0 && OddPart(b) != 1
    requires CeilMagic(b) * TestDividend(b) / (Scale(b) * B64) != TestDividend(b) / b
    ensures (FloorMagic(b) + FloorMagic(b) * n) / (Scale(b) * B64) == n / b
  {
    var r, e := Roundings(b);
    TestOutcome(b, CeilMagic(b), r);
    QuotRem(b);
    LargeError(b, CeilMagic(b), r, Scale(b), Quot(b));
    BiasedExact(b, FloorMagic(b), e, n);
  }

  lemma LargeError(b: nat, m: nat, r: nat, p: nat, last: nat)
    requires m * b == p * B64 + r && 0 < r && m <= last * r && last * b <= B64 - 1
    ensures p < r
  {
    MulMono(m, last * r, b);
    MulAssoc(last, r, b);
    MulAssoc(last, b, r);
    Distribute(r, b, 0);
    MulMono(last * b, B64 - 1, r);
  }

  lemma {:induction false} AndAtMost(x: nat, y: nat)
    ensures BitAnd(x, y) <= x
  {
    if x != 0 && y != 0 { AndAtMost(x / 2, y / 2); }
  }

  // ----- Clearing a common power of two -----

  /** The lowest set bit of the rounded-up multiplier always divides the scale: it
      divides the error, which is below twice the scale. */
  lemma MagicLowBit(b: u32) returns (t: nat, odd: nat)
    requires b > 0 && OddPart(b) != 1
    ensures 0 < CeilMagic(b) < B64 && t <= Ilog2(b) && t <= 31
    ensures BitAnd(CeilMagic(b), Neg64(CeilMagic(b))) == Pow2(t)
    ensures CeilMagic(b) == Pow2(t) * odd && odd % 2 == 1
  {
    var m := CeilMagic(b);
    var r, e := Roundings(b);
    assert m > 0;
    Pow2Words();
    ScaleBounds(b);
    t, odd := LowBit(m, 64);
    LowBitDividesError(m, odd, t, b, Scale(b), r);
    LogBelow(t, b);
  }

  lemma LowBitDividesError(m: nat, m': nat, t: nat, b: nat, p: nat, r: nat)
    requires m == Pow2(t) * m' && t < 64 && m * b == p * B64 + r && r > 0
    ensures Pow2(t) <= r
  {
    Pow2Words();
    Pow2Add(t, 64 - t);
    CommonFactor(Pow2(t), m', b, p, Pow2(64 - t), r);
  }

  lemma LogBelow(t: nat, b: u32)
    requires 0 < b && Pow2(t) < b
    ensures t <= Ilog2(b)
  {
    Pow2Less(t, Ilog2(b) + 1);
  }

  lemma CommonFactor(f: nat, m: nat, b: nat, p: nat, g: nat, r: nat)
    requires f * g == B64 && f * m * b == p * B64 + r && r > 0
    ensures f <= r
  {
    MulAssoc(f, m, b);
    MulAssoc(p, f, g);
    MulAssoc(f, p, g);
    Distribute(p, f, 0);
    Distribute(f, m * b, -(p * g));
    var k := m * b - p * g;
    assert f * k == r by { NegateRight(f, p * g); }
    if k < 1 { MulMono(k, 0, f); Distribute(f, k, 0); }
    MulMono(1, k, f);
    Distribute(f, k, 0);
  }

  lemma NegateRight(x: int, y: int)
    ensures x * (-y) == -(x * y)
  {
  }

  /** `___bits` of the macro, from the low set bit and the high word of the multiplier. */
  function ReductionBits(low: u64, hi: u32): u32 {
    var bits := BitOr(Neg32(Wrap32(low)), hi);
    Wrap32(2 * (B32 - 1 - Wrap32(bits)))
  }

  /** The factor both multiplier and scale are divided by. */
  function CommonReduction(m: u64): nat {
    var low := BitAnd(m, Neg64(m));
    if low >= B64 then 1
    else
      var bits := ReductionBits(low, Hi(m));
      if bits == 0 then low else Pow2(Ilog2(bits))
  }

  lemma ReductionBitsAre(c: u64, hi: u32, bits: nat)
    requires 1 <= c <= 0x8000_0000 && bits == BitOr(B32 - c, hi) < B32
    ensures ReductionBits(c, hi) == 2 * (B32 - 1 - bits) % B32
  {
    assert Neg32(Wrap32(c)) == B32 - c;
  }

  lemma OrBounds(x: u32, y: u32)
    ensures BitOr(x, y) < B32
  {
    Pow2Words();
    OrBelow(x, y, 32);
  }

  lemma DoubledBit(x: nat, y: nat, w: nat, s: nat)
    requires s < w && (2 * x == y || 2 * x == y + Pow2(w))
    ensures Bit(y, s) <==> s > 0 && Bit(x, s - 1)
  {
    DoubleBits(x, s);
    CarryBits(y, w, s);
  }

  lemma WrappedDouble(x: u32, y: u32)
    requires y == 2 * x % B32
    ensures 2 * x == y || 2 * x == y + Pow2(32)
  {
    Pow2Words();
  }

  lemma ShiftedUp(x: u32, y: u32, s: nat)
    requires y == 2 * x % B32 && s < 32
    ensures Bit(y, s) <==> s > 0 && Bit(x, s - 1)
  {
    WrappedDouble(x, y);
    DoubledBit(x, y, 32, s);
  }

  lemma Flipped(bits: u32, k: nat)
    requires k < 32
    ensures Bit(B32 - 1 - bits, k) <==> !Bit(bits, k)
  {
    Pow2Words();
    ComplementBits(bits, 32, k);
  }

  /** Bit `s` says that shifting by `s` drops no set bit, and brings a clear bit to place 31; here
      for the low set bit `c`. */
  lemma ReductionBitOf(c: u64, t: nat, hi: u32, s: nat)
    requires 1 <= c <= 0x8000_0000 && c == Pow2(t) && t <= 31 && s < 32
    ensures Bit(ReductionBits(c, hi), s) <==> 1 <= s <= t && !Bit(hi, s - 1)
  {
    OrBounds(B32 - c, hi);
    var bits := BitOr(B32 - c, hi);
    ReductionBitsAre(c, hi, bits);
    ShiftedUp(B32 - 1 - bits, ReductionBits(c, hi), s);
    if s > 0 {
      Flipped(bits, s - 1);
      OrBits(B32 - c, hi, s - 1);
      NegatedBit(c, t, s - 1);
    }
  }

  lemma NegatedBit(c: nat, t: nat, k: nat)
    requires c <= B32 && c == Pow2(t) && t <= 31 && k < 32
    ensures Bit(B32 - c, k) <==> k >= t
  {
    Pow2Words();
    NegatedPowerBits(t, 32, k);
  }

  lemma ReductionBitIs(t: nat, hi: u32, s: nat)
    requires t <= 31 && s < 32
    ensures Pow2(t) < B64 && (Bit(ReductionBits(Pow2(t), hi), s) <==> 1 <= s <= t && !Bit(hi, s - 1))
  {
    Pow2Words();
    Pow2Mono(t, 31);
    ReductionBitOf(Pow2(t), t, hi, s);
  }

  /** Bit 31 of the multiplier shifted down by `s`. */
  predicate ClearsBit31(m: nat, s: nat) { !Bit(Shr(m, s), 31) }

  lemma ShiftedBit31(m: u64, s: nat)
    requires 1 <= s <= 32
    ensures ClearsBit31(m, s) <==> !Bit(Hi(m), s - 1)
  {
    Pow2Words();
    ShrIs(m, 32);
    ShrBits(m, s, 31);
    ShrBits(m, 32, s - 1);
  }

  /** `j` is the largest of the shifts 1 to `t` that leave bit 31 clear, or `t` if none does. */
  predicate BestShift(m: nat, t: nat, j: nat) {
    && j <= t && (forall s | j < s <= t :: !ClearsBit31(m, s))
    && ((1 <= j && ClearsBit31(m, j)) || (j == t && forall s | 1 <= s <= t :: !ClearsBit31(m, s)))
  }

  /** The shift the macro picks, for a multiplier with `t` zeros below its lowest set bit. */
  lemma ReductionShift(m: u64, t: nat) returns (j: nat)
    requires BitAnd(m, Neg64(m)) == Pow2(t) && t <= 31
    ensures CommonReduction(m) == Pow2(j) && BestShift(m, t, j)
  {
    Pow2Words();
    Pow2Mono(t, 31);
    var bits := ReductionBits(Pow2(t), Hi(m));
    forall s | 1 <= s <= t ensures Bit(bits, s) <==> ClearsBit31(m, s) {
      ReductionBitIs(t, Hi(m), s);
      ShiftedBit31(m, s);
    }
    if bits == 0 {
      j := t;
      forall s | 1 <= s <= t ensures !ClearsBit31(m, s) { ZeroBit(s); }
    } else {
      j := Ilog2(bits);
      BelowWord(bits);
      HighestBit(bits, j);
      ReductionBitIs(t, Hi(m), j);
      forall s | j < s <= t ensures !ClearsBit31(m, s) { HighestBit(bits, s); }
    }
  }

  lemma BelowWord(x: u32)
    requires x > 0
    ensures Ilog2(x) < 32
  {
    Pow2Words();
    Pow2Less(Ilog2(x), 32);
  }

  lemma MagicOf75()
    ensures Ilog2(75) == 6 && CeilMagic(75) == 0xda74_0da7_40da_740e
  {
    assert Pow2(6) == 64;
    Pow2Less(Ilog2(75), 7);
    Pow2Less(6, Ilog2(75) + 1);
  }

  lemma LowBitTwo(m: u64)
    requires m % 4 == 2
    ensures BitAnd(m, Neg64(m)) == 2
  {
    var q := m / 4;
    QuarterZero(q);
    HalvesTwo(q, 0x3fff_ffff_ffff_ffff - q);
  }

  lemma QuarterZero(q: nat)
    requires q < 0x4000_0000_0000_0000
    ensures BitAnd(q, 0x3fff_ffff_ffff_ffff - q) == 0
  {
    Pow2Words();
    assert Pow2(62) == 0x4000_0000_0000_0000;
    AndComplement(q, 62);
  }

  lemma HalvesTwo(q: nat, k: nat)
    requires BitAnd(q, k) == 0
    ensures BitAnd(4 * q + 2, 4 * k + 2) == 2
  {
    assert (4 * q + 2) / 2 == 2 * q + 1 && (4 * k + 2) / 2 == 2 * k + 1;
    assert (2 * q + 1) / 2 == q && (2 * k + 1) / 2 == k;
    assert BitAnd(2 * q + 1, 2 * k + 1) == 1 + 2 * BitAnd(q, k);
  }

  lemma Bits31Of75(m: u64)
    requires m == 0xda74_0da7_40da_740e
    ensures !Bit(m, 31) && !ClearsBit31(m, 1)
  {
    Pow2Words();
    BitIs(m, 31);
    BitIs(m / 2, 31);
    assert Shr(m, 1) == m / 2;
    assert m / 0x8000_0000 % 2 == 0 && m / 2 / 0x8000_0000 % 2 == 1;
  }

  lemma OddPartOf75()
    ensures OddPart(75) == 75
  {
    var t := OddPartIs(75);
    if t > 0 { MulAssoc(2, Pow2(t - 1), OddPart(75)); }
  }

  lemma NotMersenne75()
    ensures (B64 - 1) % 75 == 15
  {
  }

  lemma TestOf75(m: nat)
    requires m == 0xda74_0da7_40da_740e && Scale(75) == 64
    ensures m * TestDividend(75) / B64 / Scale(75) == TestDividend(75) / 75
  {
    TestOutcome(75, m, 26);
    DivDiv(m * TestDividend(75), B64, Scale(75));
  }

  /** b = 75 is not a special case and passes the macro's test, so its multiplier is reduced. No
      shift leaves bit 31 clear, and the macro shifts by one although bit 31 of the multiplier was
      clear before: then it is set. */
  lemma ReductionSetsBit31()
    ensures OddPart(75) == 75 && (B64 - 1) % OddPart(75) != 0
    ensures CeilMagic(75) * TestDividend(75) / B64 / Scale(75) == TestDividend(75) / 75
    ensures !Bit(CeilMagic(75), 31) && CommonReduction(CeilMagic(75)) == Pow2(1) && Bit(Shr(CeilMagic(75), 1), 31)
  {
    MagicOf75();
    OddPartOf75();
    NotMersenne75();
    var m := CeilMagic(75);
    assert Pow2(6) == 64;
    TestOf75(m);
    Bits31Of75(m);
    LowBitTwo(m);
    assert Pow2(1) == 2;
    var j := ReductionShift(m, 1);
    assert j == 1;
  }

  /** Dividing multiplier and scale by the same power of two leaves the quotient alone
      and the scale nonzero. */
  lemma ReducedQuotient(f: nat, m: nat, p: nat, n: nat)
    requires f > 0 && p > 0
    ensures f * p * B64 > 0 && m * n / B64 / p == f * m * n / (f * p * B64)
  {
    DivDiv(m * n, B64, p);
    Distribute(p, B64, 0);
    CancelFactor(f, m * n, p * B64);
    MulAssoc(f, m, n);
    MulAssoc(f, p, B64);
  }

  lemma ReductionExact(m: nat, odd: nat, k: nat, j: nat, t: nat)
    requires m == Pow2(t) * odd && j <= t && j <= k
    ensures m == Pow2(j) * (m / Pow2(j))
    ensures Pow2(k) == Pow2(j) * (Pow2(k) / Pow2(j)) && Pow2(k) / Pow2(j) >= 1
  {
    Pow2Add(j, t - j);
    MulAssoc(Pow2(j), Pow2(t - j), odd);
    ExactQuotient(m, Pow2(j), Pow2(t - j) * odd);
    Pow2Add(j, k - j);
    ExactQuotient(Pow2(k), Pow2(j), Pow2(k - j));
  }

  lemma ExactQuotient(x: nat, d: nat, q: int)
    requires d > 0 && x == d * q
    ensures x / d == q && x == d * (x / d)
  {
    Distribute(d, q, 0);
    QuotientIs(x, d, q, 0);
  }

  lemma CancelFactor(f: nat, x: nat, d: nat)
    requires f > 0 && d > 0
    ensures f * d > 0 && f * x / (f * d) == x / d
  {
    MulMono(1, d, f);
    Distribute(f, d, 0);
    var q, s := DivSplit(x, d);
    Distribute(f, q * d, s);
    MulAssoc(q, f, d);
    MulAssoc(f, q, d);
    Distribute(f, q, 0);
    MulMono(s, d - 1, f);
    Distribute(f, d, -1);
    Distribute(f, s, 0);
    MulMono(0, s, f);
    QuotientIs(f * x, f * d, q, f * s);
  }

  // ----- The macro -----

  /** The macro's own copy of the long multiplication: the upper half of `m * x`. */
  method HighProduct(m: u64, x: u64) returns (res: u64)
    ensures res == m * x / B64
  {
    var mLo, mHi, xLo, xHi := Lo(m), Hi(m), Lo(x), Hi(x);
    res := Mul32(mLo, xLo) / B32;
    res := CrossProducts(res, Mul32(mLo, xHi), Mul32(mHi, xLo));
    ColumnsMakePlainProduct(m, x, res + Mul32(mHi, xHi));
    res := Wrap64(res + Mul32(mHi, xHi));
  }

  method CrossProducts(low: u64, loHi: u64, hiLo: u64) returns (res: u64)
    requires low < B32 && loHi <= COLUMN_MAX && hiLo <= COLUMN_MAX
    ensures res == (low + loHi + hiLo) / B32
  {
    res := Wrap64(low + loHi);
    var t := res;
    CarryCaptured(t, hiLo);
    res := Wrap64(res + hiLo);
    t := if res < t then B32 else 0;
    res := res / B32 + t;
  }

  /** `___m` as first computed: the multiplier rounded up, which wraps to zero exactly
      when it would be 2^64. */
  method RoundedUpMagic(b: u32, p: u32) returns (m: u64)
    requires b > 0 && p == Scale(b)
    ensures m == Wrap64(CeilMagic(b))
  {
    MagicFits(b);
    MagicFromParts(b);
    m := (B64 - 1) / b * p;
    m := Wrap64(m + (((B64 - 1) % b + 1) * p + b - 1) / b);
  }

  method RoundedDownMagic(b: u32, p: u32) returns (m: u64)
    requires b > 0 && p == Scale(b) && OddPart(b) != 1
    ensures m == FloorMagic(b)
  {
    MagicFits(b);
    MagicFromParts(b);
    FloorMagicFits(b);
    m := (B64 - 1) / b * p;
    m := Wrap64(m + ((B64 - 1) % b + 1) * p / b);
  }

  /** Multiplier and scale are multiples of the factor: a power of two, by the best shift. */
  lemma CommonReductionExact(b: u32) returns (t: nat, j: nat)
    requires b > 0 && OddPart(b) != 1
    ensures 0 < CeilMagic(b) < B64 && BitAnd(CeilMagic(b), Neg64(CeilMagic(b))) == Pow2(t)
    ensures CommonReduction(CeilMagic(b)) == Pow2(j) && BestShift(CeilMagic(b), t, j)
    ensures var m, p, f := CeilMagic(b), Scale(b), Pow2(j);
            m == f * (m / f) && p == f * (p / f) && p / f >= 1
  {
    var odd;
    t, odd := MagicLowBit(b);
    j := ReductionShift(CeilMagic(b), t);
    ReductionExact(CeilMagic(b), odd, Ilog2(b), j, t);
  }

  lemma CeilMagicFits(b: u32)
    requires b > 0 && OddPart(b) != 1
    ensures 0 < CeilMagic(b) < B64
  {
    var t, odd := MagicLowBit(b);
  }

  /** Clears a common power of two from multiplier and scale, by the best shift. */
  method Reduce(b: u32, m0: u64, p0: u32) returns (m: u64, p: u32, ghost j: nat)
    requires b > 0 && OddPart(b) != 1 && m0 == CeilMagic(b) && p0 == Scale(b)
    ensures m0 == Pow2(j) * m && p0 == Pow2(j) * p && p > 0
    ensures exists t :: BitAnd(m0, Neg64(m0)) == Pow2(t) && BestShift(m0, t, j)
  {
    ghost var t;
    t, j := CommonReductionExact(b);
    AndAtMost(m0, Neg64(m0));
    var low := BitAnd(m0, Neg64(m0));
    var bits := ReductionBits(low, Hi(m0));
    DivSmaller(p0, Pow2(j));
    DivSmaller(m0, Pow2(j));
    if bits == 0 {
      p, m := p0 / low, m0 / low;
    } else {
      p, m := p0 / Pow2(Ilog2(bits)), m0 / Pow2(Ilog2(bits));
    }
  }

  lemma FloorMagicFits(b: u32)
    requires b > 0 && OddPart(b) != 1
    ensures FloorMagic(b) < B64
  {
    var r, e := Roundings(b);
  }

  lemma TestDividendFits(b: u32)
    requires b > 0
    ensures 0 <= TestDividend(b) < B64
  {
    QuotRem(b);
  }

  lemma ScaledQuotient(x: nat, p: nat)
    requires p > 0
    ensures x / B64 / p == x / (p * B64)
  {
    DivDiv(x, B64, p);
    Distribute(p, B64, 0);
  }

  /** The macro's test of the multiplier on the test dividend. */
  method TestMagic(b: u32, m: u64, p: u32) returns (exact: bool)
    requires b > 0 && p > 0
    ensures exact <==> m * TestDividend(b) / B64 / p == TestDividend(b) / b
  {
    TestDividendFits(b);
    var x: u64 := (B64 - 1) / b * b - 1;
    var res := HighProduct(m, x);
    DivSmaller(res, p);
    res := res / p;
    exact := res == x / b;
  }

  lemma OddPartAsComputed(b: u32)
    requires b > 0
    ensures Neg32(b) == B32 - b && BitAnd(b, Neg32(b)) > 0
    ensures b / BitAnd(b, Neg32(b)) == OddPart(b) && OddPart(b) > 0
  {
    var t := OddPartIs(b);
  }

  lemma MersenneBranch(b: u32, low: nat, m: nat, n: u64)
    requires b > 0 && low == BitAnd(b, B32 - b) && low > 0 && b / low > 0
    requires (B64 - 1) % (b / low) == 0 && m == (B64 - 1) / (b / low)
    ensures (m + m * (n / low)) / B64 == n / b
  {
    var t := OddPartIs(b);
    var o := OddPart(b);
    DivExact(B64 - 1, o);
    Distribute(o, m, 0);
    DivSmaller(n, low);
    MersenneExact(o, m, n / low);
    DivDiv(n, low, o);
  }

  lemma DivSmaller(n: nat, d: nat)
    requires d > 0
    ensures 0 <= n / d <= n
  {
    var q, s := DivSplit(n, d);
    MulMono(1, d, q);
    Distribute(q, d, 0);
  }

  lemma BiasedBranch(b: u32, n: u64, m: nat, p: nat)
    requires b > 0 && OddPart(b) != 1 && m == CeilMagic(b) && p == Scale(b)
    requires m * TestDividend(b) / B64 / p != TestDividend(b) / b
    ensures (FloorMagic(b) + FloorMagic(b) * n) / B64 / p == n / b
  {
    TestQuotient(b, m, p);
    BiasRescues(b, n);
    MulMono(0, n, FloorMagic(b));
    ScaledQuotient(FloorMagic(b) + FloorMagic(b) * n, p);
  }

  lemma TestQuotient(b: u32, m: nat, p: nat)
    requires b > 0 && p > 0
    ensures m * TestDividend(b) / B64 / p == m * TestDividend(b) / (p * B64)
  {
    TestDividendFits(b);
    var x := TestDividend(b);
    MulMono(0, x, m);
    Distribute(m, x, 0);
    ScaledQuotient(m * x, p);
  }

  lemma UnbiasedBranch(b: u32, n: u64, m: nat, p: nat, f: nat)
    requires b > 0 && OddPart(b) != 1
    requires CeilMagic(b) * TestDividend(b) / B64 / Scale(b) == TestDividend(b) / b
    requires f > 0 && p >= 1 && CeilMagic(b) == f * m && Scale(b) == f * p
    ensures m * n / B64 / p == n / b
  {
    TestQuotient(b, CeilMagic(b), Scale(b));
    OneTestDecides(b);
    ReducedQuotient(f, m, p, n);
  }

  /** The macro up to its run-time part: which multiplication and division remain to be done. */
  method Prepare(n: u64, b: u32) returns (n': u64, m: u64, p: u32, bias: bool)
    requires b > 0
    ensures p >= 1 && ((if bias then m else 0) + m * n') / B64 / p == n / b
  {
    p := Scale(b);
    m := RoundedUpMagic(b, p);
    var exact := TestMagic(b, m, p);
    OddPartAsComputed(b);
    var low := BitAnd(b, Neg32(b));
    var o := b / low;
    if (B64 - 1) % o == 0 {
      n', m, bias := MersenneMagic(n, b, low, o);
      p := 1;
    } else {
      CeilMagicFits(b);
      n' := n;
      m, p, bias := Sanitize(b, m, p, exact, n);
    }
  }

  /** The two general cases: fall back to a biased multiplier, or reduce the unbiased one. */
  method Sanitize(b: u32, m0: u64, p0: u32, exact: bool, ghost n: u64) returns (m: u64, p: u32, bias: bool)
    requires b > 0 && OddPart(b) != 1 && m0 == CeilMagic(b) && p0 == Scale(b)
    requires exact <==> m0 * TestDividend(b) / B64 / p0 == TestDividend(b) / b
    ensures p >= 1 && ((if bias then m else 0) + m * n) / B64 / p == n / b
  {
    if !exact {
      bias := true;
      BiasedBranch(b, n, m0, p0);
      m := RoundedDownMagic(b, p0);
      p := p0;
    } else {
      bias := false;
      ghost var j;
      m, p, j := Reduce(b, m0, p0);
      UnbiasedBranch(b, n, m, p, Pow2(j));
    }
  }

  /** The special case of a divisor whose odd part divides 2^64 - 1. */
  method MersenneMagic(n: u64, b: u32, low: nat, o: nat) returns (n': u64, m: u64, bias: bool)
    requires b > 0 && low == BitAnd(b, B32 - b) && low > 0 && o == b / low && o > 0
    requires (B64 - 1) % o == 0
    ensures bias && (m + m * n') / B64 == n / b
  {
    MersenneBranch(b, low, (B64 - 1) / o, n);
    DivSmaller(n, low);
    DivSmaller(B64 - 1, o);
    n', m, bias := n / low, (B64 - 1) / o, true;
  }

  /** `__div64_const32`: division by a constant without dividing at run time. */
  method Div64Const32(n: u64, b: u32) returns (res: u64)
    requires b > 0
    ensures res == n / b
  {
    var n', m, p, bias := Prepare(n, b);
    res := ArchXprod64(m, n', bias);
    DivSmaller(res, p);
    res := res / p;
  }

  // ----- do_div -----

  /** What `do_div` does: finish, or call the architecture's general division. */
  datatype DoDivResult = Done(quotient: u64, remainder: u32) | CallsDiv64By32

  lemma {:induction false} AndSelf(x: nat)
    ensures BitAnd(x, x) == x
  {
    if x != 0 { AndSelf(x / 2); }
  }

  /** The test `x & (x - 1)` finds exactly the powers of two. */
  lemma {:induction false} IsPowerOfTwo(x: nat)
    requires x > 0
    ensures BitAnd(x, x - 1) == 0 <==> x == Pow2(Ilog2(x))
  {
    if x > 1 {
      if x % 2 == 1 {
        AndSelf(x / 2);
        assert (x - 1) / 2 == x / 2;
      } else {
        assert (x - 1) / 2 == x / 2 - 1;
        IsPowerOfTwo(x / 2);
      }
    }
  }

  /** The remainder needs only the low words of dividend and quotient. */
  lemma LowWordRemainder(n: u64, q: u64, b: u32, s: nat)
    requires n == q * b + s && s < b
    ensures Wrap32(Lo(n) - Lo(q) * b) == s
  {
    Distribute(b, Hi(q) * B32, Lo(q));
    MulAssoc(Hi(q), B32, b);
    MulAssoc(Hi(q), b, B32);
    WholeWords(s, Hi(q) * b - Hi(n));
  }

  lemma WholeWords(s: u32, k: int)
    ensures (s + k * B32) % B32 == s
  {
  }

  method DivideByConstant(n: u64, base: u32) returns (r: DoDivResult)
    requires base > 0
    ensures r.Done? && r.quotient == n / base && r.remainder == n % base
  {
    var q, s := DivSplit(n, base);
    var quotient := Div64Const32(n, base);
    LowWordRemainder(n, quotient, base, s);
    r := Done(quotient, Wrap32(Lo(n) - Lo(quotient) * base));
  }

  /** `do_div` for 32-bit machines: quotient and remainder, in place of `*n` and as result. */
  method DoDiv(n: u64, base: u32, constant: bool) returns (r: DoDivResult)
    requires base > 0
    ensures r.CallsDiv64By32? <==> !constant && n >= B32
    ensures r.Done? ==> r.quotient == n / base && r.remainder == n % base
  {
    if constant && BitAnd(base, base - 1) == 0 {
      IsPowerOfTwo(base);
      AndMask(n, Ilog2(base));
      DivSmaller(n, base);
      r := Done(n / Pow2(Ilog2(base)), BitAnd(n, base - 1));
    } else if constant {
      r := DivideByConstant(n, base);
    } else if Hi(n) == 0 {
      DivSmaller(n, base);
      r := Done(Lo(n) / base, Lo(n) % base);
    } else {
      r := CallsDiv64By32;
    }
  }
}
