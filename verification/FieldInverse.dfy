/**
 * GF(2^8)/0x11D is a field: no two non-zero elements multiply to zero, and the powers of 2 repeat only after 255 steps.
 */
module FieldInverse {
  import opened Arithmetic
  import opened Bits
  import opened GaloisField
  import opened ReedSolomon

  function Square(x: Byte): Byte {
    Mul(x, x)
  }

  // ---------- squaring is additive, multiplicative, and easy to evaluate ----------

  lemma SquareAdds(a: Byte, b: Byte)
    ensures Square(Add(a, b)) == Add(Square(a), Square(b))
  {
    hide Mul, Add;
    MulDistributes(a, b, Add(a, b));
    MulDistributes(a, b, a);
    MulDistributes(a, b, b);
    MulCommutes(a, b);
    AddRearranges(Mul(a, a), Mul(a, b), Mul(a, b), Mul(b, b));
    AddLaws(Mul(a, b), Mul(b, b), Mul(b, b));
    AddLaws(Mul(a, a), Mul(a, b), Add(Mul(a, b), Mul(b, b)));
    AddLaws(Mul(a, b), Mul(a, b), Mul(b, b));
    AddLaws(Mul(b, b), 0, 0);
  }

  lemma MulSwaps(a: Byte, b: Byte, c: Byte, d: Byte)
    ensures Mul(Mul(a, b), Mul(c, d)) == Mul(Mul(a, c), Mul(b, d))
  {
    hide Mul;
    MulAssociates(a, b, Mul(c, d));
    MulAssociates(b, c, d);
    MulCommutes(b, c);
    MulAssociates(c, b, d);
    MulAssociates(a, c, Mul(b, d));
  }

  lemma SquareMultiplies(a: Byte, b: Byte)
    ensures Square(Mul(a, b)) == Mul(Square(a), Square(b))
  {
    hide Mul;
    MulSwaps(a, b, a, b);
  }

  // The squares of 1, 2, 4, ..., 128, added up for the bits that are set.
  function SquareByBits(x: Byte): Byte {
    (if Bit(x, 0) then 0x01 else 0) ^ (if Bit(x, 1) then 0x04 else 0)
    ^ (if Bit(x, 2) then 0x10 else 0) ^ (if Bit(x, 3) then 0x40 else 0)
    ^ (if Bit(x, 4) then 0x1D else 0) ^ (if Bit(x, 5) then 0x74 else 0)
    ^ (if Bit(x, 6) then 0xCD else 0) ^ (if Bit(x, 7) then 0x13 else 0)
  }

  lemma SquareByBitsDouble(t: Byte)
    requires t & 0x80 == 0
    ensures SquareByBits(t << 1) == Double(Double(SquareByBits(t)))
  {
    OneTable(0); OneTable(1); OneTable(2); OneTable(3); OneTable(4); OneTable(5); OneTable(6); OneTable(7);
  }

  lemma SquareByBitsOdd(t: Byte, bit: bool)
    requires t & 1 == 0
    ensures SquareByBits(Add(t, if bit then 1 else 0)) == Add(SquareByBits(t), if bit then 1 else 0)
  {
    OneTable(0); OneTable(1); OneTable(2); OneTable(3); OneTable(4); OneTable(5); OneTable(6); OneTable(7);
  }

  lemma DoubleIsShift(t: Byte)
    requires t & 0x80 == 0
    ensures Double(t) == t << 1 && (t << 1) & 1 == 0
  {}

  lemma TopFits(y: Byte, n: nat)
    requires n < 8
    ensures Top(y, n) & 0x80 == 0
  {
    TopSmall(y, n);
    DoubleShifts(Top(y, n));
  }

  lemma DoubleShifts(t: Byte)
    requires Double(t) == t << 1
    ensures t & 0x80 == 0
  {}

  lemma SquareDouble(t: Byte)
    ensures Square(Double(t)) == Double(Double(Square(t)))
  {
    hide Mul, Double;
    MulDouble(Double(t), t);
    MulCommutes(Double(t), t);
    MulDouble(t, t);
  }

  lemma {:induction false} SquareOfTop(y: Byte, n: nat)
    requires n <= 8
    ensures Square(Top(y, n)) == SquareByBits(Top(y, n))
  {
    hide Square, SquareByBits, Add, Double, Top, Bit;
    if n == 0 {
      SquareOfBit(y, false);
    } else {
      var t, bit := Top(y, n - 1), Bit(y, 8 - n);
      SquareOfTop(y, n - 1);
      TopRound(y, n);
      TopFits(y, n - 1);
      DoubleIsShift(t);
      SquareByBitsDouble(t);
      SquareByBitsOdd(Double(t), bit);
      SquareDouble(t);
      SquareOfBit(y, bit);
      SquareAdds(Double(t), if bit then 1 else 0);
    }
  }

  lemma SquareOfBit(y: Byte, bit: bool)
    ensures Square(if bit then 1 else 0) == (if bit then 1 else 0)
    ensures Top(y, 0) == 0 && SquareByBits(0) == 0
  {
    hide Mul;
    OneTable(0); OneTable(1); OneTable(2); OneTable(3); OneTable(4); OneTable(5); OneTable(6); OneTable(7);
    MulOne(1);
    MulZero(0);
  }

  lemma SquareIs(x: Byte)
    ensures Square(x) == SquareByBits(x)
  {
    hide Square, SquareByBits, Top;
    TopEight(x);
    SquareOfTop(x, 8);
  }

  // Only 0 and 1 are their own squares.
  lemma Idempotents(e: Byte)
    requires Square(e) == e
    ensures e == 0 || e == 1
  {
    hide Square;
    SquareIs(e);
    OneTable(0); OneTable(1); OneTable(2); OneTable(3); OneTable(4); OneTable(5); OneTable(6); OneTable(7);
  }

  // ---------- squaring eight times is the identity ----------

  function Squared(x: Byte, n: nat): Byte {
    if n == 0 then x else Square(Squared(x, n - 1))
  }

  lemma {:induction false} SquaredAdds(a: Byte, b: Byte, n: nat)
    ensures Squared(Add(a, b), n) == Add(Squared(a, n), Squared(b, n))
  {
    hide Square, Add;
    if n > 0 {
      SquaredAdds(a, b, n - 1);
      SquareAdds(Squared(a, n - 1), Squared(b, n - 1));
    }
  }

  lemma {:induction false} SquaredMultiplies(a: Byte, b: Byte, n: nat)
    ensures Squared(Mul(a, b), n) == Mul(Squared(a, n), Squared(b, n))
  {
    hide Square, Mul;
    if n > 0 {
      SquaredMultiplies(a, b, n - 1);
      SquareMultiplies(Squared(a, n - 1), Squared(b, n - 1));
    }
  }

  lemma {:induction false} SquaredBit(bit: bool, n: nat)
    ensures Squared(if bit then 1 else 0, n) == if bit then 1 else 0
  {
    hide Square;
    if n > 0 {
      SquaredBit(bit, n - 1);
      SquareOfBit(0, bit);
    }
  }

  lemma SquareValue(x: Byte, y: Byte)
    requires SquareByBits(x) == y
    ensures Square(x) == y
  {
    SquareIs(x);
  }

  lemma SquaresOfTwo()
    ensures Squared(2, 8) == 2
  {
    assert SquareByBits(2) == 4 && SquareByBits(4) == 16 && SquareByBits(16) == 0x1D && SquareByBits(0x1D) == 0x4C
      && SquareByBits(0x4C) == 0x9D && SquareByBits(0x9D) == 0x5F && SquareByBits(0x5F) == 0x85
      && SquareByBits(0x85) == 2
    by {
      OneTable(0); OneTable(1); OneTable(2); OneTable(3); OneTable(4); OneTable(5); OneTable(6); OneTable(7);
    }
    hide Square, SquareByBits;
    SquareValue(2, 4); SquareValue(4, 16); SquareValue(16, 0x1D); SquareValue(0x1D, 0x4C);
    SquareValue(0x4C, 0x9D); SquareValue(0x9D, 0x5F); SquareValue(0x5F, 0x85); SquareValue(0x85, 2);
    assert Squared(2, 1) == 4;
    assert Squared(2, 2) == 16;
    assert Squared(2, 3) == 0x1D;
    assert Squared(2, 4) == 0x4C;
    assert Squared(2, 5) == 0x9D;
    assert Squared(2, 6) == 0x5F;
    assert Squared(2, 7) == 0x85;
  }

  lemma {:induction false} SquaredTop(y: Byte, n: nat)
    requires n <= 8
    ensures Squared(Top(y, n), 8) == Top(y, n)
  {
    hide Squared, Add, Mul, Double, Bit;
    if n == 0 {
      SquaredBit(false, 8);
    } else {
      var t, bit := Top(y, n - 1), Bit(y, 8 - n);
      SquaredTop(y, n - 1);
      TopRound(y, n);
      SquaredAdds(Double(t), if bit then 1 else 0, 8);
      SquaredBit(bit, 8);
      MulByTwo(t);
      SquaredMultiplies(t, 2, 8);
      SquaresOfTwo();
    }
  }

  lemma SquaredIdentity(x: Byte)
    ensures Squared(x, 8) == x
  {
    hide Squared, Top;
    TopEight(x);
    SquaredTop(x, 8);
  }

  // ---------- powers ----------

  lemma {:induction false} PowAdds(x: Byte, m: nat, n: nat)
    ensures Pow(x, m + n) == Mul(Pow(x, m), Pow(x, n))
  {
    hide Mul;
    if n == 0 {
      MulOne(Pow(x, m));
    } else {
      PowAdds(x, m, n - 1);
      MulAssociates(Pow(x, m), Pow(x, n - 1), x);
    }
  }

  lemma {:induction false} PowOfPow(x: Byte, m: nat, n: nat)
    ensures Pow(Pow(x, m), n) == Pow(x, m * n)
  {
    hide Mul;
    if n > 0 {
      PowOfPow(x, m, n - 1);
      PowAdds(x, m * (n - 1), m);
      assert m * (n - 1) + m == m * n;
    }
  }

  lemma {:induction false} SquaredIsPow(x: Byte, n: nat)
    ensures Squared(x, n) == Pow(x, TwoTo(n))
  {
    hide Mul;
    if n == 0 {
      MulOne(x);
      assert Pow(x, 1) == Mul(Pow(x, 0), x);
    } else {
      SquaredIsPow(x, n - 1);
      PowAdds(x, TwoTo(n - 1), TwoTo(n - 1));
    }
  }

  lemma Pow256(x: Byte)
    ensures Pow(x, 256) == x
  {
    hide Squared, Pow;
    SquaredIsPow(x, 8);
    SquaredIdentity(x);
    assert TwoTo(8) == 256 by { assert TwoTo(4) == 16; }
  }

  // Every non-zero element has order dividing 255.
  lemma Pow255(x: Byte)
    requires x != 0
    ensures Pow(x, 255) == 1
  {
    hide Mul, Pow;
    var e := Pow(x, 255);
    Pow256(x);
    PowAdds(x, 255, 255);
    PowAdds(x, 256, 254);
    PowAdds(x, 254, 1);
    PowOne(x);
    MulCommutes(x, Pow(x, 254));
    assert Square(e) == e;
    Idempotents(e);
    PowAdds(x, 255, 1);
    MulZero(x);
  }

  lemma PowOne(x: Byte)
    ensures Pow(x, 1) == x
  {
    hide Mul;
    MulOne(x);
    assert Pow(x, 1) == Mul(Pow(x, 0), x);
  }

  // No zero divisors.
  lemma NoZeroDivisors(a: Byte, b: Byte)
    requires a != 0 && b != 0
    ensures Mul(a, b) != 0
  {
    hide Mul, Pow;
    if Mul(a, b) == 0 {
      Pow255(a);
      PowAdds(a, 254, 1);
      PowOne(a);
      MulAssociates(Pow(a, 254), a, b);
      MulOne(b);
      MulZero(Pow(a, 254));
    }
  }

  // ---------- the order of 2 ----------

  lemma {:induction false} PowMultiple(m: nat, t: nat)
    requires Pow(2, m) == 1
    ensures Pow(2, m * t) == 1
  {
    hide Mul;
    PowOfPow(2, m, t);
    PowOfOne(t);
  }

  lemma {:induction false} PowOfOne(t: nat)
    ensures Pow(1, t) == 1
  {
    hide Mul;
    if t > 0 {
      PowOfOne(t - 1);
      MulOne(1);
    }
  }

  // Euclid's algorithm on exponents that give 1.
  lemma {:induction false} CommonExponent(a: nat, b: nat) returns (g: nat, p: nat, q: nat)
    requires a > 0 && Pow(2, a) == 1 && Pow(2, b) == 1
    ensures g > 0 && Pow(2, g) == 1 && a == g * p && b == g * q
    decreases b
  {
    hide Mul, Pow;
    if b == 0 {
      g, p, q := a, 1, 0;
    } else {
      var t, r := a / b, a % b;
      PowMultiple(b, t);
      PowAdds(2, b * t, r);
      MulOne(Pow(2, r));
      var p', q';
      g, p', q' := CommonExponent(b, r);
      p, q := p' * t + q', p';
      Combined(a, b, t, r, g, p', q');
    }
  }

  lemma Combined(a: nat, b: nat, t: nat, r: nat, g: nat, p: nat, q: nat)
    requires a == b * t + r && b == g * p && r == g * q
    ensures a == g * (p * t + q)
  {}

  lemma PowDoubled(n: nat, x: Byte, y: Byte)
    requires Pow(2, n) == x && SquareByBits(x) == y
    ensures Pow(2, 2 * n) == y
  {
    hide Mul, SquareByBits;
    PowAdds(2, n, n);
    SquareIs(x);
  }

  lemma PowNext(n: nat, x: Byte)
    requires Pow(2, n) == x
    ensures Pow(2, n + 1) == Double(x)
  {
    hide Mul, Double;
    MulByTwo(x);
  }

  lemma BitTable()
    ensures One(0) == 1 && One(1) == 2 && One(2) == 4 && One(3) == 8 && One(4) == 16 && One(5) == 32 && One(6) == 64
      && One(7) == 128
  {
    OneTable(0); OneTable(1); OneTable(2); OneTable(3); OneTable(4); OneTable(5); OneTable(6); OneTable(7);
  }

  lemma FirstPowers()
    ensures Pow(2, 3) == 8 && Pow(2, 5) == 0x20
  {
    hide Mul, Pow;
    PowOne(2);
    PowNext(1, 2);
    PowNext(2, 4);
    PowNext(3, 8);
    PowNext(4, 16);
  }

  lemma Power15()
    ensures Pow(2, 15) != 1
  {
    hide Mul, Pow;
    BitTable();
    FirstPowers();
    PowDoubled(3, 8, 0x40);
    PowNext(6, 0x40);
    PowDoubled(7, 0x80, 0x13);
    PowNext(14, 0x13);
  }

  lemma Power51()
    ensures Pow(2, 51) != 1
  {
    hide Mul, Pow;
    BitTable();
    FirstPowers();
    PowDoubled(3, 8, 0x40);
    PowDoubled(6, 0x40, 0xCD);
    PowDoubled(12, 0xCD, 0x8F);
    PowNext(24, 0x8F);
    PowDoubled(25, 3, 5);
    PowNext(50, 5);
  }

  lemma Power85()
    ensures Pow(2, 85) != 1
  {
    hide Mul, Pow;
    BitTable();
    FirstPowers();
    PowDoubled(5, 0x20, 0x74);
    PowDoubled(10, 0x74, 0xB4);
    PowNext(20, 0xB4);
    PowDoubled(21, 0x75, 0xB5);
    PowDoubled(42, 0xB5, 0x6B);
    PowNext(84, 0x6B);
  }

  // 255 is 3 times 5 times 17.
  lemma DivisorOf255(g: nat, q: nat) returns (t: nat)
    requires g * q == 255 && q >= 2
    ensures g * t == 85 || g * t == 51 || g * t == 15
  {
    if q <= 17 {
      SmallCofactor(g, q);
      t := if q == 3 then 1 else if q == 5 then 1 else if q == 15 then 5 else 1;
    } else {
      SmallDivisor(g, q);
      t := if g == 1 then 15 else if g == 3 then 5 else 3;
    }
  }

  lemma SmallCofactor(g: nat, q: nat)
    requires g * q == 255 && 2 <= q <= 17
    ensures (q == 3 && g == 85) || (q == 5 && g == 51) || (q == 15 && g == 17) || (q == 17 && g == 15)
  {
    if q == 2 {} else if q == 3 {} else if q == 4 {} else if q == 5 {} else if q == 6 {} else if q == 7 {}
    else if q == 8 {} else if q == 9 {} else if q == 10 {} else if q == 11 {} else if q == 12 {} else if q == 13 {}
    else if q == 14 {} else if q == 15 {} else if q == 16 {} else if q == 17 {}
  }

  lemma SmallDivisor(g: nat, q: nat)
    requires g * q == 255 && q >= 18
    ensures g == 1 || g == 3 || g == 5
  {
    if g >= 15 {
      Larger(g, q);
    } else if g == 0 {} else if g == 1 {} else if g == 2 {} else if g == 3 {} else if g == 4 {} else if g == 5 {}
    else if g == 6 {} else if g == 7 {} else if g == 8 {} else if g == 9 {} else if g == 10 {} else if g == 11 {}
    else if g == 12 {} else if g == 13 {} else if g == 14 {}
  }

  lemma Larger(g: nat, q: nat)
    requires g >= 15 && q >= 18
    ensures g * q >= 270
  {}

  // The powers of 2 below the 255th are not 1.
  lemma OrderOfTwo(m: nat)
    requires 0 < m < 255
    ensures Pow(2, m) != 1
  {
    hide Mul, Pow;
    if Pow(2, m) == 1 {
      Pow255(2);
      var g, p, q := CommonExponent(255, m);
      Cofactor(g, p, q, m);
      var t := DivisorOf255(g, p);
      PowMultiple(g, t);
      Power15();
      Power51();
      Power85();
    }
  }

  lemma Cofactor(g: nat, p: nat, q: nat, m: nat)
    requires 255 == g * p && m == g * q && 0 < m < 255
    ensures p >= 2
  {
    if q == 0 {} else {}
  }

  lemma {:induction false} PowNonZero(n: nat)
    ensures Pow(2, n) != 0
  {
    hide Mul;
    if n > 0 {
      PowNonZero(n - 1);
      NoZeroDivisors(Pow(2, n - 1), 2);
    }
  }

  // Different positions of a word of up to 255 symbols have different locators.
  lemma PowersDistinct(i: nat, j: nat)
    requires i < j < 255
    ensures Pow(2, i) != Pow(2, j)
  {
    hide Mul, Pow, Add;
    if Pow(2, i) == Pow(2, j) {
      var x, y := Pow(2, i), Pow(2, j - i);
      PowAdds(2, i, j - i);
      MulOne(x);
      MulDistributes(y, 1, x);
      AddLaws(x, x, 0);
      AddLaws(y, 1, 0);
      OrderOfTwo(j - i);
      PowNonZero(i);
      NoZeroDivisors(x, Add(y, 1));
    }
  }
}
