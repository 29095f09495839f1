/** The field GF(2^8) reduced by 0x11D, as the Reed-Solomon generator multiplies in it. */
module GaloisField {
  import opened Bits

  function Add(a: Byte, b: Byte): Byte { a ^ b }

  // Multiplication by the generator element 0x02.
  function Double(z: Byte): Byte {
    (z << 1) ^ (if z & 0x80 != 0 then 0x1D else 0)
  }

  // One round of Russian peasant multiplication.
  function Round(z: Byte, x: Byte, bit: bool): Byte {
    Add(Double(z), if bit then x else 0)
  }

  // `x` times the number formed by the top `n` bits of `y`.
  function Partial(x: Byte, y: Byte, n: nat): Byte
    requires n <= 8
  {
    if n == 0 then 0 else Round(Partial(x, y, n - 1), x, Bit(y, 8 - n))
  }

  function Mul(x: Byte, y: Byte): Byte {
    Partial(x, y, 8)
  }

  // ---------- the loop of the source ----------

  lemma DoubleAsShifts(z: Byte)
    ensures (((z as bv16 << 1) ^ ((z as bv16 >> 7) * 0x11D)) & 0xFF) as Byte == Double(z)
  {
    if z & 0x80 != 0 {
      assert z as bv16 >> 7 == 1;
    } else {
      assert z as bv16 >> 7 == 0;
    }
  }

  lemma SelectAsProduct(x: Byte, y: Byte, i: nat)
    requires i < 8
    ensures ((y >> i) & 1) * x == if Bit(y, i) then x else 0
  {
    ShiftIsBit(y, i);
    var b := (y >> i) & 1;
    assert b == 0 || b == 1;
    assert (1 as Byte) * x == x && (0 as Byte) * x == 0;
  }

  lemma RoundAsShifts(z: Byte, x: Byte, y: Byte, i: nat)
    requires i < 8
    ensures (((z as bv16 << 1) ^ ((z as bv16 >> 7) * 0x11D)) & 0xFF) as Byte ^ (((y >> i) & 1) * x)
         == Round(z, x, Bit(y, i))
  {
    hide Double, Bit;
    DoubleAsShifts(z);
    SelectAsProduct(x, y, i);
  }

  method Multiply(x: Byte, y: Byte) returns (z: Byte)
    ensures z == Mul(x, y)
  {
    hide Double, Bit, Add, Round;
    z := 0;
    var i := 7;
    while i >= 0
      invariant -1 <= i <= 7
      invariant z == Partial(x, y, 7 - i)
    {
      ghost var n: nat := 7 - i;
      assert Partial(x, y, n + 1) == Round(Partial(x, y, n), x, Bit(y, i));
      RoundAsShifts(z, x, y, i);
      z := (((z as bv16 << 1) ^ ((z as bv16 >> 7) * 0x11D)) & 0xFF) as Byte;
      z := z ^ (((y >> i) & 1) * x);
      i := i - 1;
    }
  }

  // ---------- laws of addition ----------

  lemma XorIsAdd(a: Byte, b: Byte)
    ensures a ^ b == Add(a, b)
  {}

  lemma AddLaws(a: Byte, b: Byte, c: Byte)
    ensures Add(a, b) == Add(b, a)
    ensures Add(Add(a, b), c) == Add(a, Add(b, c))
    ensures Add(a, 0) == a && Add(0, a) == a && Add(a, a) == 0
    ensures Add(a, b) == 0 <==> a == b
  {
    assert a ^ b == 0 <==> a == b;
  }

  lemma AddRearranges(a: Byte, b: Byte, c: Byte, d: Byte)
    ensures Add(Add(a, b), Add(c, d)) == Add(Add(a, c), Add(b, d))
  {
    hide Add;
    AddLaws(a, b, Add(c, d));
    AddLaws(b, c, d);
    AddLaws(c, b, d);
    AddLaws(a, c, Add(b, d));
  }

  lemma DoubleAdditive(a: Byte, b: Byte)
    ensures Double(Add(a, b)) == Add(Double(a), Double(b))
  {
    assert (a ^ b) << 1 == (a << 1) ^ (b << 1);
    assert (a ^ b) & 0x80 == (a & 0x80) ^ (b & 0x80);
    if a & 0x80 != 0 {
      if b & 0x80 != 0 {} else {}
    } else {
      if b & 0x80 != 0 {} else {}
    }
  }

  lemma RoundAdditive(z: Byte, w: Byte, a: Byte, b: Byte, bit: bool)
    ensures Round(Add(z, w), Add(a, b), bit) == Add(Round(z, a, bit), Round(w, b, bit))
  {
    hide Double, Add;
    DoubleAdditive(z, w);
    if bit {
      AddRearranges(Double(z), a, Double(w), b);
      AddRearranges(Double(z), Double(w), a, b);
    } else {
      AddLaws(0, 0, 0);
      AddRearranges(Double(z), Double(w), 0, 0);
    }
  }

  lemma RoundDouble(z: Byte, x: Byte, bit: bool)
    ensures Double(Round(z, x, bit)) == Round(Double(z), Double(x), bit)
  {
    DoubleAdditive(Double(z), if bit then x else 0);
  }

  // ---------- laws of multiplication ----------

  lemma {:induction false} PartialAdditiveLeft(a: Byte, b: Byte, y: Byte, n: nat)
    requires n <= 8
    ensures Partial(Add(a, b), y, n) == Add(Partial(a, y, n), Partial(b, y, n))
  {
    hide Round, Add, Bit;
    if n == 0 {
      AddLaws(0, 0, 0);
    } else {
      PartialAdditiveLeft(a, b, y, n - 1);
      RoundAdditive(Partial(a, y, n - 1), Partial(b, y, n - 1), a, b, Bit(y, 8 - n));
    }
  }

  lemma {:induction false} PartialDouble(x: Byte, y: Byte, n: nat)
    requires n <= 8
    ensures Partial(Double(x), y, n) == Double(Partial(x, y, n))
  {
    hide Round, Bit;
    if n > 0 {
      PartialDouble(x, y, n - 1);
      RoundDouble(Partial(x, y, n - 1), x, Bit(y, 8 - n));
    }
  }

  lemma {:induction false} PartialZero(y: Byte, n: nat)
    requires n <= 8
    ensures Partial(0, y, n) == 0
  {
    if n > 0 { PartialZero(y, n - 1); }
  }

  // The number formed by the top `n` bits.
  function Top(y: Byte, n: nat): Byte
    requires n <= 8
  {
    if n == 0 then 0 else (Top(y, n - 1) << 1) ^ (if Bit(y, 8 - n) then 1 else 0)
  }

  lemma TopEight(y: Byte)
    ensures Top(y, 8) == y
  {
    OneTable(0); OneTable(1); OneTable(2); OneTable(3); OneTable(4); OneTable(5); OneTable(6); OneTable(7);
    assert Top(y, 1) == y >> 7;
    assert Top(y, 2) == y >> 6;
    assert Top(y, 3) == y >> 5;
    assert Top(y, 4) == y >> 4;
    assert Top(y, 5) == y >> 3;
    assert Top(y, 6) == y >> 2;
    assert Top(y, 7) == y >> 1;
  }

  lemma TopSmall(y: Byte, n: nat)
    requires n < 8
    ensures Double(Top(y, n)) == Top(y, n) << 1
  {
    OneTable(7); OneTable(6); OneTable(5); OneTable(4); OneTable(3); OneTable(2); OneTable(1);
    assert Top(y, 1) < 2;
    assert Top(y, 2) < 4;
    assert Top(y, 3) < 8;
    assert Top(y, 4) < 16;
    assert Top(y, 5) < 32;
    assert Top(y, 6) < 64;
    assert Top(y, 7) < 128;
    assert Top(y, n) < 128;
    assert Top(y, n) & 0x80 == 0;
  }

  lemma TopRound(y: Byte, n: nat)
    requires 1 <= n <= 8
    ensures Top(y, n) == Round(Top(y, n - 1), 1, Bit(y, 8 - n))
  {
    hide Double;
    TopSmall(y, n - 1);
  }

  lemma {:induction false} PartialOne(y: Byte, n: nat)
    requires n <= 8
    ensures Partial(1, y, n) == Top(y, n)
  {
    hide Round, Bit;
    if n > 0 {
      PartialOne(y, n - 1);
      TopRound(y, n);
    }
  }

  // Multiplying a round on the left: (2z + bit) x == 2 (z x) + bit x.
  lemma MulRoundLeft(z: Byte, x: Byte, bit: bool)
    ensures Mul(Round(z, 1, bit), x) == Round(Mul(z, x), x, bit)
  {
    hide Double, Add, Partial;
    var b: Byte := if bit then 1 else 0;
    PartialAdditiveLeft(Double(z), b, x, 8);
    PartialDouble(z, x, 8);
    PartialOne(x, 8);
    TopEight(x);
    PartialZero(x, 8);
  }

  // Partial products commute with their own prefix of `y`; at n = 8 this is commutativity.
  lemma {:induction false} PartialCommutes(x: Byte, y: Byte, n: nat)
    requires n <= 8
    ensures Partial(x, y, n) == Mul(Top(y, n), x)
  {
    hide Mul, Round, Bit;
    if n == 0 {
      MulZeroLeft(x);
    } else {
      PartialCommutes(x, y, n - 1);
      TopRound(y, n);
      MulRoundLeft(Top(y, n - 1), x, Bit(y, 8 - n));
    }
  }

  lemma MulZeroLeft(x: Byte)
    ensures Mul(0, x) == 0
  {
    PartialZero(x, 8);
  }

  lemma MulCommutes(x: Byte, y: Byte)
    ensures Mul(x, y) == Mul(y, x)
  {
    hide Partial, Top;
    PartialCommutes(x, y, 8);
    TopEight(y);
  }

  lemma MulZero(x: Byte)
    ensures Mul(0, x) == 0 && Mul(x, 0) == 0
  {
    hide Mul;
    MulZeroLeft(x);
    MulCommutes(x, 0);
  }

  lemma MulOne(x: Byte)
    ensures Mul(1, x) == x && Mul(x, 1) == x
  {
    hide Partial, Top;
    PartialOne(x, 8);
    TopEight(x);
    MulCommutes(x, 1);
  }

  lemma MulDistributes(a: Byte, b: Byte, y: Byte)
    ensures Mul(Add(a, b), y) == Add(Mul(a, y), Mul(b, y))
    ensures Mul(y, Add(a, b)) == Add(Mul(y, a), Mul(y, b))
  {
    hide Partial, Add;
    PartialAdditiveLeft(a, b, y, 8);
    MulCommutes(Add(a, b), y);
    MulCommutes(a, y);
    MulCommutes(b, y);
  }

  lemma MulDouble(x: Byte, y: Byte)
    ensures Mul(x, Double(y)) == Double(Mul(x, y))
  {
    hide Partial, Double;
    PartialDouble(y, x, 8);
    MulCommutes(x, Double(y));
    MulCommutes(x, y);
  }

  lemma MulRoundRight(x: Byte, p: Byte, y: Byte, bit: bool)
    ensures Mul(x, Round(p, y, bit)) == Round(Mul(x, p), Mul(x, y), bit)
  {
    hide Mul, Double, Add;
    MulDistributes(Double(p), if bit then y else 0, x);
    MulDouble(x, p);
    MulZero(x);
  }

  lemma {:induction false} PartialAssociates(x: Byte, y: Byte, z: Byte, n: nat)
    requires n <= 8
    ensures Partial(Mul(x, y), z, n) == Mul(x, Partial(y, z, n))
  {
    hide Mul, Round, Bit;
    if n == 0 {
      MulZero(x);
    } else {
      PartialAssociates(x, y, z, n - 1);
      MulRoundRight(x, Partial(y, z, n - 1), y, Bit(z, 8 - n));
    }
  }

  lemma MulAssociates(x: Byte, y: Byte, z: Byte)
    ensures Mul(Mul(x, y), z) == Mul(x, Mul(y, z))
  {
    hide Partial;
    PartialAssociates(x, y, z, 8);
  }

  // Shifting out the highest bit of a byte adds 0x11D, of which 0x1D stays.
  lemma MulByTwo(x: Byte)
    ensures Mul(x, 2) == Double(x) == (x << 1) ^ (if x & 0x80 != 0 then 0x1D else 0)
  {
    assert Double(1) == 2;
    hide Mul, Double;
    MulDouble(x, 1);
    MulOne(x);
  }
}
