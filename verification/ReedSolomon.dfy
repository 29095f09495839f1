/** Reed-Solomon generator polynomials and remainders over GF(2^8)/0x11D. Polynomials are big-endian byte strings. */
module ReedSolomon {
  import opened Bits
  import opened GaloisField

  const DEGREE_MAX := 30

  // ---------- polynomials ----------

  function Eval(p: seq<Byte>, x: Byte): Byte {
    if p == [] then 0 else Add(Mul(Eval(p[..|p| - 1], x), x), p[|p| - 1])
  }

  function Pow(x: Byte, n: nat): Byte {
    if n == 0 then 1 else Mul(Pow(x, n - 1), x)
  }

  // The product of `p` and (x - a).
  function TimesLinear(p: seq<Byte>, a: Byte): (q: seq<Byte>)
    ensures |q| == |p| + 1
  {
    seq(|p| + 1, m requires 0 <= m <= |p| => Add(if m < |p| then p[m] else 0, if m > 0 then Mul(p[m - 1], a) else 0))
  }

  // The product of (x - 2^0) (x - 2^1) ... (x - 2^(n-1)).
  function Generator(n: nat): (g: seq<Byte>)
    ensures |g| == n + 1
  {
    if n == 0 then [1] else TimesLinear(Generator(n - 1), Pow(2, n - 1))
  }

  // The same product of values at one point.
  function RootProduct(n: nat, x: Byte): Byte {
    if n == 0 then 1 else Mul(RootProduct(n - 1, x), Add(x, Pow(2, n - 1)))
  }

  // ---------- the generator polynomial ----------

  lemma EvalAppend(p: seq<Byte>, c: Byte, x: Byte)
    ensures Eval(p + [c], x) == Add(Mul(Eval(p, x), x), c)
  {
    assert (p + [c])[..|p|] == p;
  }

  // (a + b) + (c + d) with a common factor pulled out: (e x + c) (x + a), expanded.
  lemma LinearTimesHorner(e: Byte, c: Byte, x: Byte, a: Byte)
    ensures Add(Mul(Add(Mul(e, Add(x, a)), c), x), Mul(c, a)) == Mul(Add(Mul(e, x), c), Add(x, a))
  {
    hide Add, Mul;
    var s := Add(x, a);
    MulDistributes(Mul(e, s), c, x);
    MulAssociates(e, s, x);
    MulCommutes(s, x);
    MulAssociates(e, x, s);
    MulDistributes(x, a, c);
    MulDistributes(Mul(e, x), c, s);
    AddLaws(Mul(Mul(e, x), s), Mul(c, x), Mul(c, a));
  }

  // Appending a coefficient to `p` before multiplying by (x - a).
  lemma TimesLinearAppend(q: seq<Byte>, c: Byte, a: Byte)
    ensures var t := TimesLinear(q, a);
            TimesLinear(q + [c], a) == t[..|q|] + [Add(t[|q|], c)] + [Mul(c, a)]
  {
    hide Add, Mul;
    var n := |q|;
    var w, t := TimesLinear(q + [c], a), TimesLinear(q, a);
    var lo := if n > 0 then Mul(q[n - 1], a) else 0;
    AddLaws(lo, c, 0);
    AddLaws(Mul(c, a), 0, 0);
    assert w[n] == Add(c, lo);
    assert t[n] == Add(0, lo);
    assert w[n + 1] == Add(0, Mul(c, a));
    assert forall m | 0 <= m < n :: w[m] == t[m];
  }

  lemma {:induction false} TimesLinearValue(p: seq<Byte>, a: Byte, x: Byte)
    ensures Eval(TimesLinear(p, a), x) == Mul(Eval(p, x), Add(x, a))
  {
    hide Add, Mul, TimesLinear;
    if p == [] {
      TimesLinearOfNothing(a);
      EvalAppend([], 0, x);
      AddLaws(0, 0, 0);
      MulZero(x);
      MulZero(Add(x, a));
    } else {
      var n := |p| - 1;
      var q, c := p[..n], p[n];
      assert p == q + [c];
      var t := TimesLinear(q, a);
      TimesLinearAppend(q, c, a);
      EvalAppend(t[..n] + [Add(t[n], c)], Mul(c, a), x);
      EvalAppend(t[..n], Add(t[n], c), x);
      assert t == t[..n] + [t[n]];
      EvalAppend(t[..n], t[n], x);
      AddLaws(Mul(Eval(t[..n], x), x), t[n], c);
      TimesLinearValue(q, a, x);
      LinearTimesHorner(Eval(q, x), c, x, a);
      EvalAppend(q, c, x);
    }
  }

  lemma TimesLinearOfNothing(a: Byte)
    ensures TimesLinear([], a) == [] + [0]
  {
    assert Add(0, 0) == 0;
  }

  lemma GeneratorMonic(n: nat)
    ensures Generator(n)[0] == 1
  {
    hide Add, Mul;
    if n > 0 {
      GeneratorMonic(n - 1);
      AddLaws(1, 0, 0);
    }
  }

  // The generator is exactly the product of its linear factors.
  lemma {:induction false} GeneratorIsProduct(n: nat, x: Byte)
    ensures Eval(Generator(n), x) == RootProduct(n, x)
  {
    hide Mul, Add, TimesLinear;
    if n == 0 {
      assert Generator(0) == [] + [1];
      EvalAppend([], 1, x);
      MulZero(x);
      AddLaws(1, 0, 0);
    } else {
      GeneratorIsProduct(n - 1, x);
      TimesLinearValue(Generator(n - 1), Pow(2, n - 1), x);
    }
  }

  lemma {:induction false} GeneratorRoot(n: nat, k: nat)
    requires k < n
    ensures Eval(Generator(n), Pow(2, k)) == 0
  {
    GeneratorIsProduct(n, Pow(2, k));
    RootProductVanishes(n, k);
  }

  lemma {:induction false} RootProductVanishes(n: nat, k: nat)
    requires k < n
    ensures RootProduct(n, Pow(2, k)) == 0
  {
    hide Mul, Add;
    var x := Pow(2, k);
    if k == n - 1 {
      AddLaws(x, x, 0);
      MulZero(RootProduct(n - 1, x));
    } else {
      RootProductVanishes(n - 1, k);
      MulZero(Add(x, Pow(2, n - 1)));
    }
  }

  function Zeros(n: nat): (s: seq<Byte>)
    ensures |s| == n
  {
    seq(n, _ => 0)
  }

  // The partial product, right-aligned in a window of degree + 1 coefficients.
  ghost function Window(degree: nat, i: nat): (w: seq<Byte>)
    requires i <= degree
    ensures |w| == degree + 1
  {
    Zeros(degree - i) + Generator(i)
  }

  lemma WindowStep(degree: nat, i: nat, k: nat)
    requires i < degree && 1 <= k <= degree
    ensures Window(degree, i + 1)[k]
         == Add(Mul(Window(degree, i)[k], Pow(2, i)), if k < degree then Window(degree, i)[k + 1] else 0)
  {
    hide Mul, Add;
    var w, a := Window(degree, i), Pow(2, i);
    var m := k - (degree - i - 1);
    if m < 0 {
      MulZero(a);
      AddLaws(0, 0, 0);
    } else {
      var g := Generator(i);
      var hi := if m < |g| then g[m] else 0;
      var lo := if m > 0 then Mul(g[m - 1], a) else 0;
      assert Window(degree, i + 1)[k] == TimesLinear(g, a)[m] == Add(hi, lo);
      assert k < degree <==> m < |g|;
      assert k < degree ==> w[k + 1] == g[m];
      MulZero(a);
      assert lo == Mul(w[k], a);
      AddLaws(hi, lo, 0);
    }
  }

  lemma WindowEnds(degree: nat)
    requires degree >= 1
    ensures Window(degree, 0)[1..] == Zeros(degree - 1) + [1]
    ensures Window(degree, degree) == Generator(degree)
  {}

  // The generator without its leading 1, as the divisor array stores it.
  function Divisor(degree: nat): (gen: seq<Byte>)
    ensures |gen| == degree
  {
    Generator(degree)[1..]
  }

  // result[0 : degree] receives the generator polynomial without its leading 1.
  method ComputeDivisor(degree: nat, result: array<Byte>)
    requires 1 <= degree <= DEGREE_MAX && degree <= result.Length
    modifies result
    ensures result[..degree] == Divisor(degree)
    ensures result[degree..] == old(result[degree..])
  {
    hide Mul, Add, Window, Generator;
    WindowEnds(degree);
    forall k | 0 <= k < degree { result[k] := 0; }
    result[degree - 1] := 1;
    var root: Byte := 1;
    for i := 0 to degree
      invariant root == Pow(2, i)
      invariant result[..degree] == Window(degree, i)[1..]
      invariant result[degree..] == old(result[degree..])
    {
      ghost var w := Window(degree, i);
      for j := 0 to degree
        invariant forall k | 0 <= k < j :: result[k] == Window(degree, i + 1)[k + 1]
        invariant forall k | j <= k < degree :: result[k] == w[k + 1]
        invariant result[degree..] == old(result[degree..])
      {
        WindowStep(degree, i, j + 1);
        var product := Multiply(result[j], root);
        result[j] := product;
        if j + 1 < degree {
          result[j] := Add(result[j], result[j + 1]);
        } else {
          AddLaws(product, 0, 0);
        }
      }
      root := Multiply(root, 0x02);
    }
  }

  // ---------- polynomial division ----------

  // One division step: shift in a zero and subtract `factor` times the divisor.
  function DivisionStep(r: seq<Byte>, gen: seq<Byte>, factor: Byte): (r': seq<Byte>)
    requires |r| == |gen| > 0
    ensures |r'| == |r|
  {
    seq(|r|, j requires 0 <= j < |r| => Add(if j + 1 < |r| then r[j + 1] else 0, Mul(gen[j], factor)))
  }

  // `gen` omits the divisor's leading coefficient 1.
  function Remainder(data: seq<Byte>, gen: seq<Byte>): (r: seq<Byte>)
    requires |gen| > 0
    ensures |r| == |gen|
  {
    if data == [] then Zeros(|gen|)
    else
      var r := Remainder(data[..|data| - 1], gen);
      DivisionStep(r, gen, Add(data[|data| - 1], r[0]))
  }

  ghost function Quotient(data: seq<Byte>, gen: seq<Byte>): (q: seq<Byte>)
    requires |gen| > 0
    ensures |q| == |data|
  {
    if data == [] then []
    else
      var init := data[..|data| - 1];
      Quotient(init, gen) + [Add(data[|data| - 1], Remainder(init, gen)[0])]
  }

  method ShiftLeft(result: array<Byte>, at: nat, degree: nat)
    requires 1 <= degree && at + degree <= result.Length
    modifies result
    ensures result[at..at + degree] == old(result[at + 1..at + degree]) + [0]
    ensures forall k | 0 <= k < at || at + degree <= k < result.Length :: result[k] == old(result[k])
  {
    forall k | 0 <= k < degree - 1 { result[at + k] := result[at + k + 1]; }
    result[at + degree - 1] := 0;
  }

  // The body of the division loop: the shift by one place and the XOR with a multiple of the divisor.
  method DivideOnce(generator: array<Byte>, factor: Byte, result: array<Byte>, at: nat, degree: nat)
    requires 1 <= degree <= generator.Length && at + degree <= result.Length
    requires generator != result
    modifies result
    ensures result[at..at + degree] == DivisionStep(old(result[at..at + degree]), generator[..degree], factor)
    ensures forall k | 0 <= k < at || at + degree <= k < result.Length :: result[k] == old(result[k])
  {
    hide Mul, Add, DivisionStep;
    ghost var r, gen := result[at..at + degree], generator[..degree];
    ghost var next := DivisionStep(r, gen, factor);
    ShiftLeft(result, at, degree);
    ghost var shifted := result[at..at + degree];
    for j := 0 to degree
      invariant forall k | 0 <= k < j :: result[at + k] == next[k]
      invariant forall k | j <= k < degree :: result[at + k] == shifted[k]
      invariant forall k | 0 <= k < at || at + degree <= k < result.Length :: result[k] == old(result[k])
    {
      var product := Multiply(generator[j], factor);
      DivisionStepAt(r, gen, factor, j);
      XorIsAdd(result[at + j], product);
      result[at + j] := result[at + j] ^ product;
    }
  }

  lemma DivisionStepAt(r: seq<Byte>, gen: seq<Byte>, factor: Byte, j: nat)
    requires |r| == |gen| > j
    ensures DivisionStep(r, gen, factor)[j] == Add((r[1..] + [0])[j], Mul(gen[j], factor))
  {}

  // data[off : off + len] is divided; the remainder lands in result[at : at + degree]. Both regions may share an array.
  method ComputeRemainder(data: array<Byte>, off: nat, len: nat, generator: array<Byte>, degree: nat,
                          result: array<Byte>, at: nat)
    requires 1 <= degree <= DEGREE_MAX && degree <= generator.Length
    requires off + len <= data.Length && at + degree <= result.Length
    requires generator != result
    requires data == result ==> off + len <= at || at + degree <= off
    modifies result
    ensures result[at..at + degree] == Remainder(old(data[off..off + len]), old(generator[..degree]))
    ensures forall k | 0 <= k < at || at + degree <= k < result.Length :: result[k] == old(result[k])
  {
    hide Mul, Add, DivisionStep;
    ghost var dat, gen := data[off..off + len], generator[..degree];
    forall k | 0 <= k < degree { result[at + k] := 0; }
    assert dat[..0] == [];
    assert result[at..at + degree] == Zeros(degree);
    for i := 0 to len
      invariant data[off..off + len] == dat && generator[..degree] == gen
      invariant result[at..at + degree] == Remainder(dat[..i], gen)
      invariant forall k | 0 <= k < at || at + degree <= k < result.Length :: result[k] == old(result[k])
    {
      assert dat[..i + 1][..i] == dat[..i];
      ghost var r := result[at..at + degree];
      assert data[off + i] == dat[i] == dat[..i + 1][i] && result[at] == r[0];
      var factor := data[off + i] ^ result[at];
      XorIsAdd(dat[i], r[0]);
      DivideOnce(generator, factor, result, at, degree);
    }
    assert dat[..len] == dat;
  }

  // ---------- data followed by its remainder ----------

  lemma {:induction false} EvalConcat(a: seq<Byte>, b: seq<Byte>, x: Byte)
    ensures Eval(a + b, x) == Add(Mul(Eval(a, x), Pow(x, |b|)), Eval(b, x))
  {
    hide Mul, Add;
    if b == [] {
      assert a + b == a;
      MulOne(Eval(a, x));
      AddLaws(Eval(a, x), 0, 0);
    } else {
      var b', c := b[..|b| - 1], b[|b| - 1];
      assert b == b' + [c];
      assert a + b == (a + b') + [c];
      EvalAppend(a + b', c, x);
      EvalConcat(a, b', x);
      EvalAppend(b', c, x);
      MulDistributes(Mul(Eval(a, x), Pow(x, |b'|)), Eval(b', x), x);
      MulAssociates(Eval(a, x), Pow(x, |b'|), x);
      AddLaws(Mul(Eval(a, x), Pow(x, |b|)), Mul(Eval(b', x), x), c);
    }
  }

  lemma {:induction false} EvalScaledSum(p: seq<Byte>, q: seq<Byte>, f: Byte, s: seq<Byte>, x: Byte)
    requires |p| == |q| == |s|
    requires forall j | 0 <= j < |p| :: s[j] == Add(p[j], Mul(q[j], f))
    ensures Eval(s, x) == Add(Eval(p, x), Mul(Eval(q, x), f))
  {
    hide Mul, Add;
    if p == [] {
      MulZero(f);
      AddLaws(0, 0, 0);
    } else {
      var n := |p| - 1;
      EvalScaledSum(p[..n], q[..n], f, s[..n], x);
      ScaledHorner(Eval(p[..n], x), Eval(q[..n], x), p[n], q[n], f, x);
    }
  }

  lemma ScaledHorner(ep: Byte, eq: Byte, p: Byte, q: Byte, f: Byte, x: Byte)
    ensures Add(Mul(Add(ep, Mul(eq, f)), x), Add(p, Mul(q, f))) == Add(Add(Mul(ep, x), p), Mul(Add(Mul(eq, x), q), f))
  {
    hide Mul, Add;
    MulDistributes(ep, Mul(eq, f), x);
    MulAssociates(eq, f, x);
    MulCommutes(f, x);
    MulAssociates(eq, x, f);
    MulDistributes(Mul(eq, x), q, f);
    AddRearranges(Mul(ep, x), Mul(Mul(eq, f), x), p, Mul(q, f));
  }

  lemma AddCancels(a: Byte, b: Byte, c: Byte, e: Byte, r: Byte)
    ensures Add(Add(a, b), Add(c, e)) == Add(Add(a, Add(r, c)), Add(Add(b, r), e))
  {
    hide Add;
    AddRearranges(a, Add(r, c), Add(b, r), e);
    var left, right := Add(a, b), Add(c, e);
    AddLaws(a, b, r);
    AddLaws(r, c, e);
    AddLaws(left, r, Add(r, right));
    AddLaws(r, r, right);
    AddLaws(right, 0, 0);
  }

  // One division step preserves "dividend = quotient * divisor + remainder", with values taken at `x`.
  lemma DivisionAlgebra(d: Byte, c: Byte, top: Byte, r0: Byte, e: Byte, g: Byte, x: Byte, f: Byte, power: Byte)
    requires f == Add(c, r0) && power == Mul(top, x)
    ensures Add(Mul(Add(Mul(d, x), c), power), Add(Mul(e, x), Mul(g, f)))
         == Add(Mul(Add(Mul(d, power), Add(Mul(r0, top), e)), x), Mul(f, Add(power, g)))
  {
    hide Mul, Add;
    MulDistributes(Mul(d, x), c, power);
    MulAssociates(d, x, power);
    MulCommutes(x, power);
    MulAssociates(d, power, x);
    MulDistributes(Mul(d, power), Add(Mul(r0, top), e), x);
    MulDistributes(Mul(r0, top), e, x);
    MulAssociates(r0, top, x);
    MulDistributes(power, g, f);
    MulDistributes(c, r0, power);
    MulCommutes(f, g);
    AddCancels(Mul(Mul(d, power), x), Mul(c, power), Mul(e, x), Mul(g, f), Mul(r0, power));
  }

  // Dividing really divides: data followed by its remainder is the quotient times the divisor.
  lemma {:induction false} DataAndRemainder(data: seq<Byte>, gen: seq<Byte>, x: Byte)
    requires |gen| > 0
    ensures Eval(data + Remainder(data, gen), x) == Mul(Eval(Quotient(data, gen), x), Eval([1] + gen, x))
  {
    hide Mul, Add, DivisionStep, Eval, Pow;
    var n := |gen|;
    if data == [] {
      EvalZeros(n, x);
      assert data + Remainder(data, gen) == Zeros(n);
      EvalNothing(x);
      MulZero(Eval([1] + gen, x));
    } else {
      var init, c := data[..|data| - 1], data[|data| - 1];
      assert data == init + [c];
      var r := Remainder(init, gen);
      var f := Add(c, r[0]);
      var r' := DivisionStep(r, gen, f);
      assert r == [r[0]] + r[1..];
      DataAndRemainder(init, gen, x);
      EvalConcat(data, r', x);
      EvalAppend(init, c, x);
      EvalConcat(init, r, x);
      EvalConcat([r[0]], r[1..], x);
      EvalOne(r[0], x);
      EvalConcat([1], gen, x);
      EvalOne(1, x);
      MulOne(Pow(x, n));
      PowStep(x, n);
      EvalAppend(r[1..], 0, x);
      AddLaws(Mul(Eval(r[1..], x), x), 0, 0);
      forall j | 0 <= j < n
        ensures r'[j] == Add((r[1..] + [0])[j], Mul(gen[j], f))
      {
        DivisionStepAt(r, gen, f, j);
      }
      EvalScaledSum(r[1..] + [0], gen, f, r', x);
      DivisionAlgebra(Eval(init, x), c, Pow(x, n - 1), r[0], Eval(r[1..], x), Eval(gen, x), x, f, Pow(x, n));
      EvalAppend(Quotient(init, gen), f, x);
      var q, g := Eval(Quotient(init, gen), x), Eval([1] + gen, x);
      MulDistributes(Mul(q, x), f, g);
      MulAssociates(q, x, g);
      MulCommutes(x, g);
      MulAssociates(q, g, x);
    }
  }

  lemma PowStep(x: Byte, n: nat)
    requires n > 0
    ensures Pow(x, n) == Mul(Pow(x, n - 1), x)
  {}

  lemma EvalNothing(x: Byte)
    ensures Eval([], x) == 0
  {}

  lemma EvalOne(c: Byte, x: Byte)
    ensures Eval([c], x) == c
  {
    hide Mul, Add;
    EvalAppend([], c, x);
    assert [] + [c] == [c];
    MulZero(x);
    AddLaws(c, 0, 0);
  }

  lemma {:induction false} EvalZeros(n: nat, x: Byte)
    ensures Eval(Zeros(n), x) == 0
  {
    hide Mul, Add;
    if n > 0 {
      EvalZeros(n - 1, x);
      assert Zeros(n) == Zeros(n - 1) + [0];
      EvalAppend(Zeros(n - 1), 0, x);
      MulZero(x);
      AddLaws(0, 0, 0);
    }
  }

  // A block: its data followed by its error correction codewords.
  function Codeword(data: seq<Byte>, degree: nat): seq<Byte>
    requires degree >= 1
  {
    data + Remainder(data, Divisor(degree))
  }

  // Section 7.5.2 of ISO/IEC 18004:2015: every block vanishes at 2^0, 2^1, ..., 2^(degree-1).
  lemma CodewordVanishes(data: seq<Byte>, degree: nat, k: nat)
    requires k < degree
    ensures Eval(Codeword(data, degree), Pow(2, k)) == 0
  {
    hide Mul, Add, Eval, Pow;
    var gen, x := Divisor(degree), Pow(2, k);
    GeneratorMonic(degree);
    assert [1] + gen == Generator(degree);
    DataAndRemainder(data, gen, x);
    GeneratorRoot(degree, k);
    MulZero(Eval(Quotient(data, gen), x));
  }
}
