/**
 * What the error correction codewords buy: any two blocks that can be encoded differ in more symbols than there are of
 * them.
 */
module ErrorCorrection {
  import opened Distances
  import opened Bits
  import opened GaloisField
  import opened ReedSolomon
  import opened FieldInverse

  // The word vanishes at 2^0, 2^1, ..., 2^(d-1).
  ghost predicate Vanishes(word: seq<Byte>, d: nat) {
    forall k: nat | k < d :: Eval(word, Pow(2, k)) == 0
  }

  function Weight(word: seq<Byte>): nat {
    if word == [] then 0 else (if word[0] != 0 then 1 else 0) + Weight(word[1..])
  }

  // The locator of the first symbol of a word.
  function Locator(n: nat): Byte
    requires n > 0
  {
    Pow(2, n - 1)
  }

  // The sum over the symbols of symbol times X^k times p(X), where X is the symbol's locator.
  function Weighted(word: seq<Byte>, k: nat, p: seq<Byte>): Byte {
    if word == [] then 0
    else Add(Mul(word[0], Mul(Pow(Locator(|word|), k), Eval(p, Locator(|word|)))), Weighted(word[1..], k, p))
  }

  // ---------- the sum in terms of the values of the word ----------

  lemma WeightedNothing(word: seq<Byte>, k: nat)
    ensures Weighted(word, k, []) == 0
  {
    hide Mul, Add, Pow;
    if word != [] {
      WeightedNothing(word[1..], k);
      MulZero(Pow(Locator(|word|), k));
      MulZero(word[0]);
      AddLaws(0, 0, 0);
    }
  }

  // One term, when a coefficient is appended: c X^k (p(X) X + e) = c X^(k+1) p(X) + e c X^k.
  lemma TermAppend(c: Byte, xk: Byte, v: Byte, x: Byte, e: Byte)
    ensures Mul(c, Mul(xk, Add(Mul(v, x), e))) == Add(Mul(c, Mul(Mul(xk, x), v)), Mul(e, Mul(c, Mul(xk, 1))))
  {
    hide Mul, Add;
    MulDistributes(Mul(v, x), e, xk);
    MulDistributes(Mul(xk, Mul(v, x)), Mul(xk, e), c);
    MulCommutes(v, x);
    MulAssociates(xk, x, v);
    MulOne(xk);
    MulAssociates(c, xk, e);
    MulCommutes(Mul(c, xk), e);
  }

  lemma {:induction false} WeightedAppend(word: seq<Byte>, k: nat, p: seq<Byte>, e: Byte)
    ensures Weighted(word, k, p + [e]) == Add(Weighted(word, k + 1, p), Mul(e, Weighted(word, k, [1])))
  {
    hide Mul, Add, Eval;
    if word == [] {
      MulZero(e);
      AddLaws(0, 0, 0);
    } else {
      var c, x, rest := word[0], Locator(|word|), word[1..];
      WeightedAppend(rest, k, p, e);
      EvalAppend(p, e, x);
      EvalOne(1, x);
      TermAppend(c, Pow(x, k), Eval(p, x), x, e);
      MulDistributes(Mul(c, Mul(Pow(x, k), 1)), Weighted(rest, k, [1]), e);
      AddRearranges(Mul(c, Mul(Pow(x, k + 1), Eval(p, x))), Mul(e, Mul(c, Mul(Pow(x, k), 1))),
                    Weighted(rest, k + 1, p), Mul(e, Weighted(rest, k, [1])));
    }
  }

  lemma PowersSwap(m: nat, k: nat)
    ensures Pow(Pow(2, m), k) == Pow(Pow(2, k), m)
  {
    hide Pow;
    PowOfPow(2, m, k);
    PowOfPow(2, k, m);
    assert m * k == k * m;
  }

  // With the constant polynomial the sum is the value of the word at 2^k.
  lemma {:induction false} WeightedIsValue(word: seq<Byte>, k: nat)
    ensures Weighted(word, k, [1]) == Eval(word, Pow(2, k))
  {
    hide Mul, Add, Eval, Pow;
    if word == [] {
      EvalNothing(Pow(2, k));
    } else {
      var c, x, rest := word[0], Pow(2, k), word[1..];
      WeightedIsValue(rest, k);
      EvalConcat([c], rest, x);
      assert [c] + rest == word;
      EvalOne(c, x);
      EvalOne(1, Locator(|word|));
      MulOne(Pow(Locator(|word|), k));
      PowersSwap(|word| - 1, k);
    }
  }

  // A vanishing word is orthogonal to every polynomial with at most d coefficients.
  lemma {:induction false} VanishingOrthogonal(word: seq<Byte>, d: nat, k: nat, p: seq<Byte>)
    requires Vanishes(word, d) && k + |p| <= d
    ensures Weighted(word, k, p) == 0
    decreases |p|
  {
    hide Weighted, Mul, Add, Eval, Pow;
    if p == [] {
      WeightedNothing(word, k);
    } else {
      var q, e := p[..|p| - 1], p[|p| - 1];
      assert p == q + [e];
      WeightedAppend(word, k, q, e);
      VanishingOrthogonal(word, d, k + 1, q);
      WeightedIsValue(word, k);
      MulZero(e);
      AddLaws(0, 0, 0);
    }
  }

  // ---------- a polynomial that vanishes at all used locators but one ----------

  function Locators(word: seq<Byte>): seq<Byte> {
    if word == [] then [] else (if word[0] != 0 then [Locator(|word|)] else []) + Locators(word[1..])
  }

  function Product(xs: seq<Byte>): (p: seq<Byte>)
    ensures |p| == |xs| + 1
  {
    if xs == [] then [1] else TimesLinear(Product(xs[..|xs| - 1]), xs[|xs| - 1])
  }

  lemma {:induction false} ProductRoots(xs: seq<Byte>, x: Byte)
    ensures Eval(Product(xs), x) == 0 <==> x in xs
  {
    hide Mul, Add, TimesLinear, Eval;
    if xs == [] {
      EvalOne(1, x);
    } else {
      var init, a := xs[..|xs| - 1], xs[|xs| - 1];
      assert xs == init + [a];
      ProductRoots(init, x);
      TimesLinearValue(Product(init), a, x);
      var v, w := Eval(Product(init), x), Add(x, a);
      AddLaws(x, a, 0);
      MulZero(v);
      MulZero(w);
      if v != 0 && w != 0 { NoZeroDivisors(v, w); }
    }
  }

  lemma {:induction false} LocatorsCount(word: seq<Byte>)
    ensures |Locators(word)| == Weight(word)
  {
    if word != [] { LocatorsCount(word[1..]); }
  }

  // The locators of a word are powers of 2 below its length.
  lemma {:induction false} LocatorsBelow(word: seq<Byte>, x: Byte)
    requires x in Locators(word)
    ensures exists i: nat :: i < |word| && x == Pow(2, i)
  {
    hide Pow;
    if word[0] != 0 && x == Locator(|word|) {
      assert x == Pow(2, |word| - 1);
    } else {
      LocatorsBelow(word[1..], x);
      var i: nat :| i < |word| - 1 && x == Pow(2, i);
    }
  }

  // A sum all of whose terms vanish.
  lemma {:induction false} WeightedVanishes(word: seq<Byte>, p: seq<Byte>)
    requires forall x | x in Locators(word) :: Eval(p, x) == 0
    ensures Weighted(word, 0, p) == 0
  {
    hide Mul, Add, Eval, Pow;
    if word != [] {
      var x := Locator(|word|);
      var locators := Locators(word[1..]);
      forall y | y in locators ensures Eval(p, y) == 0 { assert y in Locators(word); }
      WeightedVanishes(word[1..], p);
      if word[0] != 0 { assert Locators(word)[0] == x; assert x in Locators(word); }
      MulZero(Pow(x, 0));
      MulZero(word[0]);
      MulZero(Mul(Pow(x, 0), Eval(p, x)));
      AddLaws(0, 0, 0);
    }
  }

  // ---------- the least weight ----------

  lemma LeadingZero(word: seq<Byte>, d: nat)
    requires Vanishes(word, d) && word != [] && word[0] == 0
    ensures Vanishes(word[1..], d)
  {
    hide Mul, Add, Eval, Pow;
    forall k: nat | k < d ensures Eval(word[1..], Pow(2, k)) == 0 {
      var x := Pow(2, k);
      EvalConcat([0], word[1..], x);
      assert [0] + word[1..] == word;
      EvalOne(0, x);
      MulZero(Pow(x, |word| - 1));
      AddLaws(Eval(word[1..], x), 0, 0);
    }
  }

  lemma FirstLocatorUnused(word: seq<Byte>)
    requires 0 < |word| <= 255
    ensures Locator(|word|) !in Locators(word[1..])
  {
    hide Pow;
    if Locator(|word|) in Locators(word[1..]) {
      LocatorsBelow(word[1..], Locator(|word|));
      var i: nat :| i < |word| - 1 && Locator(|word|) == Pow(2, i);
      PowersDistinct(i, |word| - 1);
    }
  }

  // A word of up to 255 symbols that vanishes at the first d powers of 2 has no, or more than d, non-zero symbols.
  lemma {:induction false} LeastWeight(word: seq<Byte>, d: nat)
    requires Vanishes(word, d) && |word| <= 255 && Weight(word) > 0
    ensures Weight(word) > d
  {
    hide Mul, Add, Eval, Pow, Vanishes, Product;
    if word[0] == 0 {
      LeadingZero(word, d);
      LeastWeight(word[1..], d);
    } else if Weight(word) <= d {
      var c, x, rest := word[0], Locator(|word|), word[1..];
      var p := Product(Locators(rest));
      LocatorsCount(rest);
      VanishingOrthogonal(word, d, 0, p);
      forall y | y in Locators(rest) ensures Eval(p, y) == 0 { ProductRoots(Locators(rest), y); }
      WeightedVanishes(rest, p);
      FirstLocatorUnused(word);
      ProductRoots(Locators(rest), x);
      FirstTerm(c, x, Eval(p, x));
      AddLaws(Mul(c, Mul(Pow(x, 0), Eval(p, x))), 0, 0);
    }
  }

  lemma FirstTerm(c: Byte, x: Byte, v: Byte)
    requires c != 0 && v != 0
    ensures Mul(c, Mul(Pow(x, 0), v)) != 0
  {
    hide Mul;
    MulOne(v);
    NoZeroDivisors(c, v);
  }

  // ---------- the distance between blocks ----------

  function Difference(a: seq<Byte>, b: seq<Byte>): (c: seq<Byte>)
    requires |a| == |b|
    ensures |c| == |a|
  {
    seq(|a|, i requires 0 <= i < |a| => Add(a[i], b[i]))
  }

  lemma {:induction false} DifferenceWeight(a: seq<Byte>, b: seq<Byte>)
    requires |a| == |b|
    ensures Weight(Difference(a, b)) == Distance(a, b)
  {
    hide Add;
    if a != [] {
      DifferenceWeight(a[1..], b[1..]);
      assert Difference(a, b)[1..] == Difference(a[1..], b[1..]);
      AddLaws(a[0], b[0], 0);
    }
  }

  lemma DifferenceVanishes(a: seq<Byte>, b: seq<Byte>, d: nat)
    requires |a| == |b| && Vanishes(a, d) && Vanishes(b, d)
    ensures Vanishes(Difference(a, b), d)
  {
    hide Mul, Add, Eval, Pow;
    forall k: nat | k < d ensures Eval(Difference(a, b), Pow(2, k)) == 0 {
      forall j | 0 <= j < |a| ensures Difference(a, b)[j] == Add(a[j], Mul(b[j], 1)) { MulOne(b[j]); }
      EvalScaledSum(a, b, 1, Difference(a, b), Pow(2, k));
      MulOne(0);
      AddLaws(0, 0, 0);
    }
  }

  lemma CodewordsVanish(data: seq<Byte>, degree: nat)
    requires degree >= 1
    ensures Vanishes(Codeword(data, degree), degree) && |Codeword(data, degree)| == |data| + degree
  {
    hide Eval, Pow, Remainder, Divisor;
    forall k: nat | k < degree
      ensures Eval(Codeword(data, degree), Pow(2, k)) == 0
    {
      CodewordVanishes(data, degree, k);
    }
  }

  // Blocks of different data differ in more symbols than there are error correction codewords.
  lemma MinimumDistance(a: seq<Byte>, b: seq<Byte>, degree: nat)
    requires |a| == |b| && a != b && degree >= 1 && |a| + degree <= 255
    ensures |Codeword(a, degree)| == |Codeword(b, degree)|
      && Distance(Codeword(a, degree), Codeword(b, degree)) > degree
  {
    hide Codeword, Vanishes, Distance, Difference, Weight;
    var u, v := Codeword(a, degree), Codeword(b, degree);
    CodewordsVanish(a, degree);
    CodewordsVanish(b, degree);
    DifferenceVanishes(u, v, degree);
    DifferenceWeight(u, v);
    CodewordHoldsData(a, degree);
    CodewordHoldsData(b, degree);
    DistanceZero(u, v);
    LeastWeight(Difference(u, v), degree);
  }

  lemma CodewordHoldsData(data: seq<Byte>, degree: nat)
    requires degree >= 1
    ensures |data| <= |Codeword(data, degree)| && Codeword(data, degree)[..|data|] == data
  {
    hide Remainder, Divisor;
  }

  // Up to half as many damaged symbols as there are error correction codewords leave only one possible block.
  lemma DamageDecides(received: seq<Byte>, a: seq<Byte>, b: seq<Byte>, degree: nat, errors: nat)
    requires |a| == |b| && degree >= 1 && |received| == |a| + degree <= 255 && 2 * errors <= degree
    requires |Codeword(a, degree)| == |received| && Distance(received, Codeword(a, degree)) <= errors
    requires |Codeword(b, degree)| == |received| && Distance(received, Codeword(b, degree)) <= errors
    ensures a == b
  {
    hide Codeword, Distance;
    if a != b {
      MinimumDistance(a, b, degree);
      Triangle(Codeword(a, degree), received, Codeword(b, degree));
    }
  }
}
