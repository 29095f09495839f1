/** What the check bits of the version and format words are for: two words of a kind differ in many bits. */
module CheckBits {
  import opened Distances
  import opened Versions
  import opened LightModules
  import opened FormatBits

  // ---------- exclusive or ----------

  function Xor(a: bv32, b: bv32): bv32 { a ^ b }

  lemma XorLaws(a: bv32, b: bv32, c: bv32)
    ensures Xor(Xor(a, b), c) == Xor(a, Xor(b, c)) && Xor(a, b) == Xor(b, a)
  {}

  lemma XorSame(a: bv32)
    ensures Xor(a, a) == 0 && Xor(a, 0) == a
  {}

  lemma XorRegroups(a: bv32, b: bv32, g: bv32)
    ensures Xor(Xor(a, g), b) == Xor(Xor(a, b), g) == Xor(a, Xor(b, g)) && Xor(Xor(a, g), Xor(b, g)) == Xor(a, b)
  {
    hide Xor;
    XorLaws(a, g, b);
    XorLaws(a, b, g);
    XorLaws(b, g, g);
    XorLaws(a, g, Xor(b, g));
    XorLaws(g, Xor(b, g), 0);
    XorSame(g);
    XorSame(b);
  }

  lemma XorPairs(a: bv32, b: bv32, c: bv32, d: bv32)
    ensures Xor(Xor(a, b), Xor(c, d)) == Xor(Xor(a, c), Xor(b, d))
  {
    hide Xor;
    XorLaws(a, b, Xor(c, d));
    XorLaws(b, c, d);
    XorLaws(c, b, d);
    XorLaws(a, c, Xor(b, d));
  }

  // ---------- words as digits ----------

  // The last n digits of a word, the lowest first.
  function Digits(w: bv32, n: nat): (s: seq<bool>)
    ensures |s| == n
  {
    if n == 0 then [] else [Odd(w)] + Digits(Half(w), n - 1)
  }

  lemma {:induction false} DigitAt(w: bv32, n: nat, k: nat)
    requires k < n
    ensures Digits(w, n)[k] == WordBit(w, k)
    decreases n
  {
    hide Half, Odd;
    if k > 0 { DigitAt(Half(w), n - 1, k - 1); }
  }

  function Ones(w: bv32, n: nat): nat {
    if n == 0 then 0 else (if Odd(w) then 1 else 0) + Ones(Half(w), n - 1)
  }

  lemma XorDigit(a: bv32, b: bv32)
    ensures Odd(Xor(a, b)) == (Odd(a) != Odd(b)) && Half(Xor(a, b)) == Xor(Half(a), Half(b))
  {}

  lemma {:induction false} DigitsDistance(a: bv32, b: bv32, n: nat)
    ensures Distance(Digits(a, n), Digits(b, n)) == Ones(Xor(a, b), n)
    decreases n
  {
    hide Half, Odd, Xor;
    if n > 0 {
      XorDigit(a, b);
      DigitsDistance(Half(a), Half(b), n - 1);
      assert Digits(a, n)[1..] == Digits(Half(a), n - 1) && Digits(b, n)[1..] == Digits(Half(b), n - 1);
    }
  }

  function Digit(w: bv32): bv32 { w & 1 }

  function Plus(a: bv32, b: bv32): bv32 { a + b }

  // The number of ones among the last n digits, as a word.
  function Sum(w: bv32, n: nat): bv32 {
    if n == 0 then 0 else Plus(Digit(w), Sum(Half(w), n - 1))
  }

  // The same without recursion, for fifteen and eighteen digits.
  function Skip3(w: bv32): bv32 {
    Half(Half(Half(w)))
  }

  function Sum3(w: bv32, rest: bv32): bv32 {
    var w1 := Half(w);
    var w2 := Half(w1);
    Plus(Digit(w), Plus(Digit(w1), Plus(Digit(w2), rest)))
  }

  function Sum9(w: bv32, rest: bv32): bv32 {
    var w3 := Skip3(w);
    var w6 := Skip3(w3);
    Sum3(w, Sum3(w3, Sum3(w6, rest)))
  }

  function Skip9(w: bv32): bv32 {
    Skip3(Skip3(Skip3(w)))
  }

  function Sum18(w: bv32): bv32 {
    Sum9(w, Sum9(Skip9(w), 0))
  }

  function Sum15(w: bv32): bv32 {
    Sum9(w, Sum3(Skip9(w), Sum3(Skip3(Skip9(w)), 0)))
  }

  lemma SumStep(w: bv32, n: nat)
    requires n > 0
    ensures Sum(w, n) == Plus(Digit(w), Sum(Half(w), n - 1)) && Sum(w, 0) == 0
  {}

  lemma ThreeSteps(w: bv32, n: nat)
    requires n >= 3
    ensures Sum(w, n) == Sum3(w, Sum(Skip3(w), n - 3))
  {
    hide Half, Digit, Sum, Plus;
    SumStep(w, n);
    SumStep(Half(w), n - 1);
    SumStep(Half(Half(w)), n - 2);
  }

  lemma NineSteps(w: bv32, n: nat)
    requires n >= 9
    ensures Sum(w, n) == Sum9(w, Sum(Skip9(w), n - 9))
  {
    hide Skip3, Sum3, Sum;
    ThreeSteps(w, n);
    ThreeSteps(Skip3(w), n - 3);
    ThreeSteps(Skip3(Skip3(w)), n - 6);
  }

  lemma SumIs(w: bv32)
    ensures Sum(w, 18) == Sum18(w) && Sum(w, 15) == Sum15(w)
  {
    hide Skip3, Skip9, Sum3, Sum9, Sum;
    SumStep(Skip9(Skip9(w)), 1);
    SumStep(Skip3(Skip3(Skip9(w))), 1);
    NineSteps(w, 18);
    NineSteps(w, 15);
    NineSteps(Skip9(w), 9);
    ThreeSteps(Skip9(w), 6);
    ThreeSteps(Skip3(Skip9(w)), 3);
  }

  function AsWord(k: nat): bv32 {
    if k == 0 then 0 else 1 + AsWord(k - 1)
  }

  lemma DigitIs(w: bv32)
    ensures Digit(w) == if Odd(w) then 1 else 0
  {}

  lemma {:induction false} SumIsOnes(w: bv32, n: nat)
    ensures Ones(w, n) <= n && Sum(w, n) == AsWord(Ones(w, n))
    decreases n
  {
    hide Half, Odd, Digit, Plus;
    DigitIs(w);
    if n > 0 {
      SumIsOnes(Half(w), n - 1);
      PlusOne(Sum(Half(w), n - 1));
    }
  }

  lemma PlusOne(w: bv32)
    ensures Plus(0, w) == w && Plus(1, w) == 1 + w
  {}

  lemma AtLeastEight(k: nat)
    requires AsWord(k) >= 8
    ensures k >= 8
  {
    assert AsWord(0) == 0 && AsWord(1) == 1 && AsWord(2) == 2 && AsWord(3) == 3;
    assert AsWord(4) == 4 && AsWord(5) == 5 && AsWord(6) == 6 && AsWord(7) == 7;
  }

  lemma AtLeastSeven(k: nat)
    requires AsWord(k) >= 7
    ensures k >= 7
  {
    assert AsWord(0) == 0 && AsWord(1) == 1 && AsWord(2) == 2 && AsWord(3) == 3;
    assert AsWord(4) == 4 && AsWord(5) == 5 && AsWord(6) == 6;
  }

  // ---------- division by a generator ----------

  // `generator` is a polynomial over GF(2), its coefficients the digits; `top` marks the digit below its highest.
  datatype Code = Code(top: bv32, generator: bv32)

  const VERSION_CODE := Code(0x800, 0x1F25)
  const FORMAT_CODE := Code(0x200, 0x537)

  function Doubled(w: bv32): bv32 { w << 1 }

  predicate Has(w: bv32, mask: bv32) { w & mask != 0 }

  function Round(r: bv32, c: Code): bv32 {
    if Has(r, c.top) then Xor(Doubled(r), c.generator) else Doubled(r)
  }

  function Remainder(d: bv32, c: Code, n: nat): bv32 {
    if n == 0 then d else Round(Remainder(d, c, n - 1), c)
  }

  function Raised(w: bv32, n: nat): bv32 {
    if n == 0 then w else Doubled(Raised(w, n - 1))
  }

  // The data followed by n check digits.
  function Word(d: bv32, c: Code, n: nat): bv32 {
    Xor(Raised(d, n), Remainder(d, c, n))
  }

  // The product of the generator and the polynomial with the coefficients q, the highest first.
  function Multiple(q: seq<bool>, c: Code): bv32 {
    if q == [] then 0
    else
      var twice := Doubled(Multiple(q[..|q| - 1], c));
      if q[|q| - 1] then Xor(twice, c.generator) else twice
  }

  lemma DoubledAdds(a: bv32, b: bv32)
    ensures Doubled(Xor(a, b)) == Xor(Doubled(a), Doubled(b))
  {}

  // Every word is a multiple of the generator.
  lemma {:induction false} WordIsMultiple(d: bv32, c: Code, n: nat) returns (q: seq<bool>)
    ensures |q| == n && Word(d, c, n) == Multiple(q, c)
  {
    hide Xor, Doubled, Has;
    if n == 0 {
      q := [];
      XorSame(d);
    } else {
      var q' := WordIsMultiple(d, c, n - 1);
      var a, r := Raised(d, n - 1), Remainder(d, c, n - 1);
      q := q' + [Has(r, c.top)];
      assert q[..|q| - 1] == q';
      DoubledAdds(a, r);
      XorLaws(Doubled(a), Doubled(r), c.generator);
    }
  }

  lemma TopAdds(a: bv32, b: bv32, c: Code)
    requires c == VERSION_CODE || c == FORMAT_CODE
    ensures Has(Xor(a, b), c.top) == (Has(a, c.top) != Has(b, c.top))
  {}

  lemma RoundAdds(a: bv32, b: bv32, c: Code)
    requires c == VERSION_CODE || c == FORMAT_CODE
    ensures Round(Xor(a, b), c) == Xor(Round(a, c), Round(b, c))
  {
    hide Xor, Doubled, Has;
    DoubledAdds(a, b);
    TopAdds(a, b, c);
    XorRegroups(Doubled(a), Doubled(b), c.generator);
  }

  // The code is linear.
  lemma {:induction false} WordAdds(a: bv32, b: bv32, c: Code, n: nat)
    requires c == VERSION_CODE || c == FORMAT_CODE
    ensures Raised(Xor(a, b), n) == Xor(Raised(a, n), Raised(b, n))
    ensures Remainder(Xor(a, b), c, n) == Xor(Remainder(a, c, n), Remainder(b, c, n))
    ensures Word(Xor(a, b), c, n) == Xor(Word(a, c, n), Word(b, c, n))
  {
    hide Xor, Doubled, Round;
    if n > 0 {
      WordAdds(a, b, c, n - 1);
      DoubledAdds(Raised(a, n - 1), Raised(b, n - 1));
      RoundAdds(Remainder(a, c, n - 1), Remainder(b, c, n - 1), c);
    }
    XorPairs(Raised(a, n), Remainder(a, c, n), Raised(b, n), Remainder(b, c, n));
  }

  // ---------- least weights ----------

  function Round2(r: bv32, c: Code): bv32 { Round(Round(r, c), c) }

  function Round10(r: bv32, c: Code): bv32 { Round2(Round2(Round2(Round2(Round2(r, c), c), c), c), c) }

  lemma TwoMore(d: bv32, c: Code, n: nat)
    ensures Remainder(d, c, n + 2) == Round2(Remainder(d, c, n), c)
      && Raised(d, n + 2) == Doubled(Doubled(Raised(d, n)))
  {
    hide Round, Doubled;
    assert Remainder(d, c, n + 2) == Round(Remainder(d, c, n + 1), c);
    assert Raised(d, n + 2) == Doubled(Raised(d, n + 1));
  }

  lemma DoubledTwice(d: bv32)
    ensures Doubled(Doubled(d)) == d << 2 && Doubled(Doubled(d << 2)) == d << 4 && Doubled(Doubled(d << 4)) == d << 6
    ensures Doubled(Doubled(d << 6)) == d << 8 && Doubled(Doubled(d << 8)) == d << 10
      && Doubled(Doubled(d << 10)) == d << 12
  {}

  lemma TenOrTwelve(d: bv32, c: Code)
    ensures Remainder(d, c, 10) == Round10(d, c) && Remainder(d, c, 12) == Round2(Round10(d, c), c)
    ensures Raised(d, 10) == d << 10 && Raised(d, 12) == d << 12
  {
    hide Round2, Remainder, Raised, Doubled;
    DoubledTwice(d);
    assert Remainder(d, c, 0) == d && Raised(d, 0) == d by { NoRounds(d, c); }
    TwoMore(d, c, 0);
    TwoMore(d, c, 2);
    TwoMore(d, c, 4);
    TwoMore(d, c, 6);
    TwoMore(d, c, 8);
    TwoMore(d, c, 10);
  }

  lemma NoRounds(d: bv32, c: Code)
    ensures Remainder(d, c, 0) == d && Raised(d, 0) == d
  {}

  lemma VersionSum(d: bv32)
    requires 0 < d < 64
    ensures Sum18(Xor(d << 12, Round2(Round10(d, VERSION_CODE), VERSION_CODE))) >= 8
  {}

  lemma FormatSum(d: bv32)
    requires 0 < d < 32
    ensures Sum15(Xor(d << 10, Round10(d, FORMAT_CODE))) >= 7
  {}

  // Two different words of the code differ in many of their digits.
  lemma WordsFarApart(a: bv32, b: bv32, c: Code)
    requires a != b && if c == VERSION_CODE then a < 64 && b < 64 else c == FORMAT_CODE && a < 32 && b < 32
    ensures c == VERSION_CODE ==> Distance(Digits(Word(a, c, 12), 18), Digits(Word(b, c, 12), 18)) >= 8
    ensures c == FORMAT_CODE ==> Distance(Digits(Word(a, c, 10), 15), Digits(Word(b, c, 10), 15)) >= 7
  {
    hide Digits, Distance, Ones, Xor, Sum, Sum18, Sum15, Remainder, Raised, Round2, Round10, AsWord;
    var d := Xor(a, b);
    XorNotZero(a, b);
    TenOrTwelve(d, c);
    WordAdds(a, b, c, 12);
    WordAdds(a, b, c, 10);
    SumIs(Word(d, c, 12));
    SumIs(Word(d, c, 10));
    SumIsOnes(Word(d, c, 12), 18);
    SumIsOnes(Word(d, c, 10), 15);
    DigitsDistance(Word(a, c, 12), Word(b, c, 12), 18);
    DigitsDistance(Word(a, c, 10), Word(b, c, 10), 15);
    if c == VERSION_CODE {
      VersionSum(d);
      AtLeastEight(Ones(Word(d, c, 12), 18));
    } else {
      FormatSum(d);
      AtLeastSeven(Ones(Word(d, c, 10), 15));
    }
  }

  lemma XorNotZero(a: bv32, b: bv32)
    requires a != b
    ensures Xor(a, b) != 0
    ensures a < 64 && b < 64 ==> Xor(a, b) < 64
    ensures a < 32 && b < 32 ==> Xor(a, b) < 32
  {
    hide Xor;
    XorLaws(a, b, b);
    XorLaws(0, b, b);
    XorSame(a);
    XorSame(b);
    if a < 64 && b < 64 { XorBelow64(a, b); }
    if a < 32 && b < 32 { XorBelow32(a, b); }
  }

  lemma XorBelow64(a: bv32, b: bv32)
    requires a < 64 && b < 64
    ensures Xor(a, b) < 64
  {
    assert a & 0xFFFF_FFC0 == 0 && b & 0xFFFF_FFC0 == 0;
    assert Xor(a, b) & 0xFFFF_FFC0 == 0;
  }

  lemma XorBelow32(a: bv32, b: bv32)
    requires a < 32 && b < 32
    ensures Xor(a, b) < 32
  {
    assert a & 0xFFFF_FFE0 == 0 && b & 0xFFFF_FFE0 == 0;
    assert Xor(a, b) & 0xFFFF_FFE0 == 0;
  }

  // ---------- version words ----------

  lemma VersionRoundIs(r: bv32)
    requires r < 0x1000
    ensures VersionRound(r) < 0x1000 && VersionRound(r) == Round(r, VERSION_CODE)
  {
    if r < 0x800 { assert r >> 11 == 0; } else { assert r >> 11 == 1; }
  }

  lemma {:induction false} VersionRemainderIs(d: bv32, n: nat)
    requires d < 0x1000
    ensures VersionRemainder(d, n) < 0x1000 && VersionRemainder(d, n) == Remainder(d, VERSION_CODE, n)
  {
    hide VersionRound, Round;
    if n > 0 {
      VersionRemainderIs(d, n - 1);
      VersionRoundIs(VersionRemainder(d, n - 1));
    }
  }

  lemma JoinIsXor(d: bv32, r: bv32)
    requires r < 0x1000
    ensures JoinWord(d, r) == Xor(d << 12, r)
  {
    assert r & 0xFFFF_F000 == 0;
    ShiftedApart(d, r);
    OrIsXor(d << 12, r);
  }

  lemma ShiftedApart(d: bv32, r: bv32)
    requires r & 0xFFFF_F000 == 0
    ensures (d << 12) & r == 0
  {
    assert (d << 12) & 0x0FFF == 0;
  }

  lemma OrIsXor(a: bv32, b: bv32)
    requires a & b == 0
    ensures a | b == a ^ b
  {}

  lemma VersionDataSmall(v: Version)
    ensures 0 < VersionData(v) < 64
  {}

  lemma VersionWordIs(v: Version)
    ensures VersionWord(v) == Word(VersionData(v), VERSION_CODE, 12)
  {
    hide Remainder, VersionRemainder, Raised, Xor, JoinWord, VersionData, Round2, Round10;
    var d := VersionData(v);
    VersionDataSmall(v);
    VersionRemainderIs(d, 12);
    JoinIsXor(d, VersionRemainder(d, 12));
    TenOrTwelve(d, VERSION_CODE);
  }

  // The version word divides by the generator without remainder.
  lemma VersionWordDivides(v: Version) returns (q: seq<bool>)
    ensures |q| == 12 && VersionWord(v) == Multiple(q, VERSION_CODE)
  {
    hide Word, VersionWord, VersionData, Multiple;
    VersionWordIs(v);
    q := WordIsMultiple(VersionData(v), VERSION_CODE, 12);
  }

  // Two version words differ in at least eight of their eighteen digits.
  lemma VersionsFarApart(v: Version, v': Version)
    requires v != v'
    ensures Distance(Digits(VersionWord(v), 18), Digits(VersionWord(v'), 18)) >= 8
  {
    hide Distance, Digits, Word, VersionWord, VersionData;
    VersionDataSmall(v);
    VersionDataSmall(v');
    VersionDataDiffers(v, v');
    VersionWordIs(v);
    VersionWordIs(v');
    WordsFarApart(VersionData(v), VersionData(v'), VERSION_CODE);
  }

  lemma VersionDataDiffers(v: Version, v': Version)
    requires v != v'
    ensures VersionData(v) != VersionData(v')
  {
    hide Number;
    if Number(v) == Number(v') { NumberInjective(v, v'); }
    assert VersionData(v) == Number(v) by { SameNumber(v); }
    assert VersionData(v') == Number(v') by { SameNumber(v'); }
  }

  function Number(x: nat): bv32
    requires x < 64
  {
    x as bv32
  }

  lemma SameNumber(v: Version)
    ensures VersionData(v) == Number(v)
  {}

  lemma NumberHalf(x: nat)
    requires x < 64
    ensures Half(Number(x)) == Number(x / 2) && Odd(Number(x)) == (x % 2 == 1)
  {}

  lemma {:induction false} NumberInjective(x: nat, y: nat)
    requires x < 64 && y < 64 && Number(x) == Number(y)
    ensures x == y
  {
    hide Number, Half, Odd;
    NumberHalf(x);
    NumberHalf(y);
    if x > 0 || y > 0 { NumberInjective(x / 2, y / 2); }
  }

  // ---------- format words ----------

  function Wide(w: bv16): bv32 { w as bv32 }

  lemma FormatRoundIs(r: bv16)
    requires r < 0x400
    ensures FormatRound(r) < 0x400 && Wide(FormatRound(r)) == Round(Wide(r), FORMAT_CODE)
  {
    if r < 0x200 { assert r >> 9 == 0; } else { assert r >> 9 == 1; }
  }

  lemma {:induction false} FormatRemainderIs(d: bv16, n: nat)
    requires d < 0x400
    ensures FormatRemainder(d, n) < 0x400 && Wide(FormatRemainder(d, n)) == Remainder(Wide(d), FORMAT_CODE, n)
  {
    hide FormatRound, Round, Wide;
    if n > 0 {
      FormatRemainderIs(d, n - 1);
      FormatRoundIs(FormatRemainder(d, n - 1));
    }
  }

  lemma JoinFormatIs(d: bv16, r: bv16)
    requires d < 32 && r < 0x400
    ensures Wide(JoinFormat(d, r)) == Xor(Xor(Wide(d) << 10, Wide(r)), 0x5412)
  {
    assert (d << 10) & r == 0;
    assert (d << 10) | r == (d << 10) ^ r;
  }

  lemma FormatDataSmall(e: Level, m: Mask)
    ensures FormatData(e, m) < 32 && Wide(FormatData(e, m)) < 32
  {
    hide LevelCode, MaskCode;
    LevelBits(e);
    MaskBits(m);
  }

  lemma FormatWordIs(e: Level, m: Mask)
    ensures Wide(FormatWord(e, m)) == Xor(Word(Wide(FormatData(e, m)), FORMAT_CODE, 10), 0x5412)
  {
    hide FormatData, Wide, Remainder, FormatRemainder, Raised, Xor, JoinFormat, Round2, Round10;
    var d := FormatData(e, m);
    FormatDataSmall(e, m);
    SmallIsSmaller(d);
    FormatRemainderIs(d, 10);
    JoinFormatIs(d, FormatRemainder(d, 10));
    TenOrTwelve(Wide(d), FORMAT_CODE);
  }

  // So does the format word, apart from the fixed pattern laid over it.
  lemma FormatWordDivides(e: Level, m: Mask) returns (q: seq<bool>)
    ensures |q| == 10 && Xor(Wide(FormatWord(e, m)), 0x5412) == Multiple(q, FORMAT_CODE)
  {
    hide Word, FormatWord, FormatData, Multiple, Xor, Wide;
    var d := Wide(FormatData(e, m));
    FormatWordIs(e, m);
    XorLaws(Word(d, FORMAT_CODE, 10), 0x5412, 0x5412);
    XorSame(0x5412);
    XorSame(Word(d, FORMAT_CODE, 10));
    q := WordIsMultiple(d, FORMAT_CODE, 10);
  }

  lemma FormatDataDiffers(e: Level, m: Mask, e': Level, m': Mask)
    requires (e, m) != (e', m')
    ensures Wide(FormatData(e, m)) != Wide(FormatData(e', m'))
  {
    hide LevelCode, MaskCode, FormatBits.Has;
    LevelBits(e);
    MaskBits(m);
    LevelBits(e');
    MaskBits(m');
    DataOfLevelAndMask(LevelCode(e), MaskCode(m));
    DataOfLevelAndMask(LevelCode(e'), MaskCode(m'));
  }

  // Two format words differ in at least seven of their fifteen digits.
  lemma FormatsFarApart(e: Level, m: Mask, e': Level, m': Mask)
    requires (e, m) != (e', m')
    ensures Distance(Digits(Wide(FormatWord(e, m)), 15), Digits(Wide(FormatWord(e', m')), 15)) >= 7
  {
    hide Distance, Digits, Word, FormatWord, FormatData, Xor, Wide;
    var d, d' := Wide(FormatData(e, m)), Wide(FormatData(e', m'));
    FormatDataSmall(e, m);
    FormatDataSmall(e', m');
    FormatDataDiffers(e, m, e', m');
    FormatWordIs(e, m);
    FormatWordIs(e', m');
    WordsFarApart(d, d', FORMAT_CODE);
    var a, b := Word(d, FORMAT_CODE, 10), Word(d', FORMAT_CODE, 10);
    DigitsDistance(a, b, 15);
    DigitsDistance(Xor(a, 0x5412), Xor(b, 0x5412), 15);
    XorRegroups(a, b, 0x5412);
  }
}
