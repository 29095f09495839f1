/** Reading the version and format words of a finished symbol, also when a few of their modules are wrong. */
module SymbolInformation {
  import opened Bits
  import opened Distances
  import opened Versions
  import opened Modules
  import opened FunctionModules
  import opened LightModules
  import opened FormatBits
  import opened CheckBits
  import opened Masking
  import opened RawModules
  import opened Symbol

  // ---------- words as shown ----------

  // The digits of the version block above the lower left corner (`lower`), or of the one beside the upper right corner.
  function VersionDigitsAt(g: Grid, lower: bool): (s: seq<bool>)
    requires Square(g, |g|) && |g| >= 45
    ensures |s| == 18
  {
    var first := |g| - 11;
    seq(18, k requires 0 <= k < 18 => if lower then g[first + k % 3][k / 3] else g[k / 3][first + k % 3])
  }

  // The digits of the first or the second copy of the format word.
  function FormatDigitsAt(g: Grid, second: bool): (s: seq<bool>)
    requires Square(g, |g|) && |g| >= 21
    ensures |s| == 15
  {
    seq(15, k requires 0 <= k < 15 =>
      var p := if second then Second(|g|, k) else First(k);
      if 0 <= p.0 < |g| && 0 <= p.1 < |g| then g[p.1][p.0] else false)
  }

  lemma VersionDigitsShown(base: Grid, codewords: seq<Byte>, v: Version, e: Level, m: Mask, lower: bool)
    requires v >= 7 && IsBase(base, codewords, v)
    ensures VersionDigitsAt(Candidate(base, v, e, m), lower) == Digits(VersionWord(v), 18)
  {
    hide Candidate, Digits, WordBit, VersionWord, IsBase, Inverts, FormatColour, FormatWord, InAlignment, CodewordPath;
    BaseIsSquare(base, codewords, v);
    var g, digits := Candidate(base, v, e, m), Digits(VersionWord(v), 18);
    var s := VersionDigitsAt(g, lower);
    forall k: nat | k < 18 ensures s[k] == digits[k] {
      DigitAt(VersionWord(v), 18, k);
      var a: nat, b: nat := Side(v) - 11 + k % 3, k / 3;
      var x, y := if lower then b else a, if lower then a else b;
      BaseVersionColour(base, codewords, v, x, y);
      CandidateAt(base, v, e, m, x, y);
      assert VersionIndex(v, x, y) == k;
    }
  }

  lemma BaseVersionColour(base: Grid, codewords: seq<Byte>, v: Version, x: nat, y: nat)
    requires IsBase(base, codewords, v) && InVersionBlock(v, x, y)
    ensures IsFunction(v, x, y) && !IsFormat(Side(v), x, y)
    ensures Square(base, Side(v)) && base[y][x] == VersionColour(v, x, y)
  {
    hide VersionColour, InAlignment, CodewordPath;
  }

  lemma FormatDigitsShown(base: Grid, v: Version, e: Level, m: Mask, second: bool)
    requires Square(base, Side(v))
    ensures FormatDigitsAt(Candidate(base, v, e, m), second) == Digits(Wide(FormatWord(e, m)), 15)
  {
    hide Candidate, Digits, GetBit, FormatWord, IsFunction, Inverts, Wide;
    var g, w := Candidate(base, v, e, m), FormatWord(e, m);
    var s, digits := FormatDigitsAt(g, second), Digits(Wide(w), 15);
    forall k: nat | k < 15 ensures s[k] == digits[k] {
      DigitAt(Wide(w), 15, k);
      WideBit(w, k);
      var p := if second then Second(|g|, k) else First(k);
      CandidateAt(base, v, e, m, p.0, p.1);
    }
  }

  lemma {:induction false} WideBit(w: bv16, k: nat)
    ensures WordBit(Wide(w), k) == GetBit(w, k)
    decreases k
  {
    hide Wide, Half, Odd, HalfWord, OddWord;
    WideHalf(w);
    if k > 0 { WideBit(HalfWord(w), k - 1); }
  }

  lemma WideHalf(w: bv16)
    ensures Half(Wide(w)) == Wide(HalfWord(w)) && Odd(Wide(w)) == OddWord(w)
  {}

  // ---------- reading the version ----------

  // The version stands in the six highest digits.
  function ReadVersion(g: Grid, lower: bool): nat
    requires Square(g, |g|) && |g| >= 45
  {
    var s := VersionDigitsAt(g, lower);
    BitsNat([s[17], s[16], s[15], s[14], s[13], s[12]])
  }

  lemma VersionReadsBack(base: Grid, codewords: seq<Byte>, v: Version, e: Level, m: Mask, lower: bool)
    requires v >= 7 && IsBase(base, codewords, v)
    ensures ReadVersion(Candidate(base, v, e, m), lower) == v
  {
    hide Candidate, IsBase, WordBit, Digits, VersionWord, VersionDigitsAt, NatBits, BitsNat;
    BaseIsSquare(base, codewords, v);
    VersionDigitsShown(base, codewords, v, e, m, lower);
    VersionDigit(v, 0);
    VersionDigit(v, 1);
    VersionDigit(v, 2);
    VersionDigit(v, 3);
    VersionDigit(v, 4);
    VersionDigit(v, 5);
    var s := VersionDigitsAt(Candidate(base, v, e, m), lower);
    assert [s[17], s[16], s[15], s[14], s[13], s[12]] == NatBits(v, 6);
    SixBits(v);
    NatBitsRoundTrip(v, 6);
  }

  lemma VersionDigit(v: Version, k: nat)
    requires k < 6
    ensures Digits(VersionWord(v), 18)[12 + k] == NatBits(v, 6)[5 - k]
  {
    hide Digits, VersionWord, WordBit, NatBits;
    DigitAt(VersionWord(v), 18, 12 + k);
    TopOfVersionWord(v, k);
    NumberDigit(v, 6, k);
  }

  lemma SixBits(v: nat)
    requires v < 64
    ensures Shr(v, 6) == 0
  {
    assert Shr(v, 1) == v / 2;
    assert Shr(v, 2) == v / 4;
    assert Shr(v, 3) == v / 8;
    assert Shr(v, 4) == v / 16;
    assert Shr(v, 5) == v / 32;
  }

  lemma {:induction false} NumberDigit(x: nat, n: nat, k: nat)
    requires x < 64 && k < n
    ensures NatBits(x, n)[n - 1 - k] == WordBit(Number(x), k)
  {
    hide Half, Odd, Number;
    NumberHalf(x);
    if k > 0 { NumberDigit(x / 2, n - 1, k - 1); }
  }

  lemma TopOfVersionWord(v: Version, k: nat)
    ensures WordBit(VersionWord(v), 12 + k) == WordBit(Number(v), k)
  {
    hide WordBit, VersionRemainder, JoinWord, Half, Number, VersionData, Shifted;
    var d := VersionData(v);
    VersionDataSmall(v);
    VersionRemainderIs(d, 12);
    ShiftedWordBit(VersionWord(v), 12, k);
    ShiftedTwelve(VersionWord(v));
    JoinedAbove(d, VersionRemainder(d, 12));
    assert d == Number(v) by { SameNumber(v); }
  }

  lemma ShiftedTwelve(w: bv32)
    ensures Shifted(w, 12) == Skip3(Skip9(w))
  {
    hide Half, Shifted;
    ShiftedThree(w, 0);
    ShiftedThree(w, 3);
    ShiftedThree(w, 6);
    ShiftedThree(w, 9);
  }

  lemma ShiftedThree(w: bv32, k: nat)
    ensures Shifted(w, k + 3) == Skip3(Shifted(w, k)) && Shifted(w, 0) == w
  {
    hide Half;
    assert Shifted(w, k + 2) == Half(Shifted(w, k + 1));
  }

  lemma JoinedAbove(d: bv32, r: bv32)
    requires d < 64 && r < 0x1000
    ensures Skip3(Skip9(JoinWord(d, r))) == d
  {
    var w := JoinWord(d, r);
    assert Skip3(Skip9(w)) == w >> 12;
  }

  // ---------- a few wrong modules ----------

  // A version block with at most three wrong modules belongs to one version only.
  lemma VersionDecides(g: Grid, lower: bool, v: Version, v': Version)
    requires Square(g, |g|) && |g| >= 45
    requires Distance(VersionDigitsAt(g, lower), Digits(VersionWord(v), 18)) <= 3
    requires Distance(VersionDigitsAt(g, lower), Digits(VersionWord(v'), 18)) <= 3
    ensures v == v'
  {
    hide VersionDigitsAt, Digits, VersionWord, Distance;
    Triangle(Digits(VersionWord(v), 18), VersionDigitsAt(g, lower), Digits(VersionWord(v'), 18));
    if v != v' { VersionsFarApart(v, v'); }
  }

  // A copy of the format information with at most three wrong modules belongs to one level and mask only.
  lemma FormatDecides(g: Grid, second: bool, e: Level, m: Mask, e': Level, m': Mask)
    requires Square(g, |g|) && |g| >= 21
    requires Distance(FormatDigitsAt(g, second), Digits(Wide(FormatWord(e, m)), 15)) <= 3
    requires Distance(FormatDigitsAt(g, second), Digits(Wide(FormatWord(e', m')), 15)) <= 3
    ensures e == e' && m == m'
  {
    hide FormatDigitsAt, Digits, FormatWord, Distance, Wide;
    Triangle(Digits(Wide(FormatWord(e, m)), 15), FormatDigitsAt(g, second), Digits(Wide(FormatWord(e', m')), 15));
    if (e, m) != (e', m') { FormatsFarApart(e, m, e', m'); }
  }
}
