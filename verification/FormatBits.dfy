/** The two copies of the format information: error correction level and mask with their check bits. */
module FormatBits {
  import opened Bits
  import opened Versions
  import opened Modules
  import opened FunctionModules

  type Mask = m: int | 0 <= m < 8

  function HalfWord(w: bv16): bv16 { w >> 1 }

  predicate OddWord(w: bv16) { w & 1 != 0 }

  // getBit(x, i)
  predicate GetBit(w: bv16, i: nat) {
    if i == 0 then OddWord(w) else GetBit(HalfWord(w), i - 1)
  }

  // The order of levels in format information.
  function LevelCode(e: Level): bv16 {
    if e == 0 then 1 else if e == 1 then 0 else if e == 2 then 3 else 2
  }

  function MaskCode(m: Mask): bv16 {
    if m == 0 then 0 else if m == 1 then 1 else if m == 2 then 2 else if m == 3 then 3
    else if m == 4 then 4 else if m == 5 then 5 else if m == 6 then 6 else 7
  }

  function FormatData(e: Level, m: Mask): bv16 {
    (LevelCode(e) << 3) | MaskCode(m)
  }

  // One round of division by the generator 0x537.
  function FormatRound(r: bv16): bv16 {
    (r << 1) ^ ((r >> 9) * 0x537)
  }

  function FormatRemainder(data: bv16, rounds: nat): bv16 {
    if rounds == 0 then data else FormatRound(FormatRemainder(data, rounds - 1))
  }

  function JoinFormat(data: bv16, rem: bv16): bv16 {
    ((data << 10) | rem) ^ 0x5412
  }

  function FormatWord(e: Level, m: Mask): bv16 {
    JoinFormat(FormatData(e, m), FormatRemainder(FormatData(e, m), 10))
  }

  // ---------- where the bits go ----------

  predicate IsFormat(n: nat, x: int, y: int) {
    || (x == 8 && (0 <= y <= 5 || y == 7 || y == 8 || n - 8 <= y < n))
    || (y == 8 && (0 <= x <= 5 || x == 7 || n - 8 <= x < n))
  }

  // The number of the format bit at a module, or None for the module that is always dark.
  function FormatIndex(n: nat, x: int, y: int): (k: int)
    requires n >= 21 && IsFormat(n, x, y)
    ensures 0 <= k <= 15
  {
    if x == 8 then
      if y <= 5 then y else if y <= 8 then y - 1 else if y == n - 8 then 15 else y - n + 15
    else if x == 7 then 8 else if x <= 5 then 14 - x else n - 1 - x
  }

  predicate FormatColour(w: bv16, k: nat) {
    k == 15 || GetBit(w, k)
  }

  // The format information as drawn over a grid.
  ghost predicate FormatDrawn(n: nat, w: bv16, g: Grid, g': Grid) {
    && Square(g, n) && Square(g', n) && n >= 21
    && forall x: nat, y: nat | x < n && y < n ::
         g'[y][x] == if IsFormat(n, x, y) then FormatColour(w, FormatIndex(n, x, y)) else g[y][x]
  }

  // Drawn are the first `a` bits of the first copy and the first `b` modules of the second.
  ghost predicate FormatStage(n: nat, w: bv16, g0: Grid, g: Grid, a: int, b: int) {
    && Square(g0, n) && Square(g, n) && n >= 21
    && forall x: nat, y: nat | x < n && y < n ::
         g[y][x] == if IsFormat(n, x, y) && FormatIndex(n, x, y) < (if x <= 8 && y <= 8 then a else b)
                    then FormatColour(w, FormatIndex(n, x, y)) else g0[y][x]
  }

  function First(k: nat): (int, int) {
    if k <= 5 then (8, k) else if k <= 7 then (8, k + 1) else if k == 8 then (7, 8) else (14 - k, 8)
  }

  function Second(n: nat, k: nat): (int, int) {
    if k < 8 then (n - 1 - k, 8) else if k < 15 then (8, n - 15 + k) else (8, n - 8)
  }

  lemma FirstCopyStep(n: nat, w: bv16, g0: Grid, g: Grid, k: nat)
    requires FormatStage(n, w, g0, g, k, 0) && k < 15
    ensures FormatStage(n, w, g0, Paint(g, First(k).0, First(k).1, GetBit(w, k)), k + 1, 0)
  {
    hide GetBit;
  }

  lemma SecondCopyStep(n: nat, w: bv16, g0: Grid, g: Grid, k: nat)
    requires FormatStage(n, w, g0, g, 15, k) && k < 16
    ensures FormatStage(n, w, g0, Paint(g, Second(n, k).0, Second(n, k).1, FormatColour(w, k)), 15, k + 1)
  {
    hide GetBit;
  }

  lemma FormatStageEnds(n: nat, w: bv16, g0: Grid, g: Grid)
    requires Square(g0, n) && n >= 21
    ensures FormatStage(n, w, g0, g0, 0, 0)
    ensures FormatStage(n, w, g0, g, 15, 16) ==> FormatDrawn(n, w, g0, g)
  {
    hide GetBit;
  }

  method ComputeFormatWord(e: Level, m: Mask) returns (bits: bv16)
    ensures bits == FormatWord(e, m)
  {
    hide FormatRound, FormatData, JoinFormat;
    var data := FormatData(e, m);
    var rem := data;
    for i := 0 to 10
      invariant rem == FormatRemainder(data, i)
    {
      FormatRoundMeans(rem);
      rem := (rem << 1) ^ ((rem >> 9) * 0x537);
    }
    JoinFormatMeans(data, rem);
    bits := ((data << 10) | rem) ^ 0x5412;
  }

  lemma FormatRoundMeans(r: bv16)
    ensures FormatRound(r) == (r << 1) ^ ((r >> 9) * 0x537)
  {}

  lemma JoinFormatMeans(data: bv16, rem: bv16)
    ensures JoinFormat(data, rem) == ((data << 10) | rem) ^ 0x5412
  {}

  method DrawFormatBits(e: Level, m: Mask, qrcode: array<Byte>, ghost n: nat)
    requires Sized(qrcode[..], n)
    modifies qrcode
    ensures Sized(qrcode[..], n)
    ensures FormatDrawn(n, FormatWord(e, m), old(GridOf(qrcode[..], n)), GridOf(qrcode[..], n))
  {
    var qrsize := qrcode[0] as int;
    assert qrsize == n >= 21;
    hide Sized, GridOf, Paint, FormatStage, GetBit, FormatWord;
    var bits := ComputeFormatWord(e, m);
    ghost var g0 := GridOf(qrcode[..], n);
    FormatStageEnds(n, bits, g0, g0);
    DrawFirstCopy(bits, qrcode, n, g0);
    DrawSecondCopy(bits, qrcode, qrsize, g0);
    FormatStageEnds(n, bits, g0, GridOf(qrcode[..], n));
  }

  method DrawFirstCopy(bits: bv16, qrcode: array<Byte>, ghost n: nat, ghost g0: Grid)
    requires Sized(qrcode[..], n) && n >= 21 && FormatStage(n, bits, g0, GridOf(qrcode[..], n), 0, 0)
    modifies qrcode
    ensures Sized(qrcode[..], n) && FormatStage(n, bits, g0, GridOf(qrcode[..], n), 15, 0)
  {
    hide Sized, GridOf, Paint, FormatStage, GetBit;
    for i := 0 to 6
      invariant Sized(qrcode[..], n) && FormatStage(n, bits, g0, GridOf(qrcode[..], n), i, 0)
    {
      FirstCopyStep(n, bits, g0, GridOf(qrcode[..], n), i);
      SetModuleBounded(qrcode, 8, i, GetBit(bits, i), n);
    }
    FirstCopyStep(n, bits, g0, GridOf(qrcode[..], n), 6);
    SetModuleBounded(qrcode, 8, 7, GetBit(bits, 6), n);
    FirstCopyStep(n, bits, g0, GridOf(qrcode[..], n), 7);
    SetModuleBounded(qrcode, 8, 8, GetBit(bits, 7), n);
    FirstCopyStep(n, bits, g0, GridOf(qrcode[..], n), 8);
    SetModuleBounded(qrcode, 7, 8, GetBit(bits, 8), n);
    for i := 9 to 15
      invariant Sized(qrcode[..], n) && FormatStage(n, bits, g0, GridOf(qrcode[..], n), i, 0)
    {
      FirstCopyStep(n, bits, g0, GridOf(qrcode[..], n), i);
      SetModuleBounded(qrcode, 14 - i, 8, GetBit(bits, i), n);
    }
  }

  method DrawSecondCopy(bits: bv16, qrcode: array<Byte>, n: nat, ghost g0: Grid)
    requires Sized(qrcode[..], n) && n >= 21 && FormatStage(n, bits, g0, GridOf(qrcode[..], n), 15, 0)
    modifies qrcode
    ensures Sized(qrcode[..], n) && FormatStage(n, bits, g0, GridOf(qrcode[..], n), 15, 16)
  {
    hide Sized, GridOf, Paint, FormatStage, GetBit;
    for i := 0 to 8
      invariant Sized(qrcode[..], n) && FormatStage(n, bits, g0, GridOf(qrcode[..], n), 15, i)
    {
      SecondCopyStep(n, bits, g0, GridOf(qrcode[..], n), i);
      SetModuleBounded(qrcode, n - 1 - i, 8, GetBit(bits, i), n);
    }
    for i := 8 to 15
      invariant Sized(qrcode[..], n) && FormatStage(n, bits, g0, GridOf(qrcode[..], n), 15, i)
    {
      SecondCopyStep(n, bits, g0, GridOf(qrcode[..], n), i);
      SetModuleBounded(qrcode, 8, n - 15 + i, GetBit(bits, i), n);
    }
    SecondCopyStep(n, bits, g0, GridOf(qrcode[..], n), 15);
    SetModuleBounded(qrcode, 8, n - 8, true, n);
  }

  // Format modules are function modules.
  lemma FormatIsFunction(v: Version, x: int, y: int)
    requires IsFormat(Side(v), x, y)
    ensures IsFunction(v, x, y)
  {
    hide InAlignment, InVersionBlock;
  }

  // ---------- reading the format information back ----------

  // Bits of the five data bits, undone from the mask 0x5412 (10101 in its top five bits).
  function ReadLevel(g: Grid): (e: Level)
    requires |g| >= 21 && Square(g, |g|)
  {
    var hi, lo := !FormatBit(g, 14), FormatBit(g, 13);
    if hi then (if lo then 2 else 3) else (if lo then 0 else 1)
  }

  function ReadMask(g: Grid): (m: Mask)
    requires |g| >= 21 && Square(g, |g|)
  {
    (if FormatBit(g, 12) then 0 else 4) + (if FormatBit(g, 11) then 2 else 0) + (if FormatBit(g, 10) then 0 else 1)
  }

  predicate FormatBit(g: Grid, k: nat)
    requires 9 <= k < 15 && |g| >= 21 && Square(g, |g|)
  {
    g[8][14 - k]
  }

  lemma FormatReadsBack(n: nat, e: Level, m: Mask, g: Grid, g': Grid)
    requires FormatDrawn(n, FormatWord(e, m), g, g')
    ensures ReadLevel(g') == e && ReadMask(g') == m
  {
    hide GetBit, FormatWord;
    var w := FormatWord(e, m);
    TopBitsOfWord(e, m);
    assert g'[8][0] == GetBit(w, 14) && g'[8][1] == GetBit(w, 13) && g'[8][2] == GetBit(w, 12);
    assert g'[8][3] == GetBit(w, 11) && g'[8][4] == GetBit(w, 10);
  }

  predicate Has(w: bv16, mask: bv16) { w & mask != 0 }

  function HalfBy(w: bv16, k: nat): bv16 {
    if k == 0 then w else HalfWord(HalfBy(w, k - 1))
  }

  lemma {:induction false} BitOfHalf(w: bv16, k: nat, m: nat)
    ensures GetBit(HalfBy(w, k), m) == GetBit(w, k + m)
  {
    hide HalfWord, OddWord;
    if k > 0 { BitOfHalf(w, k - 1, m + 1); }
  }

  lemma HalfStep(w: bv16, u: bv16, k: nat)
    requires u == HalfBy(w, k)
    ensures HalfBy(w, k + 1) == HalfWord(u)
    ensures GetBit(w, k) == OddWord(u)
  {
    hide HalfWord, OddWord;
    BitOfHalf(w, k, 0);
  }

  lemma ShiftsCompose(w: bv16)
    ensures HalfWord(w) == w >> 1 && HalfWord(w >> 1) == w >> 2 && HalfWord(w >> 2) == w >> 3
      && HalfWord(w >> 3) == w >> 4
    ensures HalfWord(w >> 4) == w >> 5 && HalfWord(w >> 5) == w >> 6 && HalfWord(w >> 6) == w >> 7
      && HalfWord(w >> 7) == w >> 8
    ensures HalfWord(w >> 8) == w >> 9 && HalfWord(w >> 9) == w >> 10 && HalfWord(w >> 10) == w >> 11
    ensures HalfWord(w >> 11) == w >> 12 && HalfWord(w >> 12) == w >> 13 && HalfWord(w >> 13) == w >> 14
  {}

  lemma TopMasks(w: bv16)
    ensures OddWord(w >> 10) == Has(w, 0x400)
    ensures OddWord(w >> 11) == Has(w, 0x800)
    ensures OddWord(w >> 12) == Has(w, 0x1000)
    ensures OddWord(w >> 13) == Has(w, 0x2000)
    ensures OddWord(w >> 14) == Has(w, 0x4000)
  {}

  lemma TopBits(w: bv16)
    ensures GetBit(w, 10) == Has(w, 0x400) && GetBit(w, 11) == Has(w, 0x800) && GetBit(w, 12) == Has(w, 0x1000)
    ensures GetBit(w, 13) == Has(w, 0x2000) && GetBit(w, 14) == Has(w, 0x4000)
  {
    hide HalfWord, OddWord, GetBit, Has;
    ShiftsCompose(w);
    TopMasks(w);
    HalfStep(w, w, 0);
    HalfStep(w, w >> 1, 1);
    HalfStep(w, w >> 2, 2);
    HalfStep(w, w >> 3, 3);
    HalfStep(w, w >> 4, 4);
    HalfStep(w, w >> 5, 5);
    HalfStep(w, w >> 6, 6);
    HalfStep(w, w >> 7, 7);
    HalfStep(w, w >> 8, 8);
    HalfStep(w, w >> 9, 9);
    HalfStep(w, w >> 10, 10);
    HalfStep(w, w >> 11, 11);
    HalfStep(w, w >> 12, 12);
    HalfStep(w, w >> 13, 13);
    HalfStep(w, w >> 14, 14);
  }

  lemma RoundStaysSmall(r: bv16)
    requires r < 1024
    ensures FormatRound(r) < 1024
  {
    if r < 512 {
      assert r >> 9 == 0;
    } else {
      assert r >> 9 == 1;
    }
  }

  lemma {:induction false} RemainderStaysSmall(data: bv16, rounds: nat)
    requires data < 1024
    ensures FormatRemainder(data, rounds) < 1024
  {
    hide FormatRound;
    if rounds > 0 {
      RemainderStaysSmall(data, rounds - 1);
      RoundStaysSmall(FormatRemainder(data, rounds - 1));
    }
  }

  // The check bits stay below the data bits.
  lemma JoinedTop(data: bv16, rem: bv16)
    requires data < 32 && rem < 1024
    ensures var w := JoinFormat(data, rem);
      && Has(w, 0x4000) == !Has(data, 16) && Has(w, 0x2000) == Has(data, 8) && Has(w, 0x1000) == !Has(data, 4)
      && Has(w, 0x800) == Has(data, 2) && Has(w, 0x400) == !Has(data, 1)
  {
    assert rem & 0x7C00 == 0;
    var w := JoinFormat(data, rem);
    assert w & 0x7C00 == (data << 10) ^ 0x5400;
  }

  lemma DataOfLevelAndMask(l: bv16, k: bv16)
    requires l < 4 && k < 8
    ensures var d := (l << 3) | k;
      && d < 32 && Has(d, 16) == Has(l, 2) && Has(d, 8) == Has(l, 1) && Has(d, 4) == Has(k, 4)
      && Has(d, 2) == Has(k, 2) && Has(d, 1) == Has(k, 1)
  {}

  lemma LevelBits(e: Level)
    ensures LevelCode(e) < 4 && Has(LevelCode(e), 2) == (e == 2 || e == 3) && Has(LevelCode(e), 1) == (e == 0 || e == 2)
  {}

  lemma MaskBits(m: Mask)
    ensures MaskCode(m) < 8 && Has(MaskCode(m), 4) == (m >= 4) && Has(MaskCode(m), 2) == (m % 4 >= 2)
    ensures Has(MaskCode(m), 1) == (m % 2 == 1)
  {
    if m == 0 {} else if m == 1 {} else if m == 2 {} else if m == 3 {}
    else if m == 4 {} else if m == 5 {} else if m == 6 {} else {}
  }

  lemma TopBitsOfWord(e: Level, m: Mask)
    ensures var w := FormatWord(e, m);
      && GetBit(w, 14) == !(e == 2 || e == 3) && GetBit(w, 13) == (e == 0 || e == 2)
      && GetBit(w, 12) == !(m >= 4) && GetBit(w, 11) == (m % 4 >= 2) && GetBit(w, 10) == !(m % 2 == 1)
  {
    hide GetBit, JoinFormat, FormatRemainder, LevelCode, MaskCode, Has;
    LevelBits(e);
    MaskBits(m);
    DataOfLevelAndMask(LevelCode(e), MaskCode(m));
    var data := FormatData(e, m);
    SmallIsSmaller(data);
    RemainderStaysSmall(data, 10);
    JoinedTop(data, FormatRemainder(data, 10));
    TopBits(FormatWord(e, m));
  }

  lemma SmallIsSmaller(d: bv16)
    requires d < 32
    ensures d < 1024
  {}
}
