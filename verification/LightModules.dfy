/** Painting the light function modules and the version blocks over the marked function modules. */
module LightModules {
  import opened Arithmetic
  import opened Bits
  import opened Versions
  import opened Modules
  import opened FunctionModules

  // Chebyshev distance from the centre of a pattern.
  function Ring(dx: int, dy: int): nat {
    if Abs(dx) < Abs(dy) then Abs(dy) else Abs(dx)
  }

  predicate FinderLight(dx: int, dy: int) {
    Ring(dx, dy) == 2 || Ring(dx, dy) == 4
  }

  predicate InFinderLight(n: nat, x: int, y: int) {
    FinderLight(x - 3, y - 3) || FinderLight(x - (n - 4), y - 3) || FinderLight(x - 3, y - (n - 4))
  }

  predicate TimingLight(n: nat, x: int, y: int) {
    (x == 6 && 7 <= y < n - 7 && y % 2 == 1) || (y == 6 && 7 <= x < n - 7 && x % 2 == 1)
  }

  // ---------- the version word ----------

  function Half(w: bv32): bv32 { w >> 1 }

  predicate Odd(w: bv32) { w & 1 != 0 }

  // Bit k of a word.
  predicate WordBit(w: bv32, k: nat) {
    if k == 0 then Odd(w) else WordBit(Half(w), k - 1)
  }

  // One round of division by the generator 0x1F25.
  function VersionRound(r: bv32): bv32 {
    (r << 1) ^ ((r >> 11) * 0x1F25)
  }

  function VersionRemainder(data: bv32, rounds: nat): bv32 {
    if rounds == 0 then data else VersionRound(VersionRemainder(data, rounds - 1))
  }

  function VersionData(v: Version): bv32 { v as bv32 }

  function JoinWord(data: bv32, rem: bv32): bv32 { (data << 12) | rem }

  function VersionWord(v: Version): bv32 {
    JoinWord(VersionData(v), VersionRemainder(VersionData(v), 12))
  }

  // The number of the version bit at a module of a version block.
  function VersionIndex(v: Version, x: int, y: int): (k: int)
    requires InVersionBlock(v, x, y)
    ensures 0 <= k < 18
  {
    if y <= 5 then 3 * y + x - (Side(v) - 11) else 3 * x + y - (Side(v) - 11)
  }

  // Colour of a module of either version block; the two blocks mirror each other.
  function VersionColour(v: Version, x: int, y: int): bool
    requires InVersionBlock(v, x, y)
  {
    WordBit(VersionWord(v), VersionIndex(v, x, y))
  }

  // ---------- what the drawing pass leaves at each module ----------

  function LightPass(v: Version, x: int, y: int, before: bool): bool {
    if InVersionBlock(v, x, y) then VersionColour(v, x, y)
    else if InAlignment(v, x, y, 1) then InAlignment(v, x, y, 0)
    else if InFinderLight(Side(v), x, y) || TimingLight(Side(v), x, y) then false
    else before
  }

  // ---------- timing patterns ----------

  ghost predicate TimingStage(n: nat, g0: Grid, g: Grid, i: nat) {
    && Square(g0, n) && Square(g, n)
    && forall x: nat, y: nat | x < n && y < n :: g[y][x] == (!(TimingLight(n, x, y) && x < i && y < i) && g0[y][x])
  }

  lemma TimingStageStep(n: nat, g0: Grid, g: Grid, i: nat)
    requires TimingStage(n, g0, g, i) && 7 <= i < n - 7 && i % 2 == 1
    ensures TimingStage(n, g0, Paint(Paint(g, 6, i, false), i, 6, false), i + 2)
  {}

  method DrawTiming(qrcode: array<Byte>, n: nat)
    requires Sized(qrcode[..], n) && n % 2 == 1
    modifies qrcode
    ensures Sized(qrcode[..], n)
    ensures TimingStage(n, old(GridOf(qrcode[..], n)), GridOf(qrcode[..], n), n)
  {
    hide Sized, GridOf, Paint, TimingStage;
    ghost var g0 := GridOf(qrcode[..], n);
    assert n >= 21 by { SizedRange(qrcode[..], n); }
    var i := 7;
    TimingStageEnds(n, g0, g0, 0);
    while i < n - 7
      invariant 7 <= i <= n - 6 && i % 2 == 1
      invariant Sized(qrcode[..], n) && TimingStage(n, g0, GridOf(qrcode[..], n), i)
    {
      TimingStageStep(n, g0, GridOf(qrcode[..], n), i);
      SetModuleBounded(qrcode, 6, i, false, n);
      SetModuleBounded(qrcode, i, 6, false, n);
      i := i + 2;
    }
    TimingStageEnds(n, g0, GridOf(qrcode[..], n), i);
  }

  lemma SizedRange(q: seq<Byte>, n: nat)
    requires Sized(q, n)
    ensures 21 <= n <= 177
  {}

  lemma TimingStageEnds(n: nat, g0: Grid, g: Grid, i: nat)
    requires Square(g0, n)
    ensures TimingStage(n, g0, g0, 7)
    ensures TimingStage(n, g0, g, i) && i >= n - 7 ==> TimingStage(n, g0, g, n)
  {}

  // ---------- finder patterns ----------

  // Offset (ox, oy) comes before (dx, dy) in the row-by-row scan of a pattern.
  predicate ScannedBefore(ox: int, oy: int, dx: int, dy: int) {
    oy < dy || (oy == dy && ox < dx)
  }

  // A light module of the rings around (cx, cy) already drawn when the scan reaches (dx, dy).
  predicate RingDrawn(cx: int, cy: int, x: int, y: int, dx: int, dy: int) {
    FinderLight(x - cx, y - cy) && ScannedBefore(x - cx, y - cy, dx, dy)
  }

  predicate FindersDrawn(n: nat, x: int, y: int, dx: int, dy: int) {
    RingDrawn(3, 3, x, y, dx, dy) || RingDrawn(n - 4, 3, x, y, dx, dy) || RingDrawn(3, n - 4, x, y, dx, dy)
  }

  ghost predicate FinderStage(n: nat, g0: Grid, g: Grid, dx: int, dy: int) {
    && Square(g0, n) && Square(g, n)
    && forall x: nat, y: nat | x < n && y < n :: g[y][x] == (!FindersDrawn(n, x, y, dx, dy) && g0[y][x])
  }

  function PaintUnbounded(g: Grid, n: nat, x: int, y: int, dark: bool): (g': Grid)
    requires Square(g, n)
    ensures Square(g', n)
  {
    if 0 <= x < n && 0 <= y < n then Paint(g, x, y, dark) else g
  }

  function PaintThree(g: Grid, n: nat, dx: int, dy: int): (g': Grid)
    requires Square(g, n)
    ensures Square(g', n)
  {
    var g1 := PaintUnbounded(g, n, 3 + dx, 3 + dy, false);
    var g2 := PaintUnbounded(g1, n, n - 4 + dx, 3 + dy, false);
    PaintUnbounded(g2, n, 3 + dx, n - 4 + dy, false)
  }

  lemma PaintThreeAt(g: Grid, n: nat, dx: int, dy: int, x: nat, y: nat)
    requires Square(g, n) && x < n && y < n
    ensures PaintThree(g, n, dx, dy)[y][x]
         == (!((x == 3 + dx && y == 3 + dy) || (x == n - 4 + dx && y == 3 + dy) || (x == 3 + dx && y == n - 4 + dy))
           && g[y][x])
  {}

  lemma RingDrawnStep(cx: int, cy: int, x: int, y: int, dx: int, dy: int)
    requires -4 <= dx <= 4
    ensures RingDrawn(cx, cy, x, y, dx + 1, dy)
       <==> RingDrawn(cx, cy, x, y, dx, dy) || (FinderLight(dx, dy) && x == cx + dx && y == cy + dy)
    ensures RingDrawn(cx, cy, x, y, 5, dy) <==> RingDrawn(cx, cy, x, y, -4, dy + 1)
    ensures !RingDrawn(cx, cy, x, y, -4, -4)
    ensures RingDrawn(cx, cy, x, y, -4, 5) <==> FinderLight(x - cx, y - cy)
  {}

  lemma FinderStageStep(n: nat, g0: Grid, g: Grid, dx: int, dy: int)
    requires FinderStage(n, g0, g, dx, dy) && -4 <= dx <= 4
    ensures FinderStage(n, g0, if FinderLight(dx, dy) then PaintThree(g, n, dx, dy) else g, dx + 1, dy)
  {
    hide RingDrawn, PaintThree, FinderLight;
    forall x: nat, y: nat | x < n && y < n
      ensures (if FinderLight(dx, dy) then PaintThree(g, n, dx, dy) else g)[y][x]
        == (!FindersDrawn(n, x, y, dx + 1, dy) && g0[y][x])
    {
      PaintThreeAt(g, n, dx, dy, x, y);
      RingDrawnStep(3, 3, x, y, dx, dy);
      RingDrawnStep(n - 4, 3, x, y, dx, dy);
      RingDrawnStep(3, n - 4, x, y, dx, dy);
    }
  }

  lemma FinderStageEnds(n: nat, g0: Grid, g: Grid, dy: int)
    requires Square(g0, n)
    ensures FinderStage(n, g0, g0, -4, -4)
    ensures FinderStage(n, g0, g, 5, dy) ==> FinderStage(n, g0, g, -4, dy + 1)
    ensures FinderStage(n, g0, g, -4, 5) ==>
      forall x: nat, y: nat | x < n && y < n :: g[y][x] == (!InFinderLight(n, x, y) && g0[y][x])
  {
    hide RingDrawn, FinderLight;
    forall x: nat, y: nat | x < n && y < n
      ensures !FindersDrawn(n, x, y, -4, -4)
      ensures FindersDrawn(n, x, y, 5, dy) == FindersDrawn(n, x, y, -4, dy + 1)
      ensures FindersDrawn(n, x, y, -4, 5) == InFinderLight(n, x, y)
    {
      RingDrawnStep(3, 3, x, y, 0, dy);
      RingDrawnStep(n - 4, 3, x, y, 0, dy);
      RingDrawnStep(3, n - 4, x, y, 0, dy);
    }
  }

  method DrawFinders(qrcode: array<Byte>, n: nat)
    requires Sized(qrcode[..], n)
    modifies qrcode
    ensures Sized(qrcode[..], n)
    ensures forall x: nat, y: nat | x < n && y < n ::
              GridOf(qrcode[..], n)[y][x] == (!InFinderLight(n, x, y) && old(GridOf(qrcode[..], n))[y][x])
  {
    hide Sized, GridOf, Paint, FinderStage, InFinderLight;
    ghost var g0 := GridOf(qrcode[..], n);
    FinderStageEnds(n, g0, g0, 0);
    for dy := -4 to 5
      invariant Sized(qrcode[..], n) && FinderStage(n, g0, GridOf(qrcode[..], n), -4, dy)
    {
      for dx := -4 to 5
        invariant Sized(qrcode[..], n) && FinderStage(n, g0, GridOf(qrcode[..], n), dx, dy)
      {
        FinderStageStep(n, g0, GridOf(qrcode[..], n), dx, dy);
        var dist := Abs(dx);
        if Abs(dy) > dist { dist := Abs(dy); }
        if dist == 2 || dist == 4 {
          SetModuleUnbounded(qrcode, 3 + dx, 3 + dy, false, n);
          SetModuleUnbounded(qrcode, n - 4 + dx, 3 + dy, false, n);
          SetModuleUnbounded(qrcode, 3 + dx, n - 4 + dy, false, n);
        }
      }
      FinderStageEnds(n, g0, GridOf(qrcode[..], n), dy);
    }
    FinderStageEnds(n, g0, GridOf(qrcode[..], n), 0);
  }

  // ---------- alignment patterns ----------

  // g' is g with a 3 by 3 core at (cx, cy): light with a dark centre, up to the scan position (dx, dy).
  ghost predicate CoreStage(n: nat, cx: int, cy: int, g: Grid, g': Grid, dx: int, dy: int) {
    && Square(g, n) && Square(g', n)
    && forall x: nat, y: nat | x < n && y < n ::
         g'[y][x] == if Ring(x - cx, y - cy) <= 1 && ScannedBefore(x - cx, y - cy, dx, dy)
                     then Ring(x - cx, y - cy) == 0 else g[y][x]
  }

  lemma CoreStageStep(n: nat, cx: nat, cy: nat, g0: Grid, g: Grid, dx: int, dy: int)
    requires CoreStage(n, cx, cy, g0, g, dx, dy) && -1 <= dx <= 1 && -1 <= dy <= 1
    requires 1 <= cx < n - 1 && 1 <= cy < n - 1
    ensures CoreStage(n, cx, cy, g0, Paint(g, cx + dx, cy + dy, dx == 0 && dy == 0), dx + 1, dy)
  {}

  lemma CoreStageEnds(n: nat, cx: nat, cy: nat, g0: Grid, g: Grid, dy: int)
    requires Square(g0, n)
    ensures CoreStage(n, cx, cy, g0, g0, -1, -1)
    ensures CoreStage(n, cx, cy, g0, g, 2, dy) ==> CoreStage(n, cx, cy, g0, g, -1, dy + 1)
  {}

  method DrawAlignmentCore(qrcode: array<Byte>, cx: nat, cy: nat, ghost n: nat)
    requires Sized(qrcode[..], n) && 1 <= cx < n - 1 && 1 <= cy < n - 1
    modifies qrcode
    ensures Sized(qrcode[..], n)
    ensures CoreStage(n, cx, cy, old(GridOf(qrcode[..], n)), GridOf(qrcode[..], n), -1, 2)
  {
    hide Sized, GridOf, Paint, CoreStage;
    ghost var g0 := GridOf(qrcode[..], n);
    CoreStageEnds(n, cx, cy, g0, g0, 0);
    for dy := -1 to 2
      invariant Sized(qrcode[..], n) && CoreStage(n, cx, cy, g0, GridOf(qrcode[..], n), -1, dy)
    {
      for dx := -1 to 2
        invariant Sized(qrcode[..], n) && CoreStage(n, cx, cy, g0, GridOf(qrcode[..], n), dx, dy)
      {
        CoreStageStep(n, cx, cy, g0, GridOf(qrcode[..], n), dx, dy);
        SetModuleBounded(qrcode, cx + dx, cy + dy, dx == 0 && dy == 0, n);
      }
      CoreStageEnds(n, cx, cy, g0, GridOf(qrcode[..], n), dy);
    }
  }

  ghost predicate CoresStage(v: Version, g0: Grid, g: Grid, i: nat, j: nat) {
    var n := Side(v);
    && Square(g0, n) && Square(g, n)
    && forall x: nat, y: nat | x < n && y < n ::
         g[y][x] == if AlignedBefore(v, x, y, 1, i, j) then AlignedBefore(v, x, y, 0, i, j) else g0[y][x]
  }

  lemma CoresStageEnds(v: Version, g0: Grid, g: Grid, i: nat)
    requires Square(g0, Side(v))
    ensures CoresStage(v, g0, g0, 0, 0)
    ensures CoresStage(v, g0, g, i, NumAlign(v)) ==> CoresStage(v, g0, g, i + 1, 0)
    ensures CoresStage(v, g0, g, NumAlign(v), 0) ==>
      forall x: nat, y: nat | x < Side(v) && y < Side(v) ::
        g[y][x] == if InAlignment(v, x, y, 1) then InAlignment(v, x, y, 0) else g0[y][x]
  {
    hide AlignedBefore, InAlignment;
    var n := Side(v);
    forall x: nat, y: nat, r: nat | x < n && y < n && r < 2
      ensures !AlignedBefore(v, x, y, r, 0, 0)
      ensures AlignedBefore(v, x, y, r, i, NumAlign(v)) == AlignedBefore(v, x, y, r, i + 1, 0)
      ensures AlignedBefore(v, x, y, r, NumAlign(v), 0) == InAlignment(v, x, y, r)
    {
      AlignedBeforeEnds(v, x, y, r, i);
    }
  }

  // Patterns are far enough apart that drawing one never touches another.
  lemma CoresApart(v: Version, x: int, y: int, i: nat, j: nat)
    requires i < NumAlign(v) && j < NumAlign(v) && Near(v, i, x, 1) && Near(v, j, y, 1)
    ensures !AlignedBefore(v, x, y, 0, i, j)
  {
    hide AlignPos, Corner;
    if AlignedBefore(v, x, y, 0, i, j) {
      var i': nat, j': nat :| i' < NumAlign(v) && j' < NumAlign(v) && (i' < i || (i' == i && j' < j)) &&
        !Corner(v, i', j') && Near(v, i', x, 0) && Near(v, j', y, 0);
      if i' < i { AlignAscending(v, i', i); } else { AlignAscending(v, j', j); }
      assert false;
    }
  }

  lemma CoresStageStep(v: Version, g0: Grid, g: Grid, g': Grid, i: nat, j: nat)
    requires i < NumAlign(v) && j < NumAlign(v) && CoresStage(v, g0, g, i, j)
    requires if Corner(v, i, j) then g' == g else CoreStage(Side(v), AlignPos(v, i), AlignPos(v, j), g, g', -1, 2)
    ensures CoresStage(v, g0, g', i, j + 1)
  {
    hide AlignedBefore, AlignPos, Corner;
    var n := Side(v);
    forall x: nat, y: nat | x < n && y < n
      ensures g'[y][x] == if AlignedBefore(v, x, y, 1, i, j + 1) then AlignedBefore(v, x, y, 0, i, j + 1) else g0[y][x]
    {
      AlignedBeforeStep(v, x, y, 1, i, j);
      AlignedBeforeStep(v, x, y, 0, i, j);
      if Near(v, i, x, 1) && Near(v, j, y, 1) { CoresApart(v, x, y, i, j); }
    }
  }

  method DrawAlignments(v: Version, qrcode: array<Byte>)
    requires Sized(qrcode[..], Side(v))
    modifies qrcode
    ensures Sized(qrcode[..], Side(v))
    ensures forall x: nat, y: nat | x < Side(v) && y < Side(v) :: GridOf(qrcode[..], Side(v))[y][x]
              == if InAlignment(v, x, y, 1) then InAlignment(v, x, y, 0) else old(GridOf(qrcode[..], Side(v)))[y][x]
  {
    hide Sized, GridOf, AlignPos, Corner, CoresStage, InAlignment, CoreStage;
    var n := Side(v);
    ghost var g0 := GridOf(qrcode[..], n);
    var alignPatPos := new int[7];
    var numAlign := GetAlignmentPatternPositions(v, alignPatPos);
    CoresStageEnds(v, g0, g0, 0);
    for i := 0 to numAlign
      invariant Sized(qrcode[..], n) && CoresStage(v, g0, GridOf(qrcode[..], n), i, 0)
      invariant forall k: nat | k < numAlign :: alignPatPos[k] == AlignPos(v, k)
    {
      for j := 0 to numAlign
        invariant Sized(qrcode[..], n) && CoresStage(v, g0, GridOf(qrcode[..], n), i, j)
        invariant forall k: nat | k < numAlign :: alignPatPos[k] == AlignPos(v, k)
      {
        ghost var g := GridOf(qrcode[..], n);
        if !Corner(v, i, j) {
          AlignRange(v, i);
          AlignRange(v, j);
          DrawAlignmentCore(qrcode, alignPatPos[i], alignPatPos[j], n);
        }
        CoresStageStep(v, g0, g, GridOf(qrcode[..], n), i, j);
      }
      CoresStageEnds(v, g0, GridOf(qrcode[..], n), i);
    }
    CoresStageEnds(v, g0, GridOf(qrcode[..], n), 0);
  }

  // ---------- version blocks ----------

  ghost predicate VersionStage(v: Version, g0: Grid, g: Grid, k: nat) {
    var n := Side(v);
    && Square(g0, n) && Square(g, n)
    && forall x: nat, y: nat | x < n && y < n ::
         g[y][x] == if InVersionBlock(v, x, y) && VersionIndex(v, x, y) < k
                    then WordBit(VersionWord(v), VersionIndex(v, x, y)) else g0[y][x]
  }

  lemma VersionStageStep(v: Version, g0: Grid, g: Grid, i: nat, j: nat)
    requires v >= 7 && i < 6 && j < 3 && VersionStage(v, g0, g, 3 * i + j)
    ensures var k, dark := Side(v) - 11 + j, WordBit(VersionWord(v), 3 * i + j);
      VersionStage(v, g0, Paint(Paint(g, k, i, dark), i, k, dark), 3 * i + j + 1)
  {
    hide WordBit, VersionWord;
  }

  lemma VersionStageEnds(v: Version, g0: Grid, g: Grid)
    requires Square(g0, Side(v))
    ensures VersionStage(v, g0, g0, 0)
    ensures VersionStage(v, g0, g, 18) ==>
      forall x: nat, y: nat | x < Side(v) && y < Side(v) ::
        g[y][x] == if InVersionBlock(v, x, y) then VersionColour(v, x, y) else g0[y][x]
  {
    hide WordBit, VersionWord;
  }

  method ComputeVersionWord(v: Version) returns (bits: bv32)
    ensures bits == VersionWord(v)
  {
    hide VersionRound, VersionData, JoinWord;
    var data := VersionData(v);
    var rem := data;
    for i := 0 to 12
      invariant rem == VersionRemainder(data, i)
    {
      VersionRoundMeans(rem);
      rem := (rem << 1) ^ ((rem >> 11) * 0x1F25);
    }
    bits := JoinWord(data, rem);
  }

  lemma VersionRoundMeans(r: bv32)
    ensures VersionRound(r) == (r << 1) ^ ((r >> 11) * 0x1F25)
  {}

  function Shifted(w: bv32, k: nat): bv32 {
    if k == 0 then w else Half(Shifted(w, k - 1))
  }

  lemma {:induction false} ShiftedBit(w: bv32, k: nat)
    ensures Odd(Shifted(w, k)) == WordBit(w, k)
    ensures Shifted(w, k + 1) == Half(Shifted(w, k)) && Shifted(w, 0) == w
  {
    hide Half, Odd;
    ShiftedWordBit(w, k, 0);
  }

  lemma {:induction false} ShiftedWordBit(w: bv32, k: nat, m: nat)
    ensures WordBit(Shifted(w, k), m) == WordBit(w, k + m)
  {
    hide Half, Odd;
    if k > 0 { ShiftedWordBit(w, k - 1, m + 1); }
  }

  lemma HalfAndOdd(w: bv32)
    ensures Half(w) == w >> 1 && Odd(w) == (w & 1 != 0)
  {}

  method DrawVersion(v: Version, qrcode: array<Byte>)
    requires Sized(qrcode[..], Side(v))
    modifies qrcode
    ensures Sized(qrcode[..], Side(v))
    ensures forall x: nat, y: nat | x < Side(v) && y < Side(v) :: GridOf(qrcode[..], Side(v))[y][x]
              == if InVersionBlock(v, x, y) then VersionColour(v, x, y) else old(GridOf(qrcode[..], Side(v)))[y][x]
  {
    hide Sized, GridOf, Paint, VersionStage, WordBit, VersionWord, VersionColour, Shifted, Half, Odd;
    var n := Side(v);
    if v >= 7 {
      ghost var g0 := GridOf(qrcode[..], n);
      ghost var word := VersionWord(v);
      var bits := ComputeVersionWord(v);
      ShiftedBit(word, 0);
      VersionStageEnds(v, g0, g0);
      for i := 0 to 6
        invariant bits == Shifted(word, 3 * i)
        invariant Sized(qrcode[..], n) && VersionStage(v, g0, GridOf(qrcode[..], n), 3 * i)
      {
        for j := 0 to 3
          invariant bits == Shifted(word, 3 * i + j)
          invariant Sized(qrcode[..], n) && VersionStage(v, g0, GridOf(qrcode[..], n), 3 * i + j)
        {
          VersionStageStep(v, g0, GridOf(qrcode[..], n), i, j);
          ShiftedBit(word, 3 * i + j);
          HalfAndOdd(bits);
          var k := n - 11 + j;
          SetModuleBounded(qrcode, k, i, bits & 1 != 0, n);
          SetModuleBounded(qrcode, i, k, bits & 1 != 0, n);
          bits := bits >> 1;
        }
      }
      VersionStageEnds(v, g0, GridOf(qrcode[..], n));
    }
  }

  // ---------- the whole pass ----------

  // Draws light function modules without changing any other module.
  method DrawLightFunctionModules(qrcode: array<Byte>, v: Version)
    requires Sized(qrcode[..], Side(v))
    modifies qrcode
    ensures Sized(qrcode[..], Side(v))
    ensures forall x: nat, y: nat | x < Side(v) && y < Side(v) ::
              GridOf(qrcode[..], Side(v))[y][x] == LightPass(v, x, y, old(GridOf(qrcode[..], Side(v)))[y][x])
  {
    hide Sized, GridOf, InVersionBlock, VersionColour, InAlignment, InFinderLight, TimingLight;
    var n := Side(v);
    DrawTiming(qrcode, n);
    DrawFinders(qrcode, n);
    DrawAlignments(v, qrcode);
    DrawVersion(v, qrcode);
  }

  lemma NearWider(v: Version, i: nat, x: int)
    requires i < NumAlign(v) && Near(v, i, x, 1)
    ensures Near(v, i, x, 2)
  {}

  // Modules outside the function patterns keep their colour.
  lemma LightPassFrame(v: Version, x: int, y: int, before: bool)
    requires 0 <= x < Side(v) && 0 <= y < Side(v) && !IsFunction(v, x, y)
    ensures LightPass(v, x, y, before) == before
  {
    hide AlignPos, Corner;
    if InAlignment(v, x, y, 1) {
      var i: nat, j: nat :| i < NumAlign(v) && j < NumAlign(v) && !Corner(v, i, j) && Near(v, i, x, 1)
        && Near(v, j, y, 1);
      NearWider(v, i, x);
      NearWider(v, j, y);
      assert false;
    }
  }

  // ---------- the patterns of the standard ----------

  // Sections 6.3.3 to 6.3.6 of ISO/IEC 18004:2015: concentric finder squares, alignment squares, alternating timing.
  predicate StandardColour(v: Version, x: int, y: int) {
    var n := Side(v);
    if Ring(x - 3, y - 3) <= 4 then !FinderLight(x - 3, y - 3)
    else if Ring(x - (n - 4), y - 3) <= 4 then !FinderLight(x - (n - 4), y - 3)
    else if Ring(x - 3, y - (n - 4)) <= 4 then !FinderLight(x - 3, y - (n - 4))
    else if InAlignment(v, x, y, 2) then InAlignment(v, x, y, 0) || !InAlignment(v, x, y, 1)
    else (x + y) % 2 == 0
  }

  predicate InFinderRings(v: Version, x: int, y: int) {
    Ring(x - 3, y - 3) <= 4 || Ring(x - (Side(v) - 4), y - 3) <= 4 || Ring(x - 3, y - (Side(v) - 4)) <= 4
  }

  lemma AlignmentClearOfFinders(v: Version, x: int, y: int)
    requires InAlignment(v, x, y, 2)
    ensures !InFinderRings(v, x, y)
    ensures TimingLight(Side(v), x, y) ==> InAlignment(v, x, y, 1)
    ensures !InVersionBlock(v, x, y)
  {
    hide AlignPos, AlignStep;
    var i: nat, j: nat :| i < NumAlign(v) && j < NumAlign(v) && !Corner(v, i, j) && Near(v, i, x, 2)
      && Near(v, j, y, 2);
    AlignRange(v, i);
    AlignRange(v, j);
    if TimingLight(Side(v), x, y) {
      assert Near(v, i, x, 1) && Near(v, j, y, 1);
    }
  }

  lemma NarrowerAlignment(v: Version, x: int, y: int)
    ensures InAlignment(v, x, y, 0) ==> InAlignment(v, x, y, 1)
    ensures InAlignment(v, x, y, 1) ==> InAlignment(v, x, y, 2)
  {
    hide AlignPos, Corner;
    if InAlignment(v, x, y, 0) {
      var i: nat, j: nat :| i < NumAlign(v) && j < NumAlign(v) && !Corner(v, i, j) && Near(v, i, x, 0)
        && Near(v, j, y, 0);
      assert Near(v, i, x, 1) && Near(v, j, y, 1);
    }
    if InAlignment(v, x, y, 1) {
      var i: nat, j: nat :| i < NumAlign(v) && j < NumAlign(v) && !Corner(v, i, j) && Near(v, i, x, 1)
        && Near(v, j, y, 1);
      assert Near(v, i, x, 2) && Near(v, j, y, 2);
    }
  }

  // Marking everything dark and then painting the light parts yields the standard's patterns.
  lemma TwoPassesDrawTheStandard(v: Version, x: int, y: int)
    requires 0 <= x < Side(v) && 0 <= y < Side(v) && !InVersionBlock(v, x, y)
    requires x == 6 || y == 6 || InFinderRings(v, x, y) || InAlignment(v, x, y, 2)
    ensures IsFunction(v, x, y)
    ensures LightPass(v, x, y, true) == StandardColour(v, x, y)
  {
    hide InAlignment;
    NarrowerAlignment(v, x, y);
    if InAlignment(v, x, y, 2) { AlignmentClearOfFinders(v, x, y); }
  }
}
