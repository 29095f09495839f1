/**
 * Function modules: where they are, and the two drawing passes that mark them dark and then paint their light parts.
 */
module FunctionModules {
  import opened Bits
  import opened Versions
  import opened Indexing
  import opened Modules

  function Side(v: Version): (n: nat)
    ensures 21 <= n <= 177
  {
    4 * v + 17
  }

  // ---------- alignment pattern positions ----------

  function NumAlign(v: Version): (n: nat)
    ensures n <= 7
  {
    if v == 1 then 0 else v / 7 + 2
  }

  function AlignStep(v: Version): (n: nat)
    requires v >= 2
  {
    if v == 32 then 26 else (v * 4 + NumAlign(v) * 2 + 1) / (NumAlign(v) * 2 - 2) * 2
  }

  // Ascending positions: 6, then equal steps down from 4v + 10.
  function AlignPos(v: Version, i: nat): int
    requires i < NumAlign(v)
    decreases NumAlign(v) - i
  {
    if i == 0 then 6
    else if i == NumAlign(v) - 1 then v * 4 + 10
    else AlignPos(v, i + 1) - AlignStep(v)
  }

  lemma StepRange(v: Version)
    requires v >= 7
    ensures 16 <= AlignStep(v) <= 28 && AlignStep(v) % 2 == 0
  {
    if v < 14 {} else if v < 21 {} else if v < 28 {} else if v < 35 {} else {}
  }

  // The remainder of the spacing falls between the first two positions and is at least 16.
  lemma FirstGap(v: Version)
    requires v >= 7
    ensures AlignPos(v, 1) >= 22
  {
    var a := NumAlign(v);
    StepRange(v);
    assert AlignPos(v, a - 2) == v * 4 + 10 - AlignStep(v);
    if a > 3 { assert AlignPos(v, a - 3) == AlignPos(v, a - 2) - AlignStep(v); }
    if a > 4 { assert AlignPos(v, a - 4) == AlignPos(v, a - 3) - AlignStep(v); }
    if a > 5 { assert AlignPos(v, a - 5) == AlignPos(v, a - 4) - AlignStep(v); }
    if a > 6 { assert AlignPos(v, a - 6) == AlignPos(v, a - 5) - AlignStep(v); }
    if v < 14 {} else if v < 21 {} else if v < 28 {} else if v < 35 {} else {}
  }

  // Successive positions are at least 12 apart (16 when there are more than two), and all are even.
  lemma AlignGap(v: Version, i: nat)
    requires i + 1 < NumAlign(v)
    ensures AlignPos(v, i + 1) - AlignPos(v, i) >= if v >= 7 then 16 else 12
    ensures AlignPos(v, i) % 2 == 0 && AlignPos(v, NumAlign(v) - 1) == Side(v) - 7
    decreases NumAlign(v) - i
  {
    if v < 7 {
    } else {
      StepRange(v);
      FirstGap(v);
      if i + 2 < NumAlign(v) { AlignGap(v, i + 1); }
    }
  }

  lemma {:induction false} AlignAscending(v: Version, i: nat, j: nat)
    requires i < j < NumAlign(v)
    ensures AlignPos(v, j) - AlignPos(v, i) >= if v >= 7 then 16 else 12
    decreases j - i
  {
    hide AlignPos, AlignStep;
    AlignGap(v, i);
    if i + 1 < j { AlignAscending(v, i + 1, j); }
  }

  // Everything later proofs use about one position.
  lemma AlignRange(v: Version, i: nat)
    requires i < NumAlign(v)
    ensures AlignPos(v, 0) == 6 && AlignPos(v, NumAlign(v) - 1) == Side(v) - 7
    ensures 6 <= AlignPos(v, i) <= Side(v) - 7 && AlignPos(v, i) % 2 == 0
    ensures i > 0 ==> AlignPos(v, i) >= 18
    ensures 0 < i < NumAlign(v) - 1 ==> 22 <= AlignPos(v, i) <= Side(v) - 23
  {
    hide AlignStep;
    if 0 < i { AlignAscending(v, 0, i); }
    if i < NumAlign(v) - 1 { AlignAscending(v, i, NumAlign(v) - 1); AlignGap(v, i); }
  }

  method GetAlignmentPatternPositions(v: Version, result: array<int>) returns (numAlign: nat)
    requires result.Length >= 7
    modifies result
    ensures numAlign == NumAlign(v)
    ensures forall i: nat | i < numAlign :: result[i] == AlignPos(v, i)
  {
    if v == 1 { return 0; }
    numAlign := v / 7 + 2;
    var step := if v == 32 then 26 else (v * 4 + numAlign * 2 + 1) / (numAlign * 2 - 2) * 2;
    assert step == AlignStep(v);
    hide AlignStep;
    var i, pos := numAlign - 1, v * 4 + 10;
    while i >= 1
      invariant 0 <= i <= numAlign - 1
      invariant i >= 1 ==> pos == AlignPos(v, i)
      invariant forall k: nat | i < k < numAlign :: result[k] == AlignPos(v, k)
    {
      result[i] := pos;
      i, pos := i - 1, pos - step;
    }
    result[0] := 6;
  }

  // ---------- which modules are function modules ----------

  // The three corners taken by finder patterns carry no alignment pattern.
  predicate Corner(v: Version, i: nat, j: nat) {
    (i == 0 && j == 0) || (i == 0 && j == NumAlign(v) - 1) || (i == NumAlign(v) - 1 && j == 0)
  }

  predicate Near(v: Version, i: nat, x: int, r: int)
    requires i < NumAlign(v)
  {
    AlignPos(v, i) - r <= x <= AlignPos(v, i) + r
  }

  // (x, y) lies within r of the centre of a drawn alignment pattern.
  predicate InAlignment(v: Version, x: int, y: int, r: int) {
    exists i: nat, j: nat | i < NumAlign(v) && j < NumAlign(v) :: !Corner(v, i, j) && Near(v, i, x, r)
      && Near(v, j, y, r)
  }

  predicate InVersionBlock(v: Version, x: int, y: int) {
    v >= 7 && ((Side(v) - 11 <= x <= Side(v) - 9 && 0 <= y <= 5) || (0 <= x <= 5 && Side(v) - 11 <= y <= Side(v) - 9))
  }

  predicate InFinder(v: Version, x: int, y: int) {
    || (0 <= x <= 8 && 0 <= y <= 8)
    || (Side(v) - 8 <= x < Side(v) && 0 <= y <= 8)
    || (0 <= x <= 8 && Side(v) - 8 <= y < Side(v))
  }

  predicate IsFunction(v: Version, x: int, y: int) {
    x == 6 || y == 6 || InFinder(v, x, y) || InAlignment(v, x, y, 2) || InVersionBlock(v, x, y)
  }

  predicate InRect(left: int, top: int, width: int, height: int, x: int, y: int) {
    left <= x < left + width && top <= y < top + height
  }

  // g' is g with the rectangle filled dark.
  ghost predicate RectFilled(g: Grid, g': Grid, n: nat, left: int, top: int, width: int, height: int) {
    && Square(g, n) && Square(g', n)
    && forall x: nat, y: nat | x < n && y < n :: g'[y][x] == (InRect(left, top, width, height, x, y) || g[y][x])
  }

  // Sets every module of a rectangle to dark.
  method FillRectangle(left: nat, top: nat, width: nat, height: nat, qrcode: array<Byte>, ghost n: nat)
    requires Sized(qrcode[..], n) && left + width <= n && top + height <= n
    modifies qrcode
    ensures Sized(qrcode[..], n)
    ensures RectFilled(old(GridOf(qrcode[..], n)), GridOf(qrcode[..], n), n, left, top, width, height)
  {
    hide Sized, GridOf;
    ghost var g0 := GridOf(qrcode[..], n);
    for dy := 0 to height
      invariant Sized(qrcode[..], n)
      invariant forall x: nat, y: nat | x < n && y < n ::
                  GridOf(qrcode[..], n)[y][x] == (InRect(left, top, width, dy, x, y) || g0[y][x])
    {
      for dx := 0 to width
        invariant Sized(qrcode[..], n)
        invariant forall x: nat, y: nat | x < n && y < n ::
                    GridOf(qrcode[..], n)[y][x] == (InRect(left, top, width, dy, x, y)
                      || InRect(left, top + dy, dx, 1, x, y) || g0[y][x])
      {
        SetModuleBounded(qrcode, left + dx, top + dy, true, n);
      }
    }
  }

  // Some alignment pattern before (i, j) in drawing order covers (x, y) within r.
  ghost predicate AlignedBefore(v: Version, x: int, y: int, r: int, i: nat, j: nat) {
    exists i': nat, j': nat | i' < NumAlign(v) && j' < NumAlign(v) ::
      (i' < i || (i' == i && j' < j)) && !Corner(v, i', j') && Near(v, i', x, r) && Near(v, j', y, r)
  }

  lemma AlignedBeforeStep(v: Version, x: int, y: int, r: int, i: nat, j: nat)
    requires i < NumAlign(v) && j < NumAlign(v)
    ensures AlignedBefore(v, x, y, r, i, j + 1)
       <==> AlignedBefore(v, x, y, r, i, j) || (!Corner(v, i, j) && Near(v, i, x, r) && Near(v, j, y, r))
  {
    hide Near, Corner;
  }

  lemma AlignedBeforeEnds(v: Version, x: int, y: int, r: int, i: nat)
    ensures !AlignedBefore(v, x, y, r, 0, 0)
    ensures AlignedBefore(v, x, y, r, i, NumAlign(v)) <==> AlignedBefore(v, x, y, r, i + 1, 0)
    ensures AlignedBefore(v, x, y, r, NumAlign(v), 0) <==> InAlignment(v, x, y, r)
  {
    hide Near, Corner;
  }

  // The grid when the filling of alignment patterns reaches (i, j), having started from g0.
  ghost predicate FillStage(v: Version, g0: Grid, g: Grid, i: nat, j: nat) {
    var n := Side(v);
    && Square(g0, n) && Square(g, n)
    && forall x: nat, y: nat | x < n && y < n :: g[y][x] == (AlignedBefore(v, x, y, 2, i, j) || g0[y][x])
  }

  lemma FillStageEnds(v: Version, g0: Grid, g: Grid, i: nat)
    requires Square(g0, Side(v))
    ensures FillStage(v, g0, g0, 0, 0)
    ensures FillStage(v, g0, g, i, NumAlign(v)) ==> FillStage(v, g0, g, i + 1, 0)
    ensures FillStage(v, g0, g, NumAlign(v), 0) ==>
      forall x: nat, y: nat | x < Side(v) && y < Side(v) :: g[y][x] == (InAlignment(v, x, y, 2) || g0[y][x])
  {
    hide AlignedBefore, InAlignment;
    var n := Side(v);
    forall x: nat, y: nat | x < n && y < n
      ensures !AlignedBefore(v, x, y, 2, 0, 0)
      ensures AlignedBefore(v, x, y, 2, i, NumAlign(v)) == AlignedBefore(v, x, y, 2, i + 1, 0)
      ensures AlignedBefore(v, x, y, 2, NumAlign(v), 0) == InAlignment(v, x, y, 2)
    {
      AlignedBeforeEnds(v, x, y, 2, i);
    }
  }

  lemma FillStageStep(v: Version, g0: Grid, g: Grid, g': Grid, i: nat, j: nat)
    requires i < NumAlign(v) && j < NumAlign(v) && FillStage(v, g0, g, i, j)
    requires if Corner(v, i, j) then g' == g
      else RectFilled(g, g', Side(v), AlignPos(v, i) - 2, AlignPos(v, j) - 2, 5, 5)
    ensures FillStage(v, g0, g', i, j + 1)
  {
    hide AlignedBefore, AlignPos, Corner;
    var n := Side(v);
    forall x: nat, y: nat | x < n && y < n
      ensures g'[y][x] == (AlignedBefore(v, x, y, 2, i, j + 1) || g0[y][x])
    {
      AlignedBeforeStep(v, x, y, 2, i, j);
    }
  }

  // An all-light symbol of side n.
  method ClearSymbol(qrcode: array<Byte>, n: nat)
    requires 21 <= n <= 177 && BufferLen(n) <= qrcode.Length
    modifies qrcode
    ensures Sized(qrcode[..], n)
    ensures forall x: nat, y: nat | x < n && y < n :: !GridOf(qrcode[..], n)[y][x]
  {
    hide ByteOf;
    forall k | 0 <= k < BufferLen(n) { qrcode[k] := 0; }
    qrcode[0] := ByteOf(n);
    ghost var q := qrcode[..];
    forall x: nat, y: nat | x < n && y < n
      ensures !GridOf(q, n)[y][x]
    {
      IndexInside(n, x, y);
      GridAt(q, n, x, y);
      ZeroCell(q, n, Times(y, n) + x);
    }
  }

  lemma ZeroCell(q: seq<Byte>, n: nat, k: nat)
    requires k / 8 + 1 < |q| && q[k / 8 + 1] == 0
    ensures !Cell(q, k)
  {}

  // Fills the alignment patterns, skipping the three finder corners.
  method FillAlignments(v: Version, qrcode: array<Byte>)
    requires Sized(qrcode[..], Side(v))
    modifies qrcode
    ensures Sized(qrcode[..], Side(v))
    ensures forall x: nat, y: nat | x < Side(v) && y < Side(v) ::
              GridOf(qrcode[..], Side(v))[y][x] == (InAlignment(v, x, y, 2) || old(GridOf(qrcode[..], Side(v)))[y][x])
  {
    hide Sized, GridOf, AlignPos, Corner, FillStage, InAlignment, RectFilled;
    var n := Side(v);
    ghost var g0 := GridOf(qrcode[..], n);
    var alignPatPos := new int[7];
    var numAlign := GetAlignmentPatternPositions(v, alignPatPos);
    FillStageEnds(v, g0, g0, 0);
    for i := 0 to numAlign
      invariant Sized(qrcode[..], n) && FillStage(v, g0, GridOf(qrcode[..], n), i, 0)
      invariant forall k: nat | k < numAlign :: alignPatPos[k] == AlignPos(v, k)
    {
      for j := 0 to numAlign
        invariant Sized(qrcode[..], n) && FillStage(v, g0, GridOf(qrcode[..], n), i, j)
        invariant forall k: nat | k < numAlign :: alignPatPos[k] == AlignPos(v, k)
      {
        ghost var g := GridOf(qrcode[..], n);
        if !Corner(v, i, j) {
          AlignRange(v, i);
          AlignRange(v, j);
          FillRectangle(alignPatPos[i] - 2, alignPatPos[j] - 2, 5, 5, qrcode, n);
        }
        FillStageStep(v, g0, g, GridOf(qrcode[..], n), i, j);
      }
      FillStageEnds(v, g0, GridOf(qrcode[..], n), i);
    }
    FillStageEnds(v, g0, GridOf(qrcode[..], n), 0);
  }

  method FillVersionBlocks(v: Version, qrcode: array<Byte>)
    requires Sized(qrcode[..], Side(v))
    modifies qrcode
    ensures Sized(qrcode[..], Side(v))
    ensures forall x: nat, y: nat | x < Side(v) && y < Side(v) ::
              GridOf(qrcode[..], Side(v))[y][x] == (InVersionBlock(v, x, y) || old(GridOf(qrcode[..], Side(v)))[y][x])
  {
    hide Sized, GridOf;
    var n := Side(v);
    if v >= 7 {
      FillRectangle(n - 11, 0, 3, 6, qrcode, n);
      FillRectangle(0, n - 11, 6, 3, qrcode, n);
    }
  }

  // Clears the grid and marks every function module, and nothing else, dark.
  method InitializeFunctionModules(v: Version, qrcode: array<Byte>)
    requires BufferLen(Side(v)) <= qrcode.Length
    modifies qrcode
    ensures Sized(qrcode[..], Side(v))
    ensures forall x: nat, y: nat | x < Side(v) && y < Side(v) ::
      GridOf(qrcode[..], Side(v))[y][x] == IsFunction(v, x, y)
  {
    hide *;
    SideRange(v);
    var n := Side(v);
    ClearSymbol(qrcode, n);
    ghost var g0 := GridOf(qrcode[..], n);
    FillRectangle(6, 0, 1, n, qrcode, n);
    ghost var g1 := GridOf(qrcode[..], n);
    FillRectangle(0, 6, n, 1, qrcode, n);
    ghost var g2 := GridOf(qrcode[..], n);
    FillRectangle(0, 0, 9, 9, qrcode, n);
    ghost var g3 := GridOf(qrcode[..], n);
    FillRectangle(n - 8, 0, 8, 9, qrcode, n);
    ghost var g4 := GridOf(qrcode[..], n);
    FillRectangle(0, n - 8, 9, 8, qrcode, n);
    BaseMarked(v, g0, g1, g2, g3, g4, GridOf(qrcode[..], n));
    FillAlignments(v, qrcode);
    FillVersionBlocks(v, qrcode);
    SquareRows(GridOf(qrcode[..], n), n);
    forall x: nat, y: nat | x < n && y < n
      ensures GridOf(qrcode[..], n)[y][x] == IsFunction(v, x, y)
    {
      FunctionParts(v, x, y);
    }
  }

  lemma SquareRows(g: Grid, n: nat)
    requires Square(g, n)
    ensures |g| == n && forall y | 0 <= y < n :: |g[y]| == n
  {}

  lemma SideRange(v: Version)
    ensures Side(v) >= 21
  {}

  // Timing patterns and finder corners.
  predicate InFrame(v: Version, x: int, y: int) {
    x == 6 || y == 6 || InFinder(v, x, y)
  }

  lemma FunctionParts(v: Version, x: int, y: int)
    ensures IsFunction(v, x, y) <==> InVersionBlock(v, x, y) || InAlignment(v, x, y, 2) || InFrame(v, x, y)
  {
    hide InVersionBlock, InAlignment, InFinder;
  }

  lemma BaseMarked(v: Version, g0: Grid, g1: Grid, g2: Grid, g3: Grid, g4: Grid, g5: Grid)
    requires Square(g0, Side(v)) && forall x: nat, y: nat | x < Side(v) && y < Side(v) :: !g0[y][x]
    requires RectFilled(g0, g1, Side(v), 6, 0, 1, Side(v)) && RectFilled(g1, g2, Side(v), 0, 6, Side(v), 1)
    requires RectFilled(g2, g3, Side(v), 0, 0, 9, 9) && RectFilled(g3, g4, Side(v), Side(v) - 8, 0, 8, 9)
    requires RectFilled(g4, g5, Side(v), 0, Side(v) - 8, 9, 8)
    ensures Square(g5, Side(v)) && forall x: nat, y: nat | x < Side(v) && y < Side(v) :: g5[y][x] == InFrame(v, x, y)
  {}
}
