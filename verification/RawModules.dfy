/** Counting the modules left for codewords: exactly NumRawDataModules of them, for every version. */
module RawModules {
  import opened Versions
  import opened Modules
  import opened FunctionModules
  import opened Zigzag

  // ---------- bands of five around the alignment positions j0 .. j1 ----------

  ghost predicate InBands(v: Version, y: int, j0: nat, j1: int)
    requires j1 < NumAlign(v)
  {
    exists j: nat | j0 <= j <= j1 :: Near(v, j, y, 2)
  }

  // How many of lo .. hi - 1 lie in none of the bands.
  ghost function Free(v: Version, lo: int, hi: int, j0: nat, j1: int): nat
    requires j1 < NumAlign(v)
    decreases hi - lo
  {
    if hi <= lo then 0 else Free(v, lo, hi - 1, j0, j1) + if InBands(v, hi - 1, j0, j1) then 0 else 1
  }

  lemma {:induction false} FreeSplit(v: Version, lo: int, mid: int, hi: int, j0: nat, j1: int)
    requires j1 < NumAlign(v) && lo <= mid <= hi
    ensures Free(v, lo, hi, j0, j1) == Free(v, lo, mid, j0, j1) + Free(v, mid, hi, j0, j1)
    decreases hi - mid
  {
    hide InBands;
    if mid < hi { FreeSplit(v, lo, mid, hi - 1, j0, j1); }
  }

  lemma {:induction false} FreeUniform(v: Version, lo: int, hi: int, j0: nat, j1: int, inside: bool)
    requires j1 < NumAlign(v) && lo <= hi
    requires forall y | lo <= y < hi :: InBands(v, y, j0, j1) == inside
    ensures Free(v, lo, hi, j0, j1) == if inside then 0 else hi - lo
    decreases hi - lo
  {
    hide InBands;
    if lo < hi { FreeUniform(v, lo, hi - 1, j0, j1, inside); }
  }

  lemma {:induction false} FreeFewerBands(v: Version, lo: int, hi: int, j0: nat, j1: int)
    requires 0 <= j1 < NumAlign(v) && lo <= hi <= AlignPos(v, j1) - 2
    ensures Free(v, lo, hi, j0, j1) == Free(v, lo, hi, j0, j1 - 1)
    decreases hi - lo
  {
    hide AlignPos;
    if lo < hi { FreeFewerBands(v, lo, hi - 1, j0, j1); }
  }

  // Each band takes five from an interval that contains them all.
  lemma {:induction false} FreeCount(v: Version, lo: int, hi: int, j0: nat, j1: int)
    requires j1 < NumAlign(v) && lo <= hi && j0 <= j1 + 1
    requires j0 <= j1 ==> lo <= AlignPos(v, j0) - 2 && AlignPos(v, j1) + 3 <= hi
    ensures Free(v, lo, hi, j0, j1) == hi - lo - 5 * (j1 - j0 + 1)
    decreases j1 - j0 + 1
  {
    hide AlignPos;
    if j0 > j1 {
      FreeUniform(v, lo, hi, j0, j1, false);
    } else {
      var a := AlignPos(v, j1);
      if j0 < j1 { AlignAscending(v, j0, j1); AlignAscending(v, j1 - 1, j1); }
      FreeSplit(v, lo, a - 2, hi, j0, j1);
      FreeSplit(v, a - 2, a + 3, hi, j0, j1);
      FreeFewerBands(v, lo, a - 2, j0, j1);
      FreeCount(v, lo, a - 2, j0, j1 - 1);
      forall y | a - 2 <= y < a + 3 ensures InBands(v, y, j0, j1) { assert Near(v, j1, y, 2); }
      FreeUniform(v, a - 2, a + 3, j0, j1, true);
      forall y | a + 3 <= y < hi ensures !InBands(v, y, j0, j1) { BeyondBands(v, y, j0, j1); }
      FreeUniform(v, a + 3, hi, j0, j1, false);
    }
  }

  lemma BeyondBands(v: Version, y: int, j0: nat, j1: nat)
    requires j1 < NumAlign(v) && y >= AlignPos(v, j1) + 3
    ensures !InBands(v, y, j0, j1)
  {
    hide AlignPos;
    forall j: nat | j0 <= j <= j1 ensures !Near(v, j, y, 2) { if j < j1 { AlignAscending(v, j, j1); } }
  }

  // ---------- light modules of one column ----------

  ghost function LightIn(v: Version, x: int, lo: int, hi: int): nat
    decreases hi - lo
  {
    if hi <= lo then 0 else LightIn(v, x, lo, hi - 1) + if IsFunction(v, x, hi - 1) then 0 else 1
  }

  lemma {:induction false} LightSplit(v: Version, x: int, lo: int, mid: int, hi: int)
    requires lo <= mid <= hi
    ensures LightIn(v, x, lo, hi) == LightIn(v, x, lo, mid) + LightIn(v, x, mid, hi)
    decreases hi - mid
  {
    hide IsFunction;
    if mid < hi { LightSplit(v, x, lo, mid, hi - 1); }
  }

  lemma {:induction false} LightUniform(v: Version, x: int, lo: int, hi: int, dark: bool)
    requires lo <= hi && forall y | lo <= y < hi :: IsFunction(v, x, y) == dark
    ensures LightIn(v, x, lo, hi) == if dark then 0 else hi - lo
    decreases hi - lo
  {
    hide IsFunction;
    if lo < hi { LightUniform(v, x, lo, hi - 1, dark); }
  }

  lemma {:induction false} LightIsFree(v: Version, x: int, lo: int, hi: int, j0: nat, j1: int)
    requires lo <= hi && j1 < NumAlign(v)
    requires forall y | lo <= y < hi :: IsFunction(v, x, y) == InBands(v, y, j0, j1)
    ensures LightIn(v, x, lo, hi) == Free(v, lo, hi, j0, j1)
    decreases hi - lo
  {
    hide IsFunction, InBands;
    if lo < hi { LightIsFree(v, x, lo, hi - 1, j0, j1); }
  }

  // ---------- alignment patterns column by column ----------

  // Within a pattern between the first and the last row (or column) of patterns.
  ghost predicate MiddleBand(v: Version, y: int) {
    v >= 2 && InBands(v, y, 1, NumAlign(v) - 2)
  }

  // Within a pattern after the first row of patterns.
  ghost predicate LateBand(v: Version, y: int) {
    v >= 2 && InBands(v, y, 1, NumAlign(v) - 1)
  }

  // A left column meets only the patterns of the first pattern column, between the two left finder patterns.
  lemma AlignmentLeft(v: Version, x: int, y: int)
    requires 0 <= x <= 8 && 9 <= y < Side(v)
    ensures InAlignment(v, x, y, 2) <==> 4 <= x && MiddleBand(v, y)
  {
    hide AlignPos, AlignStep;
    if InAlignment(v, x, y, 2) {
      var i: nat, j: nat :| i < NumAlign(v) && j < NumAlign(v) && !Corner(v, i, j) && Near(v, i, x, 2)
        && Near(v, j, y, 2);
      AlignRange(v, i);
      AlignRange(v, j);
      assert i == 0 && 1 <= j <= NumAlign(v) - 2;
    }
    if v >= 2 && 4 <= x && InBands(v, y, 1, NumAlign(v) - 2) {
      var j: nat :| 1 <= j <= NumAlign(v) - 2 && Near(v, j, y, 2);
      AlignRange(v, 0);
      assert !Corner(v, 0, j) && Near(v, 0, x, 2);
    }
  }

  lemma AlignmentMiddle(v: Version, x: int, y: int)
    requires 9 <= x < Side(v) - 11 && 0 <= y < Side(v)
    ensures InAlignment(v, x, y, 2) <==> MiddleBand(v, x) && InBands(v, y, 0, NumAlign(v) - 1)
  {
    hide AlignPos, AlignStep;
    if InAlignment(v, x, y, 2) {
      var i: nat, j: nat :| i < NumAlign(v) && j < NumAlign(v) && !Corner(v, i, j) && Near(v, i, x, 2)
        && Near(v, j, y, 2);
      AlignRange(v, i);
      assert 1 <= i <= NumAlign(v) - 2;
    }
    if v >= 2 && InBands(v, x, 1, NumAlign(v) - 2) && InBands(v, y, 0, NumAlign(v) - 1) {
      var i: nat :| 1 <= i <= NumAlign(v) - 2 && Near(v, i, x, 2);
      var j: nat :| 0 <= j <= NumAlign(v) - 1 && Near(v, j, y, 2);
      assert !Corner(v, i, j);
    }
  }

  lemma AlignmentRight(v: Version, x: int, y: int)
    requires Side(v) - 11 <= x < Side(v) && 0 <= y < Side(v)
    ensures InAlignment(v, x, y, 2) <==> Side(v) - 9 <= x <= Side(v) - 5 && LateBand(v, y)
  {
    hide AlignPos, AlignStep;
    if InAlignment(v, x, y, 2) {
      var i: nat, j: nat :| i < NumAlign(v) && j < NumAlign(v) && !Corner(v, i, j) && Near(v, i, x, 2)
        && Near(v, j, y, 2);
      AlignRange(v, i);
      assert i == NumAlign(v) - 1 && 1 <= j;
    }
    if v >= 2 && Side(v) - 9 <= x <= Side(v) - 5 && InBands(v, y, 1, NumAlign(v) - 1) {
      var j: nat :| 1 <= j <= NumAlign(v) - 1 && Near(v, j, y, 2);
      AlignRange(v, NumAlign(v) - 1);
      assert !Corner(v, NumAlign(v) - 1, j) && Near(v, NumAlign(v) - 1, x, 2);
    }
  }

  // ---------- light modules per column ----------

  // Data rows blocked by the middle alignment patterns.
  function MiddleRows(v: Version): nat { if v >= 2 then 5 * (NumAlign(v) - 2) else 0 }

  // Rows blocked by the patterns of the last pattern column.
  function LastRows(v: Version): nat { if v >= 2 then 5 * (NumAlign(v) - 1) else 0 }

  lemma ColumnSix(v: Version)
    ensures LightIn(v, 6, 0, Side(v)) == 0
  {
    LightUniform(v, 6, 0, Side(v), true);
  }

  lemma LeftColumn(v: Version, x: int)
    requires 0 <= x <= 8 && x != 6
    ensures LightIn(v, x, 0, Side(v))
      == Side(v) - 17 - (if x >= 4 then MiddleRows(v) else 0) - (if v >= 7 && x < 6 then 3 else 0)
  {
    hide AlignPos, AlignStep, InAlignment, MiddleBand, NumAlign, MiddleRows, LightIn;
    var n := Side(v);
    LightSplit(v, x, 0, 9, n);
    LightSplit(v, x, 9, n - 11, n);
    LightSplit(v, x, n - 11, n - 8, n);
    LightUniform(v, x, 0, 9, true);
    LightUniform(v, x, n - 8, n, true);
    forall y | 9 <= y < n - 8
      ensures InAlignment(v, x, y, 2) <==> 4 <= x && MiddleBand(v, y)
    {
      AlignmentLeft(v, x, y);
    }
    forall y | n - 11 <= y < n - 8 ensures !MiddleBand(v, y) { MiddleEndsEarly(v, y); }
    LightUniform(v, x, n - 11, n - 8, v >= 7 && x < 6);
    if x >= 4 {
      MiddleLight(v, x, 9, n - 11);
    } else {
      LightUniform(v, x, 9, n - 11, false);
    }
  }

  // An interval of a column that only the middle patterns block.
  lemma MiddleLight(v: Version, x: int, lo: int, hi: int)
    requires lo <= hi && lo <= 20 && Side(v) - 20 <= hi
    requires forall y | lo <= y < hi :: IsFunction(v, x, y) == MiddleBand(v, y)
    ensures LightIn(v, x, lo, hi) == hi - lo - MiddleRows(v)
  {
    hide AlignPos, AlignStep, IsFunction, InBands;
    if v >= 2 {
      LightIsFree(v, x, lo, hi, 1, NumAlign(v) - 2);
      MiddleFree(v, lo, hi);
    } else {
      LightUniform(v, x, lo, hi, false);
    }
  }

  lemma MiddleFree(v: Version, lo: int, hi: int)
    requires v >= 2 && lo <= hi && lo <= 20 && Side(v) - 20 <= hi
    ensures Free(v, lo, hi, 1, NumAlign(v) - 2) == hi - lo - MiddleRows(v)
  {
    hide AlignPos, AlignStep;
    if NumAlign(v) > 2 {
      AlignRange(v, 1);
      AlignRange(v, NumAlign(v) - 2);
    }
    FreeCount(v, lo, hi, 1, NumAlign(v) - 2);
  }

  lemma MiddleEndsEarly(v: Version, y: int)
    requires y >= Side(v) - 11
    ensures !MiddleBand(v, y)
  {
    hide AlignPos, AlignStep;
    forall j: nat | 1 <= j <= NumAlign(v) - 2 ensures !Near(v, j, y, 2) { AlignRange(v, j); }
  }

  lemma MiddleColumn(v: Version, x: int)
    requires 9 <= x < Side(v) - 11
    ensures LightIn(v, x, 0, Side(v))
         == if MiddleBand(v, x) then Side(v) - 5 * NumAlign(v) else Side(v) - 1
  {
    hide AlignPos, AlignStep, InAlignment, InBands, LightIn;
    var n := Side(v);
    forall y | 0 <= y < n
      ensures InAlignment(v, x, y, 2) <==> MiddleBand(v, x) && InBands(v, y, 0, NumAlign(v) - 1)
    {
      AlignmentMiddle(v, x, y);
    }
    if MiddleBand(v, x) {
      SixInFirstBand(v);
      LightIsFree(v, x, 0, n, 0, NumAlign(v) - 1);
      AlignRange(v, 0);
      FreeCount(v, 0, n, 0, NumAlign(v) - 1);
    } else {
      LightSplit(v, x, 0, 6, n);
      LightSplit(v, x, 6, 7, n);
      LightUniform(v, x, 0, 6, false);
      LightUniform(v, x, 6, 7, true);
      LightUniform(v, x, 7, n, false);
    }
  }

  lemma SixInFirstBand(v: Version)
    requires v >= 2
    ensures InBands(v, 6, 0, NumAlign(v) - 1)
  {
    hide AlignStep;
    assert Near(v, 0, 6, 2);
  }

  lemma RightColumn(v: Version, x: int)
    requires Side(v) - 11 <= x < Side(v)
    ensures LightIn(v, x, 0, Side(v))
         == Side(v) - (if x >= Side(v) - 8 then 9 else if v >= 7 then 7 else 1)
            - (if Side(v) - 9 <= x <= Side(v) - 5 then LastRows(v) else 0)
  {
    hide AlignPos, AlignStep, InAlignment, LateBand, LightIn, LastRows, NumAlign;
    var n := Side(v);
    forall y | 0 <= y < n
      ensures InAlignment(v, x, y, 2) <==> n - 9 <= x <= n - 5 && LateBand(v, y)
    {
      AlignmentRight(v, x, y);
    }
    forall y | 0 <= y < 9 ensures !LateBand(v, y) { LateBandsStart(v, y); }
    LightSplit(v, x, 0, 9, n);
    RightTop(v, x);
    if n - 9 <= x <= n - 5 {
      LateLight(v, x);
    } else {
      LightUniform(v, x, 9, n, false);
    }
  }

  lemma LateLight(v: Version, x: int)
    requires forall y | 9 <= y < Side(v) :: IsFunction(v, x, y) == LateBand(v, y)
    ensures LightIn(v, x, 9, Side(v)) == Side(v) - 9 - LastRows(v)
  {
    hide AlignPos, AlignStep, IsFunction, InBands;
    if v >= 2 {
      LightIsFree(v, x, 9, Side(v), 1, NumAlign(v) - 1);
      AlignRange(v, 1);
      AlignRange(v, NumAlign(v) - 1);
      FreeCount(v, 9, Side(v), 1, NumAlign(v) - 1);
    } else {
      LightUniform(v, x, 9, Side(v), false);
    }
  }

  lemma LateBandsStart(v: Version, y: int)
    requires y < 9
    ensures !LateBand(v, y)
  {
    hide AlignPos, AlignStep;
    forall j: nat | 1 <= j <= NumAlign(v) - 1 ensures !Near(v, j, y, 2) { AlignRange(v, j); }
  }

  // The top nine rows of a right column: finder, version block or only the timing row.
  lemma RightTop(v: Version, x: int)
    requires Side(v) - 11 <= x < Side(v)
    requires forall y | 0 <= y < 9 :: !InAlignment(v, x, y, 2)
    ensures LightIn(v, x, 0, 9) == if x >= Side(v) - 8 then 0 else if v >= 7 then 2 else 8
  {
    hide InAlignment;
    if x >= Side(v) - 8 {
      LightUniform(v, x, 0, 9, true);
    } else {
      LightSplit(v, x, 0, 6, 9);
      LightSplit(v, x, 6, 7, 9);
      LightUniform(v, x, 0, 6, v >= 7);
      LightUniform(v, x, 6, 7, true);
      LightUniform(v, x, 7, 9, false);
    }
  }

  // ---------- the sum over all columns ----------

  ghost function LightColumns(v: Version, lo: int, hi: int): nat
    decreases hi - lo
  {
    if hi <= lo then 0 else LightColumns(v, lo, hi - 1) + LightIn(v, hi - 1, 0, Side(v))
  }

  lemma {:induction false} LightColumnsSplit(v: Version, lo: int, mid: int, hi: int)
    requires lo <= mid <= hi
    ensures LightColumns(v, lo, hi) == LightColumns(v, lo, mid) + LightColumns(v, mid, hi)
    decreases hi - mid
  {
    hide LightIn;
    if mid < hi { LightColumnsSplit(v, lo, mid, hi - 1); }
  }

  lemma {:induction false} LightColumnsUniform(v: Version, lo: int, hi: int, k: int)
    requires lo <= hi && forall x | lo <= x < hi :: LightIn(v, x, 0, Side(v)) == k
    ensures LightColumns(v, lo, hi) == (hi - lo) * k
    decreases hi - lo
  {
    hide LightIn;
    if lo < hi { LightColumnsUniform(v, lo, hi - 1, k); }
  }

  // In the middle, columns that cross alignment patterns have `less` light modules, all others `more`.
  lemma {:induction false} MiddleSum(v: Version, hi: int, less: nat, more: nat)
    requires v >= 2 && 9 <= hi <= Side(v) - 11 && less == Side(v) - 5 * NumAlign(v) && more == Side(v) - 1
    ensures LightColumns(v, 9, hi)
         == Free(v, 9, hi, 1, NumAlign(v) - 2) * more + (hi - 9 - Free(v, 9, hi, 1, NumAlign(v) - 2)) * less
    decreases hi
  {
    hide LightIn, InBands, AlignPos, AlignStep;
    if hi > 9 {
      MiddleSum(v, hi - 1, less, more);
      MiddleColumn(v, hi - 1);
      var f := Free(v, 9, hi - 1, 1, NumAlign(v) - 2);
      if MiddleBand(v, hi - 1) {
        Distribute(hi - 10 - f, 1, less);
      } else {
        Distribute(f, 1, more);
      }
    }
  }

  lemma Distribute(a: int, b: int, c: int)
    ensures (a + b) * c == a * c + b * c
  {}

  lemma LeftSum(v: Version)
    ensures LightColumns(v, 0, 9) == 8 * (Side(v) - 17) - 4 * MiddleRows(v) - (if v >= 7 then 18 else 0)
  {
    hide LightIn, NumAlign, MiddleRows, LastRows, LightColumns;
    LeftColumn(v, 0); LeftColumn(v, 1); LeftColumn(v, 2); LeftColumn(v, 3); LeftColumn(v, 4);
    LeftColumn(v, 5); ColumnSix(v); LeftColumn(v, 7); LeftColumn(v, 8);
    LightColumnsSplit(v, 0, 4, 9);
    LightColumnsSplit(v, 4, 6, 9);
    LightColumnsSplit(v, 6, 7, 9);
    LightColumnsUniform(v, 0, 4, Side(v) - 17 - (if v >= 7 then 3 else 0));
    LightColumnsUniform(v, 4, 6, Side(v) - 17 - MiddleRows(v) - (if v >= 7 then 3 else 0));
    LightColumnsUniform(v, 6, 7, 0);
    LightColumnsUniform(v, 7, 9, Side(v) - 17 - MiddleRows(v));
  }

  lemma RightSum(v: Version)
    ensures LightColumns(v, Side(v) - 11, Side(v))
         == 3 * Side(v) - (if v >= 7 then 21 else 3) + 8 * (Side(v) - 9) - 5 * LastRows(v)
  {
    hide LightIn, NumAlign, MiddleRows, LastRows, LightColumns;
    var n := Side(v);
    var top := if v >= 7 then 7 else 1;
    forall x | n - 11 <= x < n
      ensures LightIn(v, x, 0, n)
           == n - (if x >= n - 8 then 9 else top) - (if n - 9 <= x <= n - 5 then LastRows(v) else 0)
    {
      RightColumn(v, x);
    }
    LightColumnsSplit(v, n - 11, n - 9, n);
    LightColumnsSplit(v, n - 9, n - 8, n);
    LightColumnsSplit(v, n - 8, n - 4, n);
    LightColumnsUniform(v, n - 11, n - 9, n - top);
    LightColumnsUniform(v, n - 9, n - 8, n - top - LastRows(v));
    LightColumnsUniform(v, n - 8, n - 4, n - 9 - LastRows(v));
    LightColumnsUniform(v, n - 4, n, n - 9);
  }

  lemma MiddleTotal(v: Version)
    ensures LightColumns(v, 9, Side(v) - 11)
         == (Side(v) - 20) * (Side(v) - 1) - (if v >= 2 then 5 * (NumAlign(v) - 2) * (5 * NumAlign(v) - 1) else 0)
  {
    hide *;
    var n := Side(v);
    SideIs(v);
    if v >= 2 {
      MiddleFree(v, 9, n - 11);
      MiddleRowsIs(v);
      MiddleSum(v, n - 11, n - 5 * NumAlign(v), n - 1);
      MiddleAlgebra(n, NumAlign(v));
    } else {
      forall x | 9 <= x < n - 11 ensures LightIn(v, x, 0, n) == n - 1 { MiddleColumn(v, x); NoMiddleBand(v, x); }
      LightColumnsUniform(v, 9, n - 11, n - 1);
    }
  }

  lemma SideIs(v: Version)
    ensures Side(v) == 4 * v + 17
  {}

  lemma MiddleRowsIs(v: Version)
    requires v >= 2
    ensures MiddleRows(v) == 5 * (NumAlign(v) - 2) && 2 <= NumAlign(v) <= 7 && Side(v) >= 5 * NumAlign(v)
  {}

  lemma NoMiddleBand(v: Version, x: int)
    requires v == 1
    ensures !MiddleBand(v, x)
  {}

  lemma MiddleAlgebra(n: int, a: int)
    ensures var free, blocked := n - 20 - 5 * (a - 2), 5 * (a - 2);
      free * (n - 1) + blocked * (n - 5 * a) == (n - 20) * (n - 1) - 5 * (a - 2) * (5 * a - 1)
  {
    var blocked := 5 * (a - 2);
    assert (n - 20 - blocked) * (n - 1) == (n - 20) * (n - 1) - blocked * (n - 1);
    assert blocked * (n - 5 * a) == blocked * (n - 1) - blocked * (5 * a - 1);
  }

  // The closed form of the source counts exactly the light modules.
  lemma RawModulesCounted(v: Version)
    ensures LightColumns(v, 0, Side(v)) == NumRawDataModules(v)
  {
    hide LightColumns;
    LightColumnsSplit(v, 0, 9, Side(v));
    LightColumnsSplit(v, 9, Side(v) - 11, Side(v));
    LeftSum(v);
    MiddleTotal(v);
    RightSum(v);
    CountAlgebra(v, Side(v), NumAlign(v));
  }

  lemma CountAlgebra(v: Version, n: int, a: int)
    requires n == 4 * v + 17 && (v >= 2 ==> a == v / 7 + 2)
    ensures 8 * (n - 17) + (n - 20) * (n - 1) + 3 * n - 3 + 8 * (n - 9) == (16 * v + 128) * v + 64
    ensures 5 * (a - 2) * (5 * a - 1) + 20 * (a - 2) + 25 * (a - 1) == (25 * a - 10) * a - 55
  {}

  // ---------- the light modules along the scan ----------

  function FunctionGrid(v: Version): (g: Grid)
    ensures Square(g, Side(v))
  {
    seq(Side(v), y requires 0 <= y => seq(Side(v), x requires 0 <= x => IsFunction(v, x, y)))
  }

  lemma FunctionGridAt(v: Version, x: nat, y: nat)
    requires x < Side(v) && y < Side(v)
    ensures FunctionGrid(v)[y][x] == IsFunction(v, x, y)
  {
    hide IsFunction;
  }

  // The data modules of a symbol in scan order.
  function CodewordPath(v: Version): (ps: seq<Pos>)
  {
    WalkInside(Side(v), Side(v) - 1);
    LightPath(Walk(Side(v), Side(v) - 1), FunctionGrid(v))
  }

  lemma WalkInside(n: nat, right: int)
    requires n >= 9 && ScanColumn(right) && right < n
    ensures Inside(Walk(n, right), n)
  {
    var w := Walk(n, right);
    forall a | 0 <= a < |w| ensures w[a].x < n && w[a].y < n { WalkMembers(n, right, w[a]); }
  }

  lemma {:induction false} LightPathConcat(a: seq<Pos>, b: seq<Pos>, g: Grid)
    requires Square(g, |g|) && Inside(a, |g|) && Inside(b, |g|)
    ensures Inside(a + b, |g|) && LightPath(a + b, g) == LightPath(a, g) + LightPath(b, g)
  {
    hide Square, Inside, LightPath;
    if b == [] {
      LightPathOfNothing(g);
      assert a + b == a;
    } else {
      var b', p := b[..|b| - 1], b[|b| - 1];
      InsideSplit(b, |g|);
      LightPathConcat(a, b', g);
      LightPathAppend(a + b', p, g);
      LightPathAppend(b', p, g);
      assert b == b' + [p] && a + b == (a + b') + [p];
    }
  }

  lemma InsideSplit(b: seq<Pos>, n: nat)
    requires Inside(b, n) && b != []
    ensures Inside(b[..|b| - 1], n) && b[|b| - 1].x < n && b[|b| - 1].y < n
  {}

  lemma PairInside(n: nat, right: nat, vert: nat)
    requires 1 <= right < n && vert <= n
    ensures Inside(Pair(n, right, vert), n)
  {
    var ps := Pair(n, right, vert);
    forall a | 0 <= a < |ps| ensures ps[a].x < n && ps[a].y < n { PairMembers(n, right, vert, ps[a]); }
  }

  // Light modules of the two columns in the rows still to be scanned.
  ghost function RowsLeft(v: Version, right: nat, vert: nat): nat
  {
    var lo, hi := if Upward(right) then 0 else vert, if Upward(right) then Side(v) - vert else Side(v);
    LightIn(v, right, lo, hi) + LightIn(v, right - 1, lo, hi)
  }

  lemma RowsLeftStep(v: Version, right: nat, vert: nat)
    requires 1 <= right && vert < Side(v)
    ensures var p, q := At(Side(v), right, vert, 0), At(Side(v), right, vert, 1);
      RowsLeft(v, right, vert) == RowsLeft(v, right, vert + 1)
        + (if IsFunction(v, p.x, p.y) then 0 else 1) + (if IsFunction(v, q.x, q.y) then 0 else 1)
    ensures RowsLeft(v, right, Side(v)) == 0
  {
    hide IsFunction;
    if !Upward(right) {
      LightSplit(v, right, vert, vert + 1, Side(v));
      LightSplit(v, right - 1, vert, vert + 1, Side(v));
    }
  }

  lemma RowsLeftAll(v: Version, right: nat)
    ensures RowsLeft(v, right, 0) == LightIn(v, right, 0, Side(v)) + LightIn(v, right - 1, 0, Side(v))
  {
    hide LightIn;
  }

  lemma {:induction false} PairLight(v: Version, right: nat, vert: nat)
    requires 1 <= right < Side(v) && vert <= Side(v)
    ensures Inside(Pair(Side(v), right, vert), Side(v))
    ensures |LightPath(Pair(Side(v), right, vert), FunctionGrid(v))| == RowsLeft(v, right, vert)
    decreases Side(v) - vert
  {
    hide IsFunction, Upward, RowsLeft, FunctionGrid;
    var n, g := Side(v), FunctionGrid(v);
    PairInside(n, right, vert);
    if vert < n {
      var p, q := At(n, right, vert, 0), At(n, right, vert, 1);
      PairLight(v, right, vert + 1);
      RowsLeftStep(v, right, vert);
      LightPathConcat([p, q], Pair(n, right, vert + 1), g);
      LightPathAppend([], p, g);
      LightPathAppend([p], q, g);
      assert [] + [p] == [p] && [p] + [q] == [p, q];
      FunctionGridAt(v, p.x, p.y);
      FunctionGridAt(v, q.x, q.y);
    } else {
      RowsLeftStep(v, right, 0);
    }
  }

  lemma {:induction false} WalkLight(v: Version, right: int)
    requires ScanColumn(right) && right < Side(v)
    ensures Inside(Walk(Side(v), right), Side(v))
    ensures |LightPath(Walk(Side(v), right), FunctionGrid(v))| == LightColumns(v, 0, right + 1)
    decreases right + 1
  {
    hide IsFunction, FunctionGrid, LightPath, LightIn, RowsLeft, Pair, Inside, Side;
    var n, g := Side(v), FunctionGrid(v);
    SideIs(v);
    WalkInside(n, right);
    if right < 1 {
      assert Walk(n, right) == [];
      LightPathOfNothing(g);
    } else {
      var r := SkipTiming(right);
      WalkLight(v, r - 2);
      PairLight(v, r, 0);
      RowsLeftAll(v, r);
      LightPathConcat(Pair(n, r, 0), Walk(n, r - 2), g);
      assert LightColumns(v, 0, r + 1) == LightColumns(v, 0, r) + LightIn(v, r, 0, n);
      assert LightColumns(v, 0, r) == LightColumns(v, 0, r - 1) + LightIn(v, r - 1, 0, n);
      if right == 6 {
        ColumnSix(v);
        assert LightColumns(v, 0, 7) == LightColumns(v, 0, 6) + LightIn(v, 6, 0, n);
      }
    }
  }

  lemma LightPathOfNothing(g: Grid)
    requires Square(g, |g|)
    ensures LightPath([], g) == []
  {}

  // The scan meets exactly NumRawDataModules data modules, so there is room for every codeword bit.
  lemma RoomForCodewords(v: Version)
    ensures |CodewordPath(v)| == NumRawDataModules(v)
  {
    hide *;
    SideIs(v);
    ScanStarts(Side(v));
    WalkLight(v, Side(v) - 1);
    RawModulesCounted(v);
    CodewordPathIs(v);
  }

  lemma CodewordPathIs(v: Version)
    ensures Inside(Walk(Side(v), Side(v) - 1), Side(v))
    ensures CodewordPath(v) == LightPath(Walk(Side(v), Side(v) - 1), FunctionGrid(v))
  {
    hide Walk, LightPath, FunctionGrid;
    WalkInside(Side(v), Side(v) - 1);
  }
}
