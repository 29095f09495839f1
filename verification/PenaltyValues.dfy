/** What the penalty amounts to (table 11 of ISO/IEC 18004:2015), on grids and lines where it can be counted. */
module PenaltyValues {
  import opened Modules
  import opened Penalty

  // All modules of one colour, dark or light.
  function Uniform(n: nat, dark: bool): (g: Grid)
    ensures Square(g, n)
  {
    seq(n, y => seq(n, x => dark))
  }

  // ---------- a symbol of one colour ----------

  lemma UniformLine(line: seq<bool>, dark: bool)
    requires |line| >= 5 && forall i | 0 <= i < |line| :: line[i] == dark
    ensures LineScore(line) == |line| - 2
  {
    var n := |line|;
    SpanEndIs(line, 0, if dark then 0 else n, false);
    SpanEndIs(line, 0, if dark then n else 0, true);
    if dark {
      assert RunsFrom(line, 0, true) == [n];
      assert Runs(line) == [0, n];
      assert [0, n][..1] == [0] && [0][..0] == [];
      assert RunScore([0, n]) == RunScore([0]) + RunPoints(n) && RunScore([0]) == RunScore([]) + RunPoints(0);
      assert |Bordered([0, n], n)| == 3;
    } else {
      assert Runs(line) == [n];
      assert [n][..0] == [];
      assert RunScore([n]) == RunScore([]) + RunPoints(n);
      assert |Bordered([n], n)| == 1;
    }
  }

  lemma {:induction false} UniformLines(n: nat, dark: bool, byRow: bool, k: nat)
    requires n >= 5 && k <= n
    ensures LinesScore(Uniform(n, dark), n, byRow, k) == k * (n - 2)
  {
    hide LineScore;
    if k > 0 {
      UniformLines(n, dark, byRow, k - 1);
      UniformLine(Line(Uniform(n, dark), n, k - 1, byRow), dark);
      assert k * (n - 2) == (k - 1) * (n - 2) + (n - 2);
    }
  }

  lemma {:induction false} BlocksInUniformRow(n: nat, dark: bool, x: nat, y: nat)
    requires x < n && y + 1 < n
    ensures BlocksInRow(Uniform(n, dark), n, x, y) == x
  {
    if x > 0 { BlocksInUniformRow(n, dark, x - 1, y); }
  }

  lemma {:induction false} UniformBlocks(n: nat, dark: bool, rows: nat)
    requires rows < n
    ensures Blocks(Uniform(n, dark), n, rows) == rows * (n - 1)
  {
    hide BlocksInRow;
    if rows > 0 {
      UniformBlocks(n, dark, rows - 1);
      BlocksInUniformRow(n, dark, n - 1, rows - 1);
      assert rows * (n - 1) == (rows - 1) * (n - 1) + (n - 1);
    }
  }

  lemma {:induction false} DarkInUniformRow(n: nat, dark: bool, x: nat, y: nat)
    requires x <= n && y < n
    ensures DarkInRow(Uniform(n, dark), n, x, y) == if dark then x else 0
  {
    if x > 0 { DarkInUniformRow(n, dark, x - 1, y); }
  }

  lemma {:induction false} UniformDark(n: nat, dark: bool, rows: nat)
    requires rows <= n
    ensures DarkModules(Uniform(n, dark), n, rows) == if dark then rows * n else 0
  {
    hide DarkInRow;
    if rows > 0 {
      UniformDark(n, dark, rows - 1);
      DarkInUniformRow(n, dark, n, rows - 1);
      assert rows * n == (rows - 1) * n + n;
    }
  }

  lemma WorstBalance(total: int, dark: bool)
    requires total > 0
    ensures IsBalance(if dark then total else 0, total, 9)
  {}

  // A run in every row and column, a block at every place, and the worst balance.
  lemma UniformPenalty(n: nat, dark: bool)
    requires n >= 5
    ensures IsPenalty(Uniform(n, dark), n, 2 * n * (n - 2) + 3 * (n - 1) * (n - 1) + 90)
  {
    hide LinesScore, Blocks, DarkModules, IsBalance;
    UniformLines(n, dark, true, n);
    UniformLines(n, dark, false, n);
    UniformBlocks(n, dark, n - 1);
    UniformDark(n, dark, n);
    WorstBalance(n * n, dark);
  }

  // ---------- finder-like patterns ----------

  // A line by its runs, the first light.
  function LineOf(runs: seq<nat>, colour: bool): seq<bool> {
    if runs == [] then [] else seq(runs[0], _ => colour) + LineOf(runs[1..], !colour)
  }

  lemma {:induction false} RunsReadFrom(before: seq<bool>, runs: seq<nat>, colour: bool)
    requires runs != [] && forall i | 1 <= i < |runs| :: runs[i] > 0
    ensures RunsFrom(before + LineOf(runs, colour), |before|, colour) == runs
    decreases |runs|
  {
    hide RunsFrom;
    var rest := LineOf(runs[1..], !colour);
    var line, run, e := before + LineOf(runs, colour), seq(runs[0], _ => colour), |before| + runs[0];
    assert line == (before + run) + rest;
    if |runs| > 1 {
      RunsReadFrom(before + run, runs[1..], !colour);
      FirstOfLine(runs[1..], !colour);
      assert line[e] == rest[0];
    }
    forall i | |before| <= i < e ensures line[i] == colour { assert line[i] == run[i - |before|]; }
    SpanEndIs(line, |before|, e, colour);
    RunsUnfold(line, |before|, e, colour);
    assert runs == [runs[0]] + runs[1..];
  }

  lemma FirstOfLine(runs: seq<nat>, colour: bool)
    requires runs != [] && runs[0] > 0
    ensures LineOf(runs, colour) != [] && LineOf(runs, colour)[0] == colour
  {}

  lemma RunsUnfold(line: seq<bool>, s: nat, e: nat, colour: bool)
    requires s <= e <= |line| && SpanEnd(line, s, colour) == e
    ensures RunsFrom(line, s, colour) == [e - s] + if e < |line| then RunsFrom(line, e, !colour) else []
  {}

  // The runs of a line are those it was made of.
  lemma RunsReadBack(runs: seq<nat>)
    requires runs != [] && forall i | 1 <= i < |runs| :: runs[i] > 0
    ensures Runs(LineOf(runs, false)) == runs
  {
    RunsReadFrom([], runs, false);
    assert [] + LineOf(runs, false) == LineOf(runs, false);
  }

  function Points(len: nat): nat { if len >= 5 then len - 2 else 0 }

  lemma FinderWindows(r: seq<nat>)
    requires |r| == 11
    ensures FinderCount(r) == Window(r[0..7]) + Window(r[2..9]) + Window(r[4..11])
  {
    hide Window;
    FinderCountStep(r);
    FinderCountStep(r[..10]);
    FinderCountStep(r[..9]);
    FinderCountStep(r[..8]);
    FinderCountStep(r[..7]);
    assert r[..10][..9] == r[..9] && r[..9][..8] == r[..8] && r[..8][..7] == r[..7] && r[..7][..6] == r[..6];
    assert r[11 - 7..] == r[4..11] && r[..9][2..] == r[2..9] && r[..7][0..] == r[0..7];
  }

  lemma ElevenRuns(r: seq<nat>)
    requires |r| == 11
    ensures RunScore(r) == RunPoints(r[0]) + RunPoints(r[1]) + RunPoints(r[2]) + RunPoints(r[3]) + RunPoints(r[4])
                         + RunPoints(r[5]) + RunPoints(r[6]) + RunPoints(r[7]) + RunPoints(r[8]) + RunPoints(r[9])
                           + RunPoints(r[10])
  {
    hide RunPoints, RunScore;
    RunsUpTo(r, 11);
    RunsUpTo(r, 10);
    RunsUpTo(r, 9);
    RunsUpTo(r, 8);
    RunsUpTo(r, 7);
    RunsUpTo(r, 6);
    RunsUpTo(r, 5);
    RunsUpTo(r, 4);
    RunsUpTo(r, 3);
    RunsUpTo(r, 2);
    RunsUpTo(r, 1);
    assert r[..11] == r;
  }

  lemma RunsUpTo(r: seq<nat>, k: nat)
    requires 0 < k <= |r|
    ensures RunScore(r[..k]) == RunScore(r[..k - 1]) + RunPoints(r[k - 1]) && RunScore(r[..0]) == 0
  {
    assert r[..k][..k - 1] == r[..k - 1];
  }

  // Dark, light, three times dark, light and dark in a unit d costs 40 for every side on which at least four units are
  // light, if one is on the other side.
  lemma FinderPenalty(x: nat, q: nat, a: nat, d: nat, c: nat, r: nat, y: nat)
    requires q > 0 && a > 0 && d > 0 && c > 0 && r > 0 && y > 0
    ensures LineScore(LineOf([x, q, a, d, d, 3 * d, d, d, c, r, y], false))
         == Points(x) + Points(q) + Points(a) + 4 * Points(d) + Points(3 * d) + Points(c) + Points(r) + Points(y)
          + (if a >= 4 * d && c >= d then 40 else 0) + (if c >= 4 * d && a >= d then 40 else 0)
  {
    hide *;
    var runs := [x, q, a, d, d, 3 * d, d, d, c, r, y];
    var line := LineOf(runs, false);
    RunsReadBack(runs);
    ScoreParts(line, runs);
    PointsOfEleven(x, q, a, d, c, r, y);
    WindowsOfEleven(x, q, a, d, c, r, y, |line|);
  }

  lemma ScoreParts(line: seq<bool>, runs: seq<nat>)
    requires runs != [] && Runs(line) == runs
    ensures LineScore(line) == RunScore(runs) + 40 * FinderCount(Bordered(runs, |line|))
  {
    hide Runs, RunScore, FinderCount, Bordered;
  }

  lemma PointsOfEleven(x: nat, q: nat, a: nat, d: nat, c: nat, r: nat, y: nat)
    ensures RunScore([x, q, a, d, d, 3 * d, d, d, c, r, y])
         == Points(x) + Points(q) + Points(a) + 4 * Points(d) + Points(3 * d) + Points(c) + Points(r) + Points(y)
  {
    hide RunScore;
    ElevenRuns([x, q, a, d, d, 3 * d, d, d, c, r, y]);
  }

  lemma WindowsOfEleven(x: nat, q: nat, a: nat, d: nat, c: nat, r: nat, y: nat, n: nat)
    requires q > 0 && a > 0 && d > 0 && c > 0 && r > 0 && y > 0
    ensures FinderCount(Bordered([x, q, a, d, d, 3 * d, d, d, c, r, y], n))
         == (if a >= 4 * d && c >= d then 1 else 0) + (if c >= 4 * d && a >= d then 1 else 0)
  {
    hide FinderCount;
    var b := Bordered([x, q, a, d, d, 3 * d, d, d, c, r, y], n);
    assert b == [x + n, q, a, d, d, 3 * d, d, d, c, r, y + n];
    hide Bordered;
    FinderWindows(b);
    Seven(b, 0);
    Seven(b, 2);
    Seven(b, 4);
  }

  lemma Seven(b: seq<nat>, i: nat)
    requires i + 7 <= |b|
    ensures b[i..i + 7] == [b[i], b[i + 1], b[i + 2], b[i + 3], b[i + 4], b[i + 5], b[i + 6]]
  {}
}
