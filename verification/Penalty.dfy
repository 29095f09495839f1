/** The penalty score of a symbol (section 7.8.3 of ISO/IEC 18004:2015). */
module Penalty {
  import opened Arithmetic
  import opened Bits
  import opened Modules

  const PENALTY_N1 := 3
  const PENALTY_N2 := 3
  const PENALTY_N3 := 40
  const PENALTY_N4 := 10

  // ---------- runs of one line ----------

  // First position from s on that is not of the colour.
  function SpanEnd(line: seq<bool>, s: nat, colour: bool): (e: nat)
    requires s <= |line|
    ensures s <= e <= |line|
    ensures forall i | s <= i < e :: line[i] == colour
    ensures e < |line| ==> line[e] != colour
    decreases |line| - s
  {
    if s < |line| && line[s] == colour then SpanEnd(line, s + 1, colour) else s
  }

  // Lengths of the maximal runs from s on, in alternating colours starting with `colour` (whose run may be empty).
  function RunsFrom(line: seq<bool>, s: nat, colour: bool): (runs: seq<nat>)
    requires s <= |line|
    ensures |runs| >= 1
    decreases |line| - s, if s < |line| && line[s] == colour then 0 else 1
  {
    var e := SpanEnd(line, s, colour);
    [e - s] + if e < |line| then RunsFrom(line, e, !colour) else []
  }

  // All runs of a line, the even-numbered ones light.
  function Runs(line: seq<bool>): seq<nat> {
    RunsFrom(line, 0, false)
  }

  // A run of at least five modules scores its length minus two.
  function RunPoints(len: nat): nat {
    if len >= 5 then PENALTY_N1 + (len - 5) else 0
  }

  function RunScore(runs: seq<nat>): nat {
    if runs == [] then 0 else RunScore(runs[..|runs| - 1]) + RunPoints(runs[|runs| - 1])
  }

  // ---------- finder-like patterns ----------

  // The line framed by n light modules on either side, again as runs that start and end light.
  function Bordered(runs: seq<nat>, n: nat): (b: seq<nat>)
    requires |runs| >= 1
    ensures |b| % 2 == 1
  {
    var r := if |runs| % 2 == 1 then runs else runs + [0];
    BorderFirst(r, n)[|r| - 1 := BorderFirst(r, n)[|r| - 1] + n]
  }

  function BorderFirst(runs: seq<nat>, n: nat): (b: seq<nat>)
    ensures |b| == |runs|
  {
    if runs == [] then [] else runs[0 := runs[0] + n]
  }

  // Dark, light, three dark, light, dark in proportion, with light at least four wide on one side and one on the other.
  function Window(r: seq<nat>): (c: nat)
    requires |r| == 7
    ensures c <= 2 && (c > 0 ==> r[3] >= 3)
  {
    var d := r[1];
    var core := d > 0 && r[2] == d && r[3] == 3 * d && r[4] == d && r[5] == d;
    (if core && r[0] >= 4 * d && r[6] >= d then 1 else 0) + (if core && r[6] >= 4 * d && r[0] >= d then 1 else 0)
  }

  // Over all windows of seven runs that begin and end light.
  function FinderCount(runs: seq<nat>): nat {
    if |runs| < 7 then 0
    else FinderCount(runs[..|runs| - 1]) + if |runs| % 2 == 1 then Window(runs[|runs| - 7..]) else 0
  }

  function LineScore(line: seq<bool>): nat {
    RunScore(Runs(line)) + FinderCount(Bordered(Runs(line), |line|)) * PENALTY_N3
  }

  // ---------- the run history of the source ----------

  // The last seven runs, most recent first, zero where there are fewer.
  ghost predicate History(h: seq<nat>, runs: seq<nat>) {
    |h| == 7 && forall k | 0 <= k < 7 :: h[k] == if k < |runs| then runs[|runs| - 1 - k] else 0
  }

  // Pushes a run to the front and drops the last one. The first run gets the light border.
  method FinderPenaltyAddHistory(currentRunLength: nat, runHistory: array<nat>, qrsize: nat, ghost runs: seq<nat>)
    requires runHistory.Length == 7 && History(runHistory[..], runs)
    requires forall k | 0 <= k < |runs| - 1 :: runs[k] > 0
    requires |runs| > 0 ==> runs[|runs| - 1] > 0
    modifies runHistory
    ensures History(runHistory[..], runs + [if runs == [] then currentRunLength + qrsize else currentRunLength])
  {
    var len := currentRunLength;
    if runHistory[0] == 0 {
      len := len + qrsize;
    }
    forall k | 1 <= k < 7 { runHistory[k] := runHistory[k - 1]; }
    runHistory[0] := len;
  }

  method FinderPenaltyCountPatterns(runHistory: array<nat>, qrsize: nat, ghost runs: seq<nat>) returns (count: nat)
    requires runHistory.Length == 7 && History(runHistory[..], runs)
    requires forall k | 0 <= k < |runs| :: runs[k] <= 3 * qrsize
    ensures count == if |runs| >= 7 then Window(runs[|runs| - 7..]) else 0
  {
    var n := runHistory[1];
    assert n <= qrsize * 3;
    var core := n > 0 && runHistory[2] == n && runHistory[3] == n * 3 && runHistory[4] == n && runHistory[5] == n;
    count := (if core && runHistory[0] >= n * 4 && runHistory[6] >= n then 1 else 0)
           + (if core && runHistory[6] >= n * 4 && runHistory[0] >= n then 1 else 0);
    if |runs| >= 7 {
      var w := runs[|runs| - 7..];
      assert w[0] == runHistory[6] && w[1] == runHistory[5] && w[2] == runHistory[4] && w[3] == runHistory[3];
      assert w[4] == runHistory[2] && w[5] == runHistory[1] && w[6] == runHistory[0];
    }
  }

  // ---------- scanning one line ----------

  // A scan that stands at x inside the run of `colour` that began at s, with the earlier runs closed.
  ghost predicate LineState(line: seq<bool>, x: nat, s: nat, colour: bool, closed: seq<nat>, points: int) {
    && s <= x <= |line|
    && (forall i | s <= i < x :: line[i] == colour)
    && closed + RunsFrom(line, s, colour) == Runs(line)
    && colour == (|closed| % 2 == 1)
    && points == RunScore(closed) + RunPoints(x - s)
    && (forall k | 1 <= k < |closed| :: closed[k] > 0)
    && (forall k | 0 <= k < |closed| :: closed[k] <= |line|)
    && (closed == [] || s < x)
  }

  lemma {:induction false} SpanEndIs(line: seq<bool>, s: nat, x: nat, colour: bool)
    requires s <= x <= |line| && forall i | s <= i < x :: line[i] == colour
    requires x < |line| ==> line[x] != colour
    ensures SpanEnd(line, s, colour) == x
    decreases x - s
  {
    if s < x { SpanEndIs(line, s + 1, x, colour); }
  }

  lemma RunScoreAppend(runs: seq<nat>, r: nat)
    ensures RunScore(runs + [r]) == RunScore(runs) + RunPoints(r)
  {
    assert (runs + [r])[..|runs|] == runs;
  }

  lemma FinderCountStep(r: seq<nat>)
    requires |r| >= 1
    ensures FinderCount(r) == FinderCount(r[..|r| - 1]) + if |r| >= 7 && |r| % 2 == 1 then Window(r[|r| - 7..]) else 0
  {
    hide Window;
    if |r| < 7 { assert FinderCount(r) == 0 == FinderCount(r[..|r| - 1]); }
  }

  lemma FinderCountAppend(runs: seq<nat>, r: nat)
    ensures FinderCount(runs + [r]) == FinderCount(runs)
      + if |runs| >= 6 && |runs| % 2 == 0 then Window((runs + [r])[|runs| - 6..]) else 0
  {
    hide Window, FinderCount;
    assert (runs + [r])[..|runs|] == runs;
    FinderCountStep(runs + [r]);
  }

  lemma BorderFirstAppend(runs: seq<nat>, r: nat, n: nat)
    ensures BorderFirst(runs + [r], n) == BorderFirst(runs, n) + [if runs == [] then r + n else r]
  {}

  lemma LineStateSame(line: seq<bool>, x: nat, s: nat, colour: bool, closed: seq<nat>, points: int)
    requires LineState(line, x, s, colour, closed, points) && x < |line| && line[x] == colour
    ensures var len := x + 1 - s;
      LineState(line, x + 1, s, colour, closed,
                if len == 5 then points + PENALTY_N1 else if len > 5 then points + 1 else points)
  {
    hide RunsFrom, RunScore;
  }

  lemma LineStateChange(line: seq<bool>, x: nat, s: nat, colour: bool, closed: seq<nat>, points: int)
    requires LineState(line, x, s, colour, closed, points) && x < |line| && line[x] != colour
    ensures LineState(line, x + 1, x, !colour, closed + [x - s], points)
  {
    hide RunScore, SpanEnd;
    SpanEndIs(line, s, x, colour);
    RunScoreAppend(closed, x - s);
    assert closed + ([x - s] + RunsFrom(line, x, !colour)) == (closed + [x - s]) + RunsFrom(line, x, !colour);
  }

  lemma LineStateEnd(line: seq<bool>, s: nat, colour: bool, closed: seq<nat>, points: int)
    requires LineState(line, |line|, s, colour, closed, points)
    ensures Runs(line) == closed + [|line| - s] && points == RunScore(Runs(line))
  {
    hide RunScore, SpanEnd;
    SpanEndIs(line, s, |line|, colour);
    RunScoreAppend(closed, |line| - s);
  }

  // The history holds the closed runs, the first with its border.
  ghost predicate Closed(h: seq<nat>, closed: seq<nat>, n: nat) {
    History(h, BorderFirst(closed, n))
  }

  // Ends the current run: records it and counts finder patterns if it was light.
  method CloseRun(colour: bool, len: nat, runHistory: array<nat>, qrsize: nat, ghost closed: seq<nat>)
    returns (count: nat)
    requires runHistory.Length == 7 && qrsize > 0 && Closed(runHistory[..], closed, qrsize)
    requires forall k | 1 <= k < |closed| :: closed[k] > 0
    requires len <= qrsize && forall k | 0 <= k < |closed| :: closed[k] <= qrsize
    requires colour == (|closed| % 2 == 1)
    modifies runHistory
    ensures Closed(runHistory[..], closed + [len], qrsize)
    ensures FinderCount(BorderFirst(closed + [len], qrsize)) == FinderCount(BorderFirst(closed, qrsize)) + count
  {
    hide FinderCount, Window, History;
    ghost var b := BorderFirst(closed, qrsize);
    BorderFirstAppend(closed, len, qrsize);
    ghost var r := if closed == [] then len + qrsize else len;
    FinderPenaltyAddHistory(len, runHistory, qrsize, b);
    FinderCountAppend(b, r);
    count := 0;
    if !colour {
      count := FinderPenaltyCountPatterns(runHistory, qrsize, b + [r]);
    }
  }

  // Must be called at the end of a line; the last run gets the light border.
  method FinderPenaltyTerminateAndCount(currentRunColor: bool, currentRunLength: nat, runHistory: array<nat>,
                                        qrsize: nat, ghost closed: seq<nat>)
    returns (count: nat)
    requires runHistory.Length == 7 && qrsize > 0 && Closed(runHistory[..], closed, qrsize)
    requires RunSizes(closed, qrsize) && currentRunLength <= qrsize
    requires currentRunColor == (|closed| % 2 == 1) && (closed == [] || currentRunLength > 0)
    modifies runHistory
    ensures FinderCount(Bordered(closed + [currentRunLength], qrsize))
      == FinderCount(BorderFirst(closed, qrsize)) + count
  {
    hide FinderCount, Window, History, BorderFirst, Bordered, RunSizes;
    BorderFirstSizes(closed, qrsize);
    RunSizesAppend(closed, currentRunLength, qrsize);
    var len := currentRunLength;
    ghost var done := closed;
    if currentRunColor {
      BorderFirstAppend(closed, len, qrsize);
      FinderPenaltyAddHistory(len, runHistory, qrsize, BorderFirst(closed, qrsize));
      done := closed + [len];
      BorderFirstSizes(done, qrsize);
      len := 0;
    }
    len := len + qrsize;
    ghost var last := if done == [] then len + qrsize else len;
    BorderCounts(closed, currentRunLength, qrsize, done, last);
    FinderPenaltyAddHistory(len, runHistory, qrsize, BorderFirst(done, qrsize));
    count := FinderPenaltyCountPatterns(runHistory, qrsize, BorderFirst(done, qrsize) + [last]);
  }

  // Recording a dark last run completes no window; the light border after it may.
  lemma BorderCounts(closed: seq<nat>, len: nat, n: nat, done: seq<nat>, last: nat)
    requires if |closed| % 2 == 1 then done == closed + [len] && last == n
             else done == closed && last == (if closed == [] then len + n + n else len + n)
    ensures var r := BorderFirst(done, n) + [last];
      FinderCount(Bordered(closed + [len], n))
        == FinderCount(BorderFirst(closed, n)) + if |r| >= 7 then Window(r[|r| - 7..]) else 0
  {
    hide FinderCount, Window, BorderFirst, Bordered;
    BorderLast(closed, len, n, done, last);
    if |closed| % 2 == 1 {
      BorderFirstAppend(closed, len, n);
      FinderCountAppend(BorderFirst(closed, n), if closed == [] then len + n else len);
    }
    FinderCountAppend(BorderFirst(done, n), last);
  }

  // Only the first run may be empty, and none is longer than the line.
  ghost predicate RunSizes(runs: seq<nat>, n: nat) {
    (forall k | 1 <= k < |runs| :: runs[k] > 0) && forall k | 0 <= k < |runs| :: runs[k] <= n
  }

  lemma RunSizesAppend(runs: seq<nat>, r: nat, n: nat)
    requires RunSizes(runs, n) && r <= n && (runs == [] || r > 0)
    ensures RunSizes(runs + [r], n)
  {}

  lemma BorderFirstSizes(runs: seq<nat>, n: nat)
    requires n > 0 && RunSizes(runs, n)
    ensures |BorderFirst(runs, n)| == |runs|
    ensures forall k | 0 <= k < |runs| :: 0 < BorderFirst(runs, n)[k] <= 2 * n
  {}

  lemma BorderLast(closed: seq<nat>, len: nat, n: nat, done: seq<nat>, last: nat)
    requires if |closed| % 2 == 1 then done == closed + [len] && last == n
             else done == closed && last == (if closed == [] then len + n + n else len + n)
    ensures Bordered(closed + [len], n) == BorderFirst(done, n) + [last]
  {
    if |closed| % 2 == 1 {
      assert closed + [len] + [0] == done + [0];
      BorderFirstAppend(done, 0, n);
    } else {
      BorderFirstAppend(closed, len, n);
    }
  }

  // ---------- one row or column of the symbol ----------

  function Line(g: Grid, n: nat, i: nat, byRow: bool): (line: seq<bool>)
    requires Square(g, n) && i < n
    ensures |line| == n
  {
    if byRow then g[i] else seq(n, y requires 0 <= y < n => g[y][i])
  }

  // The row loop and the column loop of the source differ only in which coordinate runs.
  method LinePenalty(qrcode: array<Byte>, qrsize: nat, i: nat, byRow: bool) returns (result: nat)
    requires Sized(qrcode[..], qrsize) && i < qrsize
    ensures result == LineScore(Line(GridOf(qrcode[..], qrsize), qrsize, i, byRow))
  {
    hide LineState, RunsFrom, Runs, RunScore, FinderCount, Window, History, GridOf, Sized, Bordered, BorderFirst;
    SizePositive(qrcode[..], qrsize);
    ghost var line := Line(GridOf(qrcode[..], qrsize), qrsize, i, byRow);
    var points, count := 0, 0;
    var runColor, run := false, 0;
    var runHistory := new nat[7](_ => 0);
    ghost var closed: seq<nat> := [];
    LineStart(line, runHistory[..], qrsize);
    for x := 0 to qrsize
      invariant run <= x
      invariant LineState(line, x, x - run, runColor, closed, points)
      invariant Closed(runHistory[..], closed, qrsize)
      invariant count == FinderCount(BorderFirst(closed, qrsize))
    {
      LineStateMeans(line, x, x - run, runColor, closed, points);
      var dark := GetModuleBounded(qrcode, if byRow then x else i, if byRow then i else x, qrsize);
      if dark == runColor {
        LineStateSame(line, x, x - run, runColor, closed, points);
        run := run + 1;
        if run == 5 {
          points := points + PENALTY_N1;
        } else if run > 5 {
          points := points + 1;
        }
      } else {
        LineStateChange(line, x, x - run, runColor, closed, points);
        var c := CloseRun(runColor, run, runHistory, qrsize, closed);
        count := count + c;
        closed := closed + [run];
        runColor := dark;
        run := 1;
      }
    }
    LineStateMeans(line, qrsize, qrsize - run, runColor, closed, points);
    LineStateEnd(line, qrsize - run, runColor, closed, points);
    var c := FinderPenaltyTerminateAndCount(runColor, run, runHistory, qrsize, closed);
    count := count + c;
    result := points + count * PENALTY_N3;
  }

  lemma SizePositive(q: seq<Byte>, n: nat)
    requires Sized(q, n)
    ensures 21 <= n <= 177 && q[0] as int == n
  {}

  lemma LineStart(line: seq<bool>, h: seq<nat>, n: nat)
    requires |h| == 7 && forall k | 0 <= k < 7 :: h[k] == 0
    ensures LineState(line, 0, 0, false, [], 0) && Closed(h, [], n) && FinderCount(BorderFirst([], n)) == 0
  {
    assert [] + RunsFrom(line, 0, false) == Runs(line);
  }

  lemma LineStateMeans(line: seq<bool>, x: nat, s: nat, colour: bool, closed: seq<nat>, points: int)
    requires LineState(line, x, s, colour, closed, points)
    ensures s <= x <= |line| && colour == (|closed| % 2 == 1) && (closed == [] || s < x)
    ensures forall k | 1 <= k < |closed| :: closed[k] > 0
    ensures forall k | 0 <= k < |closed| :: closed[k] <= |line|
  {}

  // ---------- the whole symbol ----------

  function LinesScore(g: Grid, n: nat, byRow: bool, k: nat): nat
    requires Square(g, n) && k <= n
  {
    if k == 0 then 0 else LinesScore(g, n, byRow, k - 1) + LineScore(Line(g, n, k - 1, byRow))
  }

  // A 2 by 2 block of one colour with (x, y) at its upper left.
  predicate IsBlock(g: Grid, n: nat, x: nat, y: nat)
    requires Square(g, n) && x + 1 < n && y + 1 < n
  {
    g[y][x] == g[y][x + 1] == g[y + 1][x] == g[y + 1][x + 1]
  }

  // Blocks in row y among the first x columns.
  function BlocksInRow(g: Grid, n: nat, x: nat, y: nat): nat
    requires Square(g, n) && x < n && y + 1 < n
  {
    if x == 0 then 0 else BlocksInRow(g, n, x - 1, y) + if IsBlock(g, n, x - 1, y) then 1 else 0
  }

  function Blocks(g: Grid, n: nat, rows: nat): (c: nat)
    requires Square(g, n) && rows < n
  {
    if rows == 0 then 0 else Blocks(g, n, rows - 1) + BlocksInRow(g, n, n - 1, rows - 1)
  }

  function DarkInRow(g: Grid, n: nat, x: nat, y: nat): (c: nat)
    requires Square(g, n) && x <= n && y < n
    ensures c <= x
  {
    if x == 0 then 0 else DarkInRow(g, n, x - 1, y) + if g[y][x - 1] then 1 else 0
  }

  function DarkModules(g: Grid, n: nat, rows: nat): nat
    requires Square(g, n) && rows <= n
  {
    if rows == 0 then 0 else DarkModules(g, n, rows - 1) + DarkInRow(g, n, n, rows - 1)
  }

  // (45 - 5k)% <= dark / total <= (55 + 5k)%
  predicate WithinBand(dark: int, total: int, k: int) {
    (45 - 5 * k) * total <= 100 * dark <= (55 + 5 * k) * total
  }

  // The least band around one half that holds the share of dark modules.
  ghost predicate IsBalance(dark: int, total: int, k: int) {
    0 <= k <= 9 && WithinBand(dark, total, k) && forall j | 0 <= j < k :: !WithinBand(dark, total, j)
  }

  // `score` is the penalty of the symbol, as the sum of its four features.
  ghost predicate IsPenalty(g: Grid, n: nat, score: int)
    requires Square(g, n) && n >= 1
  {
    exists k: int :: IsBalance(DarkModules(g, n, n), n * n, k)
      && score == LinesScore(g, n, true, n) + LinesScore(g, n, false, n) + Blocks(g, n, n - 1) * PENALTY_N2
         + k * PENALTY_N4
  }

  // A symbol has exactly one penalty.
  lemma PenaltyUnique(g: Grid, n: nat, a: int, b: int)
    requires Square(g, n) && n >= 1 && IsPenalty(g, n, a) && IsPenalty(g, n, b)
    ensures a == b
  {
    hide WithinBand;
    var dark, total := DarkModules(g, n, n), n * n;
    var j :| IsBalance(dark, total, j)
      && a == LinesScore(g, n, true, n) + LinesScore(g, n, false, n) + Blocks(g, n, n - 1) * PENALTY_N2
         + j * PENALTY_N4;
    var k :| IsBalance(dark, total, k)
      && b == LinesScore(g, n, true, n) + LinesScore(g, n, false, n) + Blocks(g, n, n - 1) * PENALTY_N2
         + k * PENALTY_N4;
    if j < k { assert WithinBand(dark, total, j); } else if k < j { assert WithinBand(dark, total, k); }
  }

  // The closed form of the source computes the least band; a total that is odd never sits exactly on one half.
  lemma BalanceFormula(dark: int, total: int)
    requires total > 0 && total % 2 == 1 && 0 <= dark <= total
    ensures IsBalance(dark, total, (Abs(dark * 20 - total * 10) + total - 1) / total - 1)
  {
    var d := Abs(dark * 20 - total * 10);
    assert 1 <= d <= 10 * total;
    var k := (d + total - 1) / total - 1;
    hide Abs, WithinBand;
    CeilingBounds(d, total);
    CeilingRange(d, total, k);
    forall j | 0 <= j
      ensures WithinBand(dark, total, j) <==> d <= (j + 1) * total
    {
      BandIsDistance(dark, total, j, d);
    }
    forall j | 0 <= j < k ensures !WithinBand(dark, total, j) { Below(j + 1, k, total); }
  }

  // With c = k + 1 the ceiling of d / total: k total < d <= (k + 1) total.
  lemma CeilingBounds(d: nat, total: int)
    requires total > 0 && d > 0
    ensures var k := (d + total - 1) / total - 1; k * total < d <= (k + 1) * total
  {
    var q, r := (d + total - 1) / total, (d + total - 1) % total;
    assert d + total - 1 == q * total + r;
    assert (q - 1) * total == q * total - total;
  }

  lemma CeilingRange(d: nat, total: int, k: int)
    requires total > 0 && k * total < d <= (k + 1) * total && 1 <= d <= 10 * total
    ensures 0 <= k <= 9
  {
    if k < 0 { Below(k + 1, 0, total); }
    if k > 9 { Below(10, k, total); }
  }

  lemma Below(a: int, k: int, total: int)
    requires a <= k && total > 0
    ensures a * total <= k * total
  {}

  lemma BandIsDistance(dark: int, total: int, j: int, d: int)
    requires d == Abs(dark * 20 - total * 10)
    ensures WithinBand(dark, total, j) <==> d <= (j + 1) * total
  {
    assert (45 - 5 * j) * total == 50 * total - 5 * ((j + 1) * total);
    assert (55 + 5 * j) * total == 50 * total + 5 * ((j + 1) * total);
  }

  // ---------- bounds ----------

  function Sum(runs: seq<nat>): nat {
    if runs == [] then 0 else Sum(runs[..|runs| - 1]) + runs[|runs| - 1]
  }

  // Dark runs are the odd-numbered ones.
  function DarkSum(runs: seq<nat>): nat {
    if runs == [] then 0 else DarkSum(runs[..|runs| - 1]) + if |runs| % 2 == 0 then runs[|runs| - 1] else 0
  }

  lemma {:induction false} SumPrepend(a: nat, runs: seq<nat>)
    ensures Sum([a] + runs) == a + Sum(runs)
  {
    if runs == [] {
      assert [a] + runs == [a] && [a][..0] == [];
    } else {
      assert ([a] + runs)[..|runs|] == [a] + runs[..|runs| - 1];
      SumPrepend(a, runs[..|runs| - 1]);
    }
  }

  // The runs account for the whole line.
  lemma {:induction false} RunsSum(line: seq<bool>, s: nat, colour: bool)
    requires s <= |line|
    ensures Sum(RunsFrom(line, s, colour)) == |line| - s
    decreases |line| - s, if s < |line| && line[s] == colour then 0 else 1
  {
    var e := SpanEnd(line, s, colour);
    if e < |line| {
      RunsSum(line, e, !colour);
      SumPrepend(e - s, RunsFrom(line, e, !colour));
    } else {
      SumPrepend(e - s, []);
      assert [e - s] + [] == [e - s];
    }
  }

  lemma {:induction false} RunScoreBound(runs: seq<nat>)
    ensures RunScore(runs) <= Sum(runs) && DarkSum(runs) <= Sum(runs)
  {
    if runs != [] { RunScoreBound(runs[..|runs| - 1]); }
  }

  // Each window has a dark centre of its own at least three wide.
  lemma {:induction false} FinderCountCentres(runs: seq<nat>)
    requires |runs| >= 4
    ensures 3 * FinderCount(runs) <= 2 * DarkSum(runs[..|runs| - 3])
  {
    hide Window, FinderCount, DarkSum;
    FinderCountStep(runs);
    if |runs| < 7 {
      FinderCountShort(runs);
    } else {
      FinderCountCentres(runs[..|runs| - 1]);
      var c := runs[..|runs| - 3];
      assert runs[..|runs| - 1][..|runs| - 4] == c[..|c| - 1];
      DarkSumStep(c);
      assert runs[|runs| - 7..][3] == c[|c| - 1];
    }
  }

  lemma FinderCountBound(runs: seq<nat>)
    ensures 3 * FinderCount(runs) <= 2 * DarkSum(runs)
  {
    hide FinderCount, DarkSum;
    if |runs| < 4 {
      FinderCountShort(runs);
    } else {
      FinderCountCentres(runs);
      DarkSumStep(runs);
      var one := runs[..|runs| - 1];
      DarkSumStep(one);
      var two := one[..|one| - 1];
      DarkSumStep(two);
      assert two[..|two| - 1] == runs[..|runs| - 3];
    }
  }

  lemma FinderCountShort(runs: seq<nat>)
    requires |runs| < 7
    ensures FinderCount(runs) == 0
  {}

  lemma DarkSumStep(runs: seq<nat>)
    requires |runs| >= 1
    ensures DarkSum(runs) == DarkSum(runs[..|runs| - 1]) + if |runs| % 2 == 0 then runs[|runs| - 1] else 0
  {}

  // The light border adds nothing to the dark runs.
  lemma DarkSumLightChange(runs: seq<nat>, k: nat, r: nat)
    requires k < |runs| && k % 2 == 0
    ensures DarkSum(runs[k := r]) == DarkSum(runs)
    decreases |runs|
  {
    var changed := runs[k := r];
    if k < |runs| - 1 {
      assert changed[..|runs| - 1] == runs[..|runs| - 1][k := r];
      DarkSumLightChange(runs[..|runs| - 1], k, r);
    } else {
      assert changed[..|runs| - 1] == runs[..|runs| - 1];
    }
  }

  lemma BorderedIs(runs: seq<nat>, n: nat, r: seq<nat>, b: seq<nat>)
    requires |runs| >= 1 && r == (if |runs| % 2 == 1 then runs else runs + [0]) && b == r[0 := r[0] + n]
    ensures Bordered(runs, n) == b[|b| - 1 := b[|b| - 1] + n]
    ensures (|b| - 1) % 2 == 0
  {}

  lemma BorderedDarkSum(runs: seq<nat>, n: nat)
    requires |runs| >= 1
    ensures DarkSum(Bordered(runs, n)) == DarkSum(runs)
  {
    hide DarkSum, Bordered, BorderFirst;
    var r := if |runs| % 2 == 1 then runs else runs + [0];
    var b := r[0 := r[0] + n];
    BorderedIs(runs, n, r, b);
    if |runs| % 2 == 0 {
      DarkSumStep(r);
      assert r[..|r| - 1] == runs;
    }
    DarkSumLightChange(r, 0, r[0] + n);
    DarkSumLightChange(b, |b| - 1, b[|b| - 1] + n);
  }

  lemma LineScoreBound(line: seq<bool>)
    ensures 3 * LineScore(line) <= 83 * |line|
  {
    hide FinderCount, RunScore, DarkSum, Sum, Bordered, RunsFrom;
    var runs := Runs(line);
    RunsSum(line, 0, false);
    RunScoreBound(runs);
    FinderCountBound(Bordered(runs, |line|));
    BorderedDarkSum(runs, |line|);
  }

  lemma {:induction false} LinesScoreBound(g: Grid, n: nat, byRow: bool, k: nat)
    requires Square(g, n) && k <= n
    ensures 3 * LinesScore(g, n, byRow, k) <= 83 * (k * n)
  {
    hide LineScore;
    if k > 0 {
      LinesScoreBound(g, n, byRow, k - 1);
      LineScoreBound(Line(g, n, k - 1, byRow));
      assert k * n == (k - 1) * n + n;
    }
  }

  lemma {:induction false} BlocksBound(g: Grid, n: nat, rows: nat)
    requires Square(g, n) && rows < n
    ensures Blocks(g, n, rows) <= rows * (n - 1)
  {
    if rows > 0 {
      BlocksBound(g, n, rows - 1);
      BlocksInRowBound(g, n, n - 1, rows - 1);
      assert rows * (n - 1) == (rows - 1) * (n - 1) + (n - 1);
    }
  }

  lemma {:induction false} BlocksInRowBound(g: Grid, n: nat, x: nat, y: nat)
    requires Square(g, n) && x < n && y + 1 < n
    ensures BlocksInRow(g, n, x, y) <= x
  {
    if x > 0 { BlocksInRowBound(g, n, x - 1, y); }
  }

  lemma {:induction false} DarkBound(g: Grid, n: nat, rows: nat)
    requires Square(g, n) && rows <= n
    ensures DarkModules(g, n, rows) <= rows * n
  {
    if rows > 0 {
      DarkBound(g, n, rows - 1);
      assert rows * n == (rows - 1) * n + n;
    }
  }

  // The bound the source asserts.
  lemma TotalBound(n: nat, rows: int, columns: int, blocks: int, k: int)
    requires 21 <= n <= 177 && 0 <= k <= 9
    requires 3 * rows <= 83 * (n * n) && 3 * columns <= 83 * (n * n) && blocks <= (n - 1) * (n - 1)
    ensures rows + columns + blocks * PENALTY_N2 + k * PENALTY_N4 <= 2568888
  {
    SquareMonotone(n, 177);
    SquareMonotone(n - 1, 176);
  }

  lemma SquareMonotone(a: nat, b: nat)
    requires a <= b
    ensures a * a <= b * b
  {
    Below(a, b, b + 1);
  }

  // ---------- the score of the source ----------

  method ScoreLines(qrcode: array<Byte>, qrsize: nat, byRow: bool) returns (result: nat)
    requires Sized(qrcode[..], qrsize)
    ensures result == LinesScore(GridOf(qrcode[..], qrsize), qrsize, byRow, qrsize)
  {
    hide LineScore, Sized, GridOf;
    result := 0;
    for i := 0 to qrsize
      invariant result == LinesScore(GridOf(qrcode[..], qrsize), qrsize, byRow, i)
    {
      var p := LinePenalty(qrcode, qrsize, i, byRow);
      result := result + p;
    }
  }

  method CountBlocks(qrcode: array<Byte>, qrsize: nat) returns (count: nat)
    requires Sized(qrcode[..], qrsize) && qrsize >= 1
    ensures count == Blocks(GridOf(qrcode[..], qrsize), qrsize, qrsize - 1)
  {
    hide Sized, GridOf;
    count := 0;
    ghost var g := GridOf(qrcode[..], qrsize);
    for y := 0 to qrsize - 1
      invariant count == Blocks(g, qrsize, y)
    {
      for x := 0 to qrsize - 1
        invariant count == Blocks(g, qrsize, y) + BlocksInRow(g, qrsize, x, y)
      {
        var colour := GetModuleBounded(qrcode, x, y, qrsize);
        var right := GetModuleBounded(qrcode, x + 1, y, qrsize);
        var below := GetModuleBounded(qrcode, x, y + 1, qrsize);
        var across := GetModuleBounded(qrcode, x + 1, y + 1, qrsize);
        if colour == right && colour == below && colour == across {
          count := count + 1;
        }
      }
    }
  }

  method CountDark(qrcode: array<Byte>, qrsize: nat) returns (dark: nat)
    requires Sized(qrcode[..], qrsize)
    ensures dark == DarkModules(GridOf(qrcode[..], qrsize), qrsize, qrsize)
  {
    hide Sized, GridOf;
    dark := 0;
    ghost var g := GridOf(qrcode[..], qrsize);
    for y := 0 to qrsize
      invariant dark == DarkModules(g, qrsize, y)
    {
      for x := 0 to qrsize
        invariant dark == DarkModules(g, qrsize, y) + DarkInRow(g, qrsize, x, y)
      {
        var isDark := GetModuleBounded(qrcode, x, y, qrsize);
        if isDark {
          dark := dark + 1;
        }
      }
    }
  }

  method Balance(qrcode: array<Byte>, qrsize: nat) returns (k: nat)
    requires Sized(qrcode[..], qrsize) && qrsize % 2 == 1
    ensures IsBalance(DarkModules(GridOf(qrcode[..], qrsize), qrsize, qrsize), qrsize * qrsize, k)
  {
    hide Sized, GridOf, DarkModules, IsBalance;
    ghost var g := GridOf(qrcode[..], qrsize);
    var dark := CountDark(qrcode, qrsize);
    var total := qrsize * qrsize;
    DarkBound(g, qrsize, qrsize);
    OddSquare(qrsize);
    BalanceFormula(dark, total);
    BalanceRange(dark, total, (Abs(dark * 20 - total * 10) + total - 1) / total - 1);
    k := (Abs(dark * 20 - total * 10) + total - 1) / total - 1;
  }

  method GetPenaltyScore(qrcode: array<Byte>, ghost n: nat) returns (result: nat)
    requires Sized(qrcode[..], n) && n % 2 == 1
    ensures IsPenalty(GridOf(qrcode[..], n), n, result)
    ensures result <= 2568888
  {
    var qrsize := qrcode[0] as int;
    SizePositive(qrcode[..], n);
    result := ScoreOfSize(qrcode, qrsize);
  }

  method ScoreOfSize(qrcode: array<Byte>, qrsize: nat) returns (result: nat)
    requires Sized(qrcode[..], qrsize) && qrsize % 2 == 1
    ensures IsPenalty(GridOf(qrcode[..], qrsize), qrsize, result)
    ensures result <= 2568888
  {
    SizePositive(qrcode[..], qrsize);
    hide *;
    ghost var g := GridOf(qrcode[..], qrsize);
    var rows := ScoreLines(qrcode, qrsize, true);
    var columns := ScoreLines(qrcode, qrsize, false);
    var blocks := CountBlocks(qrcode, qrsize);
    var k := Balance(qrcode, qrsize);
    PenaltyInRange(g, qrsize, rows, columns, blocks, k);
    result := rows + columns + blocks * PENALTY_N2 + k * PENALTY_N4;
  }

  lemma PenaltyInRange(g: Grid, n: nat, rows: int, columns: int, blocks: int, k: int)
    requires Square(g, n) && 21 <= n <= 177 && IsBalance(DarkModules(g, n, n), n * n, k)
    requires rows == LinesScore(g, n, true, n) && columns == LinesScore(g, n, false, n) && blocks == Blocks(g, n, n - 1)
    ensures IsPenalty(g, n, rows + columns + blocks * PENALTY_N2 + k * PENALTY_N4)
    ensures 0 <= rows + columns + blocks * PENALTY_N2 + k * PENALTY_N4 <= 2568888
  {
    hide LinesScore, Blocks, DarkModules, IsBalance;
    BalanceRange(DarkModules(g, n, n), n * n, k);
    LinesScoreBound(g, n, true, n);
    LinesScoreBound(g, n, false, n);
    BlocksBound(g, n, n - 1);
    TotalBound(n, rows, columns, blocks, k);
  }

  lemma BalanceRange(dark: int, total: int, k: int)
    requires IsBalance(dark, total, k)
    ensures 0 <= k <= 9
  {}

  lemma OddSquare(n: nat)
    requires n % 2 == 1
    ensures n * n % 2 == 1 && n * n > 0
  {
    var h := n / 2;
    assert n == 2 * h + 1;
    assert n * n == 2 * (2 * h * h + 2 * h) + 1;
  }
}
