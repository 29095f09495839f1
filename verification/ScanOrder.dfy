/** The order of the scan in closed form: which module comes at which place (section 7.7.3 of ISO/IEC 18004:2015). */
module ScanOrder {
  import opened Zigzag

  // The value of the loop variable at column pair c, counted from the right.
  function RightAt(n: nat, c: nat): int {
    if 2 * c <= n - 7 then n - 1 - 2 * c else n - 2 - 2 * c
  }

  lemma {:induction false} PairAt(n: nat, right: nat, vert: nat, t: nat, j: nat)
    requires 1 <= right && vert <= t < n && j < 2
    ensures |Pair(n, right, vert)| == 2 * (n - vert)
    ensures Pair(n, right, vert)[2 * (t - vert) + j] == At(n, right, t, j)
    decreases n - vert
  {
    hide At;
    PairLength(n, right, vert);
    if vert < t { PairAt(n, right, vert + 1, t, j); }
  }

  lemma {:induction false} PairLength(n: nat, right: nat, vert: nat)
    requires 1 <= right && vert <= n
    ensures |Pair(n, right, vert)| == 2 * (n - vert)
    decreases n - vert
  {
    if vert < n { PairLength(n, right, vert + 1); }
  }

  lemma OneRound(n: nat, d: nat)
    requires d > 0
    ensures 2 * n * d == 2 * n + 2 * n * (d - 1) && 2 * n * (d - 1) >= 0
  {}

  // d pairs after pair c.
  lemma {:induction false} WalkAt(n: nat, c: nat, d: nat, t: nat, j: nat)
    requires n % 4 == 1 && n >= 9 && c + d < (n - 1) / 2 && t < n && j < 2
    ensures 0 <= 2 * n * d + 2 * t + j < |Walk(n, RightAt(n, c))|
    ensures var x := if 2 * (c + d) < n - 7 then n - 1 - 2 * (c + d) else n - 2 - 2 * (c + d);
      1 <= x && Walk(n, RightAt(n, c))[2 * n * d + 2 * t + j] == At(n, x, t, j)
    decreases d
  {
    hide At, Pair, Walk;
    var right := RightAt(n, c);
    WalkStep(n, right);
    PairLength(n, SkipTiming(right), 0);
    if d == 0 {
      PairAt(n, SkipTiming(right), 0, t, j);
    } else {
      assert RightAt(n, c + 1) == SkipTiming(right) - 2;
      OneRound(n, d);
      WalkAt(n, c + 1, d - 1, t, j);
      var tail := Walk(n, SkipTiming(right) - 2);
      assert Walk(n, right)[2 * n + (2 * n * (d - 1) + 2 * t + j)] == tail[2 * n * (d - 1) + 2 * t + j];
    }
  }

  // Column pairs from right to left, stepping over column 6; up in the first, down in the next, and so on; in every row
  // the right module before the left.
  lemma ScanPlaces(n: nat, c: nat, t: nat, j: nat)
    requires n % 4 == 1 && n >= 9 && c < (n - 1) / 2 && t < n && j < 2
    ensures 0 <= 2 * n * c + 2 * t + j < |Walk(n, n - 1)|
    ensures var x := if n - 1 - 2 * c > 6 then n - 1 - 2 * c else n - 2 - 2 * c;
      1 <= x && Walk(n, n - 1)[2 * n * c + 2 * t + j] == Pos(x - j, if c % 2 == 0 then n - 1 - t else t)
  {
    hide Walk, Upward;
    WalkAt(n, 0, c, t, j);
    Direction(n, c);
  }

  lemma Direction(n: nat, c: nat)
    requires n % 4 == 1 && c < (n - 1) / 2
    ensures 2 * c <= n - 1 && Upward(n - 1 - 2 * c) == (c % 2 == 0)
    ensures 2 * c <= n - 2 && Upward(n - 2 - 2 * c) == (c % 2 == 0)
  {
    var m, k, r := n / 4, c / 2, c % 2;
    Remainder(n - 2 * c, m - k - r, 1 + 2 * r);
    Remainder(n - 1 - 2 * c, m - k - r, 2 * r);
  }

  lemma Remainder(a: int, q: int, r: int)
    requires a == 4 * q + r && 0 <= r < 4
    ensures a % 4 == r
  {}

  // The scan begins in the lower right corner.
  lemma ScanBegins(n: nat)
    requires n % 4 == 1 && n >= 9
    ensures |Walk(n, n - 1)| >= 3 && Walk(n, n - 1)[..3] == [Pos(n - 1, n - 1), Pos(n - 2, n - 1), Pos(n - 1, n - 2)]
  {
    hide Walk;
    ScanPlaces(n, 0, 0, 0);
    ScanPlaces(n, 0, 0, 1);
    ScanPlaces(n, 0, 1, 0);
  }
}
