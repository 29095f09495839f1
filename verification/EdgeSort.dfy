/** Sorting the edges of a glyph outline by their upper end: quicksort down to short runs, then insertion sort. */
module EdgeSort {
  import opened Arithmetic

  datatype Edge = Edge(x0: real, y0: real, x1: real, y1: real, invert: bool)

  predicate Below(a: Edge, b: Edge) {
    a.y0 < b.y0
  }

  predicate Sorted(s: seq<Edge>) {
    forall a, b | 0 <= a < b < |s| :: s[a].y0 <= s[b].y0
  }

  // t is s with its first n elements rearranged.
  ghost predicate Rearranged(s: seq<Edge>, t: seq<Edge>, n: nat) {
    n <= |s| == |t| && t[n..] == s[n..] && multiset(t[..n]) == multiset(s[..n])
  }

  lemma RearrangedTrans(s: seq<Edge>, t: seq<Edge>, u: seq<Edge>, n: nat)
    requires Rearranged(s, t, n) && Rearranged(t, u, n)
    ensures Rearranged(s, u, n)
  {}

  // ---------- insertion sort ----------

  // Moving element i of s down to place j.
  function MovedDown(s: seq<Edge>, i: nat, j: nat): seq<Edge>
    requires j <= i < |s|
  {
    s[..j] + [s[i]] + s[j..i] + s[i + 1..]
  }

  lemma MovedDownRearranges(s: seq<Edge>, i: nat, j: nat, n: nat)
    requires j <= i < n <= |s|
    ensures Rearranged(s, MovedDown(s, i, j), n)
  {
    var t := MovedDown(s, i, j);
    assert t[n..] == s[n..];
    assert s[..n] == s[..j] + s[j..i] + [s[i]] + s[i + 1..n];
    assert t[..n] == s[..j] + [s[i]] + s[j..i] + s[i + 1..n];
  }

  lemma MovedDownSorted(s: seq<Edge>, i: nat, j: nat)
    requires j <= i < |s| && Sorted(s[..i])
    requires j > 0 ==> s[j - 1].y0 <= s[i].y0
    requires forall k | j <= k < i :: s[i].y0 < s[k].y0
    ensures Sorted(MovedDown(s, i, j)[..i + 1])
  {
    var t := MovedDown(s, i, j)[..i + 1];
    assert forall k | 0 <= k < i :: s[..i][k] == s[k];
    forall a, b | 0 <= a < b < |t| ensures t[a].y0 <= t[b].y0 {
      if a < j && b == j { assert s[a].y0 <= s[j - 1].y0; }
    }
  }

  method InsertionSort(p: array<Edge>, n: nat)
    requires n <= p.Length
    modifies p
    ensures Sorted(p[..n]) && Rearranged(old(p[..]), p[..], n)
  {
    var i := 1;
    while i < n
      invariant n == 0 || 1 <= i <= n
      invariant n > 0 ==> Sorted(p[..i])
      invariant Rearranged(old(p[..]), p[..], n)
    {
      ghost var s := p[..];
      InsertOne(p, i);
      ghost var j :| 0 <= j <= i && p[..] == MovedDown(s, i, j) && Sorted(p[..i + 1]);
      MovedDownRearranges(s, i, j, n);
      RearrangedTrans(old(p[..]), s, p[..], n);
      i := i + 1;
    }
  }

  lemma IsMovedDown(s: seq<Edge>, t: seq<Edge>, i: nat, j: nat)
    requires j <= i < |s| == |t| && t[j] == s[i]
    requires forall k | 0 <= k < |s| && !(j <= k <= i) :: t[k] == s[k]
    requires forall k | j < k <= i :: t[k] == s[k - 1]
    ensures t == MovedDown(s, i, j)
  {}

  // Shifts larger elements up and drops element i into the gap.
  method InsertOne(p: array<Edge>, i: nat)
    requires 0 < i < p.Length && Sorted(p[..i])
    modifies p
    ensures exists j :: 0 <= j <= i && p[..] == MovedDown(old(p[..]), i, j) && Sorted(p[..i + 1])
  {
    hide MovedDown;
    ghost var s := p[..];
    assert s[..i] == p[..i];
    var t := p[i];
    var j := i;
    while j > 0
      invariant 0 <= j <= i
      invariant forall k | 0 <= k < p.Length && !(j < k <= i) :: p[k] == s[k]
      invariant forall k | j < k <= i :: p[k] == s[k - 1]
      invariant forall k | j <= k < i :: t.y0 < s[k].y0
    {
      if !Below(t, p[j - 1]) { break; }
      p[j] := p[j - 1];
      j := j - 1;
    }
    if i != j { p[j] := t; }
    IsMovedDown(s, p[..], i, j);
    MovedDownSorted(s, i, j);
  }

  // ---------- one round of quicksort, on values ----------

  function Swapped(s: seq<Edge>, a: nat, b: nat): (t: seq<Edge>)
    requires a < |s| && b < |s|
    ensures |t| == |s|
  {
    s[a := s[b]][b := s[a]]
  }

  lemma SwappedCounts(s: seq<Edge>, a: nat, b: nat)
    requires a < |s| && b < |s|
    ensures multiset(Swapped(s, a, b)) == multiset(s)
  {}

  // The median of the first, the middle and the last element moves to the front.
  function MedianFirst(s: seq<Edge>): (t: seq<Edge>)
    requires |s| > 12
    ensures |t| == |s|
  {
    var m, z := |s| / 2, |s| - 1;
    var c01, c12, c := Below(s[0], s[m]), Below(s[m], s[z]), Below(s[0], s[z]);
    Swapped(if c01 == c12 then s else Swapped(s, if c == c12 then 0 else z, m), 0, m)
  }

  lemma MedianIsBetween(s: seq<Edge>)
    requires |s| > 12
    ensures var t, m, z := MedianFirst(s), |s| / 2, |s| - 1;
      t[m].y0 <= t[0].y0 <= t[z].y0 || t[z].y0 <= t[0].y0 <= t[m].y0
    ensures multiset(MedianFirst(s)) == multiset(s)
  {
    hide Swapped;
    var m, z := |s| / 2, |s| - 1;
    var c01, c12, c := Below(s[0], s[m]), Below(s[m], s[z]), Below(s[0], s[z]);
    var a := if c == c12 then 0 else z;
    var u := if c01 == c12 then s else Swapped(s, a, m);
    SwappedCounts(s, a, m);
    SwappedCounts(u, 0, m);
    SwappedAt(s, a, m);
    SwappedAt(u, 0, m);
  }

  lemma SwappedAt(s: seq<Edge>, a: nat, b: nat)
    requires a < |s| && b < |s|
    ensures var t := Swapped(s, a, b);
      t[a] == s[b] && t[b] == s[a] && forall k | 0 <= k < |s| && k != a && k != b :: t[k] == s[k]
  {}

  // The first place from i on that does not hold less than y.
  function Up(s: seq<Edge>, y: real, i: nat): (k: nat)
    ensures i <= k
    decreases |s| - i
  {
    if i < |s| && s[i].y0 < y then Up(s, y, i + 1) else i
  }

  // The last place up to j that does not hold more than y.
  function Down(s: seq<Edge>, y: real, j: nat): (k: nat)
    requires j < |s|
    ensures k <= j
  {
    if j > 0 && s[j].y0 > y then Down(s, y, j - 1) else j
  }

  datatype Parts = Parts(s: seq<Edge>, i: nat, j: nat)

  // Scanning towards each other from i and j, with the pivot at the front, and swapping what is on the wrong side.
  function Split(s: seq<Edge>, i: nat, j: nat): (r: Parts)
    requires j < |s|
    ensures |r.s| == |s|
    decreases j
  {
    var i', j' := Up(s, s[0].y0, i), Down(s, s[0].y0, j);
    if i' >= j' then Parts(s, i', j') else Split(Swapped(s, i', j'), i' + 1, j' - 1)
  }

  function Parted(s: seq<Edge>): (r: Parts)
    requires |s| > 12
    ensures |r.s| == |s|
  {
    Split(MedianFirst(s), 1, |s| - 1)
  }

  // Everything before the cut is at most everything after it.
  ghost predicate Cut(s: seq<Edge>, c: int) {
    forall a, b | 0 <= a < c <= b < |s| :: s[a].y0 <= s[b].y0
  }

  // Elements before i are at most the pivot, those after j at least the pivot, and some element stops either scan.
  ghost predicate Scanning(s: seq<Edge>, i: nat, j: nat, left: nat, right: nat) {
    && 1 <= i <= right < |s| && 1 <= left <= j < |s| && i <= j + 1
    && s[right].y0 >= s[0].y0 >= s[left].y0
    && (forall k | 0 <= k < i :: s[k].y0 <= s[0].y0)
    && (forall k | j < k < |s| :: s[k].y0 >= s[0].y0)
  }

  lemma {:induction false} UpStops(s: seq<Edge>, i: nat, j: nat, left: nat, right: nat)
    requires Scanning(s, i, j, left, right)
    ensures var i' := Up(s, s[0].y0, i); Scanning(s, i', j, left, right) && s[i'].y0 >= s[0].y0
    decreases |s| - i
  {
    if s[i].y0 < s[0].y0 { UpStops(s, i + 1, j, left, right); }
  }

  lemma {:induction false} DownStops(s: seq<Edge>, i: nat, j: nat, left: nat, right: nat)
    requires Scanning(s, i, j, left, right) && s[i].y0 >= s[0].y0
    ensures var j' := Down(s, s[0].y0, j); Scanning(s, i, j', left, right) && s[j'].y0 <= s[0].y0
    decreases j
  {
    if s[j].y0 > s[0].y0 { DownStops(s, i, j - 1, left, right); }
  }

  lemma ScanningSwapped(s: seq<Edge>, i: nat, j: nat, left: nat, right: nat)
    requires Scanning(s, i, j, left, right) && i < j && s[i].y0 >= s[0].y0 >= s[j].y0
    ensures Scanning(Swapped(s, i, j), i + 1, j - 1, i, j)
  {}

  // What a round leaves: the pivot in front of the left part, which it bounds from above; the right part, which it
  // bounds from below; and possibly one element between the parts.
  ghost predicate IsParted(s: seq<Edge>, r: Parts) {
    && |r.s| == |s| && multiset(r.s) == multiset(s) && 1 <= r.j <= r.i <= r.j + 1 && r.i < |s|
    && (forall k | 0 <= k < r.i :: r.s[k].y0 <= r.s[0].y0)
    && (forall k | r.i <= k < |s| :: r.s[k].y0 >= r.s[0].y0)
  }

  lemma {:induction false} SplitParts(s: seq<Edge>, i: nat, j: nat, left: nat, right: nat)
    requires Scanning(s, i, j, left, right)
    ensures IsParted(s, Split(s, i, j))
    decreases j
  {
    hide Up, Down, Swapped;
    var i', j' := Up(s, s[0].y0, i), Down(s, s[0].y0, j);
    UpStops(s, i, j, left, right);
    DownStops(s, i', j, left, right);
    if i' < j' {
      ScanningSwapped(s, i', j', left, right);
      SwappedCounts(s, i', j');
      SplitParts(Swapped(s, i', j'), i' + 1, j' - 1, i', j');
    }
  }

  lemma ScanningStarts(s: seq<Edge>)
    requires |s| > 12
    ensures var t, m, z := MedianFirst(s), |s| / 2, |s| - 1;
      Scanning(t, 1, z, if t[m].y0 <= t[0].y0 then m else z, if t[m].y0 >= t[0].y0 then m else z)
  {
    hide MedianFirst;
    MedianIsBetween(s);
  }

  lemma PartedParts(s: seq<Edge>)
    requires |s| > 12
    ensures var r := Parted(s); IsParted(s, r) && 1 <= r.j <= r.i <= r.j + 1 && r.i < |s| == |r.s|
  {
    hide Split, MedianFirst, Scanning;
    ScanningStarts(s);
    MedianIsBetween(s);
    var t, m, z := MedianFirst(s), |s| / 2, |s| - 1;
    SplitParts(t, 1, z, if t[m].y0 <= t[0].y0 then m else z, if t[m].y0 >= t[0].y0 then m else z);
  }

  // ---------- what quicksort leaves ----------

  // Both parts of every round in turn, down to twelve elements. An element between the parts stays where it is.
  function Coarse(s: seq<Edge>): (t: seq<Edge>)
    ensures |t| == |s|
    decreases |s|
  {
    if |s| <= 12 then s
    else
      PartedParts(s);
      var r := Parted(s);
      Coarse(r.s[..r.j]) + r.s[r.j..r.i] + Coarse(r.s[r.i..])
  }

  lemma ThreeCounts(s: seq<Edge>, j: nat, i: nat)
    requires j <= i <= |s|
    ensures multiset(s) == multiset(s[..j]) + multiset(s[j..i]) + multiset(s[i..])
  {
    assert s == s[..j] + s[j..i] + s[i..];
  }

  lemma {:induction false} CoarseCounts(s: seq<Edge>)
    ensures multiset(Coarse(s)) == multiset(s)
    decreases |s|
  {
    if |s| > 12 {
      PartedParts(s);
      var r := Parted(s);
      CoarseCounts(r.s[..r.j]);
      CoarseCounts(r.s[r.i..]);
      ThreeCounts(r.s, r.j, r.i);
    }
  }

  lemma CoarseUnfolds(s: seq<Edge>)
    requires |s| > 12 && IsParted(s, Parted(s))
    ensures var r := Parted(s); Coarse(s) == Coarse(r.s[..r.j]) + r.s[r.j..r.i] + Coarse(r.s[r.i..])
  {
    hide Parted;
  }

  // Every element of a rearrangement is one of the elements rearranged.
  lemma SameMembers(s: seq<Edge>, t: seq<Edge>, k: nat) returns (k': nat)
    requires multiset(s) == multiset(t) && k < |t|
    ensures k' < |s| && s[k'] == t[k]
  {
    assert t[k] in multiset(t);
    assert t[k] in multiset(s);
    k' :| k' < |s| && s[k'] == t[k];
  }

  lemma BoundsKept(s: seq<Edge>, t: seq<Edge>, y: real)
    requires multiset(s) == multiset(t)
    ensures (forall k | 0 <= k < |s| :: s[k].y0 <= y) ==> forall k | 0 <= k < |t| :: t[k].y0 <= y
    ensures (forall k | 0 <= k < |s| :: s[k].y0 >= y) ==> forall k | 0 <= k < |t| :: t[k].y0 >= y
  {
    forall k: nat | k < |t| ensures exists k' :: 0 <= k' < |s| && s[k'] == t[k] {
      var k' := SameMembers(s, t, k);
    }
  }

  // The parts of a round after they have been worked on. The pivot bounds both and is still in the left one.
  lemma CoarseParts(s: seq<Edge>)
    requires |s| > 12
    ensures IsParted(s, Parted(s))
    ensures var r, t := Parted(s), Coarse(s);
      && t[..r.j] == Coarse(r.s[..r.j]) && t[r.j..r.i] == r.s[r.j..r.i] && t[r.i..] == Coarse(r.s[r.i..])
      && (forall k | 0 <= k < r.i :: t[k].y0 <= r.s[0].y0) && (forall k | r.i <= k < |t| :: t[k].y0 >= r.s[0].y0)
      && exists k :: 0 <= k < r.j && t[k].y0 == r.s[0].y0
  {
    hide Parted, Coarse;
    PartedParts(s);
    CoarseUnfolds(s);
    var r, t := Parted(s), Coarse(s);
    var left, right := r.s[..r.j], r.s[r.i..];
    CoarseCounts(left);
    CoarseCounts(right);
    assert t[..r.j] == Coarse(left) && t[r.j..r.i] == r.s[r.j..r.i] && t[r.i..] == Coarse(right);
    BoundsKept(left, Coarse(left), r.s[0].y0);
    BoundsKept(right, Coarse(right), r.s[0].y0);
    forall k | 0 <= k < r.i ensures t[k].y0 <= r.s[0].y0 {
      assert t[k] == if k < r.j then t[..r.j][k] else t[r.j..r.i][k - r.j];
    }
    forall k | r.i <= k < |t| ensures t[k].y0 >= r.s[0].y0 {
      assert t[k] == t[r.i..][k - r.i];
    }
    var p := SameMembers(Coarse(left), left, 0);
    assert t[p] == t[..r.j][p];
  }

  // The places where a round ends: the ends of its parts, and those of the rounds on its parts.
  ghost predicate Mark(s: seq<Edge>, c: nat)
    decreases |s|
  {
    |s| > 12 &&
    (PartedParts(s);
     var r := Parted(s);
     c == r.j || c == r.i || (c < r.j && Mark(r.s[..r.j], c)) || (c > r.i && Mark(r.s[r.i..], c - r.i)))
  }

  // Between two marks are at most twelve elements.
  lemma {:induction false} MarksAreClose(s: seq<Edge>, k: nat)
    requires k + 12 < |s|
    ensures exists c: nat :: k < c <= k + 12 && Mark(s, c)
    decreases |s|
  {
    hide Parted;
    PartedParts(s);
    var r := Parted(s);
    if k + 12 < r.j {
      MarksAreClose(r.s[..r.j], k);
      var c: nat :| k < c <= k + 12 && Mark(r.s[..r.j], c);
      assert Mark(s, c);
    } else if k < r.j {
      assert Mark(s, r.j);
    } else if k < r.i {
      assert Mark(s, r.i);
    } else {
      MarksAreClose(r.s[r.i..], k - r.i);
      var c: nat :| k - r.i < c <= k - r.i + 12 && Mark(r.s[r.i..], c);
      assert Mark(s, c + r.i);
    }
  }

  // No round leaves an element below its pivot between its parts: its scans meet, or stop at an element with the
  // pivot's key.
  ghost predicate NoneLeftBehind(s: seq<Edge>)
    decreases |s|
  {
    |s| <= 12 ||
    (PartedParts(s);
     var r := Parted(s);
     (r.i == r.j || r.s[r.j].y0 >= r.s[0].y0) && NoneLeftBehind(r.s[..r.j]) && NoneLeftBehind(r.s[r.i..]))
  }

  ghost predicate AllMarksCut(s: seq<Edge>) {
    forall c: nat | Mark(s, c) :: Cut(Coarse(s), c)
  }

  // The outcome is a chain of runs of at most twelve, none of whose ends an element has to cross any more, exactly when
  // no round has left an element below its pivot between its parts.
  lemma {:induction false} ChainExactly(s: seq<Edge>)
    ensures AllMarksCut(s) <==> NoneLeftBehind(s)
    decreases |s|
  {
    hide Parted, Coarse, Cut;
    if |s| > 12 {
      CoarseParts(s);
      var r := Parted(s);
      ChainExactly(r.s[..r.j]);
      ChainExactly(r.s[r.i..]);
      if AllMarksCut(s) { ChainSplits(s); }
      if NoneLeftBehind(s) { ChainJoins(s); }
    }
  }

  lemma ChainSplits(s: seq<Edge>)
    requires |s| > 12 && AllMarksCut(s) && IsParted(s, Parted(s))
    ensures var r := Parted(s);
      (r.i == r.j || r.s[r.j].y0 >= r.s[0].y0) && AllMarksCut(r.s[..r.j]) && AllMarksCut(r.s[r.i..])
  {
    hide Parted, Coarse, Cut;
    CoarseParts(s);
    var r, t := Parted(s), Coarse(s);
    assert Cut(t, r.j) by { assert Mark(s, r.j); }
    if r.i != r.j {
      var k :| 0 <= k < r.j && t[k].y0 == r.s[0].y0;
      assert t[r.j] == t[r.j..r.i][0];
      CutAt(t, r.j, k, r.j);
    }
    forall c: nat | Mark(r.s[..r.j], c) ensures Cut(Coarse(r.s[..r.j]), c) {
      MarkInside(r.s[..r.j], c);
      assert Mark(s, c);
      CutInPart(t, 0, r.j, c);
      assert t[0..r.j] == t[..r.j];
    }
    forall c: nat | Mark(r.s[r.i..], c) ensures Cut(Coarse(r.s[r.i..]), c) {
      MarkInside(r.s[r.i..], c);
      assert Mark(s, c + r.i);
      CutInPart(t, r.i, |t|, c + r.i);
      assert t[r.i..|t|] == t[r.i..];
    }
  }

  lemma MarkInside(s: seq<Edge>, c: nat)
    requires Mark(s, c)
    ensures 0 < c < |s|
    decreases |s|
  {
    hide Parted;
    PartedParts(s);
    var r := Parted(s);
    if c < r.j && c != r.i {
      MarkInside(r.s[..r.j], c);
    } else if c > r.i {
      MarkInside(r.s[r.i..], c - r.i);
    }
  }

  lemma CutAt(s: seq<Edge>, c: nat, a: nat, b: nat)
    requires Cut(s, c) && a < c <= b < |s|
    ensures s[a].y0 <= s[b].y0
  {}

  lemma CutInPart(s: seq<Edge>, lo: nat, hi: nat, c: nat)
    requires Cut(s, c) && lo <= c <= hi <= |s|
    ensures Cut(s[lo..hi], c - lo)
  {}

  lemma ChainJoins(s: seq<Edge>)
    requires |s| > 12 && IsParted(s, Parted(s))
    requires var r := Parted(s);
      (r.i == r.j || r.s[r.j].y0 >= r.s[0].y0) && AllMarksCut(r.s[..r.j]) && AllMarksCut(r.s[r.i..])
    ensures AllMarksCut(s)
  {
    hide Parted, Coarse, Cut;
    CoarseParts(s);
    var r, t := Parted(s), Coarse(s);
    if r.j < r.i { assert t[r.j] == t[r.j..r.i][0]; }
    forall c: nat | Mark(s, c) ensures Cut(t, c) {
      if c < r.j {
        CutFromLeft(t, r.j, c, r.s[0].y0);
      } else if c > r.i {
        CutFromRight(t, r.i, c, r.s[0].y0);
      } else {
        CutByPivot(t, c, r.s[0].y0);
      }
    }
  }

  lemma CutByPivot(t: seq<Edge>, c: nat, y: real)
    requires c <= |t| && (forall k | 0 <= k < c :: t[k].y0 <= y) && (forall k | c <= k < |t| :: t[k].y0 >= y)
    ensures Cut(t, c)
  {}

  lemma CutFromLeft(t: seq<Edge>, j: nat, c: nat, y: real)
    requires c < j <= |t| && Cut(t[..j], c) && (forall k | 0 <= k < j :: t[k].y0 <= y)
      && (forall k | j <= k < |t| :: t[k].y0 >= y)
    ensures Cut(t, c)
  {
    forall a, b | 0 <= a < c <= b < |t| ensures t[a].y0 <= t[b].y0 {
      if b < j { assert t[..j][a].y0 <= t[..j][b].y0; }
    }
  }

  lemma CutFromRight(t: seq<Edge>, i: nat, c: nat, y: real)
    requires i < c && i <= |t| && Cut(t[i..], c - i) && (forall k | 0 <= k < i :: t[k].y0 <= y)
      && (forall k | i <= k < |t| :: t[k].y0 >= y)
    ensures Cut(t, c)
  {
    forall a, b | 0 <= a < c <= b < |t| ensures t[a].y0 <= t[b].y0 {
      if a >= i { assert t[i..][a - i].y0 <= t[i..][b - i].y0; }
    }
  }

  // Then elements twelve places apart are in order, so that insertion sort carries none further than eleven.
  lemma ShortMoves(s: seq<Edge>, a: nat, b: nat)
    requires NoneLeftBehind(s) && a + 12 <= b < |s|
    ensures Coarse(s)[a].y0 <= Coarse(s)[b].y0
  {
    hide NoneLeftBehind, Mark, Coarse;
    ChainExactly(s);
    MarksAreClose(s, a);
    var c: nat :| a < c <= a + 12 && Mark(s, c);
    assert Cut(Coarse(s), c);
  }

  // ---------- elements left behind ----------

  ghost predicate Ascending(s: seq<Edge>) {
    forall a, b | 0 <= a < b < |s| :: s[a].y0 < s[b].y0
  }

  lemma {:induction false} UpReaches(s: seq<Edge>, y: real, i: nat, k: nat)
    requires i <= k <= |s| && (forall a | i <= a < k :: s[a].y0 < y) && (k < |s| ==> s[k].y0 >= y)
    ensures Up(s, y, i) == k
    decreases k - i
  {
    if i < k { UpReaches(s, y, i + 1, k); }
  }

  lemma {:induction false} DownReaches(s: seq<Edge>, y: real, j: nat, k: nat)
    requires k <= j < |s| && (forall a | k < a <= j :: s[a].y0 > y) && s[k].y0 <= y
    ensures Down(s, y, j) == k
  {
    if k < j { DownReaches(s, y, j - 1, k); }
  }

  // Edges that stand in order already: the first round swaps the least of them into the middle and leaves it between
  // its parts, so that insertion sort has to carry it past half of the edges.
  lemma LeastLeftBehind(s: seq<Edge>)
    requires |s| > 12 && Ascending(s)
    ensures !NoneLeftBehind(s)
    ensures Coarse(s)[|s| / 2] == s[0] && forall k | 0 <= k < |s| / 2 :: Coarse(s)[k].y0 > s[0].y0
  {
    hide Coarse, Parted;
    var m := |s| / 2;
    var t := s[0 := s[m]][m := s[0]];
    AscendingParts(s);
    CoarseParts(s);
    var c := Coarse(s);
    assert c[m] == c[m..m + 1][0] == s[0];
    CoarseCounts(t[..m]);
    forall k | 0 <= k < m ensures c[k].y0 > s[0].y0 {
      var k' := SameMembers(t[..m], Coarse(t[..m]), k);
      assert c[k] == c[..m][k];
    }
  }

  lemma AscendingParts(s: seq<Edge>)
    requires |s| > 12 && Ascending(s)
    ensures Parted(s) == Parts(s[0 := s[|s| / 2]][|s| / 2 := s[0]], |s| / 2 + 1, |s| / 2)
  {
    hide Up, Down;
    var m := |s| / 2;
    var t := MedianFirst(s);
    assert t == s[0 := s[m]][m := s[0]];
    UpReaches(t, t[0].y0, 1, m + 1);
    DownReaches(t, t[0].y0, |s| - 1, m);
  }

  // Thirteen edges in order.
  const THIRTEEN: seq<Edge> := seq(13, i requires 0 <= i < 13 => Edge(0.0, i as real, 0.0, i as real + 1.0, false))

  lemma ThirteenInOrder()
    ensures !NoneLeftBehind(THIRTEEN)
      && exists a: nat, b: nat :: a < b < 13 && !(Coarse(THIRTEEN)[a].y0 <= Coarse(THIRTEEN)[b].y0)
  {
    hide Coarse, NoneLeftBehind;
    LeastLeftBehind(THIRTEEN);
    assert Coarse(THIRTEEN)[0].y0 > Coarse(THIRTEEN)[6].y0;
  }

  // ---------- quicksort ----------

  // s with its elements from lo on replaced by t.
  function Spliced(s: seq<Edge>, lo: nat, t: seq<Edge>): (u: seq<Edge>)
    requires lo + |t| <= |s|
    ensures |u| == |s|
  {
    s[..lo] + t + s[lo + |t|..]
  }

  lemma SplicedTwice(s: seq<Edge>, lo: nat, t: seq<Edge>, u: seq<Edge>)
    requires lo + |t| <= |s| && |u| == |t|
    ensures Spliced(s, lo, t)[lo..lo + |t|] == t && Spliced(s, lo, s[lo..lo + |t|]) == s
    ensures Spliced(Spliced(s, lo, t), lo, u) == Spliced(s, lo, u)
  {}

  method Swap(p: array<Edge>, lo: nat, ghost n: nat, a: nat, b: nat)
    requires lo + n <= p.Length && a < n && b < n
    modifies p
    ensures p[..] == Spliced(old(p[..]), lo, Swapped(old(p[lo..lo + n]), a, b))
  {
    p[lo + a], p[lo + b] := p[lo + b], p[lo + a];
  }

  method MedianToFront(p: array<Edge>, lo: nat, n: nat)
    requires n > 12 && lo + n <= p.Length
    modifies p
    ensures p[..] == Spliced(old(p[..]), lo, MedianFirst(old(p[lo..lo + n])))
  {
    hide Spliced, Swapped;
    var m := n / 2;
    ghost var before, s := p[..], p[lo..lo + n];
    var c01, c12 := Below(p[lo], p[lo + m]), Below(p[lo + m], p[lo + n - 1]);
    SplicedTwice(before, lo, s, s);
    if c01 != c12 {
      var c := Below(p[lo], p[lo + n - 1]);
      var z := if c == c12 then 0 else n - 1;
      Swap(p, lo, n, z, m);
      s := Swapped(s, z, m);
    }
    SplicedTwice(before, lo, s, Swapped(s, 0, m));
    assert p[lo..lo + n] == s;
    Swap(p, lo, n, 0, m);
  }

  lemma UpStep(s: seq<Edge>, y: real, i: nat)
    requires i < |s|
    ensures Up(s, y, i) == if s[i].y0 < y then Up(s, y, i + 1) else i
  {}

  lemma DownStep(s: seq<Edge>, y: real, j: nat)
    requires 0 < j < |s|
    ensures Down(s, y, j) == if s[j].y0 > y then Down(s, y, j - 1) else j
  {}

  // Where the scans of one pass stop, inside the range, and what remains to be done.
  lemma PassEnds(s: seq<Edge>, i: nat, j: nat, left: nat, right: nat)
    requires Scanning(s, i, j, left, right)
    ensures var i', j' := Up(s, s[0].y0, i), Down(s, s[0].y0, j);
      && 1 <= i' < |s| && 1 <= j'
      && (i' >= j' ==> Split(s, i, j) == Parts(s, i', j'))
      && (i' < j' ==>
            var t := Swapped(s, i', j');
            Split(s, i, j) == Split(t, i' + 1, j' - 1) && Scanning(t, i' + 1, j' - 1, i', j'))
  {
    hide Up, Down, Swapped;
    var i', j' := Up(s, s[0].y0, i), Down(s, s[0].y0, j);
    UpStops(s, i, j, left, right);
    DownStops(s, i', j, left, right);
    if i' < j' { ScanningSwapped(s, i', j', left, right); }
  }

  // The scans have no bounds check: the median, then the elements swapped so far, stop them inside the range.
  method Partition(p: array<Edge>, lo: nat, n: nat) returns (i: nat, j: nat)
    requires n > 12 && lo + n <= p.Length
    modifies p
    ensures Parts(p[lo..lo + n], i, j) == Parted(old(p[lo..lo + n]))
    ensures p[..] == Spliced(old(p[..]), lo, p[lo..lo + n])
  {
    hide Spliced, Swapped, MedianFirst, Scanning, Split, Up, Down;
    ghost var before, s := p[..], MedianFirst(p[lo..lo + n]);
    ScanningStarts(p[lo..lo + n]);
    MedianToFront(p, lo, n);
    i, j := 1, n - 1;
    ghost var y := s[0].y0;
    ghost var left: nat := if s[n / 2].y0 <= y then n / 2 else n - 1;
    ghost var right: nat := if s[n / 2].y0 >= y then n / 2 else n - 1;
    while true
      invariant |s| == n && s[0].y0 == y && p[..] == Spliced(before, lo, s) && j < n
      invariant Scanning(s, i, j, left, right) && Split(s, i, j) == Parted(before[lo..lo + n])
      decreases j
    {
      ghost var u := p[..];
      SplicedTwice(before, lo, s, s);
      assert p[lo..lo + n] == s;
      PassEnds(s, i, j, left, right);
      ghost var i', j' := Up(s, y, i), Down(s, y, j);
      while true
        invariant p[..] == u && i <= i' == Up(s, y, i)
        decreases i' - i
      {
        UpStep(s, y, i);
        if !Below(p[lo + i], p[lo]) { break; }
        i := i + 1;
      }
      while true
        invariant p[..] == u && j' <= j < n && j' == Down(s, y, j)
        decreases j
      {
        DownStep(s, y, j);
        if !Below(p[lo], p[lo + j]) { break; }
        j := j - 1;
      }
      if i >= j { break; }
      Swap(p, lo, n, i, j);
      SplicedTwice(before, lo, s, Swapped(s, i, j));
      SwappedAt(s, i, j);
      s, left, right := Swapped(s, i, j), i, j;
      i := i + 1;
      j := j - 1;
    }
    SplicedTwice(before, lo, s, s);
  }

  lemma SplicedIs(s: seq<Edge>, lo: nat, t: seq<Edge>)
    requires lo + |t| <= |s|
    ensures forall k | 0 <= k < |s| :: Spliced(s, lo, t)[k] == if lo <= k < lo + |t| then t[k - lo] else s[k]
  {}

  // When the left part of a round has been worked on, the right part remains, and the other way round.
  lemma RightPartRemains(s: seq<Edge>, lo: nat, n: nat, r: Parts)
    requires lo + n <= |s| && n > 12 && r == Parted(s[lo..lo + n]) && IsParted(s[lo..lo + n], r)
    ensures var u := Spliced(s, lo, r.s);
      var v := Spliced(u, lo, Coarse(u[lo..lo + r.j]));
      Spliced(v, lo + r.i, Coarse(v[lo + r.i..lo + n])) == Spliced(s, lo, Coarse(s[lo..lo + n]))
  {
    hide Parted, Coarse, Spliced;
    ThreeSpliced(s, lo, r.s, Coarse(r.s[..r.j]), r.j, r.i, Coarse(r.s[r.i..]));
    CoarseUnfolds(s[lo..lo + n]);
  }

  lemma LeftPartRemains(s: seq<Edge>, lo: nat, n: nat, r: Parts)
    requires lo + n <= |s| && n > 12 && r == Parted(s[lo..lo + n]) && IsParted(s[lo..lo + n], r)
    ensures var u := Spliced(s, lo, r.s);
      var v := Spliced(u, lo + r.i, Coarse(u[lo + r.i..lo + n]));
      Spliced(v, lo, Coarse(v[lo..lo + r.j])) == Spliced(s, lo, Coarse(s[lo..lo + n]))
  {
    hide Parted, Coarse, Spliced;
    ThreeSpliced(s, lo, r.s, Coarse(r.s[..r.j]), r.j, r.i, Coarse(r.s[r.i..]));
    CoarseUnfolds(s[lo..lo + n]);
  }

  lemma ThreeSpliced(s: seq<Edge>, lo: nat, t: seq<Edge>, a: seq<Edge>, j: nat, i: nat, b: seq<Edge>)
    requires lo + |t| <= |s| && j <= i <= |t| && |a| == j && |b| == |t| - i
    ensures var u, n := Spliced(s, lo, t), |t|;
      && u[lo..lo + j] == t[..j] && u[lo + i..lo + n] == t[i..]
      && Spliced(u, lo, a)[lo + i..lo + n] == t[i..] && Spliced(u, lo + i, b)[lo..lo + j] == t[..j]
      && Spliced(Spliced(u, lo, a), lo + i, b) == Spliced(s, lo, a + t[j..i] + b)
      && Spliced(Spliced(u, lo + i, b), lo, a) == Spliced(s, lo, a + t[j..i] + b)
  {
    hide Spliced;
    var u, c := Spliced(s, lo, t), a + t[j..i] + b;
    var left, right, both := Spliced(u, lo, a), Spliced(u, lo + i, b), Spliced(s, lo, c);
    SplicedIs(s, lo, t);
    SplicedIs(u, lo, a);
    SplicedIs(u, lo + i, b);
    SplicedIs(s, lo, c);
    SplicedIs(left, lo + i, b);
    SplicedIs(right, lo, a);
    assert Spliced(left, lo + i, b) == both;
    assert Spliced(right, lo, a) == both;
  }

  // Sorts a range down to short runs. The smaller part of a round goes to a nested call, the larger is next in the
  // loop. The budget bounds how deep calls nest: every nested call gets one less, and half of the elements at most.
  method Quicksort(p: array<Edge>, lo0: nat, n0: nat, ghost budget: nat)
    requires lo0 + n0 <= p.Length && n0 <= 12 * TwoTo(budget)
    modifies p
    ensures p[..] == Spliced(old(p[..]), lo0, Coarse(old(p[lo0..lo0 + n0])))
    decreases budget
  {
    hide Spliced, Coarse, Parted, IsParted;
    var lo: nat, n: nat := lo0, n0;
    ghost var goal := Spliced(p[..], lo0, Coarse(p[lo0..lo0 + n0]));
    while n > 12
      invariant lo0 <= lo && lo + n <= lo0 + n0
      invariant Spliced(p[..], lo, Coarse(p[lo..lo + n])) == goal
      decreases n
    {
      ghost var s := p[..];
      ghost var r := Parted(s[lo..lo + n]);
      PartedParts(s[lo..lo + n]);
      RightPartRemains(s, lo, n, r);
      LeftPartRemains(s, lo, n, r);
      assert s[lo..lo + n] == p[lo..lo + n];
      var i, j := Partition(p, lo, n);
      ghost var u := p[..];
      assert u[lo..lo + j] == p[lo..lo + j] && u[lo + i..lo + n] == p[lo + i..lo + n];
      if j < n - i {
        Quicksort(p, lo, j, budget - 1);
        assert p[..][lo + i..lo + n] == p[lo + i..lo + n];
        lo := lo + i;
        n := n - i;
      } else {
        Quicksort(p, lo + i, n - i, budget - 1);
        assert p[..][lo..lo + j] == p[lo..lo + j];
        n := j;
      }
    }
    CoarseShort(p[..], lo, n);
    assert p[..][lo..lo + n] == p[lo..lo + n];
  }

  lemma CoarseShort(s: seq<Edge>, lo: nat, n: nat)
    requires n <= 12 && lo + n <= |s|
    ensures Spliced(s, lo, Coarse(s[lo..lo + n])) == s
  {}

  // How often the edges can be halved down to twelve.
  function Nesting(n: nat): (d: nat)
    ensures n <= 12 * TwoTo(d) && (d > 0 ==> 6 * TwoTo(d) < n)
  {
    if n <= 12 then 0 else 1 + Nesting((n + 1) / 2)
  }

  // Sorts the first n edges by their upper ends. Calls nest at most log2(n / 6) deep.
  method SortEdges(p: array<Edge>, n: nat)
    requires n <= p.Length
    modifies p
    ensures Sorted(p[..n]) && Rearranged(old(p[..]), p[..], n)
  {
    hide Sorted, Coarse;
    ghost var before := p[..];
    CoarseCounts(before[0..n]);
    Quicksort(p, 0, n, Nesting(n));
    ghost var coarse := p[..];
    CoarseRearranged(before, n);
    InsertionSort(p, n);
    RearrangedTrans(before, coarse, p[..], n);
  }

  lemma CoarseRearranged(s: seq<Edge>, n: nat)
    requires n <= |s|
    ensures Rearranged(s, Spliced(s, 0, Coarse(s[0..n])), n)
  {
    hide Coarse;
    CoarseCounts(s[0..n]);
    assert s[0..n] == s[..n] && Spliced(s, 0, Coarse(s[0..n]))[..n] == Coarse(s[0..n]);
  }
}
