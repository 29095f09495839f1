/** Placement of codeword bits along the zigzag scan (section 7.7.3 of ISO/IEC 18004:2015). */
module Zigzag {
  import opened Arithmetic
  import opened Bits
  import opened Modules

  datatype Pos = Pos(x: nat, y: nat)

  predicate Upward(right: nat) { (right + 1) % 4 < 2 }

  function At(n: nat, right: nat, vert: nat, j: nat): Pos
    requires j <= right && vert < n
  {
    Pos(right - j, if Upward(right) then n - 1 - vert else vert)
  }

  // The column pair right, right - 1 from row counter `vert` on, in scan order.
  function Pair(n: nat, right: nat, vert: nat): seq<Pos>
    requires 1 <= right && vert <= n
    decreases n - vert
  {
    if vert == n then [] else [At(n, right, vert, 0), At(n, right, vert, 1)] + Pair(n, right, vert + 1)
  }

  // Column 6 holds the vertical timing pattern and is stepped over.
  function SkipTiming(right: int): int { if right == 6 then 5 else right }

  // The rest of the scan when the loop variable is `right`.
  function Walk(n: nat, right: int): seq<Pos>
    decreases right + 1
  {
    if right < 1 then [] else Pair(n, SkipTiming(right), 0) + Walk(n, SkipTiming(right) - 2)
  }

  // ---------- every module outside column 6 is visited exactly once ----------

  ghost predicate Distinct(path: seq<Pos>) {
    forall a, b | 0 <= a < b < |path| :: path[a] != path[b]
  }

  // Values the loop variable takes: even down to 6, then odd.
  predicate ScanColumn(right: int) {
    -1 <= right && if right >= 6 then right % 2 == 0 else right % 2 == 1
  }

  lemma {:induction false} PairMembers(n: nat, right: nat, vert: nat, p: Pos)
    requires 1 <= right && vert <= n
    ensures p in Pair(n, right, vert)
       <==> (p.x == right || p.x == right - 1) && p.y < n && (if Upward(right) then p.y < n - vert else vert <= p.y)
    decreases n - vert
  {
    hide Upward;
    if vert < n {
      PairMembers(n, right, vert + 1, p);
    }
  }

  lemma DistinctConcat(a: seq<Pos>, b: seq<Pos>)
    requires Distinct(a) && Distinct(b) && forall p | p in a :: p !in b
    ensures Distinct(a + b)
  {
    var s := a + b;
    forall i, j | 0 <= i < j < |s| ensures s[i] != s[j] {
      if i < |a| <= j {
        assert s[i] in a && s[j] in b;
      }
    }
  }

  lemma {:induction false} PairDistinct(n: nat, right: nat, vert: nat)
    requires 1 <= right && vert <= n
    ensures Distinct(Pair(n, right, vert))
    decreases n - vert
  {
    hide Upward;
    if vert < n {
      PairDistinct(n, right, vert + 1);
      var p, q := At(n, right, vert, 0), At(n, right, vert, 1);
      PairMembers(n, right, vert + 1, p);
      PairMembers(n, right, vert + 1, q);
      DistinctConcat([p, q], Pair(n, right, vert + 1));
    }
  }

  lemma {:induction false} WalkMembers(n: nat, right: int, p: Pos)
    requires ScanColumn(right)
    ensures p in Walk(n, right) <==> p.x <= SkipTiming(right) && p.x != 6 && p.y < n
    decreases right + 1
  {
    hide Upward;
    if right >= 1 {
      var r := SkipTiming(right);
      WalkMembers(n, r - 2, p);
      PairMembers(n, r, 0, p);
    }
  }

  lemma {:induction false} WalkDistinct(n: nat, right: int)
    requires ScanColumn(right)
    ensures Distinct(Walk(n, right))
    decreases right + 1
  {
    hide Upward;
    if right >= 1 {
      var r := SkipTiming(right);
      WalkDistinct(n, r - 2);
      PairDistinct(n, r, 0);
      forall p | p in Pair(n, r, 0)
        ensures p !in Walk(n, r - 2)
      {
        PairMembers(n, r, 0, p);
        WalkMembers(n, r - 2, p);
      }
      DistinctConcat(Pair(n, r, 0), Walk(n, r - 2));
    }
  }

  // The whole scan of a symbol visits exactly the modules outside column 6, each once.
  lemma ScanVisitsOnce(n: nat)
    requires n % 2 == 1 && n >= 9
    ensures Distinct(Walk(n, n - 1))
    ensures forall p :: p in Walk(n, n - 1) <==> p.x < n && p.x != 6 && p.y < n
  {
    WalkDistinct(n, n - 1);
    forall p ensures p in Walk(n, n - 1) <==> p.x < n && p.x != 6 && p.y < n { WalkMembers(n, n - 1, p); }
  }

  // ---------- the light modules of a path ----------

  predicate Inside(path: seq<Pos>, n: nat) {
    forall a | 0 <= a < |path| :: path[a].x < n && path[a].y < n
  }

  function LightPath(path: seq<Pos>, g: Grid): seq<Pos>
    requires Square(g, |g|) && Inside(path, |g|)
  {
    if path == [] then []
    else
      var p := path[|path| - 1];
      LightPath(path[..|path| - 1], g) + if g[p.y][p.x] then [] else [p]
  }

  lemma {:induction false} LightPathMember(path: seq<Pos>, g: Grid, p: Pos)
    requires Square(g, |g|) && Inside(path, |g|)
    ensures p in LightPath(path, g) <==> p in path && !g[p.y][p.x]
  {
    if path != [] {
      LightPathMember(path[..|path| - 1], g, p);
    }
  }

  lemma {:induction false} LightPathDistinct(path: seq<Pos>, g: Grid)
    requires Square(g, |g|) && Inside(path, |g|) && Distinct(path)
    ensures Distinct(LightPath(path, g))
  {
    if path != [] {
      var p := path[|path| - 1];
      LightPathDistinct(path[..|path| - 1], g);
      LightPathMember(path[..|path| - 1], g, p);
    }
  }

  lemma LightPathAppend(path: seq<Pos>, p: Pos, g: Grid)
    requires Square(g, |g|) && Inside(path, |g|) && p.x < |g| && p.y < |g|
    ensures Inside(path + [p], |g|)
    ensures LightPath(path + [p], g) == LightPath(path, g) + if g[p.y][p.x] then [] else [p]
  {
    assert (path + [p])[..|path|] == path;
  }

  // The first i of the positions ps carry bits; every other module is as in g0.
  ghost predicate Painted(g0: Grid, g: Grid, ps: seq<Pos>, bits: seq<bool>, i: nat) {
    var n := |g0|;
    && Square(g0, n) && Square(g, n) && Inside(ps, n) && i <= |ps| && i <= |bits|
    && (forall k | 0 <= k < i :: g[ps[k].y][ps[k].x] == bits[k])
    && (forall x: nat, y: nat | x < n && y < n && Pos(x, y) !in ps[..i] :: g[y][x] == g0[y][x])
  }

  // `bits` are on the first light modules of g0 along `path`; every other module is as in g0.
  ghost predicate BitsPlaced(g0: Grid, g: Grid, path: seq<Pos>, bits: seq<bool>) {
    && Square(g0, |g0|) && Inside(path, |g0|)
    && Painted(g0, g, LightPath(path, g0), bits, Min(|LightPath(path, g0)|, |bits|))
  }

  lemma PaintedPrefix(g0: Grid, g: Grid, ps: seq<Pos>, qs: seq<Pos>, bits: seq<bool>, i: nat)
    requires Painted(g0, g, ps, bits, i) && i <= |qs| && qs[..i] == ps[..i] && Inside(qs, |g0|)
    ensures Painted(g0, g, qs, bits, i)
  {
    assert forall k | 0 <= k < i :: qs[k] == qs[..i][k] == ps[k];
  }

  lemma PaintedMore(g0: Grid, g: Grid, ps: seq<Pos>, bits: seq<bool>, p: Pos)
    requires Painted(g0, g, ps, bits, |ps|) && |ps| < |bits| && p.x < |g0| && p.y < |g0| && p !in ps
    ensures Painted(g0, Paint(g, p.x, p.y, bits[|ps|]), ps + [p], bits, |ps| + 1)
  {
    var i := |ps|;
    var qs, g' := ps + [p], Paint(g, p.x, p.y, bits[i]);
    assert qs[..i + 1] == qs && ps[..i] == ps;
    forall k | 0 <= k < i + 1 ensures g'[qs[k].y][qs[k].x] == bits[k] {
      if k < i { assert qs[k] == ps[k] && ps[k] in ps; }
    }
    forall x: nat, y: nat | x < |g0| && y < |g0| && Pos(x, y) !in qs[..i + 1] ensures g'[y][x] == g0[y][x] {
      assert p in qs;
      assert Pos(x, y) != p && Pos(x, y) !in ps;
    }
  }

  lemma LightPathInside(path: seq<Pos>, g: Grid)
    requires Square(g, |g|) && Inside(path, |g|)
    ensures Inside(LightPath(path, g), |g|)
  {
    var ps := LightPath(path, g);
    forall a | 0 <= a < |ps| ensures ps[a].x < |g| && ps[a].y < |g| { LightPathMember(path, g, ps[a]); }
  }

  // Meeting the next module of the scan, which was not visited before.
  lemma BitsPlacedStep(g0: Grid, g: Grid, path: seq<Pos>, bits: seq<bool>, p: Pos, i: nat)
    requires BitsPlaced(g0, g, path, bits) && p.x < |g0| && p.y < |g0| && p !in path
    requires i == Min(|LightPath(path, g0)|, |bits|)
    ensures Inside(path + [p], |g0|)
    ensures !g[p.y][p.x] && i < |bits| ==>
      BitsPlaced(g0, Paint(g, p.x, p.y, bits[i]), path + [p], bits) && Min(|LightPath(path + [p], g0)|, |bits|) == i + 1
    ensures !(!g[p.y][p.x] && i < |bits|) ==>
      BitsPlaced(g0, g, path + [p], bits) && Min(|LightPath(path + [p], g0)|, |bits|) == i
  {
    hide LightPath, Painted;
    var ps := LightPath(path, g0);
    LightPathAppend(path, p, g0);
    LightPathInside(path + [p], g0);
    LightPathMember(path, g0, p);
    PaintedElsewhere(g0, g, ps, bits, i, p);
    if !g[p.y][p.x] && i < |bits| {
      PaintedMore(g0, g, ps, bits, p);
    } else {
      PaintedPrefix(g0, g, ps, LightPath(path + [p], g0), bits, i);
    }
  }

  lemma PaintedElsewhere(g0: Grid, g: Grid, ps: seq<Pos>, bits: seq<bool>, i: nat, p: Pos)
    requires Painted(g0, g, ps, bits, i) && p !in ps && p.x < |g0| && p.y < |g0|
    ensures Square(g, |g0|) && g[p.y][p.x] == g0[p.y][p.x]
  {
    assert Pos(p.x, p.y) == p && p !in ps[..i];
  }

  // ---------- the loop of the source ----------

  // Where the scan stands inside the walk: everything before `path` is done, the rest follows.
  ghost predicate Scanning(n: nat, path: seq<Pos>, rest: seq<Pos>) {
    path + rest == Walk(n, n - 1)
  }

  lemma ScanNext(n: nat, path: seq<Pos>, p: Pos, rest: seq<Pos>)
    requires n % 2 == 1 && n >= 9 && Scanning(n, path, [p] + rest)
    ensures Scanning(n, path + [p], rest)
    ensures p !in path && p.x < n && p.y < n
  {
    ScanVisitsOnce(n);
    var w := Walk(n, n - 1);
    assert path + [p] + rest == w;
    assert w[|path|] == p && p in w;
    forall a | 0 <= a < |path| ensures path[a] != p { assert w[a] == path[a]; }
  }

  // The symbol after drawing along `path`, having started from g0; `i` bits are used up.
  ghost predicate Drawing(q: seq<Byte>, n: nat, g0: Grid, path: seq<Pos>, bits: seq<bool>, i: nat) {
    && Sized(q, n) && |g0| == n && BitsPlaced(g0, GridOf(q, n), path, bits)
    && i == Min(|LightPath(path, g0)|, |bits|)
  }

  lemma CodewordBit(data: seq<Byte>, i: nat)
    requires i < 8 * |data|
    ensures Stream(data)[i] <==> (data[i / 8] >> (7 - i % 8)) & 1 != 0
  {
    var b, k := data[i / 8], 7 - i % 8;
    ShiftIsBit(b, k);
    assert (b >> k) & 1 == 0 || (b >> k) & 1 == 1;
  }

  // One module of the scan: if it is light and bits remain, it takes the next bit.
  method DrawStep(data: array<Byte>, dataLen: nat, qrcode: array<Byte>, x: nat, y: nat, i: nat,
                  ghost n: nat, ghost g0: Grid, ghost path: seq<Pos>) returns (next: nat)
    requires data != qrcode && dataLen <= data.Length && x < n && y < n && Pos(x, y) !in path
    requires Drawing(qrcode[..], n, g0, path, Stream(data[..dataLen]), i)
    modifies qrcode
    ensures Drawing(qrcode[..], n, g0, path + [Pos(x, y)], Stream(data[..dataLen]), next)
  {
    hide Sized, GridOf, LightPath, StreamBit, Painted;
    ghost var bits := Stream(data[..dataLen]);
    BitsPlacedStep(g0, GridOf(qrcode[..], n), path, bits, Pos(x, y), i);
    next := i;
    var dark := GetModuleBounded(qrcode, x, y, n);
    if !dark && i < dataLen * 8 {
      CodewordBit(data[..dataLen], i);
      var bit := (data[i / 8] >> (7 - i % 8)) & 1 != 0;
      SetModuleBounded(qrcode, x, y, bit, n);
      next := i + 1;
    }
  }

  // What is left of a row of the column pair.
  function RowRest(n: nat, right: nat, vert: nat, j: nat): seq<Pos>
    requires 1 <= right && vert < n && j <= 2
  {
    if j == 0 then [At(n, right, vert, 0), At(n, right, vert, 1)] else if j == 1 then [At(n, right, vert, 1)] else []
  }

  lemma RowNext(n: nat, right: nat, vert: nat, j: nat, path: seq<Pos>, rest: seq<Pos>)
    requires n % 2 == 1 && n >= 9 && 1 <= right && vert < n && j < 2
    requires Scanning(n, path, RowRest(n, right, vert, j) + rest)
    ensures var p := At(n, right, vert, j);
      Scanning(n, path + [p], RowRest(n, right, vert, j + 1) + rest) && p !in path && p.x < n && p.y < n
  {
    hide Scanning, Upward;
    var p := At(n, right, vert, j);
    assert RowRest(n, right, vert, j) + rest == [p] + (RowRest(n, right, vert, j + 1) + rest);
    ScanNext(n, path, p, RowRest(n, right, vert, j + 1) + rest);
  }

  lemma PairIsRows(n: nat, right: nat, vert: nat, rest: seq<Pos>)
    requires 1 <= right && vert <= n
    ensures vert < n ==> Pair(n, right, vert) + rest == RowRest(n, right, vert, 0) + (Pair(n, right, vert + 1) + rest)
    ensures vert < n ==>
      RowRest(n, right, vert, 2) + (Pair(n, right, vert + 1) + rest) == Pair(n, right, vert + 1) + rest
    ensures Pair(n, right, n) + rest == rest
  {
    hide At;
  }

  // One column pair, from top to bottom or bottom to top.
  method DrawPair(data: array<Byte>, dataLen: nat, qrcode: array<Byte>, right: nat, i: nat, qrsize: nat,
                  ghost n: nat, ghost g0: Grid, ghost path: seq<Pos>, ghost rest: seq<Pos>, ghost bits: seq<bool>)
    returns (next: nat, ghost path': seq<Pos>)
    requires data != qrcode && dataLen <= data.Length && qrsize == n && n % 2 == 1 && n >= 9 && 1 <= right < n
    requires bits == Stream(data[..dataLen]) && Drawing(qrcode[..], n, g0, path, bits, i)
    requires Scanning(n, path, Pair(n, right, 0) + rest)
    modifies qrcode
    ensures Drawing(qrcode[..], n, g0, path', bits, next)
    ensures Scanning(n, path', rest)
  {
    hide Drawing, Scanning, Pair, RowRest, Stream;
    next, path' := i, path;
    for vert := 0 to qrsize
      invariant Drawing(qrcode[..], n, g0, path', bits, next)
      invariant Scanning(n, path', Pair(n, right, vert) + rest)
    {
      PairIsRows(n, right, vert, rest);
      for j := 0 to 2
        invariant Drawing(qrcode[..], n, g0, path', bits, next)
        invariant Scanning(n, path', RowRest(n, right, vert, j) + (Pair(n, right, vert + 1) + rest))
      {
        RowNext(n, right, vert, j, path', Pair(n, right, vert + 1) + rest);
        var x := right - j;
        var upward := (right + 1) % 4 < 2;
        var y := if upward then qrsize - 1 - vert else vert;
        next := DrawStep(data, dataLen, qrcode, x, y, next, n, g0, path');
        path' := path' + [At(n, right, vert, j)];
      }
    }
    PairIsRows(n, right, n, rest);
  }

  lemma WalkStep(n: nat, right: int)
    ensures right < 1 ==> Walk(n, right) == []
    ensures right >= 1 ==> Walk(n, right) == Pair(n, SkipTiming(right), 0) + Walk(n, SkipTiming(right) - 2)
  {}

  lemma ScanStarts(n: nat)
    requires n % 2 == 1 && n >= 9
    ensures ScanColumn(n - 1) && Scanning(n, [], Walk(n, n - 1))
  {
    assert [] + Walk(n, n - 1) == Walk(n, n - 1);
  }

  lemma ScanColumnStep(right: int)
    requires ScanColumn(right) && right >= 1
    ensures ScanColumn(SkipTiming(right) - 2) && SkipTiming(right) == if right == 6 then 5 else right
  {}

  // The scan over all column pairs.
  method DrawPairs(data: array<Byte>, dataLen: nat, qrcode: array<Byte>, qrsize: nat,
                   ghost n: nat, ghost g0: Grid, ghost bits: seq<bool>)
    returns (i: nat, ghost path: seq<Pos>)
    requires data != qrcode && dataLen <= data.Length && qrsize == n && n % 2 == 1 && n >= 9
    requires bits == Stream(data[..dataLen]) && Drawing(qrcode[..], n, g0, [], bits, 0)
    modifies qrcode
    ensures Drawing(qrcode[..], n, g0, path, bits, i) && Scanning(n, path, [])
  {
    hide *;
    path, i := [], 0;
    var right := qrsize - 1;
    ScanStarts(n);
    while right >= 1
      invariant ScanColumn(right) && right < n
      invariant Scanning(n, path, Walk(n, right))
      invariant Drawing(qrcode[..], n, g0, path, bits, i)
      decreases right
    {
      WalkStep(n, right);
      ScanColumnStep(right);
      if right == 6 { right := 5; }
      i, path := DrawPair(data, dataLen, qrcode, right, i, qrsize, n, g0, path, Walk(n, right - 2), bits);
      right := right - 2;
    }
    WalkStep(n, right);
  }

  // Draws the raw codewords onto the light modules of the symbol, which must have room for them all.
  method DrawCodewords(data: array<Byte>, dataLen: nat, qrcode: array<Byte>, ghost n: nat)
    requires data != qrcode && dataLen <= data.Length && Sized(qrcode[..], n) && n % 2 == 1
    requires Inside(Walk(n, n - 1), n) && 8 * dataLen <= |LightPath(Walk(n, n - 1), GridOf(qrcode[..], n))|
    modifies qrcode
    ensures Sized(qrcode[..], n)
    ensures BitsPlaced(old(GridOf(qrcode[..], n)), GridOf(qrcode[..], n), Walk(n, n - 1), Stream(data[..dataLen]))
  {
    var qrsize := qrcode[0] as int;
    SizeOfSymbol(qrcode[..], n);
    hide *;
    ghost var g0 := GridOf(qrcode[..], n);
    ghost var bits := Stream(data[..dataLen]);
    DrawingStarts(qrcode[..], n, bits);
    var i; ghost var path;
    i, path := DrawPairs(data, dataLen, qrcode, qrsize, n, g0, bits);
    DrawingEnds(qrcode[..], n, g0, path, bits, i);
    assert i == dataLen * 8;
  }

  lemma SizeOfSymbol(q: seq<Byte>, n: nat)
    requires Sized(q, n)
    ensures q[0] as int == n >= 21
  {}

  lemma DrawingEnds(q: seq<Byte>, n: nat, g0: Grid, path: seq<Pos>, bits: seq<bool>, i: nat)
    requires Drawing(q, n, g0, path, bits, i) && Scanning(n, path, [])
    ensures Sized(q, n) && BitsPlaced(g0, GridOf(q, n), Walk(n, n - 1), bits)
    ensures Inside(Walk(n, n - 1), |g0|) && Square(g0, |g0|)
    ensures |bits| <= |LightPath(Walk(n, n - 1), g0)| ==> i == |bits|
  {
    hide Sized, Painted, LightPath;
    assert path + [] == path;
  }

  lemma DrawingStarts(q: seq<Byte>, n: nat, bits: seq<bool>)
    requires Sized(q, n)
    ensures Drawing(q, n, GridOf(q, n), [], bits, 0)
  {
    hide Sized;
  }
}
