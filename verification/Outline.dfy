/**
 * TrueType outlines: points on and off the curve become moves, lines and curves, in the array that holds the points.
 */
module Outline {
  import opened Bits

  type Int16 = x: int | -0x8000 <= x < 0x8000

  // The cast to a signed 16-bit integer.
  function Short(v: int): Int16 {
    (v + 0x8000) % 0x1_0000 - 0x8000
  }

  const VMOVE: Byte := 1
  const VLINE: Byte := 2
  const VCURVE: Byte := 3

  // Before conversion `kind` holds the flags of a point, afterwards the kind of a vertex.
  datatype Vertex = Vertex(kind: Byte, x: Int16, y: Int16, cx: Int16, cy: Int16)

  function SetVertex(kind: Byte, x: int, y: int, cx: int, cy: int): Vertex {
    Vertex(kind, Short(x), Short(y), Short(cx), Short(cy))
  }

  datatype Point = Point(x: Int16, y: Int16, on: bool)

  predicate OnCurve(flags: Byte) {
    flags & 1 != 0
  }

  function PointOf(v: Vertex): Point {
    Point(v.x, v.y, OnCurve(v.kind))
  }

  // ---------- what an outline means ----------

  // `(a + b) >> 1`.
  function Half(a: Int16, b: Int16): Int16 {
    (a + b) / 2
  }

  function Middle(p: Point, q: Point): Point {
    Point(Half(p.x, q.x), Half(p.y, q.y), true)
  }

  function Move(p: Point): Vertex { Vertex(VMOVE, p.x, p.y, 0, 0) }
  function LineTo(p: Point): Vertex { Vertex(VLINE, p.x, p.y, 0, 0) }
  function CurveTo(p: Point, control: Point): Vertex { Vertex(VCURVE, p.x, p.y, control.x, control.y) }

  // What point p adds to the path when `before` precedes it: two controls in a row have a point on the curve between
  // them.
  function Stroke(before: Point, p: Point): seq<Vertex> {
    if before.on then (if p.on then [LineTo(p)] else [])
    else if p.on then [CurveTo(p, before)] else [CurveTo(Middle(before, p), before)]
  }

  // The strokes through the points of a path that starts on the curve at `start`.
  function Strokes(start: Point, ps: seq<Point>): seq<Vertex> {
    if ps == [] then []
    else Strokes(start, ps[..|ps| - 1]) + Stroke(Last(start, ps[..|ps| - 1]), ps[|ps| - 1])
  }

  function Last(start: Point, ps: seq<Point>): Point {
    if ps == [] then start else ps[|ps| - 1]
  }

  // In what follows a contour is given by all points from its first on, and its length. One that begins with a control
  // looks at the next point, even if it has only the one.
  predicate IsContour(c: seq<Point>) {
    |c| >= 1 && (!c[0].on ==> |c| >= 2)
  }

  // The first point on the curve, possibly one implied between two controls.
  function Start(c: seq<Point>): Point
    requires IsContour(c)
  {
    if c[0].on then c[0] else if c[1].on then c[1] else Middle(c[0], c[1])
  }

  // Number of points used up by the start.
  function StartLen(c: seq<Point>): (n: nat)
    requires IsContour(c)
    ensures 1 <= n <= |c|
  {
    if !c[0].on && c[1].on then 2 else 1
  }

  // The points that close the path.
  function Closing(c: seq<Point>): seq<Point>
    requires IsContour(c)
  {
    if c[0].on then [Start(c)] else [c[0], Start(c)]
  }

  function ContourPath(c: seq<Point>, n: nat): seq<Vertex>
    requires IsContour(c) && StartLen(c) <= n <= |c|
  {
    [Move(Start(c))] + Strokes(Start(c), c[StartLen(c)..n] + Closing(c))
  }

  function ContourStart(ends: seq<nat>, j: int): nat
    requires 0 <= j <= |ends|
  {
    if j == 0 then 0 else ends[j - 1] + 1
  }

  predicate Increasing(ends: seq<nat>) {
    forall a, b | 0 <= a < b < |ends| :: ends[a] < ends[b]
  }

  ghost predicate ContourFits(ps: seq<Point>, ends: seq<nat>, j: int)
    requires 0 <= j < |ends|
  {
    var first := ContourStart(ends, j);
    first <= ends[j] < |ps| && IsContour(ps[first..]) && first + StartLen(ps[first..]) <= ends[j] + 1
  }

  // `ends` holds the last point of each contour, increasing up to the last point of all.
  ghost predicate EndsFit(ps: seq<Point>, ends: seq<nat>) {
    |ends| > 0 && ends[|ends| - 1] + 1 == |ps| && Increasing(ends)
  }

  // The first k contours have the points they need to begin.
  ghost predicate WellFormed(ps: seq<Point>, ends: seq<nat>, k: int) {
    EndsFit(ps, ends) && 0 <= k <= |ends| && forall j | 0 <= j < k :: ContourFits(ps, ends, j)
  }

  lemma FewerFormed(ps: seq<Point>, ends: seq<nat>, k: int, k': int)
    requires WellFormed(ps, ends, k) && 0 <= k' <= k
    ensures WellFormed(ps, ends, k') && k <= |ends|
  {}

  // The points from the first of contour j on.
  ghost function Contour(ps: seq<Point>, ends: seq<nat>, j: int): (c: seq<Point>)
    requires 0 <= j && WellFormed(ps, ends, j + 1)
    ensures IsContour(c)
  {
    assert ContourFits(ps, ends, j);
    ps[ContourStart(ends, j)..]
  }

  ghost function ContourLen(ps: seq<Point>, ends: seq<nat>, j: int): (n: nat)
    requires 0 <= j && WellFormed(ps, ends, j + 1)
    ensures StartLen(Contour(ps, ends, j)) <= n <= |Contour(ps, ends, j)|
  {
    assert ContourFits(ps, ends, j);
    ends[j] + 1 - ContourStart(ends, j)
  }

  // The paths of the first k contours, one after the other.
  ghost function Outlines(ps: seq<Point>, ends: seq<nat>, k: int): seq<Vertex>
    requires WellFormed(ps, ends, k)
  {
    if k == 0 then []
    else Outlines(ps, ends, k - 1) + ContourPath(Contour(ps, ends, k - 1), ContourLen(ps, ends, k - 1))
  }

  // ---------- the contours that are met ----------

  // While walking through contour j, which begins after the end of the one before, its end is still to come and is not
  // the last point.
  predicate Continues(ps: seq<Point>, ends: seq<nat>, j: nat)
    requires j < |ends|
  {
    var first := ContourStart(ends, j);
    first < |ps| && IsContour(ps[first..]) && first + StartLen(ps[first..]) <= ends[j] + 1 < |ps|
  }

  // The first contour from j on that does not end before the last point.
  function LastMet(ps: seq<Point>, ends: seq<nat>, j: nat): (k: nat)
    requires j < |ends|
    ensures j <= k < |ends| && (forall i: nat | j <= i < k :: Continues(ps, ends, i))
    ensures k + 1 < |ends| ==> !Continues(ps, ends, k)
    decreases |ends| - j
  {
    if j + 1 < |ends| && Continues(ps, ends, j) then LastMet(ps, ends, j + 1) else j
  }

  // Where the contours end that the header describes. An end that the walk has passed already never comes, so its
  // contour goes on to the last point.
  function Met(ps: seq<Point>, ends: seq<nat>): (met: seq<nat>)
    requires |ends| > 0 && |ps| > 0
    ensures 1 <= |met| <= |ends|
  {
    ends[..LastMet(ps, ends, 0)] + [|ps| - 1]
  }

  lemma MetFits(ps: seq<Point>, ends: seq<nat>)
    requires |ends| > 0 && ends[|ends| - 1] + 1 == |ps|
    ensures var met := Met(ps, ends); var k := |met| - 1;
      && WellFormed(ps, met, k) && ContourStart(met, k) < |ps|
      && (forall j | 0 <= j < k :: met[j] == ends[j])
      && (IsContour(ps[ContourStart(met, k)..]) ==>
            WellFormed(ps, met, k + 1)
            && !(ContourStart(met, k) + StartLen(ps[ContourStart(met, k)..]) <= ends[k] + 1 < |ps|))
  {
    var met := Met(ps, ends);
    var k := |met| - 1;
    assert forall j: nat | j < k :: Continues(ps, ends, j);
    forall j: nat | j <= k ensures ContourStart(met, j) == ContourStart(ends, j) < |ps| {
      if j > 0 { assert Continues(ps, ends, j - 1); }
    }
    forall j: nat | j < k ensures ContourFits(ps, met, j) { assert Continues(ps, ends, j); }
    MetIncreases(ps, ends);
    assert k + 1 < |ends| ==> !Continues(ps, ends, k);
  }

  // No contour is begun at the last point with a control, which would look at a point that is not there.
  predicate BegunInside(ps: seq<Point>, met: seq<nat>)
    requires |met| > 0 && |ps| > 0
  {
    ContourStart(met, |met| - 1) + 1 == |ps| ==> ps[|ps| - 1].on
  }

  lemma BegunInsideExactly(ps: seq<Point>, ends: seq<nat>)
    requires |ends| > 0 && ends[|ends| - 1] + 1 == |ps|
    ensures var met := Met(ps, ends); BegunInside(ps, met) <==> WellFormed(ps, met, |met|)
  {
    MetFits(ps, ends);
    var met := Met(ps, ends);
    var first := ContourStart(met, |met| - 1);
    assert IsContour(ps[first..]) <==> BegunInside(ps, met);
    if WellFormed(ps, met, |met|) { assert ContourFits(ps, met, |met| - 1); }
  }

  // A line and then a lone control.
  lemma LoneControlAtTheEnd()
    ensures var ps := [Point(0, 0, true), Point(0, 100, true), Point(100, 0, false)]; !BegunInside(ps, Met(ps, [1, 2]))
  {
    var ps, ends := [Point(0, 0, true), Point(0, 100, true), Point(100, 0, false)], [1, 2];
    assert Continues(ps, ends, 0);
    assert LastMet(ps, ends, 0) == 1;
  }

  lemma MetIncreases(ps: seq<Point>, ends: seq<nat>)
    requires |ends| > 0 && |ps| > 0
    ensures Increasing(Met(ps, ends))
  {
    var met := Met(ps, ends);
    forall a, b | 0 <= a < b < |met| ensures met[a] < met[b] { BeforeLater(ps, ends, a, b); }
  }

  lemma {:induction false} BeforeLater(ps: seq<Point>, ends: seq<nat>, a: nat, b: nat)
    requires |ends| > 0 && |ps| > 0 && a < b < |Met(ps, ends)|
    ensures Met(ps, ends)[a] < Met(ps, ends)[b]
  {
    var met := Met(ps, ends);
    assert Continues(ps, ends, b - 1);
    if b + 1 < |met| { assert Continues(ps, ends, b); }
    if a < b - 1 { BeforeLater(ps, ends, a, b - 1); }
  }

  // Ends that ascend, with two points for a contour that begins with a control, are all met.
  lemma AllMet(ps: seq<Point>, ends: seq<nat>)
    requires EndsFit(ps, ends)
    requires forall j | 0 <= j < |ends| :: ContourStart(ends, j) == ends[j] ==> ps[ends[j]].on
    ensures Met(ps, ends) == ends && WellFormed(ps, ends, |ends|)
  {
    forall j: nat | j < |ends| ensures ContourFits(ps, ends, j) && (j + 1 < |ends| ==> Continues(ps, ends, j)) {
      assert ContourStart(ends, j) <= ends[j] <= ends[|ends| - 1];
      if j + 1 < |ends| { assert ends[j] < ends[|ends| - 1]; }
    }
    var k := LastMet(ps, ends, 0);
    assert ends[..k] + [|ps| - 1] == ends;
  }

  // ---------- properties of the meaning ----------

  lemma {:induction false} StrokesAppend(start: Point, a: seq<Point>, b: seq<Point>)
    ensures Strokes(start, a + b) == Strokes(start, a) + Strokes(Last(start, a), b)
  {
    if b == [] {
      assert a + b == a;
    } else {
      var b' := b[..|b| - 1];
      StrokesAppend(start, a, b');
      assert (a + b)[..|a + b| - 1] == a + b';
      assert Last(start, a + b') == Last(Last(start, a), b');
    }
  }

  // Spelling out the implied point between two controls does not change the path.
  lemma ImpliedPoint(start: Point, before: seq<Point>, p: Point, q: Point, after: seq<Point>)
    requires !p.on && !q.on
    ensures Strokes(start, before + [p, q] + after) == Strokes(start, before + [p, Middle(p, q), q] + after)
  {
    hide Strokes;
    var u, v := [p, q], [p, Middle(p, q), q];
    StrokesAppend(start, before, u);
    StrokesAppend(start, before, v);
    StrokesAppend(start, before + u, after);
    StrokesAppend(start, before + v, after);
    TwoControls(Last(start, before), p, q);
  }

  lemma TwoControls(s: Point, p: Point, q: Point)
    requires !p.on && !q.on
    ensures Strokes(s, [p, q]) == Strokes(s, [p, Middle(p, q), q])
  {
    hide Half;
    var u, v := [p, q], [p, Middle(p, q), q];
    assert u[..1] == [p] && v[..2] == [p, Middle(p, q)] && v[..2][..1] == [p];
    assert Strokes(s, u) == Strokes(s, [p]) + [CurveTo(Middle(p, q), p)];
    assert Strokes(s, v[..2]) == Strokes(s, [p]) + [CurveTo(Middle(p, q), p)];
  }

  // A contour that starts with a control is the same path as the one rotated to start on the curve.
  lemma RotatedContour(c: seq<Point>, n: nat)
    requires IsContour(c) && !c[0].on && StartLen(c) <= n <= |c|
    ensures var r := [Start(c)] + c[StartLen(c)..n] + [c[0]]; ContourPath(c, n) == ContourPath(r, |r|)
  {
    var r := [Start(c)] + c[StartLen(c)..n] + [c[0]];
    assert r[1..|r|] + [Start(c)] == c[StartLen(c)..n] + [c[0], Start(c)];
  }

  lemma {:induction false} StrokesLength(start: Point, ps: seq<Point>)
    ensures |Strokes(start, ps)| <= |ps|
  {
    if ps != [] { StrokesLength(start, ps[..|ps| - 1]); }
  }

  // A path has one vertex more than the contour has points, at most.
  lemma ContourPathLength(c: seq<Point>, n: nat)
    requires IsContour(c) && StartLen(c) <= n <= |c|
    ensures 1 <= |ContourPath(c, n)| <= n + 1
  {
    var rest := c[StartLen(c)..n] + Closing(c);
    if c[0].on || c[1].on {
      StrokesLength(Start(c), rest);
    } else {
      assert rest[0] == (if n == 1 then c[0] else c[1]);
      StrokesAppend(Start(c), [rest[0]], rest[1..]);
      assert rest == [rest[0]] + rest[1..];
      StrokesLength(Last(Start(c), [rest[0]]), rest[1..]);
      assert [rest[0]][..0] == [];
    }
  }

  lemma {:induction false} OutlinesLength(ps: seq<Point>, ends: seq<nat>, k: int)
    requires WellFormed(ps, ends, k)
    ensures k <= |Outlines(ps, ends, k)| <= ContourStart(ends, k) + k
  {
    hide ContourPath, EndsFit, IsContour, Contour;
    if k > 0 {
      OutlinesLength(ps, ends, k - 1);
      ContourPathLength(Contour(ps, ends, k - 1), ContourLen(ps, ends, k - 1));
    }
  }

  // ---------- converting in place ----------

  // The points from i on still stand, uninterpreted, `off` places up the array.
  ghost predicate Unread(vs: seq<Vertex>, ps: seq<Point>, off: nat, i: nat) {
    && |vs| == off + |ps|
    && forall k: nat | i <= k < |ps| :: PointOf(vs[off + k]) == ps[k]
  }

  // Inside contour c, with its first q points interpreted: the path so far fills the front of the array after `done`.
  ghost predicate Walking(vs: seq<Vertex>, done: seq<Vertex>, c: seq<Point>, q: nat, num: nat) {
    && IsContour(c) && StartLen(c) <= q <= |c| && num <= |vs|
    && vs[..num] == done + [Move(Start(c))] + Strokes(Start(c), c[StartLen(c)..q])
  }

  // The point the path has reached.
  ghost function Reached(c: seq<Point>, q: nat): Point
    requires IsContour(c) && StartLen(c) <= q <= |c|
  {
    Last(Start(c), c[StartLen(c)..q])
  }

  // The front of the array never catches up with the points still to be read.
  lemma RoomToWrite(vs: seq<Vertex>, done: seq<Vertex>, c: seq<Point>, q: nat, num: nat)
    requires Walking(vs, done, c, q, num)
    ensures num <= |done| + q
  {
    StrokesLength(Start(c), c[StartLen(c)..q]);
  }

  lemma WriteOne(vs: seq<Vertex>, num: nat, v: Vertex, ps: seq<Point>, off: nat, i: nat)
    requires Unread(vs, ps, off, i) && num < off + i && num < |vs|
    ensures vs[num := v][..num + 1] == vs[..num] + [v] && Unread(vs[num := v], ps, off, i)
  {}

  lemma NextPoint(vs: seq<Vertex>, ps: seq<Point>, off: nat, i: nat, i': nat)
    requires Unread(vs, ps, off, i) && i <= i'
    ensures Unread(vs, ps, off, i')
  {}

  // One more point of the contour.
  lemma WalkOn(vs: seq<Vertex>, vs': seq<Vertex>, done: seq<Vertex>, c: seq<Point>, q: nat, num: nat, num': nat)
    requires Walking(vs, done, c, q, num) && q < |c|
    requires num' <= |vs'| && vs'[..num'] == vs[..num] + Stroke(Reached(c, q), c[q])
    ensures Walking(vs', done, c, q + 1, num') && Reached(c, q + 1) == c[q]
  {
    hide Stroke, IsContour, Start, StartLen, Move;
    var a, b := c[StartLen(c)..q], c[StartLen(c)..q + 1];
    assert b[..|b| - 1] == a;
  }

  // Closing the contour completes its path.
  lemma ContourDone(vs: seq<Vertex>, vs': seq<Vertex>, done: seq<Vertex>, c: seq<Point>, n: nat, num: nat, num': nat)
    requires Walking(vs, done, c, n, num) && num' <= |vs'|
    requires vs'[..num'] == vs[..num] + Strokes(Reached(c, n), Closing(c))
    ensures vs'[..num'] == done + ContourPath(c, n)
  {
    hide Strokes, IsContour, Start, StartLen, Closing, Move;
    StrokesAppend(Start(c), c[StartLen(c)..n], Closing(c));
  }

  lemma ContourBegun(vs: seq<Vertex>, vs': seq<Vertex>, done: seq<Vertex>, c: seq<Point>)
    requires IsContour(c) && |done| < |vs'| && |done| <= |vs| && vs[..|done|] == done
    requires vs'[..|done| + 1] == done + [Move(Start(c))]
    ensures Walking(vs', done, c, StartLen(c), |done| + 1) && Reached(c, StartLen(c)) == Start(c)
  {
    assert c[StartLen(c)..StartLen(c)] == [];
  }

  // Ends the path of a contour: `last` is the point reached, `closing` the points that take it back to its start.
  method CloseShape(vertices: array<Vertex>, numVertices: nat, wasOff: bool, startOff: bool, sx: int, sy: int, scx: int,
                    scy: int, cx: int, cy: int, ghost last: Point, ghost closing: seq<Point>)
    returns (num: nat)
    requires wasOff == !last.on && (wasOff ==> cx == last.x && cy == last.y)
    requires |closing| == if startOff then 2 else 1
    requires closing[|closing| - 1].on && closing[|closing| - 1].x == sx && closing[|closing| - 1].y == sy
    requires startOff ==> !closing[0].on && closing[0].x == scx && closing[0].y == scy
    requires numVertices + 2 <= vertices.Length
    modifies vertices
    ensures numVertices <= num <= numVertices + 2
    ensures vertices[..num] == old(vertices[..numVertices]) + Strokes(last, closing)
    ensures vertices[num..] == old(vertices[num..])
  {
    hide Strokes, Short;
    num := numVertices;
    ghost var vs := vertices[..];
    CloseStrokes(last, closing);
    ShortHalf(cx, scx);
    ShortHalf(cy, scy);
    if startOff {
      if wasOff {
        vertices[num] := SetVertex(VCURVE, (cx + scx) / 2, (cy + scy) / 2, cx, cy);
        num := num + 1;
      }
      assert vertices[..num] == vs[..numVertices] + Stroke(last, closing[0]);
      vertices[num] := SetVertex(VCURVE, sx, sy, scx, scy);
      num := num + 1;
      assert vertices[..num] == vs[..numVertices] + Stroke(last, closing[0]) + Stroke(closing[0], closing[1]);
    } else {
      if wasOff {
        vertices[num] := SetVertex(VCURVE, sx, sy, cx, cy);
      } else {
        vertices[num] := SetVertex(VLINE, sx, sy, 0, 0);
      }
      num := num + 1;
    }
    assert vertices[..num] == vs[..numVertices] + Strokes(last, closing);
  }

  lemma CloseStrokes(last: Point, closing: seq<Point>)
    requires 1 <= |closing| <= 2
    ensures Strokes(last, closing) ==
      if |closing| == 2 then Stroke(last, closing[0]) + Stroke(closing[0], closing[1]) else Stroke(last, closing[0])
  {
    if |closing| == 2 { assert closing[..1] == [closing[0]]; }
    assert closing[..1][..0] == [];
  }

  // Coordinates in range are stored unchanged, and so are the middles of two of them.
  lemma ShortHalf(a: int, b: int)
    ensures forall v: int | -0x8000 <= v < 0x8000 :: Short(v) == v
    ensures -0x8000 <= a < 0x8000 && -0x8000 <= b < 0x8000 ==> -0x8000 <= (a + b) / 2 < 0x8000
  {}

  lemma ContourFacts(ps: seq<Point>, ends: seq<nat>, j: nat)
    requires WellFormed(ps, ends, j + 1)
    ensures var c, n, first := Contour(ps, ends, j), ContourLen(ps, ends, j), ContourStart(ends, j);
      && n >= 1 && first + n == ends[j] + 1 <= |ps| && c == ps[first..]
      && ContourStart(ends, j + 1) == first + n && (first + n == |ps| <==> j + 1 == |ends|)
      && WellFormed(ps, ends, j) && Outlines(ps, ends, j + 1) == Outlines(ps, ends, j) + ContourPath(c, n)
    ensures j <= |Outlines(ps, ends, j)| <= ContourStart(ends, j) + j
  {
    hide ContourPath, IsContour;
    assert ContourFits(ps, ends, j);
    OutlinesLength(ps, ends, j);
  }

  // The local variables of the conversion, while contour j - 1 is being walked and the points before i are read.
  ghost predicate InContour(vs: seq<Vertex>, ps: seq<Point>, ends: seq<nat>, i: nat, j: nat, num: nat, nextMove: int,
                            wasOff: bool, startOff: bool, sx: int, sy: int, scx: int, scy: int, cx: int, cy: int) {
    && 1 <= j && WellFormed(ps, ends, j)
       && (if j == |ends| then !(i <= nextMove < |ps|) else nextMove == ends[j - 1] + 1)
    && var c, first := Contour(ps, ends, j - 1), ContourStart(ends, j - 1);
    && first <= i <= ends[j - 1] + 1 && Walking(vs, Outlines(ps, ends, j - 1), c, i - first, num)
    && AtPoint(Reached(c, i - first), wasOff, cx, cy) && ClosesAt(c, startOff, sx, sy, scx, scy)
  }

  predicate AtPoint(p: Point, wasOff: bool, cx: int, cy: int) {
    wasOff == !p.on && (wasOff ==> cx == p.x && cy == p.y)
  }

  predicate ClosesAt(c: seq<Point>, startOff: bool, sx: int, sy: int, scx: int, scy: int)
    requires IsContour(c)
  {
    && startOff == !c[0].on && sx == Start(c).x && sy == Start(c).y
    && (startOff ==> scx == c[0].x && scy == c[0].y)
  }

  // Adds a point on or off the curve to the path.
  method AddPoint(vertices: array<Vertex>, numVertices: nat, flags: Byte, x: int, y: int, wasOff0: bool, cx0: int,
                  cy0: int, ghost before: Point, ghost p: Point)
    returns (num: nat, wasOff: bool, cx: int, cy: int)
    requires numVertices < vertices.Length && AtPoint(before, wasOff0, cx0, cy0)
    requires p == Point(p.x, p.y, OnCurve(flags)) && x == p.x && y == p.y
    modifies vertices
    ensures numVertices <= num <= numVertices + 1 && AtPoint(p, wasOff, cx, cy)
    ensures vertices[..num] == old(vertices[..numVertices]) + Stroke(before, p)
    ensures forall k | 0 <= k < vertices.Length && k != numVertices :: vertices[k] == old(vertices[k])
  {
    hide Short;
    num, wasOff, cx, cy := numVertices, wasOff0, cx0, cy0;
    ShortHalf(cx, x);
    ShortHalf(cy, y);
    if !OnCurve(flags) {
      if wasOff {
        vertices[num] := SetVertex(VCURVE, (cx + x) / 2, (cy + y) / 2, cx, cy);
        num := num + 1;
      }
      cx, cy, wasOff := x, y, true;
    } else {
      if wasOff {
        vertices[num] := SetVertex(VCURVE, x, y, cx, cy);
      } else {
        vertices[num] := SetVertex(VLINE, x, y, 0, 0);
      }
      num := num + 1;
      wasOff := false;
    }
  }

  // Starts the contour whose first point is number i0. A control looks at the next point; where there is none, the
  // source reads past the array, and `inside` is false.
  method BeginContour(vertices: array<Vertex>, numVertices: nat, off: nat, i0: nat, ghost ps: seq<Point>)
    returns (inside: bool, i: nat, num: nat, startOff: bool, sx: int, sy: int, scx: int, scy: int)
    requires i0 < |ps| && Unread(vertices[..], ps, off, i0) && numVertices < off + i0
    modifies vertices
    ensures inside == IsContour(ps[i0..])
    ensures inside ==> num == numVertices + 1 && i == i0 + StartLen(ps[i0..]) - 1
    ensures inside ==> vertices[..num] == old(vertices[..numVertices]) + [Move(Start(ps[i0..]))]
    ensures inside ==> ClosesAt(ps[i0..], startOff, sx, sy, scx, scy) && Unread(vertices[..], ps, off, i + 1)
  {
    hide Short;
    inside, i, num, sx, sy, scx, scy := true, i0, numVertices, 0, 0, 0, 0;
    ghost var c := ps[i0..];
    assert PointOf(vertices[off + i]) == c[0];
    var v := vertices[off + i];
    startOff := !OnCurve(v.kind);
    if startOff {
      if off + i + 1 == vertices.Length {
        inside := false;
        return;
      }
      assert PointOf(vertices[off + i + 1]) == c[1];
      scx, scy := v.x, v.y;
      var next := vertices[off + i + 1];
      if !OnCurve(next.kind) {
        sx, sy := (v.x + next.x) / 2, (v.y + next.y) / 2;
      } else {
        sx, sy := next.x, next.y;
        i := i + 1;
      }
    } else {
      sx, sy := v.x, v.y;
    }
    ShortHalf(0, 0);
    WriteOne(vertices[..], num, Move(Start(c)), ps, off, i0);
    NextPoint(vertices[..][num := Move(Start(c))], ps, off, i0, i + 1);
    assert SetVertex(VMOVE, sx, sy, 0, 0) == Move(Start(c));
    vertices[num] := SetVertex(VMOVE, sx, sy, 0, 0);
    num := num + 1;
  }

  lemma ClosingPoints(c: seq<Point>, startOff: bool, sx: int, sy: int, scx: int, scy: int)
    requires IsContour(c) && ClosesAt(c, startOff, sx, sy, scx, scy)
    ensures var k := Closing(c);
      && |k| == (if startOff then 2 else 1) && k[|k| - 1].on && k[|k| - 1].x == sx && k[|k| - 1].y == sy
      && (startOff ==> !k[0].on && k[0].x == scx && k[0].y == scy)
  {}

  lemma UnreadKept(vs: seq<Vertex>, vs': seq<Vertex>, ps: seq<Point>, off: nat, i: nat, num: nat)
    requires Unread(vs, ps, off, i) && |vs'| == |vs| && num <= off + i && num <= |vs|
    requires vs'[num..] == vs[num..]
    ensures Unread(vs', ps, off, i)
  {
    forall k: nat | i <= k < |ps| ensures PointOf(vs'[off + k]) == ps[k] {
      assert PointOf(vs[off + k]) == ps[k];
      assert vs'[num..][off + k - num] == vs[num..][off + k - num];
    }
  }

  // All points of contour j - 1 are on the path; this closes it.
  method FinishContour(vertices: array<Vertex>, numVertices: nat, wasOff: bool, startOff: bool, sx: int, sy: int,
                       scx: int, scy: int, cx: int, cy: int, ghost ps: seq<Point>, ghost met: seq<nat>, ghost j: nat,
                       ghost nextMove: int)
    returns (num: nat)
    requires vertices.Length >= 2 * |met| + |ps| && 1 <= j <= |met|
    requires InContour(vertices[..], ps, met, met[j - 1] + 1, j, numVertices, nextMove,
                       wasOff, startOff, sx, sy, scx, scy, cx, cy)
    modifies vertices
    ensures WellFormed(ps, met, j)
    ensures num <= vertices.Length && vertices[..num] == Outlines(ps, met, j)
    ensures vertices[num..] == old(vertices[num..]) && num <= ContourStart(met, j) + j
  {
    hide WellFormed, Unread, Strokes, Closing, IsContour, Start, StartLen, Reached, ContourPath, Walking, ClosesAt,
      AtPoint, ContourStart, Outlines;
    FewerFormed(ps, met, j, j - 1);
    ghost var vs, done, c, n := vertices[..], Outlines(ps, met, j - 1), Contour(ps, met, j - 1),
      ContourLen(ps, met, j - 1);
    ContourFacts(ps, met, j - 1);
    WalkedAll(vs, done, c, n, numVertices);
    ReachedAt(c, n, wasOff, cx, cy);
    ClosingPoints(c, startOff, sx, sy, scx, scy);
    num := CloseShape(vertices, numVertices, wasOff, startOff, sx, sy, scx, scy, cx, cy, Reached(c, n), Closing(c));
    ContourDone(vs, vertices[..], done, c, n, numVertices, num);
    OutlinesLength(ps, met, j);
  }

  lemma WalkedAll(vs: seq<Vertex>, done: seq<Vertex>, c: seq<Point>, q: nat, num: nat)
    requires Walking(vs, done, c, q, num)
    ensures num <= |done| + q && num <= |vs| && StartLen(c) <= q <= |c|
  {
    RoomToWrite(vs, done, c, q, num);
  }

  lemma ReachedAt(c: seq<Point>, n: nat, wasOff: bool, cx: int, cy: int)
    requires IsContour(c) && StartLen(c) <= n <= |c| && AtPoint(Reached(c, n), wasOff, cx, cy)
    ensures var p := Reached(c, n); wasOff == !p.on && (wasOff ==> cx == p.x && cy == p.y)
  {}

  // Where the walk stands before point i. Its contour ends here exactly when this is the point at which to move.
  lemma StandsInside(vs: seq<Vertex>, ps: seq<Point>, met: seq<nat>, i: nat, j: nat, num: nat, nextMove: int,
                     wasOff: bool, startOff: bool, sx: int, sy: int, scx: int, scy: int, cx: int, cy: int)
    requires InContour(vs, ps, met, i, j, num, nextMove, wasOff, startOff, sx, sy, scx, scy, cx, cy)
    ensures 1 <= j <= |met| && WellFormed(ps, met, j)
      && ContourStart(met, j - 1) < i <= met[j - 1] + 1 == ContourStart(met, j) <= |ps|
    ensures num < |met| + i
    ensures i < |ps| ==> (nextMove == i <==> i == met[j - 1] + 1) && (nextMove == i ==> j < |met|)
    ensures i == |ps| ==> j == |met| && i == met[j - 1] + 1
    ensures var c, q := Contour(ps, met, j - 1), i - ContourStart(met, j - 1);
      && StartLen(c) <= q && AtPoint(Reached(c, q), wasOff, cx, cy) && (i < |ps| ==> q < |c| && c[q] == ps[i])
      && Walking(vs, Outlines(ps, met, j - 1), c, q, num)
  {
    hide WellFormed, IsContour, Start, StartLen, Reached, AtPoint, ClosesAt, Walking, ContourStart, Outlines;
    FewerFormed(ps, met, j, j - 1);
    ContourFacts(ps, met, j - 1);
    WalkedAll(vs, Outlines(ps, met, j - 1), Contour(ps, met, j - 1), i - ContourStart(met, j - 1), num);
  }

  lemma StepsInside(vs: seq<Vertex>, vs': seq<Vertex>, ps: seq<Point>, met: seq<nat>, i: nat, j: nat, num: nat,
                    num': nat, nextMove: int, wasOff: bool, startOff: bool, sx: int, sy: int, scx: int, scy: int,
                    cx: int, cy: int, wasOff': bool, cx': int, cy': int)
    requires InContour(vs, ps, met, i, j, num, nextMove, wasOff, startOff, sx, sy, scx, scy, cx, cy) && i != nextMove
      && i < |ps|
    requires num <= |vs| && num' <= |vs'| && AtPoint(ps[i], wasOff', cx', cy')
    requires var c, q := Contour(ps, met, j - 1), i - ContourStart(met, j - 1);
      0 <= q && StartLen(c) <= q <= |c| && vs'[..num'] == vs[..num] + Stroke(Reached(c, q), ps[i])
    ensures InContour(vs', ps, met, i + 1, j, num', nextMove, wasOff', startOff, sx, sy, scx, scy, cx', cy')
  {
    hide WellFormed, IsContour, Start, StartLen, Reached, AtPoint, ClosesAt, Walking, ContourStart, Outlines, Stroke;
    FewerFormed(ps, met, j, j - 1);
    StandsInside(vs, ps, met, i, j, num, nextMove, wasOff, startOff, sx, sy, scx, scy, cx, cy);
    WalkOn(vs, vs', Outlines(ps, met, j - 1), Contour(ps, met, j - 1), i - ContourStart(met, j - 1), num, num');
  }

  lemma PointAt(vs: seq<Vertex>, ps: seq<Point>, off: nat, i: nat)
    requires Unread(vs, ps, off, i) && i < |ps|
    ensures |vs| == off + |ps| && PointOf(vs[off + i]) == ps[i]
  {}

  lemma ContourEntered(vs: seq<Vertex>, vs': seq<Vertex>, ps: seq<Point>, met: seq<nat>, j: nat, nextMove: int,
                       startOff: bool, sx: int, sy: int, scx: int, scy: int, cx: int, cy: int)
    requires WellFormed(ps, met, j + 1)
    requires var first := ContourStart(met, j) + StartLen(Contour(ps, met, j));
      if j + 1 == |met| then !(first <= nextMove < |ps|) else nextMove == met[j] + 1
    requires var done, c := Outlines(ps, met, j), Contour(ps, met, j);
      && |done| < |vs'| && |done| <= |vs| && vs[..|done|] == done && vs'[..|done| + 1] == done + [Move(Start(c))]
      && ClosesAt(c, startOff, sx, sy, scx, scy)
    ensures var c := Contour(ps, met, j);
      InContour(vs', ps, met, ContourStart(met, j) + StartLen(c), j + 1, |Outlines(ps, met, j)| + 1, nextMove,
                false, startOff, sx, sy, scx, scy, cx, cy)
  {
    hide WellFormed, ClosesAt, Walking, Outlines, Reached;
    ContourFacts(ps, met, j);
    ContourBegun(vs, vs', Outlines(ps, met, j), Contour(ps, met, j));
  }

  // The contour that begins after the first j is the next that is met.
  lemma NextMet(ps: seq<Point>, ends: seq<nat>, j: nat)
    requires |ends| > 0 && ends[|ends| - 1] + 1 == |ps| && j < |Met(ps, ends)|
    ensures var met := Met(ps, ends);
      && WellFormed(ps, met, j) && ContourStart(met, j) < |ps| && j < |ends|
      && (j + 1 < |met| ==> IsContour(ps[ContourStart(met, j)..]))
      && (IsContour(ps[ContourStart(met, j)..]) ==>
            WellFormed(ps, met, j + 1) && Contour(ps, met, j) == ps[ContourStart(met, j)..] &&
            var first := ContourStart(met, j) + StartLen(ps[ContourStart(met, j)..]);
            if j + 1 == |met| then !(first <= ends[j] + 1 < |ps|) else ends[j] == met[j])
  {
    hide IsContour, StartLen, Met;
    MetFits(ps, ends);
    var met := Met(ps, ends);
    if j + 1 < |met| { assert ContourFits(ps, met, j); }
    assert ContourStart(met, j) < |ps|;
  }

  // Turns the points in the upper part of the array into the vertices of all outlines at its front. The header may hold
  // any ends, as long as the last of them is the last point.
  method Convert(vertices: array<Vertex>, n: nat, ends: seq<nat>, ghost ps: seq<Point>) returns (inside: bool, num: nat)
    requires |ends| > 0 && ends[|ends| - 1] + 1 == n == |ps|
    requires vertices.Length == 2 * |ends| + n && Unread(vertices[..], ps, 2 * |ends|, 0)
    modifies vertices
    ensures var met := Met(ps, ends);
      && (inside <==> BegunInside(ps, met))
      && (inside ==> WellFormed(ps, met, |met|) && num <= n + |met| && vertices[..num] == Outlines(ps, met, |met|))
  {
    hide BegunInside, WellFormed, Unread, Strokes, Stroke, Closing, IsContour, Start, StartLen, Reached, ContourPath,
      Walking, ClosesAt, AtPoint, InContour, ContourStart, Contour, Outlines, Met, EndsFit, Increasing, Short, Move;
    var off := 2 * |ends|;
    ghost var met := Met(ps, ends);
    inside, num := true, 0;
    var i: nat, j: nat, nextMove: nat, wasOff, startOff := 0, 0, 0, false, false;
    var sx, sy, scx, scy, cx, cy := 0, 0, 0, 0, 0, 0;
    FirstContour(ps, ends);
    BegunInsideExactly(ps, ends);
    while i < n
      invariant i <= n && j <= |met| && Unread(vertices[..], ps, off, i)
      invariant j == 0 ==> i == 0 && num == 0 && nextMove == 0
      invariant j > 0 ==>
        InContour(vertices[..], ps, met, i, j, num, nextMove, wasOff, startOff, sx, sy, scx, scy, cx, cy)
    {
      ghost var vs := vertices[..];
      if j > 0 { StandsInside(vs, ps, met, i, j, num, nextMove, wasOff, startOff, sx, sy, scx, scy, cx, cy); }
      if nextMove == i {
        if i != 0 {
          num := FinishContour(vertices, num, wasOff, startOff, sx, sy, scx, scy, cx, cy, ps, met, j, nextMove);
          UnreadKept(vs, vertices[..], ps, off, i, num);
        }
        vs := vertices[..];
        NextMet(ps, ends, j);
        assert vs[..num] == Outlines(ps, met, j);
        inside, i, num, startOff, sx, sy, scx, scy := BeginContour(vertices, num, off, i, ps);
        if !inside {
          BeginsInside(ps, met, j);
          return;
        }
        nextMove := 1 + ends[j];
        ContourEntered(vs, vertices[..], ps, met, j, nextMove, startOff, sx, sy, scx, scy, cx, cy);
        wasOff := false;
        j := j + 1;
      } else {
        PointAt(vs, ps, off, i);
        ghost var num0, wasOff0, cx0, cy0 := num, wasOff, cx, cy;
        var v := vertices[off + i];
        num, wasOff, cx, cy := AddPoint(vertices, num, v.kind, v.x, v.y, wasOff, cx, cy,
                                        Reached(Contour(ps, met, j - 1), i - ContourStart(met, j - 1)), ps[i]);
        StepsInside(vs, vertices[..], ps, met, i, j, num0, num, nextMove, wasOff0, startOff, sx, sy, scx, scy, cx0, cy0,
                    wasOff, cx, cy);
        UnreadBeyond(vs, vertices[..], ps, off, i, num0);
      }
      StandsInside(vertices[..], ps, met, i + 1, j, num, nextMove, wasOff, startOff, sx, sy, scx, scy, cx, cy);
      i := i + 1;
    }
    StandsInside(vertices[..], ps, met, i, j, num, nextMove, wasOff, startOff, sx, sy, scx, scy, cx, cy);
    num := FinishContour(vertices, num, wasOff, startOff, sx, sy, scx, scy, cx, cy, ps, met, j, nextMove);
  }

  lemma FirstContour(ps: seq<Point>, ends: seq<nat>)
    requires |ends| > 0 && ends[|ends| - 1] + 1 == |ps|
    ensures var met := Met(ps, ends); WellFormed(ps, met, 0) && Outlines(ps, met, 0) == [] && ContourStart(met, 0) == 0
  {
    MetFits(ps, ends);
  }

  lemma BeginsInside(ps: seq<Point>, met: seq<nat>, j: nat)
    requires j < |met| && ContourStart(met, j) <= |ps|
    ensures WellFormed(ps, met, |met|) ==> IsContour(ps[ContourStart(met, j)..])
  {
    hide IsContour, StartLen;
    if WellFormed(ps, met, |met|) { assert ContourFits(ps, met, j); }
  }

  // A write below the points to be read next leaves them alone.
  lemma UnreadBeyond(vs: seq<Vertex>, vs': seq<Vertex>, ps: seq<Point>, off: nat, i: nat, num: nat)
    requires Unread(vs, ps, off, i) && |vs'| == |vs| && num < off + i + 1
    requires forall k | 0 <= k < |vs| && k != num :: vs'[k] == vs[k]
    ensures Unread(vs', ps, off, i + 1)
  {}
}
