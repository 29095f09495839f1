/** Reading the vertices of an outline back as the points they stand for. */
module OutlineReader {
  import opened Outline

  // A vertex of kind 1 or 2 is a point on the curve, one of kind 3 a control and then a point on the curve.
  function VertexPoints(v: Vertex): seq<Point> {
    if v.kind == 3 then [Point(v.cx, v.cy, false), Point(v.x, v.y, true)]
    else if v.kind == 1 || v.kind == 2 then [Point(v.x, v.y, true)]
    else []
  }

  function ReadPoints(vs: seq<Vertex>): seq<Point> {
    if vs == [] then [] else ReadPoints(vs[..|vs| - 1]) + VertexPoints(vs[|vs| - 1])
  }

  lemma {:induction false} ReadAppend(a: seq<Vertex>, b: seq<Vertex>)
    ensures ReadPoints(a + b) == ReadPoints(a) + ReadPoints(b)
  {
    hide VertexPoints;
    if b == [] {
      assert a + b == a;
    } else {
      ReadAppend(a, b[..|b| - 1]);
      assert (a + b)[..|a + b| - 1] == a + b[..|b| - 1];
    }
  }

  // The points of a path with the one between two controls spelled out.
  function Spelled(start: Point, ps: seq<Point>): seq<Point> {
    if ps == [] then []
    else
      var init, p := ps[..|ps| - 1], ps[|ps| - 1];
      var before := Last(start, init);
      Spelled(start, init)
      + if before.on || p.on then [p] else [Point((before.x + p.x) / 2, (before.y + p.y) / 2, true), p]
  }

  lemma OneVertex(v: Vertex)
    ensures ReadPoints([]) == [] && ReadPoints([v]) == VertexPoints(v)
  {
    assert [v][..0] == [];
  }

  // The strokes through points read as those points; a control at the end is still to come.
  lemma {:induction false} StrokesRead(start: Point, ps: seq<Point>)
    requires start.on
    ensures ReadPoints(Strokes(start, ps)) + (if Last(start, ps).on then [] else [Last(start, ps)])
      == Spelled(start, ps)
  {
    hide ReadPoints;
    if ps == [] {
      OneVertex(Move(start));
    } else {
      var init, p := ps[..|ps| - 1], ps[|ps| - 1];
      var before := Last(start, init);
      StrokesRead(start, init);
      ReadAppend(Strokes(start, init), Stroke(before, p));
      StrokeRead(before, p);
      var a, b := ReadPoints(Strokes(start, init)), ReadPoints(Stroke(before, p));
      var pending, next := if before.on then [] else [before], if p.on then [] else [p];
      assert (a + b) + next == a + (b + next);
      var more := if before.on || p.on then [p] else [Point((before.x + p.x) / 2, (before.y + p.y) / 2, true), p];
      assert (a + pending) + more == a + (pending + more);
    }
  }

  lemma StrokeRead(before: Point, p: Point)
    ensures ReadPoints(Stroke(before, p)) + (if p.on then [] else [p])
         == (if before.on then [] else [before])
          + if before.on || p.on then [p] else [Point((before.x + p.x) / 2, (before.y + p.y) / 2, true), p]
  {
    hide ReadPoints;
    if before.on && !p.on {
      OneVertex(Move(p));
    } else {
      OneVertex(Stroke(before, p)[0]);
    }
  }

  // The path of a contour reads as a point on the curve, the points of the contour from there on, and the way back to
  // it.
  lemma ContourRead(c: seq<Point>, n: nat)
    requires IsContour(c) && StartLen(c) <= n <= |c|
    ensures ReadPoints(ContourPath(c, n)) == [Start(c)] + Spelled(Start(c), c[StartLen(c)..n] + Closing(c))
    ensures c[0].on ==> Start(c) == c[0] && StartLen(c) == 1 && Closing(c) == [c[0]]
    ensures !c[0].on && c[1].on ==> Start(c) == c[1] && StartLen(c) == 2 && Closing(c) == [c[0], c[1]]
    ensures !c[0].on && !c[1].on ==>
      var middle := Point((c[0].x + c[1].x) / 2, (c[0].y + c[1].y) / 2, true);
      Start(c) == middle && StartLen(c) == 1 && Closing(c) == [c[0], middle]
  {
    hide ReadPoints, Strokes, Spelled;
    var rest := c[StartLen(c)..n] + Closing(c);
    StrokesRead(Start(c), rest);
    assert Last(Start(c), rest) == Start(c);
    ReadAppend([Move(Start(c))], Strokes(Start(c), rest));
    OneVertex(Move(Start(c)));
    assert Start(c) == Point(Start(c).x, Start(c).y, true);
  }
}
