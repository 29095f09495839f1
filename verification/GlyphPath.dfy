/** The path a Type 2 charstring draws. One run of the interpreter counts and measures it, a second run stores it. */
module GlyphPath {
  import opened Outline

  datatype Kind = MoveKind | LineKind | CubicKind

  // A vertex before its coordinates are cut down to 16 bits.
  datatype Emitted = Emitted(kind: Kind, x: int, y: int, cx: int, cy: int, cx1: int, cy1: int)

  datatype Stored = Stored(kind: Kind, x: Int16, y: Int16, cx: Int16, cy: Int16, cx1: Int16, cy1: Int16)

  function Store(v: Emitted): Stored {
    Stored(v.kind, Short(v.x), Short(v.y), Short(v.cx), Short(v.cy), Short(v.cx1), Short(v.cy1))
  }

  // The conversion of a floating-point number to an integer.
  function Trunc(r: real): int {
    if r >= 0.0 then r.Floor else -(-r).Floor
  }

  // Towards zero, by less than one.
  lemma TruncIs(r: real)
    ensures r >= 0.0 ==> Trunc(r) as real <= r < Trunc(r) as real + 1.0
    ensures r <= 0.0 ==> Trunc(r) as real - 1.0 < r <= Trunc(r) as real
  {}

  // ---------- what is drawn ----------

  // The start of the open contour and the current point.
  datatype Pen = Pen(firstX: real, firstY: real, x: real, y: real)

  datatype Leg =
    | MoveBy(dx: real, dy: real)
    | LineBy(dx: real, dy: real)
    | CurveBy(dx1: real, dy1: real, dx2: real, dy2: real, dx3: real, dy3: real)

  datatype Drawing = Drawing(pen: Pen, out: seq<Emitted>)

  function LineVertex(x: real, y: real): Emitted {
    Emitted(LineKind, Trunc(x), Trunc(y), 0, 0, 0, 0)
  }

  // A line back to the start of the contour, unless the pen is there.
  function Closed(pen: Pen): seq<Emitted> {
    if pen.firstX != pen.x || pen.firstY != pen.y then [LineVertex(pen.firstX, pen.firstY)] else []
  }

  function DrawLeg(pen: Pen, leg: Leg): Drawing {
    match leg
    case MoveBy(dx, dy) =>
      var x, y := pen.x + dx, pen.y + dy;
      Drawing(Pen(x, y, x, y), Closed(pen) + [Emitted(MoveKind, Trunc(x), Trunc(y), 0, 0, 0, 0)])
    case LineBy(dx, dy) =>
      Drawing(pen.(x := pen.x + dx, y := pen.y + dy), [LineVertex(pen.x + dx, pen.y + dy)])
    case CurveBy(dx1, dy1, dx2, dy2, dx3, dy3) =>
      var cx1, cy1 := pen.x + dx1, pen.y + dy1;
      var cx2, cy2 := cx1 + dx2, cy1 + dy2;
      var x, y := cx2 + dx3, cy2 + dy3;
      Drawing(pen.(x := x, y := y),
        [Emitted(CubicKind, Trunc(x), Trunc(y), Trunc(cx1), Trunc(cy1), Trunc(cx2), Trunc(cy2))])
  }

  function Draw(pen: Pen, legs: seq<Leg>): Drawing {
    if legs == [] then Drawing(pen, [])
    else
      var d := Draw(pen, legs[..|legs| - 1]);
      var e := DrawLeg(d.pen, legs[|legs| - 1]);
      Drawing(e.pen, d.out + e.out)
  }

  lemma {:induction false} DrawMonotone(pen: Pen, legs: seq<Leg>, k: nat)
    requires k <= |legs|
    ensures |Draw(pen, legs[..k]).out| <= |Draw(pen, legs).out|
    decreases |legs|
  {
    hide DrawLeg;
    if k == |legs| {
      assert legs[..k] == legs;
    } else {
      DrawMonotone(pen, legs[..|legs| - 1], k);
      assert legs[..|legs| - 1][..k] == legs[..k];
    }
  }

  lemma DrawStep(pen: Pen, legs: seq<Leg>, k: nat)
    requires k < |legs|
    ensures var d, e := Draw(pen, legs[..k]), Draw(pen, legs[..k + 1]); var one := DrawLeg(d.pen, legs[k]);
      e == Drawing(one.pen, d.out + one.out)
    ensures |Draw(pen, legs[..k + 1]).out| <= |Draw(pen, legs).out|
  {
    hide DrawLeg;
    assert legs[..k + 1][..k] == legs[..k];
    DrawMonotone(pen, legs, k + 1);
  }

  // ---------- the extent of what is drawn ----------

  datatype Box = Box(minX: int, minY: int, maxX: int, maxY: int)

  // The points of a vertex that count: its position and, for a cubic, its two controls.
  function Marks(v: Emitted): seq<(int, int)> {
    if v.kind.CubicKind? then [(v.x, v.y), (v.cx, v.cy), (v.cx1, v.cy1)] else [(v.x, v.y)]
  }

  function AllMarks(out: seq<Emitted>): seq<(int, int)> {
    if out == [] then [] else AllMarks(out[..|out| - 1]) + Marks(out[|out| - 1])
  }

  // The least box around the points: every point is inside, and every side has a point on it.
  ghost predicate IsExtent(b: Box, ps: seq<(int, int)>) {
    && (forall i | 0 <= i < |ps| :: b.minX <= ps[i].0 <= b.maxX && b.minY <= ps[i].1 <= b.maxY)
    && (exists i :: 0 <= i < |ps| && ps[i].0 == b.minX)
    && (exists i :: 0 <= i < |ps| && ps[i].0 == b.maxX)
    && (exists i :: 0 <= i < |ps| && ps[i].1 == b.minY)
    && (exists i :: 0 <= i < |ps| && ps[i].1 == b.maxY)
  }

  // One more point, as the source tracks it.
  function Widened(b: Box, started: bool, x: int, y: int): Box {
    Box(if x < b.minX || !started then x else b.minX, if y < b.minY || !started then y else b.minY,
        if x > b.maxX || !started then x else b.maxX, if y > b.maxY || !started then y else b.maxY)
  }

  lemma WidenedIsExtent(b: Box, ps: seq<(int, int)>, x: int, y: int)
    requires ps != [] ==> IsExtent(b, ps)
    ensures IsExtent(Widened(b, ps != [], x, y), ps + [(x, y)])
  {
    var qs := ps + [(x, y)];
    assert qs[|ps|] == (x, y);
    if ps != [] {
      KeepSides(b, ps, (x, y));
    }
  }

  lemma KeepSides(b: Box, ps: seq<(int, int)>, p: (int, int))
    requires IsExtent(b, ps)
    ensures var qs := ps + [p];
      && (exists i :: 0 <= i < |qs| && qs[i].0 == b.minX) && (exists i :: 0 <= i < |qs| && qs[i].0 == b.maxX)
      && (exists i :: 0 <= i < |qs| && qs[i].1 == b.minY) && (exists i :: 0 <= i < |qs| && qs[i].1 == b.maxY)
  {
    var qs := ps + [p];
    var i :| 0 <= i < |ps| && ps[i].0 == b.minX;
    assert qs[i].0 == b.minX;
    i :| 0 <= i < |ps| && ps[i].0 == b.maxX;
    assert qs[i].0 == b.maxX;
    i :| 0 <= i < |ps| && ps[i].1 == b.minY;
    assert qs[i].1 == b.minY;
    i :| 0 <= i < |ps| && ps[i].1 == b.maxY;
    assert qs[i].1 == b.maxY;
  }

  // ---------- the drawing context ----------

  class Context {
    const bounds: bool
    const pvertices: array<Stored>
    var started: bool
    var firstX: real
    var firstY: real
    var x: real
    var y: real
    var minX: int
    var maxX: int
    var minY: int
    var maxY: int
    var numVertices: nat
    ghost var emitted: seq<Emitted>

    constructor (bounds: bool, pvertices: array<Stored>)
      ensures Valid() && this.bounds == bounds && this.pvertices == pvertices
      ensures emitted == [] && Position() == Pen(0.0, 0.0, 0.0, 0.0)
      ensures Extent() == Box(0, 0, 0, 0)
    {
      this.bounds, this.pvertices := bounds, pvertices;
      started, firstX, firstY, x, y := false, 0.0, 0.0, 0.0, 0.0;
      minX, maxX, minY, maxY, numVertices, emitted := 0, 0, 0, 0, 0, [];
    }

    function Position(): Pen
      reads this
    {
      Pen(firstX, firstY, x, y)
    }

    function Extent(): Box
      reads this
    {
      Box(minX, minY, maxX, maxY)
    }

    // Counting, the extent is that of everything emitted; storing, the array holds everything emitted.
    ghost predicate Valid()
      reads this, pvertices
    {
      && numVertices == |emitted|
      && if bounds then
           started == (AllMarks(emitted) != [])
             && if started then IsExtent(Extent(), AllMarks(emitted)) else Extent() == Box(0, 0, 0, 0)
         else
           numVertices <= pvertices.Length && forall k | 0 <= k < numVertices :: pvertices[k] == Store(emitted[k])
    }

    predicate Room(n: nat)
      reads this
    {
      bounds || numVertices + n <= pvertices.Length
    }

    method TrackVertex(px: int, py: int, ghost ps: seq<(int, int)>)
      requires started == (ps != []) && (ps != [] ==> IsExtent(Extent(), ps))
      modifies this`started, this`minX, this`maxX, this`minY, this`maxY
      ensures started && IsExtent(Extent(), ps + [(px, py)])
    {
      WidenedIsExtent(Extent(), ps, px, py);
      if px > maxX || !started { maxX := px; }
      if py > maxY || !started { maxY := py; }
      if px < minX || !started { minX := px; }
      if py < minY || !started { minY := py; }
      started := true;
    }

    method AddVertex(kind: Kind, px: int, py: int, cx: int, cy: int, cx1: int, cy1: int)
      requires Valid() && Room(1)
      modifies this`started, this`minX, this`maxX, this`minY, this`maxY, this`numVertices, this`emitted, pvertices
      ensures Valid() && emitted == old(emitted) + [Emitted(kind, px, py, cx, cy, cx1, cy1)]
    {
      hide IsExtent;
      ghost var v := Emitted(kind, px, py, cx, cy, cx1, cy1);
      ghost var ps := AllMarks(emitted);
      assert (emitted + [v])[..|emitted|] == emitted;
      if bounds {
        TrackVertex(px, py, ps);
        if kind == CubicKind {
          TrackVertex(cx, cy, ps + [(px, py)]);
          TrackVertex(cx1, cy1, ps + [(px, py)] + [(cx, cy)]);
          assert ps + [(px, py)] + [(cx, cy)] + [(cx1, cy1)] == ps + Marks(v);
        }
      } else {
        pvertices[numVertices] := Stored(kind, Short(px), Short(py), Short(cx), Short(cy), Short(cx1), Short(cy1));
      }
      numVertices := numVertices + 1;
      emitted := emitted + [v];
    }

    method CloseShape()
      requires Valid() && Room(|Closed(Position())|)
      modifies this, pvertices
      ensures Valid() && emitted == old(emitted) + Closed(old(Position())) && Position() == old(Position())
    {
      hide Valid;
      if firstX != x || firstY != y {
        AddVertex(LineKind, Trunc(firstX), Trunc(firstY), 0, 0, 0, 0);
      }
    }

    method RMoveTo(dx: real, dy: real)
      requires Valid() && Room(|DrawLeg(Position(), MoveBy(dx, dy)).out|)
      modifies this, pvertices
      ensures Valid() && emitted == old(emitted) + DrawLeg(old(Position()), MoveBy(dx, dy)).out
      ensures Position() == DrawLeg(old(Position()), MoveBy(dx, dy)).pen
    {
      CloseShape();
      x := x + dx;
      y := y + dy;
      firstX, firstY := x, y;
      AddVertex(MoveKind, Trunc(x), Trunc(y), 0, 0, 0, 0);
    }

    method RLineTo(dx: real, dy: real)
      requires Valid() && Room(1)
      modifies this, pvertices
      ensures Valid() && emitted == old(emitted) + DrawLeg(old(Position()), LineBy(dx, dy)).out
      ensures Position() == DrawLeg(old(Position()), LineBy(dx, dy)).pen
    {
      x := x + dx;
      y := y + dy;
      AddVertex(LineKind, Trunc(x), Trunc(y), 0, 0, 0, 0);
    }

    method RCurveTo(dx1: real, dy1: real, dx2: real, dy2: real, dx3: real, dy3: real)
      requires Valid() && Room(1)
      modifies this, pvertices
      ensures Valid() && emitted == old(emitted) + DrawLeg(old(Position()), CurveBy(dx1, dy1, dx2, dy2, dx3, dy3)).out
      ensures Position() == DrawLeg(old(Position()), CurveBy(dx1, dy1, dx2, dy2, dx3, dy3)).pen
    {
      var cx1, cy1 := x + dx1, y + dy1;
      var cx2, cy2 := cx1 + dx2, cy1 + dy2;
      x := cx2 + dx3;
      y := cy2 + dy3;
      AddVertex(CubicKind, Trunc(x), Trunc(y), Trunc(cx1), Trunc(cy1), Trunc(cx2), Trunc(cy2));
    }
  }
}
