/** Every contour that a charstring run draws ends where it began, the last one only if the run succeeds. */
module GlyphContours {
  import opened Wrappers
  import opened GlyphPath
  import opened GlyphOperators
  import opened Charstring

  // Where the current contour began: the last move, or the origin.
  function LastMove(out: seq<Emitted>): (int, int) {
    if out == [] then (0, 0)
    else
      var v := out[|out| - 1];
      if v.kind.MoveKind? then (v.x, v.y) else LastMove(out[..|out| - 1])
  }

  // Where the path has got to.
  function Tip(out: seq<Emitted>): (int, int) {
    if out == [] then (0, 0) else (out[|out| - 1].x, out[|out| - 1].y)
  }

  // The path is back at the start of its contour whenever it moves on to the next.
  ghost predicate ContoursClosed(out: seq<Emitted>) {
    forall k | 0 <= k < |out| && out[k].kind.MoveKind? :: Tip(out[..k]) == LastMove(out[..k])
  }

  ghost predicate PenOn(out: seq<Emitted>, pen: Pen) {
    && ContoursClosed(out)
    && LastMove(out) == (Trunc(pen.firstX), Trunc(pen.firstY))
    && Tip(out) == (Trunc(pen.x), Trunc(pen.y))
  }

  lemma OneMore(out: seq<Emitted>, v: Emitted)
    requires ContoursClosed(out) && (v.kind.MoveKind? ==> Tip(out) == LastMove(out))
    ensures ContoursClosed(out + [v]) && Tip(out + [v]) == (v.x, v.y)
    ensures LastMove(out + [v]) == if v.kind.MoveKind? then (v.x, v.y) else LastMove(out)
  {
    var more := out + [v];
    assert more[..|out|] == out;
    forall k | 0 <= k < |more| && more[k].kind.MoveKind? ensures Tip(more[..k]) == LastMove(more[..k]) {
      if k < |out| { assert more[..k] == out[..k]; }
    }
  }

  lemma ClosingBringsBack(out: seq<Emitted>, pen: Pen)
    requires PenOn(out, pen)
    ensures var back := out + Closed(pen);
      && ContoursClosed(back) && LastMove(back) == (Trunc(pen.firstX), Trunc(pen.firstY)) && Tip(back) == LastMove(back)
  {
    hide Trunc, ContoursClosed, LastMove, Tip;
    if Closed(pen) == [] {
      assert out + Closed(pen) == out;
    } else {
      OneMore(out, LineVertex(pen.firstX, pen.firstY));
    }
  }

  lemma LegKeepsPen(out: seq<Emitted>, pen: Pen, leg: Leg)
    requires PenOn(out, pen)
    ensures var d := DrawLeg(pen, leg); PenOn(out + d.out, d.pen)
  {
    hide Trunc, ContoursClosed, LastMove, Tip;
    var d := DrawLeg(pen, leg);
    var v := d.out[|d.out| - 1];
    if leg.MoveBy? {
      ClosingBringsBack(out, pen);
      OneMore(out + Closed(pen), v);
      assert out + d.out == out + Closed(pen) + [v];
    } else {
      OneMore(out, v);
    }
  }

  lemma {:induction false} DrawingKeepsPen(out: seq<Emitted>, pen: Pen, legs: seq<Leg>)
    requires PenOn(out, pen)
    ensures var d := Draw(pen, legs); PenOn(out + d.out, d.pen)
  {
    hide PenOn, DrawLeg;
    if legs == [] {
      assert out + [] == out;
    } else {
      var d, leg := Draw(pen, legs[..|legs| - 1]), legs[|legs| - 1];
      DrawingKeepsPen(out, pen, legs[..|legs| - 1]);
      LegKeepsPen(out + d.out, d.pen, leg);
      assert out + d.out + DrawLeg(d.pen, leg).out == out + (d.out + DrawLeg(d.pen, leg).out);
    }
  }

  // A step draws nothing and leaves the pen, or draws the legs of an operator.
  lemma StepDraws(font: Font, m: Machine) returns (legs: seq<Leg>)
    requires InBuf(m.b) && Step(font, m).Next?
    ensures Step(font, m).out == Draw(m.pen, legs).out && Step(font, m).m.pen == Draw(m.pen, legs).pen
  {
    hide Draw, Legs, Needs, Number, Skip, Subroutine, Trunc, IsMove, OperatorOf, EscapeOf, Closed;
    DrawNothing(m.pen);
    legs := [];
    var read, b0 := m.(b := After(m.b)), m.b.data[m.b.cursor];
    if b0 == 0x0C {
      legs := Legs(EscapeOf(Peek(read.b)).value, m.stack);
    } else if OperatorOf(b0).Some? {
      DispatchDraws(font, read, b0);
      legs := Legs(OperatorOf(b0).value, m.stack);
    } else {
      assert Step(font, m).out == [];
    }
  }

  lemma DrawNothing(pen: Pen)
    ensures Draw(pen, []) == Drawing(pen, [])
  {}

  lemma StepEnds(font: Font, m: Machine)
    requires InBuf(m.b) && Step(font, m).Done?
    ensures Step(font, m).out == if Step(font, m).ok then Closed(m.pen) else []
  {
    hide Draw, Legs, Needs, Number, Skip, Subroutine, Trunc, IsMove, OperatorOf, EscapeOf, Closed;
  }

  lemma {:induction false} RunClosesContours(font: Font, m: Machine, out: seq<Emitted>)
    requires Sane(m) && PenOn(out, m.pen)
    ensures var all := out + Run(font, m).out; ContoursClosed(all) && (Run(font, m).ok ==> Tip(all) == LastMove(all))
    decreases Level(m, 0), Level(m, 1), Level(m, 2), Level(m, 3), Level(m, 4), Level(m, 5),
              Level(m, 6), Level(m, 7), Level(m, 8), Level(m, 9), Level(m, 10)
  {
    hide Step, PenOn, ContoursClosed, LastMove, Tip, Closed, Draw;
    if Step(font, m).Done? {
      StepEnds(font, m);
      ClosingBringsBack(out, m.pen);
      PenOnClosed(out, m.pen);
      assert out + [] == out;
    } else {
      var n := Step(font, m);
      var legs := StepDraws(font, m);
      DrawingKeepsPen(out, m.pen, legs);
      StepKeeps(font, m);
      RunClosesContours(font, n.m, out + n.out);
      assert out + n.out + Run(font, n.m).out == out + (n.out + Run(font, n.m).out);
    }
  }

  lemma PenOnClosed(out: seq<Emitted>, pen: Pen)
    requires PenOn(out, pen)
    ensures ContoursClosed(out)
  {}

  // For every glyph.
  lemma GlyphClosesContours(font: Font, glyph: nat)
    requires glyph < |font.charstrings|
    ensures var run := Run(font, Start(font, glyph));
      ContoursClosed(run.out) && (run.ok ==> Tip(run.out) == LastMove(run.out))
  {
    hide Run, ContoursClosed;
    var m := Start(font, glyph);
    NothingDrawn();
    RunClosesContours(font, m, []);
    assert [] + Run(font, m).out == Run(font, m).out;
  }

  lemma NothingDrawn()
    ensures PenOn([], Pen(0.0, 0.0, 0.0, 0.0))
  {}
}
