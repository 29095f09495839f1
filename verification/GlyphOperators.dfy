/** The drawing operators of Type 2 charstrings: which legs they draw from the operands on the stack. */
module GlyphOperators {
  import opened GlyphPath

  datatype Operator =
    | RMoveTo | VMoveTo | HMoveTo | RLineTo | HLineTo | VLineTo | RRCurveTo | RCurveLine | RLineCurve
    | HVCurveTo | VHCurveTo | VVCurveTo | HHCurveTo | HFlex | Flex | HFlex1 | Flex1

  // Fewest operands an operator takes.
  function Needs(op: Operator): nat {
    match op
    case RMoveTo => 2
    case VMoveTo => 1
    case HMoveTo => 1
    case RLineTo => 2
    case HLineTo => 1
    case VLineTo => 1
    case RRCurveTo => 6
    case RCurveLine => 8
    case RLineCurve => 8
    case HVCurveTo => 4
    case VHCurveTo => 4
    case VVCurveTo => 4
    case HHCurveTo => 4
    case HFlex => 7
    case Flex => 13
    case HFlex1 => 9
    case Flex1 => 11
  }

  // ---------- what the operators mean ----------

  // Lines through pairs of operands, from operand i on.
  function PairLines(s: seq<real>, n: nat): (legs: seq<Leg>)
    requires 2 * n <= |s|
    ensures |legs| == n
  {
    seq(n, k requires 0 <= k < n => LineBy(s[2 * k], s[2 * k + 1]))
  }

  // Alternating horizontal and vertical lines.
  function AlternatingLines(s: seq<real>, horizontalFirst: bool): (legs: seq<Leg>)
    ensures |legs| == |s|
  {
    seq(|s|, k requires 0 <= k < |s| =>
      if (k % 2 == 0) == horizontalFirst then LineBy(s[k], 0.0) else LineBy(0.0, s[k]))
  }

  function FullCurve(s: seq<real>, i: nat): Leg
    requires i + 5 < |s|
  {
    CurveBy(s[i], s[i + 1], s[i + 2], s[i + 3], s[i + 4], s[i + 5])
  }

  function FullCurves(s: seq<real>, n: nat): (legs: seq<Leg>)
    requires 6 * n <= |s|
    ensures |legs| == n
  {
    seq(n, k requires 0 <= k < n => FullCurve(s, 6 * k))
  }

  // Curve k of a sequence that alternates between horizontal and vertical tangents; the last may take a fifth operand.
  function AlternatingCurve(s: seq<real>, horizontalFirst: bool, k: nat): Leg
    requires 4 * k + 3 < |s|
  {
    var i := 4 * k;
    var extra := if |s| - i == 5 then s[i + 4] else 0.0;
    if (k % 2 == 0) == horizontalFirst then CurveBy(s[i], 0.0, s[i + 1], s[i + 2], extra, s[i + 3])
    else CurveBy(0.0, s[i], s[i + 1], s[i + 2], s[i + 3], extra)
  }

  function AlternatingCurves(s: seq<real>, horizontalFirst: bool): (legs: seq<Leg>)
    ensures |legs| == |s| / 4
  {
    seq(|s| / 4, k requires 0 <= k < |s| / 4 => AlternatingCurve(s, horizontalFirst, k))
  }

  // Curve k of a sequence with both tangents horizontal, or both vertical; a leading operand bends the first.
  function StraightCurve(s: seq<real>, horizontal: bool, k: nat): Leg
    requires |s| % 2 + 4 * k + 3 < |s|
  {
    var i := |s| % 2 + 4 * k;
    var f := if k == 0 && |s| % 2 == 1 then s[0] else 0.0;
    if horizontal then CurveBy(s[i], f, s[i + 1], s[i + 2], s[i + 3], 0.0)
    else CurveBy(f, s[i], s[i + 1], s[i + 2], 0.0, s[i + 3])
  }

  function StraightCurves(s: seq<real>, horizontal: bool): (legs: seq<Leg>)
    ensures |legs| == (|s| - |s| % 2) / 4
  {
    seq((|s| - |s| % 2) / 4, k requires 0 <= k < (|s| - |s| % 2) / 4 => StraightCurve(s, horizontal, k))
  }

  function Abs(r: real): real { if r < 0.0 then -r else r }

  // Two curves that start and end level.
  function HFlexLegs(s: seq<real>): (legs: seq<Leg>)
    requires |s| >= 7
  {
    [CurveBy(s[0], 0.0, s[1], s[2], s[3], 0.0), CurveBy(s[4], 0.0, s[5], -s[2], s[6], 0.0)]
  }

  function FlexLegs(s: seq<real>): (legs: seq<Leg>)
    requires |s| >= 13
  {
    [CurveBy(s[0], s[1], s[2], s[3], s[4], s[5]), CurveBy(s[6], s[7], s[8], s[9], s[10], s[11])]
  }

  function HFlex1Legs(s: seq<real>): (legs: seq<Leg>)
    requires |s| >= 9
  {
    [CurveBy(s[0], s[1], s[2], s[3], s[4], 0.0), CurveBy(s[5], 0.0, s[6], s[7], s[8], -(s[1] + s[3] + s[7]))]
  }

  // The last operand moves along the longer direction; the other returns to where it started.
  function Flex1Legs(s: seq<real>): (legs: seq<Leg>)
    requires |s| >= 11
  {
    var dx, dy := s[0] + s[2] + s[4] + s[6] + s[8], s[1] + s[3] + s[5] + s[7] + s[9];
    var wide := Abs(dx) > Abs(dy);
    [CurveBy(s[0], s[1], s[2], s[3], s[4], s[5]),
     CurveBy(s[6], s[7], s[8], s[9], if wide then s[10] else -dx, if wide then -dy else s[10])]
  }

  // Where the flex operators end: level with their start, except that the last may be exactly above or below it
  // instead.
  lemma FlexReturns(pen: Pen, s: seq<real>)
    ensures |s| >= 7 ==> Draw(pen, HFlexLegs(s)).pen.y == pen.y
    ensures |s| >= 9 ==> Draw(pen, HFlex1Legs(s)).pen.y == pen.y
    ensures |s| >= 11 ==>
      var dx, dy := s[0] + s[2] + s[4] + s[6] + s[8], s[1] + s[3] + s[5] + s[7] + s[9];
      var end := Draw(pen, Flex1Legs(s)).pen;
      if Abs(dx) > Abs(dy) then end.y == pen.y && end.x == pen.x + dx + s[10]
      else end.x == pen.x && end.y == pen.y + dy + s[10]
  {
    if |s| >= 7 { TwoLegs(pen, HFlexLegs(s)); }
    if |s| >= 9 { TwoLegs(pen, HFlex1Legs(s)); }
    if |s| >= 11 { TwoLegs(pen, Flex1Legs(s)); }
  }

  lemma TwoLegs(pen: Pen, legs: seq<Leg>)
    requires |legs| == 2
    ensures Draw(pen, legs).pen == DrawLeg(DrawLeg(pen, legs[0]).pen, legs[1]).pen
  {
    hide DrawLeg;
    assert legs[..2] == legs && legs[..1] == [legs[0]] && legs[..1][..0] == [];
    DrawStep(pen, legs, 0);
    DrawStep(pen, legs, 1);
  }

  function Legs(op: Operator, s: seq<real>): seq<Leg>
    requires |s| >= Needs(op)
  {
    match op
    case RMoveTo => [MoveBy(s[|s| - 2], s[|s| - 1])]
    case VMoveTo => [MoveBy(0.0, s[|s| - 1])]
    case HMoveTo => [MoveBy(s[|s| - 1], 0.0)]
    case RLineTo => PairLines(s, |s| / 2)
    case HLineTo => AlternatingLines(s, true)
    case VLineTo => AlternatingLines(s, false)
    case RRCurveTo => FullCurves(s, |s| / 6)
    case RCurveLine => var n := (|s| - 2) / 6; FullCurves(s, n) + [LineBy(s[6 * n], s[6 * n + 1])]
    case RLineCurve => var n := (|s| - 6) / 2; PairLines(s, n) + [FullCurve(s, 2 * n)]
    case HVCurveTo => AlternatingCurves(s, true)
    case VHCurveTo => AlternatingCurves(s, false)
    case VVCurveTo => StraightCurves(s, false)
    case HHCurveTo => StraightCurves(s, true)
    case HFlex => HFlexLegs(s)
    case Flex => FlexLegs(s)
    case HFlex1 => HFlex1Legs(s)
    case Flex1 => Flex1Legs(s)
  }

  // ---------- drawing them ----------

  // The first k legs have been drawn from pen p0, after the vertices e0, with room for the rest.
  ghost predicate Drawn(c: Context, p0: Pen, e0: seq<Emitted>, legs: seq<Leg>, k: nat)
    reads c, c.pvertices
  {
    && c.Valid() && k <= |legs|
    && c.Position() == Draw(p0, legs[..k]).pen && c.emitted == e0 + Draw(p0, legs[..k]).out
    && (c.bounds || |e0| + |Draw(p0, legs).out| <= c.pvertices.Length)
  }

  lemma DrawnAll(c: Context, p0: Pen, e0: seq<Emitted>, legs: seq<Leg>)
    requires Drawn(c, p0, e0, legs, |legs|)
    ensures c.Valid() && c.Position() == Draw(p0, legs).pen && c.emitted == e0 + Draw(p0, legs).out
  {
    hide Context.Valid, Draw;
    assert legs[..|legs|] == legs;
  }

  lemma DrawnNone(c: Context, legs: seq<Leg>)
    requires c.Valid() && c.Room(|Draw(c.Position(), legs).out|)
    ensures Drawn(c, c.Position(), c.emitted, legs, 0)
  {}

  // What one more leg needs and gives.
  lemma LegFits(c: Context, p0: Pen, e0: seq<Emitted>, legs: seq<Leg>, k: nat)
    requires Drawn(c, p0, e0, legs, k) && k < |legs|
    ensures c.Valid() && c.Room(|DrawLeg(c.Position(), legs[k]).out|)
    ensures var one := DrawLeg(c.Position(), legs[k]);
      Draw(p0, legs[..k + 1]).pen == one.pen && e0 + Draw(p0, legs[..k + 1]).out == c.emitted + one.out
  {
    hide DrawLeg, Draw;
    DrawStep(p0, legs, k);
  }

  method MoveLeg(c: Context, dx: real, dy: real, ghost p0: Pen, ghost e0: seq<Emitted>, ghost legs: seq<Leg>)
    requires Drawn(c, p0, e0, legs, 0) && legs == [MoveBy(dx, dy)]
    modifies c, c.pvertices
    ensures Drawn(c, p0, e0, legs, 1)
  {
    hide DrawLeg, Context.Valid, Draw;
    LegFits(c, p0, e0, legs, 0);
    c.RMoveTo(dx, dy);
  }

  method LineLeg(c: Context, dx: real, dy: real, ghost p0: Pen, ghost e0: seq<Emitted>, ghost legs: seq<Leg>,
                 ghost k: nat)
    requires Drawn(c, p0, e0, legs, k) && k < |legs| && legs[k] == LineBy(dx, dy)
    modifies c, c.pvertices
    ensures Drawn(c, p0, e0, legs, k + 1)
  {
    hide DrawLeg, Context.Valid, Draw;
    LegFits(c, p0, e0, legs, k);
    OneVertex(c.Position(), legs[k]);
    c.RLineTo(dx, dy);
  }

  method CurveLeg(c: Context, dx1: real, dy1: real, dx2: real, dy2: real, dx3: real, dy3: real,
                  ghost p0: Pen, ghost e0: seq<Emitted>, ghost legs: seq<Leg>, ghost k: nat)
    requires Drawn(c, p0, e0, legs, k) && k < |legs| && legs[k] == CurveBy(dx1, dy1, dx2, dy2, dx3, dy3)
    modifies c, c.pvertices
    ensures Drawn(c, p0, e0, legs, k + 1)
  {
    hide DrawLeg, Context.Valid, Draw;
    LegFits(c, p0, e0, legs, k);
    OneVertex(c.Position(), legs[k]);
    c.RCurveTo(dx1, dy1, dx2, dy2, dx3, dy3);
  }

  lemma OneVertex(pen: Pen, leg: Leg)
    requires !leg.MoveBy?
    ensures |DrawLeg(pen, leg).out| == 1
  {}

  // ---------- the operators, loop by loop ----------

  method PairLineLegs(c: Context, s: array<real>, sp: nat, end: int, ghost p0: Pen, ghost e0: seq<Emitted>,
                      ghost legs: seq<Leg>)
    returns (i: nat)
    requires sp <= s.Length && end <= sp && 0 <= end / 2 <= |legs| && legs[..end / 2] == PairLines(s[..sp], end / 2)
    requires Drawn(c, p0, e0, legs, 0)
    modifies c, c.pvertices
    ensures i == 2 * (end / 2) && Drawn(c, p0, e0, legs, end / 2)
  {
    hide Drawn;
    i := 0;
    while i + 1 < end
      invariant i % 2 == 0 && i / 2 <= end / 2 && Drawn(c, p0, e0, legs, i / 2)
    {
      assert legs[i / 2] == legs[..end / 2][i / 2];
      LineLeg(c, s[i], s[i + 1], p0, e0, legs, i / 2);
      i := i + 2;
    }
  }

  method AlternatingLineLegs(c: Context, s: array<real>, sp: nat, horizontalFirst: bool,
                             ghost p0: Pen, ghost e0: seq<Emitted>, ghost legs: seq<Leg>)
    requires sp <= s.Length && legs == AlternatingLines(s[..sp], horizontalFirst) && Drawn(c, p0, e0, legs, 0)
    modifies c, c.pvertices
    ensures Drawn(c, p0, e0, legs, |legs|)
  {
    hide Drawn;
    var i: nat := 0;
    var horizontal := horizontalFirst;
    while i < sp
      invariant i <= sp && horizontal == ((i % 2 == 0) == horizontalFirst) && Drawn(c, p0, e0, legs, i)
    {
      if horizontal {
        LineLeg(c, s[i], 0.0, p0, e0, legs, i);
      } else {
        LineLeg(c, 0.0, s[i], p0, e0, legs, i);
      }
      horizontal := !horizontal;
      i := i + 1;
    }
  }

  method FullCurveLegs(c: Context, s: array<real>, sp: nat, end: int, ghost p0: Pen, ghost e0: seq<Emitted>,
                       ghost legs: seq<Leg>)
    returns (i: nat)
    requires sp <= s.Length && end <= sp && 0 <= end / 6 <= |legs| && legs[..end / 6] == FullCurves(s[..sp], end / 6)
    requires Drawn(c, p0, e0, legs, 0)
    modifies c, c.pvertices
    ensures i == 6 * (end / 6) && Drawn(c, p0, e0, legs, end / 6)
  {
    hide Drawn;
    i := 0;
    while i + 5 < end
      invariant i % 6 == 0 && i / 6 <= end / 6 && Drawn(c, p0, e0, legs, i / 6)
    {
      assert legs[i / 6] == legs[..end / 6][i / 6];
      CurveLeg(c, s[i], s[i + 1], s[i + 2], s[i + 3], s[i + 4], s[i + 5], p0, e0, legs, i / 6);
      i := i + 6;
    }
  }

  method AlternatingCurveLegs(c: Context, s: array<real>, sp: nat, horizontalFirst: bool,
                              ghost p0: Pen, ghost e0: seq<Emitted>, ghost legs: seq<Leg>)
    requires sp <= s.Length && legs == AlternatingCurves(s[..sp], horizontalFirst) && Drawn(c, p0, e0, legs, 0)
    modifies c, c.pvertices
    ensures Drawn(c, p0, e0, legs, |legs|)
  {
    hide Drawn;
    var i: nat := 0;
    var horizontal := horizontalFirst;
    while i + 3 < sp
      invariant i % 4 == 0 && i / 4 <= sp / 4 && horizontal == ((i / 4 % 2 == 0) == horizontalFirst)
      invariant Drawn(c, p0, e0, legs, i / 4)
    {
      assert legs[i / 4] == AlternatingCurve(s[..sp], horizontalFirst, i / 4);
      var extra := if sp - i == 5 then s[i + 4] else 0.0;
      if horizontal {
        CurveLeg(c, s[i], 0.0, s[i + 1], s[i + 2], extra, s[i + 3], p0, e0, legs, i / 4);
      } else {
        CurveLeg(c, 0.0, s[i], s[i + 1], s[i + 2], s[i + 3], extra, p0, e0, legs, i / 4);
      }
      horizontal := !horizontal;
      i := i + 4;
    }
  }

  method StraightCurveLegs(c: Context, s: array<real>, sp: nat, horizontal: bool,
                           ghost p0: Pen, ghost e0: seq<Emitted>, ghost legs: seq<Leg>)
    requires 4 <= sp <= s.Length && legs == StraightCurves(s[..sp], horizontal) && Drawn(c, p0, e0, legs, 0)
    modifies c, c.pvertices
    ensures Drawn(c, p0, e0, legs, |legs|)
  {
    hide Drawn;
    var i: nat := 0;
    var f := 0.0;
    if sp % 2 == 1 {
      f := s[i];
      i := i + 1;
    }
    ghost var k: nat := 0;
    while i + 3 < sp
      invariant i == sp % 2 + 4 * k && k <= |legs| && f == if k == 0 && sp % 2 == 1 then s[0] else 0.0
      invariant Drawn(c, p0, e0, legs, k)
    {
      assert legs[k] == StraightCurve(s[..sp], horizontal, k);
      if horizontal {
        CurveLeg(c, s[i], f, s[i + 1], s[i + 2], s[i + 3], 0.0, p0, e0, legs, k);
      } else {
        CurveLeg(c, f, s[i], s[i + 1], s[i + 2], 0.0, s[i + 3], p0, e0, legs, k);
      }
      f := 0.0;
      i := i + 4;
      k := k + 1;
    }
  }

  method FlexCurves(c: Context, op: Operator, s: array<real>, sp: nat, ghost p0: Pen, ghost e0: seq<Emitted>,
                    ghost legs: seq<Leg>)
    requires (op == HFlex || op == Flex || op == HFlex1 || op == Flex1) && Needs(op) <= sp <= s.Length
    requires legs == Legs(op, s[..sp]) && Drawn(c, p0, e0, legs, 0)
    modifies c, c.pvertices
    ensures |legs| == 2 && Drawn(c, p0, e0, legs, 2)
  {
    hide Drawn;
    match op
    case HFlex =>
      CurveLeg(c, s[0], 0.0, s[1], s[2], s[3], 0.0, p0, e0, legs, 0);
      CurveLeg(c, s[4], 0.0, s[5], -s[2], s[6], 0.0, p0, e0, legs, 1);
    case Flex =>
      CurveLeg(c, s[0], s[1], s[2], s[3], s[4], s[5], p0, e0, legs, 0);
      CurveLeg(c, s[6], s[7], s[8], s[9], s[10], s[11], p0, e0, legs, 1);
    case HFlex1 =>
      CurveLeg(c, s[0], s[1], s[2], s[3], s[4], 0.0, p0, e0, legs, 0);
      CurveLeg(c, s[5], 0.0, s[6], s[7], s[8], -(s[1] + s[3] + s[7]), p0, e0, legs, 1);
    case Flex1 =>
      var dx6, dy6 := s[10], s[10];
      var dx := s[0] + s[2] + s[4] + s[6] + s[8];
      var dy := s[1] + s[3] + s[5] + s[7] + s[9];
      if Abs(dx) > Abs(dy) {
        dy6 := -dy;
      } else {
        dx6 := -dx;
      }
      CurveLeg(c, s[0], s[1], s[2], s[3], s[4], s[5], p0, e0, legs, 0);
      CurveLeg(c, s[6], s[7], s[8], s[9], dx6, dy6, p0, e0, legs, 1);
  }

  method MixedLegs(c: Context, op: Operator, s: array<real>, sp: nat, ghost p0: Pen, ghost e0: seq<Emitted>,
                   ghost legs: seq<Leg>)
    requires (op == RCurveLine || op == RLineCurve) && 8 <= sp <= s.Length
    requires legs == Legs(op, s[..sp]) && Drawn(c, p0, e0, legs, 0)
    modifies c, c.pvertices
    ensures Drawn(c, p0, e0, legs, |legs|)
  {
    hide Drawn;
    if op == RCurveLine {
      assert legs[..(sp - 2) / 6] == FullCurves(s[..sp], (sp - 2) / 6);
      var i := FullCurveLegs(c, s, sp, sp - 2, p0, e0, legs);
      LineLeg(c, s[i], s[i + 1], p0, e0, legs, (sp - 2) / 6);
    } else {
      assert legs[..(sp - 6) / 2] == PairLines(s[..sp], (sp - 6) / 2);
      var i := PairLineLegs(c, s, sp, sp - 6, p0, e0, legs);
      CurveLeg(c, s[i], s[i + 1], s[i + 2], s[i + 3], s[i + 4], s[i + 5], p0, e0, legs, (sp - 6) / 2);
    }
  }

  // Draws what the operator means, from operands that are all on the stack.
  method DrawOperator(c: Context, op: Operator, s: array<real>, sp: nat)
    requires Needs(op) <= sp <= s.Length && c.Valid() && c.Room(|Draw(c.Position(), Legs(op, s[..sp])).out|)
    modifies c, c.pvertices
    ensures c.Valid() && c.Position() == Draw(old(c.Position()), Legs(op, s[..sp])).pen
    ensures c.emitted == old(c.emitted) + Draw(old(c.Position()), Legs(op, s[..sp])).out
  {
    hide Drawn, Draw, Context.Valid, Context.Room, Abs, PairLines, FullCurves, AlternatingLines, AlternatingCurves,
      StraightCurves;
    ghost var p0, e0, legs := c.Position(), c.emitted, Legs(op, s[..sp]);
    DrawnNone(c, legs);
    match op {
      case RMoveTo => MoveLeg(c, s[sp - 2], s[sp - 1], p0, e0, legs);
      case VMoveTo => MoveLeg(c, 0.0, s[sp - 1], p0, e0, legs);
      case HMoveTo => MoveLeg(c, s[sp - 1], 0.0, p0, e0, legs);
      case RLineTo =>
        assert legs[..sp / 2] == legs;
        var i := PairLineLegs(c, s, sp, sp, p0, e0, legs);
      case HLineTo => AlternatingLineLegs(c, s, sp, true, p0, e0, legs);
      case VLineTo => AlternatingLineLegs(c, s, sp, false, p0, e0, legs);
      case RRCurveTo =>
        assert legs[..sp / 6] == legs;
        var i := FullCurveLegs(c, s, sp, sp, p0, e0, legs);
      case HVCurveTo => AlternatingCurveLegs(c, s, sp, true, p0, e0, legs);
      case VHCurveTo => AlternatingCurveLegs(c, s, sp, false, p0, e0, legs);
      case VVCurveTo => StraightCurveLegs(c, s, sp, false, p0, e0, legs);
      case HHCurveTo => StraightCurveLegs(c, s, sp, true, p0, e0, legs);
      case RCurveLine => MixedLegs(c, op, s, sp, p0, e0, legs);
      case RLineCurve => MixedLegs(c, op, s, sp, p0, e0, legs);
      case _ => FlexCurves(c, op, s, sp, p0, e0, legs);
    }
    DrawnAll(c, p0, e0, legs);
  }
}
