/**
 * The short forms of drawing operators in the Type 2 charstring format,
   and the general forms they stand for: relative lines and
 * curves with all operands written out.
 */
module OperatorForms {
  import opened GlyphPath
  import opened GlyphOperators

  // ---------- lines ----------

  // One operand for a line, across and up by turns.
  function LinesOut(s: seq<real>, across: bool): seq<real> {
    if s == [] then [] else (if across then [s[0], 0.0] else [0.0, s[0]]) + LinesOut(s[1..], !across)
  }

  lemma {:induction false} LineOut(s: seq<real>, across: bool, k: nat)
    requires k < |s|
    ensures var t := LinesOut(s, across);
      |t| == 2 * |s| && LineBy(t[2 * k], t[2 * k + 1])
                        == if (k % 2 == 0) == across then LineBy(s[k], 0.0) else LineBy(0.0, s[k])
  {
    LinesOutLength(s, across);
    if k > 0 { LineOut(s[1..], !across, k - 1); }
  }

  lemma {:induction false} LinesOutLength(s: seq<real>, across: bool)
    ensures |LinesOut(s, across)| == 2 * |s|
  {
    if s != [] { LinesOutLength(s[1..], !across); }
  }

  lemma TurningLines(s: seq<real>, across: bool)
    ensures |LinesOut(s, across)| == 2 * |s| && AlternatingLines(s, across) == PairLines(LinesOut(s, across), |s|)
  {
    hide LinesOut;
    LinesOutLength(s, across);
    forall k: nat | k < |s| ensures AlternatingLines(s, across)[k] == PairLines(LinesOut(s, across), |s|)[k] {
      LineOut(s, across, k);
    }
  }

  // hlineto and vlineto draw what rlineto draws with the zeros written out.
  lemma AlternatingLinesAreLines(s: seq<real>)
    requires |s| >= 1
    ensures |LinesOut(s, true)| >= 2 && Legs(HLineTo, s) == Legs(RLineTo, LinesOut(s, true))
    ensures |LinesOut(s, false)| >= 2 && Legs(VLineTo, s) == Legs(RLineTo, LinesOut(s, false))
  {
    hide LinesOut, AlternatingLines, PairLines;
    TurningLines(s, true);
    TurningLines(s, false);
  }

  // ---------- curves ----------

  // Six operands more before the others.
  lemma SixBefore(a: seq<real>, t: seq<real>, i: nat)
    requires |a| == 6 && i + 5 < |t|
    ensures FullCurve(a + t, i + 6) == FullCurve(t, i)
  {}

  // Four operands for a curve that starts across and ends up, or the other way round, by turns; a fifth one slants the
  // last end.
  function TurningOut(s: seq<real>, across: bool): seq<real> {
    if |s| < 4 then []
    else
      var slant := if |s| == 5 then s[4] else 0.0;
      (if across then [s[0], 0.0, s[1], s[2], slant, s[3]] else [0.0, s[0], s[1], s[2], s[3], slant])
      + TurningOut(s[4..], !across)
  }

  lemma {:induction false} TurningOutLength(s: seq<real>, across: bool)
    ensures |TurningOut(s, across)| == 6 * (|s| / 4)
    decreases |s|
  {
    if |s| >= 4 { TurningOutLength(s[4..], !across); }
  }

  lemma {:induction false} CurveOut(s: seq<real>, across: bool, k: nat)
    requires 4 * k + 3 < |s|
    ensures |TurningOut(s, across)| == 6 * (|s| / 4)
    ensures FullCurve(TurningOut(s, across), 6 * k) == AlternatingCurve(s, across, k)
    decreases |s|
  {
    hide FullCurve, AlternatingCurve;
    TurningOutLength(s, across);
    TurningOutIs(s, across);
    if k > 0 {
      CurveOut(s[4..], !across, k - 1);
      SixBefore(TurningOut(s, across)[..6], TurningOut(s[4..], !across), 6 * (k - 1));
      LaterCurve(s, across, k);
    }
  }

  lemma TurningOutIs(s: seq<real>, across: bool)
    requires |s| >= 4
    ensures var t := TurningOut(s, across);
      |t| >= 6 && t == t[..6] + TurningOut(s[4..], !across) && FullCurve(t, 0) == AlternatingCurve(s, across, 0)
  {}

  lemma LaterCurve(s: seq<real>, across: bool, k: nat)
    requires k > 0 && 4 * k + 3 < |s|
    ensures AlternatingCurve(s, across, k) == AlternatingCurve(s[4..], !across, k - 1)
  {}

  lemma TurningCurves(s: seq<real>, across: bool)
    ensures |TurningOut(s, across)| == 6 * (|s| / 4)
    ensures AlternatingCurves(s, across) == FullCurves(TurningOut(s, across), |s| / 4)
  {
    hide TurningOut, FullCurve, AlternatingCurve;
    TurningOutLength(s, across);
    forall k: nat | k < |s| / 4
      ensures AlternatingCurves(s, across)[k] == FullCurves(TurningOut(s, across), |s| / 4)[k]
    {
      CurveOut(s, across, k);
    }
  }

  // hvcurveto and vhcurveto draw what rrcurveto draws with everything written out.
  lemma TurningCurvesAreCurves(s: seq<real>)
    requires |s| >= 4
    ensures |TurningOut(s, true)| >= 6 && Legs(HVCurveTo, s) == Legs(RRCurveTo, TurningOut(s, true))
    ensures |TurningOut(s, false)| >= 6 && Legs(VHCurveTo, s) == Legs(RRCurveTo, TurningOut(s, false))
  {
    hide TurningOut, AlternatingCurves, FullCurves;
    TurningCurves(s, true);
    TurningCurves(s, false);
  }

  // Four operands for a curve that starts and ends across, or starts and ends up; `slant` turns the first start.
  function LevelOut(s: seq<real>, across: bool, slant: real): seq<real> {
    if |s| < 4 then []
    else
      (if across then [s[0], slant, s[1], s[2], s[3], 0.0] else [slant, s[0], s[1], s[2], 0.0, s[3]])
      + LevelOut(s[4..], across, 0.0)
  }

  lemma {:induction false} LevelOutLength(s: seq<real>, across: bool, slant: real)
    ensures |LevelOut(s, across, slant)| == 6 * (|s| / 4)
    decreases |s|
  {
    if |s| >= 4 { LevelOutLength(s[4..], across, 0.0); }
  }

  function LevelCurve(s: seq<real>, across: bool, slant: real, k: nat): Leg
    requires 4 * k + 3 < |s|
  {
    var i, f := 4 * k, if k == 0 then slant else 0.0;
    if across then CurveBy(s[i], f, s[i + 1], s[i + 2], s[i + 3], 0.0) else CurveBy(f, s[i], s[i + 1], s[i + 2], 0.0,
      s[i + 3])
  }

  lemma {:induction false} LevelCurveOut(s: seq<real>, across: bool, slant: real, k: nat)
    requires 4 * k + 3 < |s|
    ensures |LevelOut(s, across, slant)| == 6 * (|s| / 4)
    ensures FullCurve(LevelOut(s, across, slant), 6 * k) == LevelCurve(s, across, slant, k)
    decreases |s|
  {
    hide FullCurve, LevelCurve;
    LevelOutLength(s, across, slant);
    LevelOutIs(s, across, slant);
    if k > 0 {
      LevelCurveOut(s[4..], across, 0.0, k - 1);
      SixBefore(LevelOut(s, across, slant)[..6], LevelOut(s[4..], across, 0.0), 6 * (k - 1));
      LaterLevelCurve(s, across, slant, k);
    }
  }

  lemma LevelOutIs(s: seq<real>, across: bool, slant: real)
    requires |s| >= 4
    ensures var t := LevelOut(s, across, slant);
      |t| >= 6 && t == t[..6] + LevelOut(s[4..], across, 0.0) && FullCurve(t, 0) == LevelCurve(s, across, slant, 0)
  {}

  lemma LaterLevelCurve(s: seq<real>, across: bool, slant: real, k: nat)
    requires k > 0 && 4 * k + 3 < |s|
    ensures LevelCurve(s, across, slant, k) == LevelCurve(s[4..], across, 0.0, k - 1)
  {}

  // An odd operand at the front slants the first curve.
  predicate Parted(s: seq<real>, slant: real, rest: seq<real>) {
    if |s| % 2 == 1 then s == [slant] + rest else slant == 0.0 && s == rest
  }

  lemma LevelCurves(s: seq<real>, across: bool, slant: real, rest: seq<real>)
    requires Parted(s, slant, rest)
    ensures |LevelOut(rest, across, slant)| == 6 * (|rest| / 4)
    ensures StraightCurves(s, across) == FullCurves(LevelOut(rest, across, slant), |rest| / 4)
  {
    hide LevelOut, FullCurve, StraightCurve, Parted;
    LevelOutLength(rest, across, slant);
    PartedLength(s, slant, rest);
    forall k: nat | k < |rest| / 4
      ensures StraightCurves(s, across)[k] == FullCurves(LevelOut(rest, across, slant), |rest| / 4)[k]
    {
      Within(|rest|, k);
      LevelCurveOut(rest, across, slant, k);
      SameCurve(s, across, slant, rest, k);
    }
  }

  lemma Within(n: nat, k: nat)
    requires k < n / 4
    ensures 4 * k + 3 < n
  {}

  lemma PartedLength(s: seq<real>, slant: real, rest: seq<real>)
    requires Parted(s, slant, rest)
    ensures |rest| == |s| - |s| % 2
  {}

  lemma SameCurve(s: seq<real>, across: bool, slant: real, rest: seq<real>, k: nat)
    requires Parted(s, slant, rest) && 4 * k + 3 < |rest|
    ensures |s| % 2 + 4 * k + 3 < |s| && StraightCurve(s, across, k) == LevelCurve(rest, across, slant, k)
  {
    var o := |s| % 2;
    PartedLength(s, slant, rest);
    forall i | 0 <= i < |rest| ensures s[o + i] == rest[i] {}
  }

  // hhcurveto and vvcurveto draw what rrcurveto draws with everything written out.
  lemma LevelCurvesAreCurves(s: seq<real>, slant: real, rest: seq<real>)
    requires |s| >= 4 && Parted(s, slant, rest)
    ensures |LevelOut(rest, true, slant)| >= 6 && Legs(HHCurveTo, s) == Legs(RRCurveTo, LevelOut(rest, true, slant))
    ensures |LevelOut(rest, false, slant)| >= 6 && Legs(VVCurveTo, s) == Legs(RRCurveTo, LevelOut(rest, false, slant))
  {
    hide LevelOut, StraightCurves, FullCurves, Parted;
    PartedLength(s, slant, rest);
    LevelCurves(s, true, slant, rest);
    LevelCurves(s, false, slant, rest);
  }
}
