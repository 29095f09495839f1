/**
 * Writing glyphs as Type 2 charstrings, operands and operators. The source only reads;
   that a run draws what was written says what
 * the bytes mean.
 */
module CharstringWriter {
  import opened Wrappers
  import Outline
  import opened GlyphPath
  import opened GlyphOperators
  import opened Charstring

  // ---------- operands ----------

  // A whole number, or a number of 65536ths.
  datatype Operand = Whole(v: int) | Fixed(n: int)

  predicate GoodOperand(o: Operand) {
    match o
    case Whole(v) => -0x8000 <= v < 0x8000
    case Fixed(n) => -0x8000_0000 <= n < 0x8000_0000
  }

  function ValueOf(o: Operand): real {
    match o
    case Whole(v) => v as real
    case Fixed(n) => n as real / 65536.0
  }

  // One to three bytes for a whole number, five for a fraction.
  function OperandBytes(o: Operand): (s: seq<Octet>)
    requires GoodOperand(o)
    ensures 1 <= |s| <= 5
  {
    match o
    case Whole(v) =>
      if -107 <= v <= 107 then [v + 139]
      else if 108 <= v <= 1131 then [(v - 108) / 256 + 247, (v - 108) % 256]
      else if -1131 <= v <= -108 then [(-v - 108) / 256 + 251, (-v - 108) % 256]
      else (var u := v % 0x1_0000; [28, u / 256, u % 256])
    case Fixed(n) =>
      var u := n % 0x1_0000_0000;
      [255, u / 0x100_0000, u / 0x1_0000 % 256, u / 256 % 256, u % 256]
  }

  // ---------- operators ----------

  function OperatorBytes(op: Operator): (s: seq<Octet>)
    ensures 1 <= |s| <= 2
  {
    match op
    case RMoveTo => [21]
    case HMoveTo => [22]
    case VMoveTo => [4]
    case RLineTo => [5]
    case HLineTo => [6]
    case VLineTo => [7]
    case RRCurveTo => [8]
    case RCurveLine => [24]
    case RLineCurve => [25]
    case VVCurveTo => [26]
    case HHCurveTo => [27]
    case VHCurveTo => [30]
    case HVCurveTo => [31]
    case HFlex => [12, 34]
    case Flex => [12, 35]
    case HFlex1 => [12, 36]
    case Flex1 => [12, 37]
  }

  // How many operands it takes at least.
  function Required(op: Operator): nat {
    match op
    case RMoveTo | RLineTo => 2
    case HMoveTo | VMoveTo | HLineTo | VLineTo => 1
    case VVCurveTo | HHCurveTo | VHCurveTo | HVCurveTo => 4
    case RRCurveTo => 6
    case RCurveLine | RLineCurve => 8
    case HFlex => 7
    case HFlex1 => 9
    case Flex1 => 11
    case Flex => 13
  }

  lemma NeedsIs(op: Operator)
    ensures Needs(op) == Required(op)
  {}

  datatype Drawn = Drawn(op: Operator, operands: seq<Operand>)

  // As many operands as the operator needs and the stack can take.
  predicate GoodDrawn(d: Drawn) {
    Required(d.op) <= |d.operands| <= 48 && forall i | 0 <= i < |d.operands| :: GoodOperand(d.operands[i])
  }

  function Values(os: seq<Operand>): (rs: seq<real>)
    ensures |rs| == |os|
  {
    seq(|os|, i requires 0 <= i < |os| => ValueOf(os[i]))
  }

  function OperandsBytes(os: seq<Operand>): seq<Octet>
    requires forall i | 0 <= i < |os| :: GoodOperand(os[i])
  {
    if os == [] then [] else OperandBytes(os[0]) + OperandsBytes(os[1..])
  }

  // The charstring of a glyph, with the byte that ends it.
  function CharstringBytes(ds: seq<Drawn>): seq<Octet>
    requires forall i | 0 <= i < |ds| :: GoodDrawn(ds[i])
  {
    if ds == [] then [14]
    else
      assert GoodDrawn(ds[0]);
      OperandsBytes(ds[0].operands) + OperatorBytes(ds[0].op) + CharstringBytes(ds[1..])
  }

  // What it draws from a pen, with the last contour closed.
  function DrawnFrom(pen: Pen, ds: seq<Drawn>): seq<Emitted>
    requires forall i | 0 <= i < |ds| :: GoodDrawn(ds[i])
    decreases |ds|
  {
    if ds == [] then Closed(pen)
    else
      assert GoodDrawn(ds[0]);
      NeedsIs(ds[0].op);
      var d := Draw(pen, Legs(ds[0].op, Values(ds[0].operands)));
      d.out + DrawnFrom(d.pen, ds[1..])
  }

  // ---------- running what was written ----------

  // These bytes come next.
  predicate Ahead(b: Buf, s: seq<Octet>) {
    b.cursor + |s| <= |b.data| && b.data[b.cursor..b.cursor + |s|] == s
  }

  lemma AheadParts(b: Buf, s: seq<Octet>, t: seq<Octet>)
    requires Ahead(b, s + t)
    ensures Ahead(b, s) && Ahead(b.(cursor := b.cursor + |s|), t)
  {
    var all := b.data[b.cursor..b.cursor + |s + t|];
    assert b.data[b.cursor..b.cursor + |s|] == all[..|s|] == s;
    assert b.data[b.cursor + |s|..b.cursor + |s| + |t|] == all[|s|..] == t;
  }

  lemma ByteAhead(b: Buf, s: seq<Octet>, i: nat)
    requires Ahead(b, s) && i < |s|
    ensures b.data[b.cursor + i] == s[i]
  {
    assert b.data[b.cursor..b.cursor + |s|][i] == s[i];
  }

  lemma ReadOn(b: Buf, s: seq<Octet>, i: nat)
    requires Ahead(b, s) && i < |s|
    ensures var at := b.(cursor := b.cursor + i); Peek(at) == s[i] && After(at) == b.(cursor := b.cursor + i + 1)
  {
    ByteAhead(b, s, i);
  }

  lemma NumberRead(b: Buf, o: Operand)
    requires GoodOperand(o) && Ahead(b, OperandBytes(o))
    ensures var s := OperandBytes(o);
      Number(s[0], b.(cursor := b.cursor + 1)) == (ValueOf(o), b.(cursor := b.cursor + |s|))
  {
    hide Peek, After, Outline.Short, Ahead;
    var s := OperandBytes(o);
    if |s| > 1 { ReadOn(b, s, 1); }
    if |s| > 2 { ReadOn(b, s, 2); }
    if |s| > 3 {
      ReadOn(b, s, 3);
      ReadOn(b, s, 4);
    }
    if o.Fixed? {
      FourBytes(o.n, o.n % 0x1_0000_0000);
    } else if -1131 <= o.v <= 1131 {
      SmallKept(o.v);
    } else {
      TwoBytes(o.v, o.v % 0x1_0000);
    }
  }

  lemma SmallKept(v: int)
    requires -1131 <= v <= 1131
    ensures Outline.Short(v) == v
    ensures v >= 108 ==> (v - 108) / 256 * 256 + (v - 108) % 256 + 108 == v
    ensures v <= -108 ==> -((-v - 108) / 256) * 256 - (-v - 108) % 256 - 108 == v
  {}

  lemma TwoBytes(v: int, u: int)
    requires -0x8000 <= v < 0x8000 && u == v % 0x1_0000
    ensures Outline.Short(u / 256 * 256 + u % 256) == v
  {
    assert u / 256 * 256 + u % 256 == u;
  }

  lemma FourBytes(n: int, u: int)
    requires -0x8000_0000 <= n < 0x8000_0000 && u == n % 0x1_0000_0000
    ensures ((u / 0x100_0000 * 256 + u / 0x1_0000 % 256) * 256 + u / 256 % 256) * 256 + u % 256 == u
    ensures (if u >= 0x8000_0000 then u - 0x1_0000_0000 else u) == n
  {}

  // The operand is pushed.
  lemma OperandStep(font: Font, m: Machine, o: Operand)
    requires Sane(m) && |m.stack| < 48 && GoodOperand(o) && Ahead(m.b, OperandBytes(o))
    ensures Step(font, m)
         == Next(m.(b := m.b.(cursor := m.b.cursor + |OperandBytes(o)|), stack := m.stack + [ValueOf(o)]), [])
  {
    hide Number;
    ByteAhead(m.b, OperandBytes(o), 0);
    NumberRead(m.b, o);
  }

  lemma OperatorKnown(op: Operator)
    ensures var s := OperatorBytes(op);
      if |s| == 2 then s[0] == 12 && EscapeOf(s[1]) == Some(op)
      else OperatorOf(s[0]) == Some(op) && s[0] < 32
           && s[0] !in {1, 3, 10, 11, 12, 14, 18, 19, 20, 23, 28, 29}
  {}

  // The operator draws its legs and clears the stack.
  lemma OperatorStep(font: Font, m: Machine, op: Operator)
    requires Sane(m) && Needs(op) <= |m.stack| && Ahead(m.b, OperatorBytes(op))
    ensures var d, step := Draw(m.pen, Legs(op, m.stack)), Step(font, m);
      && step.Next? && step.out == d.out && step.m.pen == d.pen && step.m.stack == []
      && step.m.b == m.b.(cursor := m.b.cursor + |OperatorBytes(op)|) && step.m.calls == m.calls
  {
    hide Number, Draw, Legs, Needs, OperatorOf, EscapeOf, OperatorBytes;
    OperatorKnown(op);
    ByteAhead(m.b, OperatorBytes(op), 0);
    if |OperatorBytes(op)| == 2 { ByteAhead(m.b, OperatorBytes(op), 1); }
  }

  lemma EndStep(font: Font, m: Machine)
    requires Sane(m) && Ahead(m.b, [14])
    ensures Step(font, m) == Done(true, Closed(m.pen))
  {
    hide Number, Draw, Legs, Needs;
    ByteAhead(m.b, [14], 0);
  }

  lemma RunUnfolds(font: Font, m: Machine)
    requires Sane(m)
    ensures Step(font, m).Done? ==> Run(font, m) == Result(Step(font, m).ok, Step(font, m).out)
    ensures Step(font, m).Next? ==>
      var n := Step(font, m);
      Sane(n.m) && Run(font, m) == Result(Run(font, n.m).ok, n.out + Run(font, n.m).out)
  {
    hide Step;
    if Step(font, m).Next? { StepKeeps(font, m); }
  }

  // All operands of an operator.
  lemma {:induction false} OperandsRun(font: Font, m: Machine, os: seq<Operand>)
    requires Sane(m) && |m.stack| + |os| <= 48 && (forall i | 0 <= i < |os| :: GoodOperand(os[i]))
    requires Ahead(m.b, OperandsBytes(os))
    ensures var n := m.(b := m.b.(cursor := m.b.cursor + |OperandsBytes(os)|), stack := m.stack + Values(os));
      Sane(n) && Run(font, n) == Run(font, m)
    decreases |os|
  {
    hide Run, Step, OperandBytes, GoodOperand, ValueOf;
    if os == [] {
      assert m.stack + Values(os) == m.stack;
    } else {
      AheadParts(m.b, OperandBytes(os[0]), OperandsBytes(os[1..]));
      OperandStep(font, m, os[0]);
      RunUnfolds(font, m);
      var n := Step(font, m).m;
      OperandsRun(font, n, os[1..]);
      assert Values(os) == [ValueOf(os[0])] + Values(os[1..]);
      assert m.stack + Values(os) == n.stack + Values(os[1..]);
      assert [] + Run(font, n).out == Run(font, n).out;
    }
  }

  // A charstring that was written draws what it was written for.
  lemma {:induction false} RunDraws(font: Font, m: Machine, ds: seq<Drawn>)
    requires Sane(m) && m.stack == [] && (forall i | 0 <= i < |ds| :: GoodDrawn(ds[i]))
      && Ahead(m.b, CharstringBytes(ds))
    ensures Run(font, m) == Result(true, DrawnFrom(m.pen, ds))
    decreases |ds|
  {
    hide Run, Step, OperandsBytes, OperatorBytes, Needs, Required, Legs, Draw, Values, Closed, Ahead, Sane,
      GoodOperand;
    if ds == [] {
      EndStep(font, m);
      RunUnfolds(font, m);
    } else {
      var d, os := ds[0], OperandsBytes(ds[0].operands);
      assert GoodDrawn(d);
      NeedsIs(d.op);
      assert os + OperatorBytes(d.op) + CharstringBytes(ds[1..])
        == os + (OperatorBytes(d.op) + CharstringBytes(ds[1..]));
      AheadParts(m.b, os, OperatorBytes(d.op) + CharstringBytes(ds[1..]));
      OperandsRun(font, m, d.operands);
      assert m.stack + Values(d.operands) == Values(d.operands);
      var n := m.(b := m.b.(cursor := m.b.cursor + |os|), stack := Values(d.operands));
      AheadParts(n.b, OperatorBytes(d.op), CharstringBytes(ds[1..]));
      OperatorStep(font, n, d.op);
      RunUnfolds(font, n);
      RunDraws(font, Step(font, n).m, ds[1..]);
    }
  }

  // A glyph of the font.
  lemma GlyphDraws(font: Font, glyph: nat, ds: seq<Drawn>, after: seq<Octet>)
    requires glyph < |font.charstrings| && forall i | 0 <= i < |ds| :: GoodDrawn(ds[i])
    requires font.charstrings[glyph] == CharstringBytes(ds) + after
    ensures Run(font, Start(font, glyph)) == Result(true, DrawnFrom(Pen(0.0, 0.0, 0.0, 0.0), ds))
  {
    hide Run;
    RunDraws(font, Start(font, glyph), ds);
  }

  // ---------- subroutines ----------

  // What is taken off the number of a subroutine when there are few, more or many.
  function Excess(count: nat): nat {
    if count < 1240 then 107 else if count < 33900 then 1131 else 32768
  }

  // With fewer than ten calls open, subroutine k is entered by its number less the excess: byte 10 for a local, 29 for
  // a global one.
  lemma SubroutineEntered(font: Font, m: Machine, k: nat, subrs: seq<seq<Octet>>)
    requires Sane(m) && |m.calls| < 10 && m.stack != [] && k < |subrs| && subrs[k] != []
    requires m.stack[|m.stack| - 1] == (k - Excess(|subrs|)) as real
    requires (subrs == font.localSubrs && Ahead(m.b, [10])) || (subrs == font.globalSubrs && Ahead(m.b, [29]))
    ensures var n := m.b.(cursor := m.b.cursor + 1);
      Step(font, m) == Next(m.(b := Buf(subrs[k], 0), calls := m.calls + [n], stack := m.stack[..|m.stack| - 1]), [])
  {
    hide Number, Draw, Legs, Needs;
    ByteAhead(m.b, if Ahead(m.b, [10]) then [10] else [29], 0);
  }

  // ---------- limits ----------

  // Forty-eight operands and ten calls are the most; one more stops the run.
  lemma LimitsStop(font: Font, m: Machine)
    requires Sane(m) && m.b.cursor < |m.b.data|
    ensures |m.stack| == 48 && (m.b.data[m.b.cursor] == 28 || m.b.data[m.b.cursor] >= 32) ==>
      Step(font, m) == Done(false, [])
    ensures |m.calls| == 10 && (m.b.data[m.b.cursor] == 10 || m.b.data[m.b.cursor] == 29) ==>
      Step(font, m) == Done(false, [])
  {
    hide Number, Draw, Legs, Needs, Subroutine, Trunc;
  }

  // How many operands an operator takes at least; with fewer the run stops.
  lemma OperandsNeeded(font: Font, m: Machine, op: Operator)
    requires Sane(m) && Ahead(m.b, OperatorBytes(op))
    requires |m.stack| < Required(op)
    ensures Step(font, m) == Done(false, [])
  {
    hide Number, Draw, Legs, Needs, Required, OperatorOf, EscapeOf, OperatorBytes;
    NeedsIs(op);
    OperatorKnown(op);
    ByteAhead(m.b, OperatorBytes(op), 0);
    if |OperatorBytes(op)| == 2 { ByteAhead(m.b, OperatorBytes(op), 1); }
  }
}
