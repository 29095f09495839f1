/**
 * The Type 2 charstring interpreter: a stack machine with subroutines, run once to count vertices and once to store
 * them.
 */
module Charstring {
  import opened Wrappers
  import opened Outline
  import opened GlyphPath
  import opened GlyphOperators

  type Octet = x: int | 0 <= x < 256

  datatype Buf = Buf(data: seq<Octet>, cursor: nat)

  predicate InBuf(b: Buf) {
    b.cursor <= |b.data|
  }

  function Remaining(b: Buf): nat {
    if b.cursor <= |b.data| then |b.data| - b.cursor else 0
  }

  // Reading past the end gives 0 and stays there.
  function Peek(b: Buf): Octet {
    if b.cursor < |b.data| then b.data[b.cursor] else 0
  }

  function After(b: Buf): (b': Buf)
    requires InBuf(b)
    ensures InBuf(b') && b'.data == b.data && b.cursor <= b'.cursor
  {
    if b.cursor < |b.data| then b.(cursor := b.cursor + 1) else b
  }

  function Skip(b: Buf, o: int): (b': Buf)
    ensures InBuf(b') && b'.data == b.data
  {
    if 0 <= b.cursor + o <= |b.data| then b.(cursor := b.cursor + o) else b.(cursor := |b.data|)
  }

  // The INDEX tables of the font, as lists of byte strings; invalid entries are empty.
  datatype Font = Font(charstrings: seq<seq<Octet>>, globalSubrs: seq<seq<Octet>>, localSubrs: seq<seq<Octet>>)

  // Subroutine numbers are biased by an amount that depends on how many there are.
  function Bias(count: nat): nat {
    if count >= 33900 then 32768 else if count >= 1240 then 1131 else 107
  }

  function Subroutine(subrs: seq<seq<Octet>>, n: int): seq<Octet> {
    var k := n + Bias(|subrs|);
    if 0 <= k < |subrs| then subrs[k] else []
  }

  // ---------- numbers ----------

  // The operand that starts with byte b0, read just before b, and where it ends.
  function Number(b0: Octet, b: Buf): (real, Buf)
    requires InBuf(b)
  {
    var b1 := After(b);
    if b0 == 255 then
      var b2, b3 := After(b1), After(After(b1));
      var u := ((Peek(b) * 256 + Peek(b1)) * 256 + Peek(b2)) * 256 + Peek(b3);
      ((if u >= 0x8000_0000 then u - 0x1_0000_0000 else u) as real / 65536.0, After(b3))
    else if b0 == 28 then (Short(Peek(b) * 256 + Peek(b1)) as real, After(b1))
    else if b0 <= 246 then (Short(b0 - 139) as real, b)
    else if b0 <= 250 then (Short((b0 - 247) * 256 + Peek(b) + 108) as real, b1)
    else (Short(-(b0 - 251) * 256 - Peek(b) - 108) as real, b1)
  }

  lemma NumberAdvances(b0: Octet, b: Buf)
    requires InBuf(b)
    ensures var b' := Number(b0, b).1; InBuf(b') && b'.data == b.data && b.cursor <= b'.cursor
  {}

  // ---------- the machine ----------

  const STACK_LIMIT := 48
  const CALL_LIMIT := 10

  datatype Machine = Machine(b: Buf, calls: seq<Buf>, stack: seq<real>, inHeader: bool, maskbits: nat, pen: Pen)

  datatype Outcome = Next(m: Machine, out: seq<Emitted>) | Done(ok: bool, out: seq<Emitted>)

  function OperatorOf(b0: Octet): Option<Operator> {
    match b0
    case 0x15 => Some(RMoveTo)
    case 0x04 => Some(VMoveTo)
    case 0x16 => Some(HMoveTo)
    case 0x05 => Some(RLineTo)
    case 0x06 => Some(HLineTo)
    case 0x07 => Some(VLineTo)
    case 0x08 => Some(RRCurveTo)
    case 0x18 => Some(RCurveLine)
    case 0x19 => Some(RLineCurve)
    case 0x1A => Some(VVCurveTo)
    case 0x1B => Some(HHCurveTo)
    case 0x1E => Some(VHCurveTo)
    case 0x1F => Some(HVCurveTo)
    case _ => None
  }

  function EscapeOf(b1: Octet): Option<Operator> {
    match b1
    case 0x22 => Some(HFlex)
    case 0x23 => Some(Flex)
    case 0x24 => Some(HFlex1)
    case 0x25 => Some(Flex1)
    case _ => None
  }

  predicate IsMove(op: Operator) {
    op == RMoveTo || op == VMoveTo || op == HMoveTo
  }

  function DrawingStep(m: Machine, op: Operator): Outcome {
    if |m.stack| < Needs(op) then Done(false, [])
    else
      var d := Draw(m.pen, Legs(op, m.stack));
      Next(m.(stack := [], pen := d.pen, inHeader := m.inHeader && !IsMove(op)), d.out)
  }

  function CallStep(m: Machine, subrs: seq<seq<Octet>>): Outcome {
    if m.stack == [] then Done(false, [])
    else
      var sub := Subroutine(subrs, Trunc(m.stack[|m.stack| - 1]));
      if |m.calls| >= CALL_LIMIT || sub == [] then Done(false, [])
      else Next(m.(b := Buf(sub, 0), calls := m.calls + [m.b], stack := m.stack[..|m.stack| - 1]), [])
  }

  function ReturnStep(m: Machine): Outcome {
    if m.calls == [] then Done(false, [])
    else Next(m.(b := m.calls[|m.calls| - 1], calls := m.calls[..|m.calls| - 1]), [])
  }

  function PushStep(m: Machine, b0: Octet): Outcome
    requires InBuf(m.b)
  {
    var (f, b) := Number(b0, m.b);
    if |m.stack| >= STACK_LIMIT then Done(false, []) else Next(m.(b := b, stack := m.stack + [f]), [])
  }

  function MaskStep(m: Machine): Outcome {
    var bits := if m.inHeader then m.maskbits + |m.stack| / 2 else m.maskbits;
    Next(m.(b := Skip(m.b, (bits + 7) / 8), maskbits := bits, inHeader := false, stack := []), [])
  }

  // What operator byte b0 does, when m has already read it.
  function Dispatch(font: Font, m: Machine, b0: Octet): Outcome
    requires InBuf(m.b)
  {
    if b0 == 0x13 || b0 == 0x14 then MaskStep(m)
    else if b0 == 0x01 || b0 == 0x03 || b0 == 0x12 || b0 == 0x17 then
      Next(m.(maskbits := m.maskbits + |m.stack| / 2, stack := []), [])
    else if b0 == 0x0A then CallStep(m, font.localSubrs)
    else if b0 == 0x1D then CallStep(m, font.globalSubrs)
    else if b0 == 0x0B then ReturnStep(m)
    else if b0 == 0x0E then Done(true, Closed(m.pen))
    else if b0 == 0x0C then
      match EscapeOf(Peek(m.b))
      case None => Done(false, [])
      case Some(op) => DrawingStep(m.(b := After(m.b)), op)
    else
      match OperatorOf(b0)
      case Some(op) => DrawingStep(m, op)
      case None => if b0 != 255 && b0 != 28 && b0 < 32 then Done(false, []) else PushStep(m, b0)
  }

  // Running off the end of a charstring or subroutine is an error.
  function Step(font: Font, m: Machine): Outcome
    requires InBuf(m.b)
  {
    if m.b.cursor >= |m.b.data| then Done(false, []) else Dispatch(font, m.(b := After(m.b)), m.b.data[m.b.cursor])
  }

  // ---------- every run ends ----------

  predicate Sane(m: Machine) {
    InBuf(m.b) && |m.calls| <= CALL_LIMIT && |m.stack| <= STACK_LIMIT
      && forall i | 0 <= i < |m.calls| :: InBuf(m.calls[i])
  }

  // Bytes left at each level of calls, plus one for the level itself.
  function Level(m: Machine, k: nat): nat {
    if k < |m.calls| then 1 + Remaining(m.calls[k]) else if k == |m.calls| then 1 + Remaining(m.b) else 0
  }

  // A step keeps the stack and the calls within their limits, and the levels fall lexicographically.
  lemma StepKeeps(font: Font, m: Machine)
    requires Sane(m) && Step(font, m).Next?
    ensures var m' := Step(font, m).m;
      && Sane(m')
      && (forall k: nat | k < |m.calls| :: Level(m', k) == Level(m, k)) && Level(m', |m.calls|) < Level(m, |m.calls|)
  {
    hide Draw, Legs, Needs, OperatorOf, EscapeOf, Number, Trunc, Subroutine, IsMove, Closed;
    NumberAdvances(m.b.data[m.b.cursor], After(m.b));
  }

  datatype Result = Result(ok: bool, out: seq<Emitted>)

  // The run from m to its end: the verdict and everything drawn on the way.
  function Run(font: Font, m: Machine): Result
    requires Sane(m)
    decreases Level(m, 0), Level(m, 1), Level(m, 2), Level(m, 3), Level(m, 4), Level(m, 5),
              Level(m, 6), Level(m, 7), Level(m, 8), Level(m, 9), Level(m, 10)
  {
    match Step(font, m)
    case Done(ok, out) => Result(ok, out)
    case Next(m', out) =>
      StepKeeps(font, m);
      var rest := Run(font, m');
      Result(rest.ok, out + rest.out)
  }

  function Start(font: Font, glyph: nat): (m: Machine)
    requires glyph < |font.charstrings|
    ensures Sane(m)
  {
    Machine(Buf(font.charstrings[glyph], 0), [], [], true, 0, Pen(0.0, 0.0, 0.0, 0.0))
  }

  // ---------- the interpreter ----------

  // The local variables of the interpreter are those of machine m, and what has been drawn is the beginning of the
  // run's drawing.
  ghost predicate Runs(font: Font, total: Result, e0: seq<Emitted>, m: Machine, c: Context)
    reads c, c.pvertices
  {
    && Sane(m) && c.Valid() && c.Position() == m.pen
    && Run(font, m).ok == total.ok && c.emitted + Run(font, m).out == e0 + total.out
    && (c.bounds || |e0| + |total.out| <= c.pvertices.Length)
  }

  lemma RunsOn(font: Font, total: Result, e0: seq<Emitted>, m: Machine, c: Context)
    requires Runs(font, total, e0, m, c) && Step(font, m).Next?
    ensures var n := Step(font, m);
      && Sane(n.m) && c.Room(|n.out|) && Run(font, n.m).ok == total.ok
      && (c.emitted + n.out) + Run(font, n.m).out == e0 + total.out
  {
    hide Step, Context.Valid;
    StepKeeps(font, m);
    Counted(c);
  }

  lemma Counted(c: Context)
    requires c.Valid()
    ensures c.numVertices == |c.emitted|
  {}

  // The machine runs on with nothing drawn.
  lemma RunsQuietly(font: Font, total: Result, e0: seq<Emitted>, m: Machine, c: Context)
    requires Runs(font, total, e0, m, c) && Step(font, m).Next? && Step(font, m).out == []
      && Step(font, m).m.pen == m.pen
    ensures Runs(font, total, e0, Step(font, m).m, c)
  {
    hide Step, Context.Valid;
    RunsOn(font, total, e0, m, c);
    assert c.emitted + [] == c.emitted;
  }

  // The machine stops.
  lemma RunsEnd(font: Font, total: Result, e0: seq<Emitted>, m: Machine, c: Context)
    requires Runs(font, total, e0, m, c) && Step(font, m).Done?
    ensures c.Valid() && c.Position() == m.pen && c.Room(|Step(font, m).out|)
    ensures Step(font, m).ok == total.ok && c.emitted + Step(font, m).out == e0 + total.out
  {
    hide Step, Context.Valid;
    Counted(c);
  }

  // A drawing operator of the run: fails for want of operands, or draws and clears the stack.
  method DrawNext(c: Context, op: Operator, s: array<real>, sp: nat, ghost font: Font, ghost total: Result,
                  ghost e0: seq<Emitted>, ghost m: Machine, ghost mid: Machine)
    returns (enough: bool)
    requires Runs(font, total, e0, m, c) && Step(font, m) == DrawingStep(mid, op) && mid.pen == m.pen
    requires sp <= s.Length && mid.stack == s[..sp]
    modifies c, c.pvertices
    ensures !enough ==> Step(font, m) == Done(false, []) && c.Valid() && c.emitted == e0 + total.out && !total.ok
    ensures enough ==> Step(font, m).Next? && Runs(font, total, e0, Step(font, m).m, c)
    ensures enough ==>
      Step(font, m).m == mid.(stack := [], pen := c.Position(), inHeader := mid.inHeader && !IsMove(op))
  {
    hide Step, Run, Context.Valid, Context.Room, Draw, Legs, Needs, Sane;
    enough := Needs(op) <= sp;
    if enough {
      RunsOn(font, total, e0, m, c);
      DrawOperator(c, op, s, sp);
    } else {
      RunsEnd(font, total, e0, m, c);
      assert c.emitted + [] == c.emitted;
    }
  }

  lemma RunsSane(font: Font, total: Result, e0: seq<Emitted>, m: Machine, c: Context)
    requires Runs(font, total, e0, m, c)
    ensures Sane(m) && InBuf(m.b) && |m.calls| <= CALL_LIMIT && |m.stack| <= STACK_LIMIT
  {}

  lemma RunsFromStart(font: Font, m: Machine, c: Context)
    requires Sane(m) && c.Valid() && c.Position() == m.pen && c.Room(|Run(font, m).out|)
    ensures Runs(font, Run(font, m), c.emitted, m, c)
  {
    hide Run;
  }

  // Operators that only move the machine on: hints, calls, returns and operands.
  method QuietOperator(font: Font, b0: Octet, b0buf: Buf, s: array<real>, sp0: nat, subrStack: array<Buf>, height0: nat,
                       inHeader0: bool, maskbits0: nat, ghost pen: Pen)
    returns (ok: bool, b: Buf, sp: nat, height: nat, inHeader: bool, maskbits: nat)
    requires InBuf(b0buf) && sp0 <= s.Length == STACK_LIMIT && height0 <= subrStack.Length == CALL_LIMIT
    requires b0 != 0x0E && b0 != 0x0C && OperatorOf(b0) == None
    modifies s, subrStack
    ensures sp <= s.Length && height <= subrStack.Length
    ensures Dispatch(font, Machine(b0buf, old(subrStack[..height0]), old(s[..sp0]), inHeader0, maskbits0, pen), b0)
         == if ok then Next(Machine(b, subrStack[..height], s[..sp], inHeader, maskbits, pen), []) else Done(false, [])
  {
    hide Number, Skip, Subroutine, OperatorOf, EscapeOf, Closed, Trunc, DrawingStep;
    ok, b, sp, height, inHeader, maskbits := true, b0buf, sp0, height0, inHeader0, maskbits0;
    if b0 == 0x13 || b0 == 0x14 {
      if inHeader { maskbits := maskbits + sp / 2; }
      inHeader := false;
      b := Skip(b, (maskbits + 7) / 8);
      sp := 0;
    } else if b0 == 0x01 || b0 == 0x03 || b0 == 0x12 || b0 == 0x17 {
      maskbits := maskbits + sp / 2;
      sp := 0;
    } else if b0 == 0x0A || b0 == 0x1D {
      if sp < 1 {
        ok := false;
        return;
      }
      sp := sp - 1;
      var v := Trunc(s[sp]);
      if height >= CALL_LIMIT {
        ok := false;
        return;
      }
      subrStack[height] := b;
      height := height + 1;
      b := Buf(Subroutine(if b0 == 0x0A then font.localSubrs else font.globalSubrs, v), 0);
      if |b.data| == 0 {
        ok := false;
        return;
      }
      assert subrStack[..height] == old(subrStack[..height0]) + [b0buf];
      assert s[..sp] == old(s[..sp0])[..sp];
    } else if b0 == 0x0B {
      if height <= 0 {
        ok := false;
        return;
      }
      height := height - 1;
      b := subrStack[height];
      assert subrStack[..height] == old(subrStack[..height0])[..height];
    } else {
      if b0 != 255 && b0 != 28 && b0 < 32 {
        ok := false;
        return;
      }
      var (f, rest) := Number(b0, b);
      b := rest;
      if sp >= STACK_LIMIT {
        ok := false;
        return;
      }
      s[sp] := f;
      sp := sp + 1;
      assert s[..sp] == old(s[..sp0]) + [f];
    }
  }

  // What Dispatch does with drawing operators and the end of the glyph.
  lemma DispatchDraws(font: Font, m: Machine, b0: Octet)
    requires InBuf(m.b)
    ensures b0 == 0x0E ==> Dispatch(font, m, b0) == Done(true, Closed(m.pen))
    ensures b0 == 0x0C && EscapeOf(Peek(m.b)).None? ==> Dispatch(font, m, b0) == Done(false, [])
    ensures b0 == 0x0C && EscapeOf(Peek(m.b)).Some? ==>
      Dispatch(font, m, b0) == DrawingStep(m.(b := After(m.b)), EscapeOf(Peek(m.b)).value)
    ensures OperatorOf(b0).Some? ==>
      b0 != 0x0C && b0 != 0x0E && Dispatch(font, m, b0) == DrawingStep(m, OperatorOf(b0).value)
  {
    hide DrawingStep, Closed;
  }

  // A run that has failed.
  lemma RunFails(font: Font, total: Result, e0: seq<Emitted>, m: Machine, c: Context)
    requires Runs(font, total, e0, m, c) && Step(font, m) == Done(false, [])
    ensures c.Valid() && !total.ok && c.emitted == e0 + total.out
  {
    hide Context.Valid, Context.Room, Runs, Step;
    RunsEnd(font, total, e0, m, c);
    assert c.emitted + [] == c.emitted;
  }

  // Interprets the charstring of a glyph, with an operand stack of 48 and a call stack of 10.
  method RunCharstring(font: Font, glyph: nat, c: Context) returns (ok: bool)
    requires glyph < |font.charstrings| && c.Valid() && c.Position() == Start(font, glyph).pen
    requires c.Room(|Run(font, Start(font, glyph)).out|)
    modifies c, c.pvertices
    ensures c.Valid() && ok == Run(font, Start(font, glyph)).ok
    ensures c.emitted == old(c.emitted) + Run(font, Start(font, glyph)).out
  {
    hide Step, Run, Runs, Dispatch, Sane, Draw, Legs, Needs, Level, OperatorOf, EscapeOf, Closed, DrawingStep, Peek,
      After, Context.Valid, Context.Room;
    var b, inHeader, maskbits: nat, height: nat, sp: nat := Buf(font.charstrings[glyph], 0), true, 0, 0, 0;
    var s := new real[STACK_LIMIT](_ => 0.0);
    var subrStack := new Buf[CALL_LIMIT](_ => Buf([], 0));
    ghost var e0, m := c.emitted, Start(font, glyph);
    ghost var total := Run(font, m);
    RunsFromStart(font, m, c);
    while b.cursor < |b.data|
      invariant sp <= s.Length && height <= subrStack.Length
      invariant m == Machine(b, subrStack[..height], s[..sp], inHeader, maskbits, c.Position())
      invariant Runs(font, total, e0, m, c)
      decreases Level(m, 0), Level(m, 1), Level(m, 2), Level(m, 3), Level(m, 4), Level(m, 5),
                Level(m, 6), Level(m, 7), Level(m, 8), Level(m, 9), Level(m, 10)
    {
      RunsSane(font, total, e0, m, c);
      ReadOperator(font, m);
      var b0 := Peek(b);
      b := After(b);
      ghost var read := m.(b := b);
      DispatchDraws(font, read, b0);
      if b0 == 0x0E {
        RunsEnd(font, total, e0, m, c);
        c.CloseShape();
        return true;
      }
      var op := OperatorOf(b0);
      if b0 == 0x0C {
        op := EscapeOf(Peek(b));
        b := After(b);
        read := m.(b := b);
        if op.None? {
          RunFails(font, total, e0, m, c);
          return false;
        }
      }
      ghost var m0 := m;
      if op.Some? {
        ok := DrawNext(c, op.value, s, sp, font, total, e0, m, read);
        if !ok { return; }
        if IsMove(op.value) { inHeader := false; }
        sp := 0;
      } else {
        ok, b, sp, height, inHeader, maskbits := QuietOperator(font, b0, b, s, sp, subrStack, height, inHeader,
          maskbits, m.pen);
        if !ok {
          RunFails(font, total, e0, m, c);
          return;
        }
        RunsQuietly(font, total, e0, m, c);
      }
      StepKeeps(font, m);
      m := Step(font, m).m;
    }
    RunsSane(font, total, e0, m, c);
    ReadOperator(font, m);
    RunFails(font, total, e0, m, c);
    ok := false;
  }

  // Every step starts by reading a byte; none is left at the end of a charstring or subroutine.
  lemma ReadOperator(font: Font, m: Machine)
    requires Sane(m)
    ensures InBuf(m.b) && InBuf(After(m.b)) && |m.calls| <= CALL_LIMIT && |m.stack| <= STACK_LIMIT
    ensures m.b.cursor < |m.b.data| ==> Step(font, m) == Dispatch(font, m.(b := After(m.b)), Peek(m.b))
    ensures m.b.cursor >= |m.b.data| ==> Step(font, m) == Done(false, [])
  {
    hide Dispatch;
  }

  // ---------- the two runs ----------

  // Runs the charstring to count its vertices, then again to store them: both runs agree, and the array is exactly
  // filled.
  method GetGlyphShape(font: Font, glyph: nat) returns (vertices: array<Stored>, num: nat)
    requires glyph < |font.charstrings|
    ensures var run := Run(font, Start(font, glyph));
      if run.ok then
        vertices.Length == num == |run.out| && forall k | 0 <= k < num :: vertices[k] == Store(run.out[k])
      else num == 0
  {
    hide Run, Start, Context.Valid, Context.Room;
    vertices, num := new Stored[0], 0;
    ghost var run := Run(font, Start(font, glyph));
    StartsAtOrigin(font, glyph);
    var countCtx := new Context(true, vertices);
    NoLimit(countCtx, |run.out|);
    var ok := RunCharstring(font, glyph, countCtx);
    if ok {
      Counted(countCtx);
      vertices := new Stored[countCtx.numVertices];
      var outputCtx := new Context(false, vertices);
      RoomForAll(outputCtx, |run.out|);
      ok := RunCharstring(font, glyph, outputCtx);
      if ok {
        Counted(outputCtx);
        AllStored(outputCtx);
        assert outputCtx.numVertices == countCtx.numVertices;
        num := outputCtx.numVertices;
      }
    }
  }

  lemma NoLimit(c: Context, n: nat)
    requires c.bounds
    ensures c.Room(n)
  {}

  lemma RoomForAll(c: Context, n: nat)
    requires c.Valid() && c.emitted == [] && n <= c.pvertices.Length
    ensures c.Room(n)
  {}

  lemma AllStored(c: Context)
    requires c.Valid() && !c.bounds
    ensures c.numVertices <= c.pvertices.Length
      && forall k | 0 <= k < c.numVertices && k < |c.emitted| :: c.pvertices[k] == Store(c.emitted[k])
  {}

  lemma StartsAtOrigin(font: Font, glyph: nat)
    requires glyph < |font.charstrings|
    ensures Start(font, glyph).pen == Pen(0.0, 0.0, 0.0, 0.0)
  {}

  // The extent of everything a successful run draws, control points included; zero for an empty or failed one.
  method GetGlyphInfo(font: Font, glyph: nat) returns (box: Box, num: nat)
    requires glyph < |font.charstrings|
    ensures var run := Run(font, Start(font, glyph));
      && num == (if run.ok then |run.out| else 0)
      && (if run.ok && AllMarks(run.out) != [] then IsExtent(box, AllMarks(run.out)) else box == Box(0, 0, 0, 0))
  {
    hide Run, Start, IsExtent, AllMarks;
    StartsAtOrigin(font, glyph);
    var none := new Stored[0];
    var c := new Context(true, none);
    ghost var run := Run(font, Start(font, glyph));
    var ok := RunCharstring(font, glyph, c);
    assert c.emitted == run.out;
    box := if ok then Box(c.minX, c.minY, c.maxX, c.maxY) else Box(0, 0, 0, 0);
    num := if ok then c.numVertices else 0;
  }
}
