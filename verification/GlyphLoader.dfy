/**
 * Reading the points of a simple TrueType glyph into the upper part of the vertex array, and decoding the whole glyph.
 */
module GlyphLoader {
  import opened Arithmetic
  import opened Bits
  import opened Outline

  // ---------- flags, run-length coded ----------

  predicate Has(flags: Byte, mask: Byte) {
    flags & mask != 0
  }

  function Value(b: Byte): nat {
    b as nat
  }

  const REPEATED: Byte := 8

  // Points covered by the run at `at`, when n are wanted; and the bytes the run takes.
  function RunLength(data: seq<Byte>, at: nat, n: nat): nat {
    if at + 1 < |data| && Has(data[at], REPEATED) then Min(n, 1 + Value(data[at + 1])) else Min(n, 1)
  }

  function RunSize(data: seq<Byte>, at: nat): nat {
    if at < |data| && Has(data[at], REPEATED) then 2 else 1
  }

  // The bytes of all runs are there.
  predicate RunsPresent(data: seq<Byte>, at: nat, n: nat)
    decreases n
  {
    n == 0 || (at + RunSize(data, at) <= |data|
      && RunsPresent(data, at + RunSize(data, at), n - RunLength(data, at, n)))
  }

  function Repeat(f: Byte, n: nat): (s: seq<Byte>)
    ensures |s| == n
  {
    seq(n, _ => f)
  }

  // The flags of n points, run after run.
  function Flags(data: seq<Byte>, at: nat, n: nat): (s: seq<Byte>)
    requires RunsPresent(data, at, n)
    ensures |s| == n
    decreases n
  {
    if n == 0 then [] else
      Repeat(data[at], RunLength(data, at, n)) + Flags(data, at + RunSize(data, at), n - RunLength(data, at, n))
  }

  function FlagsEnd(data: seq<Byte>, at: nat, n: nat): (end: nat)
    requires RunsPresent(data, at, n)
    decreases n
  {
    if n == 0 then at else FlagsEnd(data, at + RunSize(data, at), n - RunLength(data, at, n))
  }

  // ---------- coordinates, coded as differences ----------

  datatype Coding = Coding(short: Byte, same: Byte)

  const X_CODING := Coding(2, 16)
  const Y_CODING := Coding(4, 32)

  function DeltaSize(f: Byte, k: Coding): nat {
    if Has(f, k.short) then 1 else if Has(f, k.same) then 0 else 2
  }

  // The difference from the point before.
  function Delta(data: seq<Byte>, at: nat, f: Byte, k: Coding): int
    requires at + DeltaSize(f, k) <= |data|
  {
    if Has(f, k.short) then (var b: int := Value(data[at]); if Has(f, k.same) then b else -b)
    else if Has(f, k.same) then 0
    else Short(Value(data[at]) * 256 + Value(data[at + 1]))
  }

  function DeltasEnd(at: nat, flags: seq<Byte>, k: Coding): nat {
    if flags == [] then at else DeltasEnd(at, flags[..|flags| - 1], k) + DeltaSize(flags[|flags| - 1], k)
  }

  // The sum of the differences of all the points with these flags.
  function Coordinate(data: seq<Byte>, at: nat, flags: seq<Byte>, k: Coding): int
    requires DeltasEnd(at, flags, k) <= |data|
  {
    if flags == [] then 0
    else
      var init, last := flags[..|flags| - 1], flags[|flags| - 1];
      Coordinate(data, at, init, k) + Delta(data, DeltasEnd(at, init, k), last, k)
  }

  lemma {:induction false} DeltasEndMonotone(at: nat, flags: seq<Byte>, i: nat, k: Coding)
    requires i <= |flags|
    ensures DeltasEnd(at, flags[..i], k) <= DeltasEnd(at, flags, k)
    decreases |flags|
  {
    if i == |flags| {
      assert flags[..i] == flags;
    } else {
      DeltasEndMonotone(at, flags[..|flags| - 1], i, k);
      assert flags[..|flags| - 1][..i] == flags[..i];
    }
  }

  // ---------- the points of a glyph ----------

  predicate GlyphPresent(data: seq<Byte>, at: nat, n: nat) {
    && RunsPresent(data, at, n)
    && var fs := Flags(data, at, n);
    DeltasEnd(DeltasEnd(FlagsEnd(data, at, n), fs, X_CODING), fs, Y_CODING) <= |data|
  }

  function CoordinateOf(data: seq<Byte>, at: nat, flags: seq<Byte>, i: nat, k: Coding): Int16
    requires i < |flags| && DeltasEnd(at, flags, k) <= |data|
  {
    DeltasEndMonotone(at, flags, i + 1, k);
    Short(Coordinate(data, at, flags[..i + 1], k))
  }

  // Flags first, then all horizontal and then all vertical differences.
  function GlyphPoints(data: seq<Byte>, at: nat, n: nat): (ps: seq<Point>)
    requires GlyphPresent(data, at, n)
    ensures |ps| == n
  {
    var fs := Flags(data, at, n);
    var xs := FlagsEnd(data, at, n);
    var ys := DeltasEnd(xs, fs, X_CODING);
    DeltasGrow(ys, fs, Y_CODING);
    seq(n, i requires 0 <= i < n =>
      Point(CoordinateOf(data, xs, fs, i, X_CODING), CoordinateOf(data, ys, fs, i, Y_CODING), OnCurve(fs[i])))
  }

  lemma {:induction false} DeltasGrow(at: nat, flags: seq<Byte>, k: Coding)
    ensures at <= DeltasEnd(at, flags, k)
  {
    if flags != [] { DeltasGrow(at, flags[..|flags| - 1], k); }
  }

  // ---------- loading ----------

  lemma RepeatAll(f: Byte, n: nat)
    ensures n > 0 ==> Repeat(f, n) == [f] + Repeat(f, n - 1)
    ensures Repeat(f, 0) == []
  {}

  lemma RunUnfolds(data: seq<Byte>, at: nat, n: nat)
    requires n > 0 && RunsPresent(data, at, n)
    ensures at + RunSize(data, at) <= |data| && 1 <= RunLength(data, at, n) <= n
    ensures RunsPresent(data, at + RunSize(data, at), n - RunLength(data, at, n))
    ensures Flags(data, at, n) == [data[at]] + Repeat(data[at], RunLength(data, at, n) - 1)
                                  + Flags(data, at + RunSize(data, at), n - RunLength(data, at, n))
    ensures FlagsEnd(data, at, n) == FlagsEnd(data, at + RunSize(data, at), n - RunLength(data, at, n))
  {
    RepeatAll(data[at], RunLength(data, at, n));
  }

  lemma RunParts(data: seq<Byte>, at: nat, n: nat)
    requires at + RunSize(data, at) <= |data|
    ensures RunSize(data, at) == if Has(data[at], REPEATED) then 2 else 1
    ensures RunLength(data, at, n) == if Has(data[at], REPEATED) then Min(n, 1 + Value(data[at + 1])) else Min(n, 1)
  {}

  // `flagcount` more points share `flags`; the runs for the last `rest` points start at `points`.
  ghost predicate LoadingFlags(data: seq<Byte>, at: nat, n: nat, i: nat, flags: Byte, flagcount: nat, points: nat,
                               rest: nat)
    requires RunsPresent(data, at, n)
  {
    && i <= n && rest + Min(flagcount, n - i) == n - i && RunsPresent(data, points, rest)
    && Flags(data, at, n)[i..] == Repeat(flags, n - i - rest) + Flags(data, points, rest)
    && FlagsEnd(data, points, rest) == FlagsEnd(data, at, n)
  }

  lemma LoadingStarts(data: seq<Byte>, at: nat, n: nat)
    requires RunsPresent(data, at, n)
    ensures LoadingFlags(data, at, n, 0, 0, 0, at, n)
  {
    assert Repeat(0, 0) == [];
  }

  lemma NextRun(data: seq<Byte>, at: nat, n: nat, i: nat, flags: Byte, points: nat, rest: nat)
    requires RunsPresent(data, at, n) && i < n && LoadingFlags(data, at, n, i, flags, 0, points, rest)
    ensures points + RunSize(data, points) <= |data|
      && RunSize(data, points) == if Has(data[points], REPEATED) then 2 else 1
    ensures data[points] == Flags(data, at, n)[i]
    ensures rest >= RunLength(data, points, rest)
    ensures var count := if Has(data[points], REPEATED) then Value(data[points + 1]) else 0;
      LoadingFlags(data, at, n, i + 1, data[points], count, points + RunSize(data, points),
        rest - RunLength(data, points, rest))
  {
    hide Has, RunsPresent, Flags, FlagsEnd, Repeat, RunLength, RunSize, Value;
    RunUnfolds(data, points, rest);
    RunParts(data, points, rest);
    var fs, f, r := Flags(data, at, n), data[points], RunLength(data, points, rest);
    RepeatAll(flags, 0);
    var tail := Repeat(f, r - 1) + Flags(data, points + RunSize(data, points), rest - r);
    assert fs[i..] == [f] + tail;
    assert fs[i] == fs[i..][0] && fs[i + 1..] == fs[i..][1..] == tail;
  }

  lemma SameRun(data: seq<Byte>, at: nat, n: nat, i: nat, flags: Byte, flagcount: nat, points: nat, rest: nat)
    requires RunsPresent(data, at, n) && i < n && flagcount > 0
      && LoadingFlags(data, at, n, i, flags, flagcount, points, rest)
    ensures flags == Flags(data, at, n)[i] && LoadingFlags(data, at, n, i + 1, flags, flagcount - 1, points, rest)
  {
    hide RunsPresent, Flags, FlagsEnd, Repeat;
    var fs := Flags(data, at, n);
    RepeatAll(flags, n - i - rest);
    var tail := Repeat(flags, n - i - rest - 1) + Flags(data, points, rest);
    assert fs[i..] == [flags] + tail;
    assert fs[i] == fs[i..][0] && fs[i + 1..] == fs[i..][1..] == tail;
  }

  lemma LoadingEnds(data: seq<Byte>, at: nat, n: nat, flags: Byte, flagcount: nat, points: nat, rest: nat)
    requires RunsPresent(data, at, n) && LoadingFlags(data, at, n, n, flags, flagcount, points, rest)
    ensures points == FlagsEnd(data, at, n)
  {}

  // Reads the flags of n points; a run may announce more points than there are.
  method LoadFlags(vertices: array<Vertex>, off: nat, n: nat, data: seq<Byte>, at: nat) returns (points: nat)
    requires vertices.Length == off + n && RunsPresent(data, at, n)
    modifies vertices
    ensures points == FlagsEnd(data, at, n)
    ensures forall i: nat | i < n :: vertices[off + i].kind == Flags(data, at, n)[i]
  {
    hide Has, RunsPresent, Flags, FlagsEnd, LoadingFlags, Value, RunLength, RunSize, Min;
    points := at;
    var flags: Byte, flagcount: nat := 0, 0;
    ghost var rest: nat := n;
    LoadingStarts(data, at, n);
    for i := 0 to n
      invariant LoadingFlags(data, at, n, i, flags, flagcount, points, rest)
      invariant forall j: nat | j < i :: vertices[off + j].kind == Flags(data, at, n)[j]
    {
      if flagcount == 0 {
        NextRun(data, at, n, i, flags, points, rest);
        rest := rest - RunLength(data, points, rest);
        flags := data[points];
        points := points + 1;
        if Has(flags, REPEATED) {
          flagcount := Value(data[points]);
          points := points + 1;
        }
      } else {
        SameRun(data, at, n, i, flags, flagcount, points, rest);
        flagcount := flagcount - 1;
      }
      vertices[off + i] := vertices[off + i].(kind := flags);
    }
    LoadingEnds(data, at, n, flags, flagcount, points, rest);
  }

  function WithCoordinate(v: Vertex, k: Coding, c: Int16): Vertex {
    if k == X_CODING then v.(x := c) else v.(y := c)
  }

  // The first i points have their coordinate; everything else is as before.
  ghost predicate Loaded(vs0: seq<Vertex>, vs: seq<Vertex>, off: nat, data: seq<Byte>, at: nat, fs: seq<Byte>,
                         k: Coding, i: nat)
    requires DeltasEnd(at, fs, k) <= |data|
  {
    && |vs| == |vs0| == off + |fs|
    && forall q: nat | off <= q < |vs| ::
         vs[q] == if q - off < i then WithCoordinate(vs0[q], k, CoordinateOf(data, at, fs, q - off, k)) else vs0[q]
  }

  lemma LoadedMore(vs0: seq<Vertex>, vs: seq<Vertex>, off: nat, data: seq<Byte>, at: nat, fs: seq<Byte>, k: Coding,
                   i: nat)
    requires DeltasEnd(at, fs, k) <= |data| && i < |fs| && Loaded(vs0, vs, off, data, at, fs, k, i)
    ensures |vs| == |vs0| == off + |fs| && vs[off + i] == vs0[off + i]
    ensures var v := WithCoordinate(vs0[off + i], k, CoordinateOf(data, at, fs, i, k));
      Loaded(vs0, vs[off + i := v], off, data, at, fs, k, i + 1)
  {
    hide CoordinateOf, WithCoordinate;
  }

  // The running sum of the differences, in steps.
  lemma CoordinateStep(data: seq<Byte>, at: nat, fs: seq<Byte>, k: Coding, i: nat)
    requires DeltasEnd(at, fs, k) <= |data| && i < |fs|
    ensures DeltasEnd(at, fs[..i], k) <= DeltasEnd(at, fs[..i + 1], k) <= |data|
    ensures DeltasEnd(at, fs[..i + 1], k) == DeltasEnd(at, fs[..i], k) + DeltaSize(fs[i], k)
    ensures Coordinate(data, at, fs[..i + 1], k)
      == Coordinate(data, at, fs[..i], k) + Delta(data, DeltasEnd(at, fs[..i], k), fs[i], k)
    ensures CoordinateOf(data, at, fs, i, k) == Short(Coordinate(data, at, fs[..i + 1], k))
  {
    hide Delta, DeltaSize, Short;
    DeltasEndMonotone(at, fs, i + 1, k);
    assert fs[..i + 1][..i] == fs[..i];
  }

  // One coordinate of every point; the flags are already there.
  method LoadCoordinates(vertices: array<Vertex>, off: nat, n: nat, data: seq<Byte>, at: nat, k: Coding,
                         ghost fs: seq<Byte>)
    returns (points: nat)
    requires vertices.Length == off + n == off + |fs| && DeltasEnd(at, fs, k) <= |data|
    requires forall i: nat | i < n :: vertices[off + i].kind == fs[i]
    modifies vertices
    ensures points == DeltasEnd(at, fs, k)
    ensures Loaded(old(vertices[..]), vertices[..], off, data, at, fs, k, n)
  {
    hide Delta, DeltaSize, Short, Loaded, DeltasEnd, Coordinate, CoordinateOf;
    points := at;
    var x := 0;
    ghost var vs0 := vertices[..];
    NothingLoaded(vs0, off, data, at, fs, k);
    for i := 0 to n
      invariant points == DeltasEnd(at, fs[..i], k) <= |data| && x == Coordinate(data, at, fs[..i], k)
      invariant Loaded(vs0, vertices[..], off, data, at, fs, k, i)
    {
      LoadedMore(vs0, vertices[..], off, data, at, fs, k, i);
      CoordinateStep(data, at, fs, k, i);
      var flags := vertices[off + i].kind;
      assert flags == fs[i];
      x := x + Delta(data, points, flags, k);
      points := points + DeltaSize(flags, k);
      vertices[off + i] := WithCoordinate(vertices[off + i], k, Short(x));
    }
    assert fs[..n] == fs;
  }

  lemma NothingLoaded(vs0: seq<Vertex>, off: nat, data: seq<Byte>, at: nat, fs: seq<Byte>, k: Coding)
    requires DeltasEnd(at, fs, k) <= |data| && |vs0| == off + |fs|
    ensures Loaded(vs0, vs0, off, data, at, fs, k, 0) && DeltasEnd(at, fs[..0], k) == at <= |data|
    ensures Coordinate(data, at, fs[..0], k) == 0
  {
    DeltasGrow(at, fs, k);
  }

  // Decodes a simple glyph whose bytes, from the flags on, are data[at..]: one vertex array serves for points and
  // vertices. It stays inside the array exactly when no contour is begun with a control at the last point.
  method DecodeSimpleGlyph(data: seq<Byte>, at: nat, ends: seq<nat>)
    returns (vertices: array<Vertex>, inside: bool, num: nat)
    requires |ends| > 0 && GlyphPresent(data, at, ends[|ends| - 1] + 1)
    ensures var ps := GlyphPoints(data, at, ends[|ends| - 1] + 1);
      var met := Met(ps, ends);
      && (inside <==> BegunInside(ps, met))
      && (inside ==>
            WellFormed(ps, met, |met|) && num <= vertices.Length && vertices[..num] == Outlines(ps, met, |met|))
  {
    hide GlyphPoints, GlyphPresent, Loaded, Flags, FlagsEnd, DeltasEnd, WellFormed, BegunInside, Met, Unread, Outlines;
    var n := 1 + ends[|ends| - 1];
    ghost var ps := GlyphPoints(data, at, n);
    PresentParts(data, at, n);
    ghost var fs := Flags(data, at, n);
    var m := n + 2 * |ends|;
    vertices := new Vertex[m];
    var off := m - n;
    var points := LoadFlags(vertices, off, n, data, at);
    ghost var vs0 := vertices[..];
    points := LoadCoordinates(vertices, off, n, data, points, X_CODING, fs);
    ghost var vs1 := vertices[..];
    FlagsKept(vs0, vs1, off, data, FlagsEnd(data, at, n), fs, X_CODING);
    points := LoadCoordinates(vertices, off, n, data, points, Y_CODING, fs);
    PointsLoaded(vs0, vs1, vertices[..], off, data, at, n);
    inside, num := Convert(vertices, n, ends, ps);
  }

  lemma PresentParts(data: seq<Byte>, at: nat, n: nat)
    requires GlyphPresent(data, at, n)
    ensures RunsPresent(data, at, n)
    ensures var xs := FlagsEnd(data, at, n); var ys := DeltasEnd(xs, Flags(data, at, n), X_CODING);
      ys <= |data| && DeltasEnd(ys, Flags(data, at, n), Y_CODING) <= |data|
  {
    hide Flags, FlagsEnd;
    DeltasGrow(DeltasEnd(FlagsEnd(data, at, n), Flags(data, at, n), X_CODING), Flags(data, at, n), Y_CODING);
  }

  lemma FlagsKept(vs0: seq<Vertex>, vs: seq<Vertex>, off: nat, data: seq<Byte>, at: nat, fs: seq<Byte>, k: Coding)
    requires DeltasEnd(at, fs, k) <= |data| && Loaded(vs0, vs, off, data, at, fs, k, |fs|)
      && |vs| == |vs0| == off + |fs|
    requires forall i: nat | i < |fs| :: vs0[off + i].kind == fs[i]
    ensures forall i: nat | i < |fs| :: vs[off + i].kind == fs[i]
  {
    hide CoordinateOf;
  }

  lemma PointsLoaded(vs0: seq<Vertex>, vs1: seq<Vertex>, vs2: seq<Vertex>, off: nat, data: seq<Byte>, at: nat, n: nat)
    requires GlyphPresent(data, at, n) && |vs0| == |vs1| == |vs2| == off + n && RunsPresent(data, at, n)
    requires var fs, xs := Flags(data, at, n), FlagsEnd(data, at, n); var ys := DeltasEnd(xs, fs, X_CODING);
      && ys <= |data| && DeltasEnd(ys, fs, Y_CODING) <= |data| && (forall i: nat | i < n :: vs0[off + i].kind == fs[i])
      && Loaded(vs0, vs1, off, data, xs, fs, X_CODING, n) && Loaded(vs1, vs2, off, data, ys, fs, Y_CODING, n)
    ensures Unread(vs2, GlyphPoints(data, at, n), off, 0)
  {
    hide CoordinateOf, Flags, FlagsEnd, DeltasEnd, GlyphPresent, RunsPresent;
    var ps := GlyphPoints(data, at, n);
    forall i: nat | i < n ensures PointOf(vs2[off + i]) == ps[i] {
      assert vs1[off + i] == WithCoordinate(vs0[off + i], X_CODING,
        CoordinateOf(data, FlagsEnd(data, at, n), Flags(data, at, n), i, X_CODING));
    }
  }
}
