/**
 * Writing the points of a glyph as the 'glyf' table of the OpenType specification stores them. The source only reads;
   that it
 * reads back what is written says what flags and differences mean.
 */
module GlyphWriter {
  import opened Bits
  import opened Outline
  import opened GlyphLoader

  // ---------- differences ----------

  // Nothing for 0, one byte for the size of a short difference, two bytes for the others, the high one first.
  function DifferenceBytes(d: int): seq<Byte>
    requires -0x8000 <= d < 0x8000
  {
    if d == 0 then []
    else if 0 < d <= 255 then [ByteOf(d)]
    else if -255 <= d < 0 then [ByteOf(-d)]
    else
      var u := if d < 0 then d + 0x1_0000 else d;
      [ByteOf(u / 256), ByteOf(u % 256)]
  }

  function Difference(cs: seq<int>, i: nat): int
    requires i < |cs|
  {
    cs[i] - if i == 0 then 0 else cs[i - 1]
  }

  predicate DifferencesFit(cs: seq<int>) {
    forall i | 0 <= i < |cs| :: -0x8000 <= Difference(cs, i) < 0x8000
  }

  // The first n coordinates.
  function CoordinateBytes(cs: seq<int>, n: nat): seq<Byte>
    requires n <= |cs| && DifferencesFit(cs)
  {
    if n == 0 then [] else CoordinateBytes(cs, n - 1) + DifferenceBytes(Difference(cs, n - 1))
  }

  // In flag f the short bit and the same bit announce difference d.
  predicate Announces(f: Byte, short: Byte, same: Byte, d: int) {
    && (Has(f, short) <==> d != 0 && -255 <= d <= 255)
    && (Has(f, same) <==> 0 <= d <= 255)
  }

  predicate AllAnnounced(fs: seq<Byte>, short: Byte, same: Byte, cs: seq<int>)
    requires |fs| == |cs|
  {
    forall i | 0 <= i < |fs| :: Announces(fs[i], short, same, Difference(cs, i))
  }

  lemma {:induction false} BytesPrefix(cs: seq<int>, i: nat, n: nat)
    requires i <= n <= |cs| && DifferencesFit(cs)
    ensures |CoordinateBytes(cs, i)| <= |CoordinateBytes(cs, n)|
    ensures CoordinateBytes(cs, n)[..|CoordinateBytes(cs, i)|] == CoordinateBytes(cs, i)
    decreases n
  {
    hide DifferenceBytes, Difference;
    if i < n { BytesPrefix(cs, i, n - 1); }
  }

  // The loader takes the difference from the bytes written for it.
  lemma DifferenceRead(data: seq<Byte>, pos: nat, f: Byte, k: Coding, d: int)
    requires -0x8000 <= d < 0x8000 && Announces(f, k.short, k.same, d)
    requires pos + |DifferenceBytes(d)| <= |data| && data[pos..pos + |DifferenceBytes(d)|] == DifferenceBytes(d)
    ensures DeltaSize(f, k) == |DifferenceBytes(d)| && Delta(data, pos, f, k) == d
  {
    hide Has, Value, DifferenceBytes, Short;
    var s := DifferenceBytes(d);
    DifferenceBytesAre(d);
    forall j | 0 <= j < |s| ensures data[pos + j] == s[j] { assert data[pos..pos + |s|][j] == s[j]; }
  }

  lemma DifferenceBytesAre(d: int)
    requires -0x8000 <= d < 0x8000
    ensures var s := DifferenceBytes(d);
      && |s| == (if d == 0 then 0 else if -255 <= d <= 255 then 1 else 2)
      && (0 < d <= 255 ==> Value(s[0]) == d)
      && (-255 <= d < 0 ==> Value(s[0]) == -d)
      && (!(-255 <= d <= 255) ==> Short(Value(s[0]) * 256 + Value(s[1])) == d)
  {
    hide ByteOf, Value, Short;
    if 0 < d <= 255 {
      ByteValue(d);
    } else if -255 <= d < 0 {
      ByteValue(-d);
    } else if d != 0 {
      var u := if d < 0 then d + 0x1_0000 else d;
      ByteValue(u / 256);
      ByteValue(u % 256);
      TwoBytes(d, u);
    }
  }

  lemma ByteValue(x: nat)
    requires x < 256
    ensures Value(ByteOf(x)) == x
  {
    hide ByteOf;
  }

  lemma TwoBytes(d: int, u: nat)
    requires -0x8000 <= d < 0x8000 && u == if d < 0 then d + 0x1_0000 else d
    ensures u / 256 < 256 && u % 256 < 256 && Short(u / 256 * 256 + u % 256) == d
  {
    assert u / 256 * 256 + u % 256 == u;
  }

  lemma PartOf(data: seq<Byte>, at: nat, all: seq<Byte>, a: seq<Byte>, b: seq<Byte>)
    requires at + |all| <= |data| && data[at..at + |all|] == all && |a + b| <= |all| && all[..|a + b|] == a + b
    ensures data[at + |a|..at + |a| + |b|] == b
  {
    forall j | 0 <= j < |b| ensures data[at + |a| + j] == b[j] {
      assert data[at..at + |all|][|a| + j] == all[|a| + j];
      assert all[..|a + b|][|a| + j] == (a + b)[|a| + j];
    }
  }

  lemma {:induction false} CoordinatesRead(data: seq<Byte>, at: nat, fs: seq<Byte>, cs: seq<int>, k: Coding, i: nat)
    requires |fs| == |cs| && i <= |cs| && DifferencesFit(cs) && AllAnnounced(fs, k.short, k.same, cs)
    requires var all := CoordinateBytes(cs, |cs|); at + |all| <= |data| && data[at..at + |all|] == all
    ensures DeltasEnd(at, fs[..i], k) == at + |CoordinateBytes(cs, i)| <= |data|
    ensures Coordinate(data, at, fs[..i], k) == if i == 0 then 0 else cs[i - 1]
  {
    hide Delta, DeltaSize, DifferenceBytes, Announces;
    BytesPrefix(cs, i, |cs|);
    if i > 0 {
      CoordinatesRead(data, at, fs, cs, k, i - 1);
      assert fs[..i][..i - 1] == fs[..i - 1];
      var all, before, d := CoordinateBytes(cs, |cs|), |CoordinateBytes(cs, i - 1)|, Difference(cs, i - 1);
      PartOf(data, at, all, CoordinateBytes(cs, i - 1), DifferenceBytes(d));
      DifferenceRead(data, at + before, fs[i - 1], k, d);
    }
  }

  // ---------- flags ----------

  // Equal flags in a row.
  datatype Run = Run(flag: Byte, count: nat)

  predicate GoodRun(r: Run) {
    1 <= r.count <= 256 && r.flag & 8 == 0
  }

  function StoredFlag(r: Run): Byte {
    if r.count == 1 then r.flag else r.flag | 8
  }

  function RunBytes(r: Run): seq<Byte>
    requires GoodRun(r)
  {
    if r.count == 1 then [r.flag] else [r.flag | 8, ByteOf(r.count - 1)]
  }

  function FlagBytes(rs: seq<Run>): seq<Byte>
    requires forall i | 0 <= i < |rs| :: GoodRun(rs[i])
  {
    if rs == [] then [] else RunBytes(rs[0]) + FlagBytes(rs[1..])
  }

  function Expanded(rs: seq<Run>): seq<Byte> {
    if rs == [] then [] else Repeat(StoredFlag(rs[0]), rs[0].count) + Expanded(rs[1..])
  }

  lemma StoredBit(r: Run)
    requires GoodRun(r)
    ensures Has(StoredFlag(r), REPEATED) == (r.count > 1)
  {
    var f := r.flag;
    assert f & 8 == 0;
    assert (f | 8) & 8 != 0;
  }

  lemma {:induction false} FlagsRead(data: seq<Byte>, at: nat, rs: seq<Run>)
    requires forall i | 0 <= i < |rs| :: GoodRun(rs[i])
    requires at + |FlagBytes(rs)| <= |data| && data[at..at + |FlagBytes(rs)|] == FlagBytes(rs)
    ensures var n := |Expanded(rs)|;
      RunsPresent(data, at, n) && Flags(data, at, n) == Expanded(rs) && FlagsEnd(data, at, n) == at + |FlagBytes(rs)|
    decreases |rs|
  {
    hide Has, Value, StoredFlag, Repeat, GoodRun;
    if rs != [] {
      var r, s, n := rs[0], RunBytes(rs[0]), |Expanded(rs)|;
      assert GoodRun(r);
      StoredBit(r);
      RunIs(r);
      Slices(data, at, s, FlagBytes(rs[1..]));
      assert RunLength(data, at, n) == r.count && RunSize(data, at) == |s|;
      FlagsRead(data, at + |s|, rs[1..]);
      FlagsUnfold(data, at, n, |s|, r.count);
    }
  }

  lemma Slices(data: seq<Byte>, at: nat, a: seq<Byte>, b: seq<Byte>)
    requires at + |a + b| <= |data| && data[at..at + |a + b|] == a + b
    ensures forall j | 0 <= j < |a| :: data[at + j] == a[j]
    ensures data[at + |a|..at + |a| + |b|] == b
  {
    forall j | 0 <= j < |a| ensures data[at + j] == a[j] { assert data[at..at + |a + b|][j] == (a + b)[j]; }
    PartOf(data, at, a + b, a, b);
  }

  lemma RunIs(r: Run)
    requires GoodRun(r)
    ensures r.count >= 1 && RunBytes(r)[0] == StoredFlag(r) && |RunBytes(r)| == if r.count > 1 then 2 else 1
    ensures r.count > 1 ==> Value(RunBytes(r)[1]) == r.count - 1
  {
    hide ByteOf, Value;
    if r.count > 1 { ByteValue(r.count - 1); }
  }

  lemma FlagsUnfold(data: seq<Byte>, at: nat, n: nat, size: nat, len: nat)
    requires n > 0 && at + size <= |data| && size == RunSize(data, at) && len == RunLength(data, at, n)
    requires RunsPresent(data, at + size, n - len)
    ensures RunsPresent(data, at, n) && Flags(data, at, n) == Repeat(data[at], len) + Flags(data, at + size, n - len)
    ensures FlagsEnd(data, at, n) == FlagsEnd(data, at + size, n - len)
  {
    hide Has, Repeat;
  }

  // ---------- points ----------

  function Xs(ps: seq<Point>): (cs: seq<int>)
    ensures |cs| == |ps|
  {
    seq(|ps|, i requires 0 <= i < |ps| => ps[i].x)
  }

  function Ys(ps: seq<Point>): (cs: seq<int>)
    ensures |cs| == |ps|
  {
    seq(|ps|, i requires 0 <= i < |ps| => ps[i].y)
  }

  // Bit 1 for a point on the curve, 2 and 16 for the horizontal difference, 4 and 32 for the vertical one.
  function FlagOf(on: bool, dx: int, dy: int): Byte {
    (if on then 1 else 0)
    | (if dx == 0 then 16 else if 0 < dx <= 255 then 18 else if -255 <= dx < 0 then 2 else 0)
    | (if dy == 0 then 32 else if 0 < dy <= 255 then 36 else if -255 <= dy < 0 then 4 else 0)
  }

  // Whatever a repeat count adds to it, the flag announces both differences.
  lemma FlagAnnounces(f: Byte, on: bool, dx: int, dy: int)
    requires f == FlagOf(on, dx, dy) || f == FlagOf(on, dx, dy) | 8
    ensures OnCurve(f) == on && Announces(f, 2, 16, dx) && Announces(f, 4, 32, dy)
  {
    var o: Byte := if on then 1 else 0;
    var x: Byte := if dx == 0 then 16 else if 0 < dx <= 255 then 18 else if -255 <= dx < 0 then 2 else 0;
    var y: Byte := if dy == 0 then 32 else if 0 < dy <= 255 then 36 else if -255 <= dy < 0 then 4 else 0;
    PartsApart(o, x, y, f);
    HorizontalPart(x, dx);
    VerticalPart(y, dy);
  }

  lemma PartsApart(o: Byte, x: Byte, y: Byte, f: Byte)
    requires (o == 0 || o == 1) && (x == 0 || x == 2 || x == 16 || x == 18) && (y == 0 || y == 4 || y == 32 || y == 36)
    requires f == o | x | y || f == o | x | y | 8
    ensures (f & 1 != 0) == (o == 1) && f & 2 == x & 2 && f & 16 == x & 16 && f & 4 == y & 4 && f & 32 == y & 32
  {}

  lemma HorizontalPart(x: Byte, d: int)
    requires x == if d == 0 then 16 else if 0 < d <= 255 then 18 else if -255 <= d < 0 then 2 else 0
    ensures (x & 2 != 0) == (d != 0 && -255 <= d <= 255) && (x & 16 != 0) == (0 <= d <= 255)
  {}

  lemma VerticalPart(y: Byte, d: int)
    requires y == if d == 0 then 32 else if 0 < d <= 255 then 36 else if -255 <= d < 0 then 4 else 0
    ensures (y & 4 != 0) == (d != 0 && -255 <= d <= 255) && (y & 32 != 0) == (0 <= d <= 255)
  {}

  // Runs that store a flag for every point.
  predicate RunsFor(rs: seq<Run>, ps: seq<Point>) {
    && (forall i | 0 <= i < |rs| :: GoodRun(rs[i])) && |Expanded(rs)| == |ps|
    && forall i: nat | i < |ps| ::
         var f := FlagOf(ps[i].on, Difference(Xs(ps), i), Difference(Ys(ps), i));
         Expanded(rs)[i] == f || Expanded(rs)[i] == f | 8
  }

  // The bytes of a glyph from its flags on.
  function Written(rs: seq<Run>, ps: seq<Point>): seq<Byte>
    requires RunsFor(rs, ps) && DifferencesFit(Xs(ps)) && DifferencesFit(Ys(ps))
  {
    FlagBytes(rs) + CoordinateBytes(Xs(ps), |ps|) + CoordinateBytes(Ys(ps), |ps|)
  }

  // However flags are grouped into runs, the loader reads the points back.
  lemma PointsReadBack(rs: seq<Run>, ps: seq<Point>, before: seq<Byte>, after: seq<Byte>)
    requires RunsFor(rs, ps) && DifferencesFit(Xs(ps)) && DifferencesFit(Ys(ps))
    ensures var data := before + Written(rs, ps) + after;
      GlyphPresent(data, |before|, |ps|) && GlyphPoints(data, |before|, |ps|) == ps
  {
    hide Has, Flags, FlagsEnd, RunsPresent, DeltasEnd, Coordinate, FlagBytes, CoordinateBytes, Expanded, FlagOf,
      DifferencesFit, Announces, OnCurve, GoodRun, Difference;
    var data, n := before + Written(rs, ps) + after, |ps|;
    var fb, xb, yb := FlagBytes(rs), CoordinateBytes(Xs(ps), n), CoordinateBytes(Ys(ps), n);
    var at := |before|;
    assert data[at..at + |fb|] == fb;
    FlagsRead(data, at, rs);
    var fs := Expanded(rs);
    var xs := at + |fb|;
    var ys := xs + |xb|;
    assert data[xs..xs + |xb|] == xb && data[ys..ys + |yb|] == yb;
    assert AllAnnounced(fs, 2, 16, Xs(ps)) && AllAnnounced(fs, 4, 32, Ys(ps))
           && forall i: nat | i < n :: OnCurve(fs[i]) == ps[i].on by {
      forall i: nat | i < n
        ensures OnCurve(fs[i]) == ps[i].on
        ensures Announces(fs[i], 2, 16, Difference(Xs(ps), i)) && Announces(fs[i], 4, 32, Difference(Ys(ps), i))
      {
        FlagAnnounces(fs[i], ps[i].on, Difference(Xs(ps), i), Difference(Ys(ps), i));
      }
    }
    CoordinatesRead(data, xs, fs, Xs(ps), X_CODING, n);
    CoordinatesRead(data, ys, fs, Ys(ps), Y_CODING, n);
    assert fs[..n] == fs;
    forall i: nat | i < n
      ensures GlyphPoints(data, at, n)[i] == ps[i]
    {
      CoordinatesRead(data, xs, fs, Xs(ps), X_CODING, i + 1);
      CoordinatesRead(data, ys, fs, Ys(ps), Y_CODING, i + 1);
    }
  }

  // Every list of points has runs: one for each point will do.
  function SingleRuns(ps: seq<Point>): (rs: seq<Run>)
    ensures |rs| == |ps|
  {
    seq(|ps|, i requires 0 <= i < |ps| =>
      Run(FlagOf(ps[i].on, Difference(Xs(ps), i), Difference(Ys(ps), i)), 1))
  }

  lemma {:induction false} ExpandedSingles(rs: seq<Run>)
    requires forall i | 0 <= i < |rs| :: rs[i].count == 1
    ensures |Expanded(rs)| == |rs| && forall i: nat | i < |rs| :: Expanded(rs)[i] == rs[i].flag
  {
    if rs != [] { ExpandedSingles(rs[1..]); }
  }

  lemma SingleRunsFit(ps: seq<Point>)
    ensures RunsFor(SingleRuns(ps), ps)
  {
    hide FlagOf, Difference;
    var rs := SingleRuns(ps);
    ExpandedSingles(rs);
    forall i: nat | i < |rs| ensures GoodRun(rs[i]) {
      NoRepeatBit(ps[i].on, Difference(Xs(ps), i), Difference(Ys(ps), i));
    }
  }

  lemma NoRepeatBit(on: bool, dx: int, dy: int)
    ensures FlagOf(on, dx, dy) & 8 == 0
  {}
}
