/**
 * The box filters that smooth an oversampled glyph bitmap, in place and with a ring buffer of the pixels just
 * overwritten.
 */
module Prefilter {
  import opened Indexing

  type Pixel = x: int | 0 <= x < 256

  const MAX_OVERSAMPLE := 8

  // ---------- the filter, stated directly ----------

  function Sum(s: seq<Pixel>): nat {
    if s == [] then 0 else Sum(s[..|s| - 1]) + s[|s| - 1]
  }

  function WindowStart(i: int, k: nat): nat {
    if i < k then 0 else i - k
  }

  // The k pixels that end before position i, fewer at the left edge.
  function Window(line: seq<Pixel>, i: nat, k: nat): seq<Pixel>
    requires i <= |line|
  {
    line[WindowStart(i, k)..i]
  }

  function Mean(total: nat, k: nat): nat
    requires k > 0
  {
    total / k
  }

  // Every position holds the floor of the mean of the k original pixels up to and including it.
  function Smoothed(line: seq<Pixel>, k: nat): (r: seq<int>)
    requires k > 0
    ensures |r| == |line|
  {
    seq(|line|, i requires 0 <= i < |line| => Mean(Sum(Window(line, i + 1, k)), k))
  }

  lemma SmoothedIsFloor(line: seq<Pixel>, k: nat, i: nat)
    requires k > 0 && i < |line|
    ensures var total := Sum(line[if i + 1 < k then 0 else i + 1 - k..i + 1]);
      Smoothed(line, k)[i] * k <= total < (Smoothed(line, k)[i] + 1) * k
  {
    FloorOfQuotient(Sum(Window(line, i + 1, k)), k);
  }

  lemma FloorOfQuotient(a: nat, k: nat)
    requires k > 0
    ensures a / k * k <= a < (a / k + 1) * k
  {}

  lemma {:induction false} SumBound(s: seq<Pixel>)
    ensures Sum(s) <= 255 * |s|
  {
    if s != [] { SumBound(s[..|s| - 1]); }
  }

  lemma {:induction false} SumDropFirst(s: seq<Pixel>)
    requires s != []
    ensures Sum(s) == s[0] + Sum(s[1..])
  {
    if |s| > 1 {
      SumDropFirst(s[..|s| - 1]);
      assert s[1..][..|s| - 2] == s[..|s| - 1][1..];
    }
  }

  // Moving the window by one adds a pixel and drops the one k places back.
  lemma WindowSlides(line: seq<Pixel>, i: nat, k: nat)
    requires i < |line| && 1 <= k <= 8
    ensures Sum(Window(line, i + 1, k)) == Sum(Window(line, i, k)) + line[i] - (if i < k then 0 else line[i - k])
    ensures Sum(Window(line, i + 1, k)) <= 255 * k
  {
    var a := WindowStart(i, k);
    var w := line[a..i + 1];
    assert w[..i - a] == line[a..i];
    if i >= k {
      SumDropFirst(w);
      assert w[1..] == line[a + 1..i + 1];
    }
    SumBound(Window(line, i + 1, k));
  }

  // ---------- one row or column ----------

  // The n pixels at base, base + step, base + 2 * step, ...
  predicate LineInside(size: nat, base: nat, step: nat, n: nat) {
    step >= 1 && (n > 0 ==> base + Times(n - 1, step) < size)
  }

  lemma LinePosition(size: nat, base: nat, step: nat, n: nat, i: nat)
    requires LineInside(size, base, step, n) && i < n
    ensures base + Times(i, step) < size
  {
    hide Times;
    TimesMonotone(i, n - 1, step);
  }

  function Line(p: seq<Pixel>, base: nat, step: nat, n: nat): (line: seq<Pixel>)
    requires LineInside(|p|, base, step, n)
    ensures |line| == n
  {
    seq(n, i requires 0 <= i < n => (LinePosition(|p|, base, step, n, i); p[base + Times(i, step)]))
  }

  predicate OnLine(q: nat, base: nat, step: nat, n: nat) {
    exists i: nat :: i < n && q == base + Times(i, step)
  }

  lemma LineInjective(base: nat, step: nat, i: nat, j: nat)
    requires step >= 1 && i != j
    ensures base + Times(i, step) != base + Times(j, step)
  {
    hide Times;
    if i < j {
      TimesStep(i, step);
      TimesMonotone(i + 1, j, step);
    } else {
      TimesStep(j, step);
      TimesMonotone(j + 1, i, step);
    }
  }

  // The original of position r - k, for the positions that read it next.
  ghost predicate RingHolds(buffer: seq<Pixel>, line: seq<Pixel>, k: nat, from: nat, to: nat) {
    && |buffer| == MAX_OVERSAMPLE
    && forall r: nat | from <= r < to && r - k < |line| ::
       buffer[r % MAX_OVERSAMPLE] == if r < k then 0 else line[r - k]
  }

  lemma RingStep(buffer: seq<Pixel>, line: seq<Pixel>, k: nat, i: nat)
    requires 1 <= k <= 8 && i < |line| && RingHolds(buffer, line, k, i, i + k)
    ensures RingHolds(buffer[(i + k) % MAX_OVERSAMPLE := line[i]], line, k, i + 1, i + 1 + k)
  {}

  lemma RingShrink(buffer: seq<Pixel>, line: seq<Pixel>, k: nat, a: nat, b: nat, a': nat, b': nat)
    requires RingHolds(buffer, line, k, a, b) && a <= a' && b' <= b
    ensures RingHolds(buffer, line, k, a', b')
  {}

  // Positions before i are smoothed, the others untouched, and nothing off the line has changed.
  ghost predicate Progress(before: seq<Pixel>, now: seq<Pixel>, base: nat, step: nat, n: nat, k: nat, i: nat)
    requires LineInside(|before|, base, step, n) && k > 0
  {
    && |now| == |before|
    && (forall x: nat | x < n :: base + Times(x, step) < |now|
          && now[base + Times(x, step)] == if x < i then Smoothed(Line(before, base, step, n), k)[x]
             else before[base + Times(x, step)])
    && forall q: nat | q < |now| && !OnLine(q, base, step, n) :: now[q] == before[q]
  }

  lemma ProgressStep(before: seq<Pixel>, now: seq<Pixel>, base: nat, step: nat, n: nat, k: nat, i: nat, v: Pixel)
    requires LineInside(|before|, base, step, n) && k > 0 && i < n
    requires Progress(before, now, base, step, n, k, i) && v == Smoothed(Line(before, base, step, n), k)[i]
    ensures base + Times(i, step) < |now|
    ensures Progress(before, now[base + Times(i, step) := v], base, step, n, k, i + 1)
  {
    hide Times, Smoothed, Line, LineInside;
    var at := base + Times(i, step);
    LineStep(step, n, base, |before|);
    forall x: nat | x < n && x != i ensures base + Times(x, step) != at { LineInjective(base, step, x, i); }
    assert OnLine(at, base, step, n);
  }

  lemma LineStep(step: nat, n: nat, base: nat, size: nat)
    requires LineInside(size, base, step, n)
    ensures step >= 1
  {}

  // `unsigned int` and `unsigned char` arithmetic; neither ever wraps here.
  function Unsigned(v: int): nat { v % 0x1_0000_0000 }

  function UnsignedChar(v: nat): Pixel { v % 256 }

  // The last k - 1 pixels are clear, so that the window can run out over them.
  predicate TailClear(line: seq<Pixel>, k: nat) {
    forall i: nat | i < |line| && |line| < i + k :: line[i] == 0
  }

  // The new total and the pixel made from it.
  lemma TotalStep(line: seq<Pixel>, k: nat, i: nat, total: nat, dropped: Pixel)
    requires 1 <= k <= 8 && i < |line| && total == Sum(Window(line, i, k))
      && dropped == if i < k then 0 else line[i - k]
    ensures Unsigned(total + line[i] - dropped) == Sum(Window(line, i + 1, k))
    ensures UnsignedChar(Mean(Sum(Window(line, i + 1, k)), k)) == Smoothed(line, k)[i]
  {
    hide Sum, Window, Mean;
    WindowSlides(line, i, k);
    QuotientBound(Sum(Window(line, i + 1, k)), k);
  }

  lemma QuotientBound(v: nat, k: nat)
    requires 1 <= k && v <= 255 * k
    ensures Mean(v, k) <= 255
  {}

  method ClearRing(buffer: array<Pixel>, k: nat)
    requires k <= buffer.Length
    modifies buffer
    ensures forall x | 0 <= x < k :: buffer[x] == 0
  {
    for x := 0 to k
      invariant forall y | 0 <= y < x :: buffer[y] == 0
    {
      buffer[x] := 0;
    }
  }

  // The state between two positions: the running total, what the ring holds for the positions up to `to`, and the
  // pixels.
  ghost predicate Filtering(before: seq<Pixel>, now: seq<Pixel>, ring: seq<Pixel>, base: nat, step: nat, n: nat, k: nat,
                            i: nat, to: nat, total: nat)
    requires LineInside(|before|, base, step, n) && 1 <= k <= 8
  {
    var line := Line(before, base, step, n);
    && i <= n && total == Sum(Window(line, i, k)) && RingHolds(ring, line, k, i, to)
       && Progress(before, now, base, step, n, k, i)
  }

  lemma FilteringStarts(before: seq<Pixel>, ring: seq<Pixel>, base: nat, step: nat, n: nat, k: nat)
    requires LineInside(|before|, base, step, n) && 1 <= k <= 8 == |ring|
    requires forall x | 0 <= x < k :: ring[x] == 0
    ensures Filtering(before, before, ring, base, step, n, k, 0, k, 0)
  {
    hide Times, Line, Smoothed;
    forall x: nat | x < n ensures base + Times(x, step) < |before| { LinePosition(|before|, base, step, n, x); }
  }

  lemma StepFacts(before: seq<Pixel>, now: seq<Pixel>, ring: seq<Pixel>, base: nat, step: nat, n: nat, k: nat,
                  i: nat, to: nat, total: nat)
    requires LineInside(|before|, base, step, n) && 1 <= k <= 8 && i < n && i < to
    requires Filtering(before, now, ring, base, step, n, k, i, to, total)
    ensures var line, at := Line(before, base, step, n), base + Times(i, step);
      && at < |now| == |before| && |ring| == MAX_OVERSAMPLE && now[at] == line[i]
      && Unsigned(total + now[at] - ring[i % MAX_OVERSAMPLE]) == Sum(Window(line, i + 1, k))
      && UnsignedChar(Mean(Sum(Window(line, i + 1, k)), k)) == Smoothed(line, k)[i]
  {
    hide Times, Smoothed, Sum, Window, LineInside, Unsigned, UnsignedChar, Mean;
    TotalStep(Line(before, base, step, n), k, i, total, ring[i % MAX_OVERSAMPLE]);
  }

  lemma SlideIn(before: seq<Pixel>, now: seq<Pixel>, ring: seq<Pixel>, base: nat, step: nat, n: nat, k: nat, i: nat,
                total: nat)
    requires LineInside(|before|, base, step, n) && 1 <= k <= 8 && i < n
    requires Filtering(before, now, ring, base, step, n, k, i, i + k, total)
    ensures var at := base + Times(i, step);
      && at < |now| && |ring| == MAX_OVERSAMPLE
      && var total' := Unsigned(total + now[at] - ring[i % MAX_OVERSAMPLE]);
      Filtering(before, now[at := UnsignedChar(Mean(total', k))], ring[(i + k) % MAX_OVERSAMPLE := now[at]],
                base, step, n, k, i + 1, i + 1 + k, total')
  {
    hide Times, Line, Smoothed, Sum, Window, Progress, RingHolds, LineInside, Unsigned, UnsignedChar, Mean;
    StepFacts(before, now, ring, base, step, n, k, i, i + k, total);
    var line := Line(before, base, step, n);
    RingStep(ring, line, k, i);
    ProgressStep(before, now, base, step, n, k, i, Smoothed(line, k)[i]);
  }

  // Over the clear tail nothing is added to the total and the ring is only read.
  lemma SlideOut(before: seq<Pixel>, now: seq<Pixel>, ring: seq<Pixel>, base: nat, step: nat, n: nat, k: nat, i: nat,
                 total: nat)
    requires LineInside(|before|, base, step, n) && 1 <= k <= 8 && i < n < i + k
      && TailClear(Line(before, base, step, n), k)
    requires Filtering(before, now, ring, base, step, n, k, i, n, total)
    ensures var at := base + Times(i, step);
      && at < |now| && |ring| == MAX_OVERSAMPLE && now[at] == 0
      && var total' := Unsigned(total - ring[i % MAX_OVERSAMPLE]);
      Filtering(before, now[at := UnsignedChar(Mean(total', k))], ring, base, step, n, k, i + 1, n, total')
  {
    hide Times, Line, Smoothed, Sum, Window, Progress, RingHolds, LineInside, Unsigned, UnsignedChar, Mean;
    StepFacts(before, now, ring, base, step, n, k, i, n, total);
    var line := Line(before, base, step, n);
    RingShrink(ring, line, k, i, n, i + 1, n);
    ProgressStep(before, now, base, step, n, k, i, Smoothed(line, k)[i]);
  }

  lemma TailBegins(before: seq<Pixel>, now: seq<Pixel>, ring: seq<Pixel>, base: nat, step: nat, n: nat, k: nat, i: nat,
                   total: nat)
    requires LineInside(|before|, base, step, n) && 1 <= k <= 8 && n <= i + k
    requires Filtering(before, now, ring, base, step, n, k, i, i + k, total)
    ensures Filtering(before, now, ring, base, step, n, k, i, n, total)
  {}

  // One row or column, overwritten while the ring buffer keeps what still has to be subtracted.
  method FilterLine(pixels: array<Pixel>, base: nat, step: nat, n: nat, kernelWidth: nat, buffer: array<Pixel>)
    requires 1 <= kernelWidth <= MAX_OVERSAMPLE == buffer.Length && buffer != pixels
    requires LineInside(pixels.Length, base, step, n) && TailClear(Line(pixels[..], base, step, n), kernelWidth)
    modifies pixels, buffer
    ensures Progress(old(pixels[..]), pixels[..], base, step, n, kernelWidth, n)
  {
    hide Times, Line, Mean, Filtering, Progress, LineInside, TailClear, Unsigned, UnsignedChar;
    ghost var k, before := kernelWidth, pixels[..];
    var safe := n - kernelWidth;
    ClearRing(buffer, kernelWidth);
    FilteringStarts(before, buffer[..], base, step, n, k);
    var total: nat, i: nat := 0, 0;
    while i <= safe
      invariant 0 <= i <= n && (i == 0 || i <= safe + 1)
      invariant Filtering(before, pixels[..], buffer[..], base, step, n, k, i, i + k, total)
    {
      SlideIn(before, pixels[..], buffer[..], base, step, n, k, i, total);
      var at := base + Times(i, step);
      total := Unsigned(total + pixels[at] - buffer[i % MAX_OVERSAMPLE]);
      buffer[(i + kernelWidth) % MAX_OVERSAMPLE] := pixels[at];
      pixels[at] := UnsignedChar(Mean(total, kernelWidth));
      i := i + 1;
    }
    TailBegins(before, pixels[..], buffer[..], base, step, n, k, i, total);
    while i < n
      invariant n - k < i <= n && 0 <= i
      invariant Filtering(before, pixels[..], buffer[..], base, step, n, k, i, n, total)
    {
      SlideOut(before, pixels[..], buffer[..], base, step, n, k, i, total);
      var at := base + Times(i, step);
      assert pixels[at] == 0;
      total := Unsigned(total - buffer[i % MAX_OVERSAMPLE]);
      pixels[at] := UnsignedChar(Mean(total, kernelWidth));
      i := i + 1;
    }
    FilteringEnds(before, pixels[..], buffer[..], base, step, n, k, total);
  }

  lemma FilteringEnds(before: seq<Pixel>, now: seq<Pixel>, ring: seq<Pixel>, base: nat, step: nat, n: nat, k: nat,
                      total: nat)
    requires LineInside(|before|, base, step, n) && 1 <= k <= 8
    requires Filtering(before, now, ring, base, step, n, k, n, n, total)
    ensures Progress(before, now, base, step, n, k, n)
  {}

  // ---------- all rows, all columns ----------

  datatype Axis = Rows | Columns

  function Base(axis: Axis, stride: nat, j: nat): nat {
    if axis.Rows? then Times(j, stride) else j
  }

  function Step(axis: Axis, stride: nat): nat {
    if axis.Rows? then 1 else stride
  }

  // A bitmap of w by h pixels whose rows are stride apart.
  predicate BitmapInside(size: nat, w: nat, h: nat, stride: nat) {
    w <= stride && (h > 0 && w > 0 ==> Times(h - 1, stride) + w <= size)
  }

  function Count(axis: Axis, w: nat, h: nat): nat { if axis.Rows? then h else w }

  function Extent(axis: Axis, w: nat, h: nat): nat { if axis.Rows? then w else h }

  lemma LinesInside(size: nat, w: nat, h: nat, stride: nat, axis: Axis, j: nat)
    requires BitmapInside(size, w, h, stride) && j < Count(axis, w, h)
    ensures LineInside(size, Base(axis, stride, j), Step(axis, stride), Extent(axis, w, h))
  {
    hide Times;
    if axis.Rows? && w > 0 {
      TimesMonotone(j, h - 1, stride);
      TimesByOne(w - 1);
    }
  }

  lemma TimesByOne(a: nat)
    ensures Times(a, 1) == a
  {}

  // Row or column j.
  function LineOf(p: seq<Pixel>, w: nat, h: nat, stride: nat, axis: Axis, j: nat): (line: seq<Pixel>)
    requires BitmapInside(|p|, w, h, stride) && j < Count(axis, w, h)
    ensures |line| == Extent(axis, w, h)
  {
    LinesInside(|p|, w, h, stride, axis, j);
    Line(p, Base(axis, stride, j), Step(axis, stride), Extent(axis, w, h))
  }

  // q is a pixel of the bitmap, not one of the padding between its rows.
  predicate InBitmap(q: nat, w: nat, h: nat, stride: nat) {
    exists y: nat :: y < h && Times(y, stride) <= q < Times(y, stride) + w
  }

  lemma OnLineInBitmap(q: nat, w: nat, h: nat, stride: nat, axis: Axis, j: nat)
    requires j < Count(axis, w, h) && OnLine(q, Base(axis, stride, j), Step(axis, stride), Extent(axis, w, h))
    ensures InBitmap(q, w, h, stride)
  {
    hide Times;
    var i: nat :| i < Extent(axis, w, h) && q == Base(axis, stride, j) + Times(i, Step(axis, stride));
    TimesByOne(i);
    if axis.Rows? {
      assert Times(j, stride) <= q < Times(j, stride) + w;
    } else {
      assert Times(i, stride) <= q < Times(i, stride) + w;
    }
  }

  // Different rows share no pixel, and neither do different columns.
  lemma LinesApart(w: nat, h: nat, stride: nat, axis: Axis, j: nat, j': nat, i: nat)
    requires w <= stride && j < Count(axis, w, h) && j' < Count(axis, w, h) && j != j' && i < Extent(axis, w, h)
    ensures !OnLine(Base(axis, stride, j) + Times(i, Step(axis, stride)), Base(axis, stride, j'), Step(axis, stride),
      Extent(axis, w, h))
  {
    hide Times;
    var q := Base(axis, stride, j) + Times(i, Step(axis, stride));
    TimesByOne(i);
    forall i': nat | i' < Extent(axis, w, h)
      ensures q != Base(axis, stride, j') + Times(i', Step(axis, stride))
    {
      TimesByOne(i');
      if axis.Rows? { RowColumnUnique(stride, j, i, j', i'); } else { RowColumnUnique(stride, i, j, i', j'); }
    }
  }

  // The first j lines are smoothed, the others and the padding untouched.
  ghost predicate LinesDone(before: seq<Pixel>, now: seq<Pixel>, w: nat, h: nat, stride: nat, axis: Axis, k: nat,
                            j: nat)
    requires BitmapInside(|before|, w, h, stride) && k > 0
  {
    && |now| == |before|
    && (forall l: nat | l < Count(axis, w, h) ::
          LineOf(now, w, h, stride, axis, l)
          == if l < j then Smoothed(LineOf(before, w, h, stride, axis, l), k)
            else LineOf(before, w, h, stride, axis, l))
    && forall q: nat | q < |now| && !InBitmap(q, w, h, stride) :: now[q] == before[q]
  }

  lemma LineKept(before: seq<Pixel>, now: seq<Pixel>, w: nat, h: nat, stride: nat, axis: Axis, k: nat, j: nat, l: nat)
    requires BitmapInside(|before|, w, h, stride) && k > 0 && |now| == |before|
    requires j < Count(axis, w, h) && l < Count(axis, w, h) && l != j
    requires forall q: nat | q < |now| && !OnLine(q, Base(axis, stride, j), Step(axis, stride), Extent(axis, w, h)) ::
      now[q] == before[q]
    ensures LineOf(now, w, h, stride, axis, l) == LineOf(before, w, h, stride, axis, l)
  {
    hide Times, OnLine, Base, Step, Extent, BitmapInside, LineInside;
    LinesInside(|now|, w, h, stride, axis, l);
    BitmapStride(|now|, w, h, stride);
    var n, base, step := Extent(axis, w, h), Base(axis, stride, l), Step(axis, stride);
    forall i: nat | i < n
      ensures base + Times(i, step) < |now| && now[base + Times(i, step)] == before[base + Times(i, step)]
    {
      LinePosition(|now|, base, step, n, i);
      LinesApart(w, h, stride, axis, l, j, i);
    }
  }

  lemma BitmapStride(size: nat, w: nat, h: nat, stride: nat)
    requires BitmapInside(size, w, h, stride)
    ensures w <= stride
  {}

  // Smoothing line j of the pixels.
  lemma LinesStep(before: seq<Pixel>, mid: seq<Pixel>, now: seq<Pixel>, w: nat, h: nat, stride: nat, axis: Axis, k: nat,
                  j: nat)
    requires BitmapInside(|before|, w, h, stride) && k > 0 && j < Count(axis, w, h)
    requires LinesDone(before, mid, w, h, stride, axis, k, j) && |mid| == |before|
    requires LineInside(|mid|, Base(axis, stride, j), Step(axis, stride), Extent(axis, w, h))
    requires Progress(mid, now, Base(axis, stride, j), Step(axis, stride), Extent(axis, w, h), k, Extent(axis, w, h))
    ensures LinesDone(before, now, w, h, stride, axis, k, j + 1)
  {
    hide Times, OnLine, InBitmap, Base, Step, Extent, BitmapInside, LineInside, Smoothed, Count;
    forall l: nat | l < Count(axis, w, h)
      ensures LineOf(now, w, h, stride, axis, l)
           == if l < j + 1 then Smoothed(LineOf(before, w, h, stride, axis, l), k)
             else LineOf(before, w, h, stride, axis, l)
    {
      if l == j {
        LineSmoothed(mid, now, w, h, stride, axis, k, j);
      } else {
        LineKept(mid, now, w, h, stride, axis, k, j, l);
      }
    }
    forall q: nat | q < |now| && !InBitmap(q, w, h, stride) ensures now[q] == before[q] {
      if OnLine(q, Base(axis, stride, j), Step(axis, stride), Extent(axis, w, h)) {
        OnLineInBitmap(q, w, h, stride, axis, j);
      }
    }
  }

  lemma LineSmoothed(mid: seq<Pixel>, now: seq<Pixel>, w: nat, h: nat, stride: nat, axis: Axis, k: nat, j: nat)
    requires BitmapInside(|mid|, w, h, stride) && k > 0 && j < Count(axis, w, h) && |now| == |mid|
    requires LineInside(|mid|, Base(axis, stride, j), Step(axis, stride), Extent(axis, w, h))
    requires Progress(mid, now, Base(axis, stride, j), Step(axis, stride), Extent(axis, w, h), k, Extent(axis, w, h))
    ensures LineOf(now, w, h, stride, axis, j) == Smoothed(LineOf(mid, w, h, stride, axis, j), k)
  {
    hide Times, OnLine, Base, Step, Extent, BitmapInside, LineInside, Smoothed, Count;
    LinesInside(|now|, w, h, stride, axis, j);
    var n, base, step := Extent(axis, w, h), Base(axis, stride, j), Step(axis, stride);
    forall i: nat | i < n ensures Line(now, base, step, n)[i] == Smoothed(Line(mid, base, step, n), k)[i] {
      LinePosition(|now|, base, step, n, i);
    }
  }

  lemma NoLinesDone(before: seq<Pixel>, w: nat, h: nat, stride: nat, axis: Axis, k: nat)
    requires BitmapInside(|before|, w, h, stride) && k > 0
    ensures LinesDone(before, before, w, h, stride, axis, k, 0)
  {}

  // The lines still to be smoothed have clear tails.
  lemma TailsClear(before: seq<Pixel>, now: seq<Pixel>, w: nat, h: nat, stride: nat, axis: Axis, k: nat, j: nat)
    requires BitmapInside(|before|, w, h, stride) && k > 0 && j < Count(axis, w, h)
    requires TailClear(LineOf(before, w, h, stride, axis, j), k) && LinesDone(before, now, w, h, stride, axis, k, j)
    ensures |now| == |before| && LineInside(|now|, Base(axis, stride, j), Step(axis, stride), Extent(axis, w, h))
    ensures TailClear(Line(now, Base(axis, stride, j), Step(axis, stride), Extent(axis, w, h)), k)
  {
    hide Times, InBitmap, Base, Step, Extent, BitmapInside, LineInside, Smoothed, Count, TailClear, Line;
    LinesInside(|now|, w, h, stride, axis, j);
  }

  // Smooths every row.
  method HorizontalPrefilter(pixels: array<Pixel>, w: nat, h: nat, stride: nat, kernelWidth: nat)
    requires 1 <= kernelWidth <= MAX_OVERSAMPLE && BitmapInside(pixels.Length, w, h, stride)
    requires forall y: nat | y < h :: TailClear(LineOf(pixels[..], w, h, stride, Rows, y), kernelWidth)
    modifies pixels
    ensures LinesDone(old(pixels[..]), pixels[..], w, h, stride, Rows, kernelWidth, h)
  {
    hide Times, BitmapInside, LineInside, TailClear, LineOf, LinesDone, Progress, Line;
    ghost var before := pixels[..];
    var buffer := new Pixel[MAX_OVERSAMPLE](_ => 0);
    NoLinesDone(before, w, h, stride, Rows, kernelWidth);
    for j := 0 to h
      invariant LinesDone(before, pixels[..], w, h, stride, Rows, kernelWidth, j)
    {
      ghost var mid := pixels[..];
      TailsClear(before, mid, w, h, stride, Rows, kernelWidth, j);
      FilterLine(pixels, Times(j, stride), 1, w, kernelWidth, buffer);
      LinesStep(before, mid, pixels[..], w, h, stride, Rows, kernelWidth, j);
    }
  }

  // Smooths every column.
  method VerticalPrefilter(pixels: array<Pixel>, w: nat, h: nat, stride: nat, kernelWidth: nat)
    requires 1 <= kernelWidth <= MAX_OVERSAMPLE && BitmapInside(pixels.Length, w, h, stride)
    requires forall x: nat | x < w :: TailClear(LineOf(pixels[..], w, h, stride, Columns, x), kernelWidth)
    modifies pixels
    ensures LinesDone(old(pixels[..]), pixels[..], w, h, stride, Columns, kernelWidth, w)
  {
    hide Times, BitmapInside, LineInside, TailClear, LineOf, LinesDone, Progress, Line;
    ghost var before := pixels[..];
    var buffer := new Pixel[MAX_OVERSAMPLE](_ => 0);
    NoLinesDone(before, w, h, stride, Columns, kernelWidth);
    for j := 0 to w
      invariant LinesDone(before, pixels[..], w, h, stride, Columns, kernelWidth, j)
    {
      ghost var mid := pixels[..];
      TailsClear(before, mid, w, h, stride, Columns, kernelWidth, j);
      FilterLine(pixels, j, stride, h, kernelWidth, buffer);
      LinesStep(before, mid, pixels[..], w, h, stride, Columns, kernelWidth, j);
    }
  }

  // ---------- both filters ----------

  lemma PixelTwice(p: seq<Pixel>, w: nat, h: nat, stride: nat, x: nat, y: nat)
    requires BitmapInside(|p|, w, h, stride) && x < w && y < h
    ensures LineOf(p, w, h, stride, Rows, y)[x] == LineOf(p, w, h, stride, Columns, x)[y]
  {
    TimesByOne(x);
  }

  lemma {:induction false} SumOfClear(s: seq<Pixel>)
    requires forall i | 0 <= i < |s| :: s[i] == 0
    ensures Sum(s) == 0
  {
    if s != [] { SumOfClear(s[..|s| - 1]); }
  }

  lemma SmoothedClear(line: seq<Pixel>, k: nat)
    requires k > 0 && forall i | 0 <= i < |line| :: line[i] == 0
    ensures forall i | 0 <= i < |line| :: Smoothed(line, k)[i] == 0
  {
    forall i | 0 <= i < |line| ensures Smoothed(line, k)[i] == 0 { SumOfClear(Window(line, i + 1, k)); }
  }

  // Smoothing the rows leaves the clear rows at the bottom clear, so the columns may be smoothed next.
  lemma BottomStaysClear(before: seq<Pixel>, now: seq<Pixel>, w: nat, h: nat, stride: nat, kx: nat, ky: nat)
    requires BitmapInside(|before|, w, h, stride) && kx > 0 && LinesDone(before, now, w, h, stride, Rows, kx, h)
    requires forall x: nat | x < w :: TailClear(LineOf(before, w, h, stride, Columns, x), ky)
    ensures |now| == |before| && forall x: nat | x < w :: TailClear(LineOf(now, w, h, stride, Columns, x), ky)
  {
    hide LineOf, Smoothed, BitmapInside;
    forall x: nat, y: nat | x < w && y < h < y + ky ensures LineOf(now, w, h, stride, Columns, x)[y] == 0 {
      var row := LineOf(before, w, h, stride, Rows, y);
      forall x': nat | x' < w ensures row[x'] == 0 { PixelTwice(before, w, h, stride, x', y); }
      SmoothedClear(row, kx);
      PixelTwice(now, w, h, stride, x, y);
      assert LineOf(now, w, h, stride, Rows, y) == Smoothed(row, kx);
    }
  }

  lemma SmoothedByOne(line: seq<Pixel>)
    ensures Smoothed(line, 1) == line
  {
    forall i | 0 <= i < |line| ensures Smoothed(line, 1)[i] == line[i] {
      assert Window(line, i + 1, 1) == [line[i]];
      assert Sum([line[i]]) == line[i];
    }
  }

  lemma NothingToSmooth(p: seq<Pixel>, w: nat, h: nat, stride: nat, axis: Axis)
    requires BitmapInside(|p|, w, h, stride)
    ensures LinesDone(p, p, w, h, stride, axis, 1, Count(axis, w, h))
  {
    hide LineOf, Smoothed, BitmapInside;
    forall l: nat | l < Count(axis, w, h)
      ensures LineOf(p, w, h, stride, axis, l) == Smoothed(LineOf(p, w, h, stride, axis, l), 1)
    {
      SmoothedByOne(LineOf(p, w, h, stride, axis, l));
    }
  }

  // An oversampled glyph bitmap, whose last columns and rows were left clear, is smoothed along its rows and then its
  // columns.
  method PrefilterBitmap(pixels: array<Pixel>, w: nat, h: nat, stride: nat, prefilterX: nat, prefilterY: nat)
    returns (ghost mid: seq<Pixel>)
    requires 1 <= prefilterX <= MAX_OVERSAMPLE && 1 <= prefilterY <= MAX_OVERSAMPLE
      && BitmapInside(pixels.Length, w, h, stride)
    requires forall y: nat | y < h :: TailClear(LineOf(pixels[..], w, h, stride, Rows, y), prefilterX)
    requires forall x: nat | x < w :: TailClear(LineOf(pixels[..], w, h, stride, Columns, x), prefilterY)
    modifies pixels
    ensures LinesDone(old(pixels[..]), mid, w, h, stride, Rows, prefilterX, h) && |mid| == pixels.Length
    ensures LinesDone(mid, pixels[..], w, h, stride, Columns, prefilterY, w)
  {
    hide LineOf, LinesDone, BitmapInside, TailClear;
    ghost var before := pixels[..];
    NothingToSmooth(before, w, h, stride, Rows);
    if prefilterX > 1 {
      HorizontalPrefilter(pixels, w, h, stride, prefilterX);
    }
    mid := pixels[..];
    BottomStaysClear(before, mid, w, h, stride, prefilterX, prefilterY);
    NothingToSmooth(mid, w, h, stride, Columns);
    if prefilterY > 1 {
      VerticalPrefilter(pixels, w, h, stride, prefilterY);
    }
  }
}
