/** The eight data masks (section 7.8.2 of ISO/IEC 18004:2015). */
module Masking {
  import opened Bits
  import opened Modules
  import opened FormatBits

  predicate Inverts(m: Mask, x: nat, y: nat) {
    if m == 0 then (x + y) % 2 == 0
    else if m == 1 then y % 2 == 0
    else if m == 2 then x % 3 == 0
    else if m == 3 then (x + y) % 3 == 0
    else if m == 4 then (x / 3 + y / 2) % 2 == 0
    else if m == 5 then x * y % 2 + x * y % 3 == 0
    else if m == 6 then (x * y % 2 + x * y % 3) % 2 == 0
    else ((x + y) % 2 + x * y % 3) % 2 == 0
  }

  // g with the mask applied outside the function modules f.
  function Masked(g: Grid, f: Grid, n: nat, m: Mask): (g': Grid)
    requires Square(g, n) && Square(f, n)
    ensures Square(g', n)
  {
    seq(n, y requires 0 <= y < n => seq(n, x requires 0 <= x < n => g[y][x] != (!f[y][x] && Inverts(m, x, y))))
  }

  lemma MaskedAt(g: Grid, f: Grid, n: nat, m: Mask, x: nat, y: nat)
    requires Square(g, n) && Square(f, n) && x < n && y < n
    ensures Masked(g, f, n, m)[y][x] == (g[y][x] != (!f[y][x] && Inverts(m, x, y)))
  {}

  // Two grids of one size with the same modules are equal.
  lemma SameGrid(g: Grid, h: Grid, n: nat)
    requires Square(g, n) && Square(h, n)
    requires forall x: nat, y: nat | x < n && y < n :: g[y][x] == h[y][x]
    ensures g == h
  {
    forall y | 0 <= y < n ensures g[y] == h[y] {
      assert forall x | 0 <= x < n :: g[y][x] == h[y][x];
    }
  }

  // Applying a mask twice restores the symbol, and function modules never change.
  lemma MaskTwice(g: Grid, f: Grid, n: nat, m: Mask)
    requires Square(g, n) && Square(f, n)
    ensures Masked(Masked(g, f, n, m), f, n, m) == g
    ensures forall x: nat, y: nat | x < n && y < n && f[y][x] :: Masked(g, f, n, m)[y][x] == g[y][x]
  {
    hide Inverts;
    var once := Masked(g, f, n, m);
    var twice := Masked(once, f, n, m);
    forall x: nat, y: nat | x < n && y < n
      ensures twice[y][x] == g[y][x]
    {
      MaskedAt(g, f, n, m, x, y);
      MaskedAt(once, f, n, m, x, y);
    }
    SameGrid(twice, g, n);
  }

  // Modules before (x, y) in row order are masked.
  ghost predicate MaskStage(g0: Grid, f: Grid, g: Grid, n: nat, m: Mask, x: nat, y: nat) {
    && Square(g0, n) && Square(f, n) && Square(g, n)
    && forall x': nat, y': nat | x' < n && y' < n ::
         g[y'][x'] == (g0[y'][x'] != ((y' < y || (y' == y && x' < x)) && !f[y'][x'] && Inverts(m, x', y')))
  }

  lemma MaskStageStep(g0: Grid, f: Grid, g: Grid, n: nat, m: Mask, x: nat, y: nat)
    requires MaskStage(g0, f, g, n, m, x, y) && x < n && y < n
    ensures MaskStage(g0, f, if f[y][x] then g else Paint(g, x, y, g[y][x] != Inverts(m, x, y)), n, m, x + 1, y)
  {
    hide Inverts;
  }

  lemma MaskStageEnds(g0: Grid, f: Grid, g: Grid, n: nat, m: Mask, y: nat)
    requires Square(g0, n) && Square(f, n)
    ensures MaskStage(g0, f, g0, n, m, 0, 0)
    ensures MaskStage(g0, f, g, n, m, n, y) ==> MaskStage(g0, f, g, n, m, 0, y + 1)
    ensures MaskStage(g0, f, g, n, m, 0, n) ==> g == Masked(g0, f, n, m)
  {
    hide Inverts;
    if MaskStage(g0, f, g, n, m, 0, n) {
      forall x: nat, y: nat | x < n && y < n
        ensures g[y][x] == Masked(g0, f, n, m)[y][x]
      {
        MaskedAt(g0, f, n, m, x, y);
      }
      SameGrid(g, Masked(g0, f, n, m), n);
    }
  }

  method ApplyMask(functionModules: array<Byte>, qrcode: array<Byte>, m: Mask, ghost n: nat)
    requires functionModules != qrcode && Sized(functionModules[..], n) && Sized(qrcode[..], n)
    modifies qrcode
    ensures Sized(qrcode[..], n)
    ensures GridOf(qrcode[..], n) == Masked(old(GridOf(qrcode[..], n)), GridOf(functionModules[..], n), n, m)
  {
    var qrsize := qrcode[0] as int;
    assert qrsize == n;
    hide Sized, GridOf, MaskStage, Inverts, Masked, Paint, Square;
    ghost var g0, f := GridOf(qrcode[..], n), GridOf(functionModules[..], n);
    MaskStageEnds(g0, f, g0, n, m, 0);
    for y := 0 to qrsize
      invariant Sized(qrcode[..], n) && Sized(functionModules[..], n) && GridOf(functionModules[..], n) == f
      invariant MaskStage(g0, f, GridOf(qrcode[..], n), n, m, 0, y)
    {
      for x := 0 to qrsize
        invariant Sized(qrcode[..], n) && Sized(functionModules[..], n) && GridOf(functionModules[..], n) == f
        invariant MaskStage(g0, f, GridOf(qrcode[..], n), n, m, x, y)
      {
        MaskStageStep(g0, f, GridOf(qrcode[..], n), n, m, x, y);
        var skip := GetModuleBounded(functionModules, x, y, n);
        if !skip {
          var val := GetModuleBounded(qrcode, x, y, n);
          SetModuleBounded(qrcode, x, y, val != Inverts(m, x, y), n);
        }
      }
      MaskStageEnds(g0, f, GridOf(qrcode[..], n), n, m, y);
    }
    MaskStageEnds(g0, f, GridOf(qrcode[..], n), n, m, 0);
  }
}
