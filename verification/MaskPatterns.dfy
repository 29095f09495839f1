/**
 * What the eight masks look like (table 10 of ISO/IEC 18004:2015), by laws of the pattern each leaves on an empty
 * symbol.
 */
module MaskPatterns {
  import opened Modules
  import opened FormatBits
  import opened Masking

  function Blank(n: nat): (g: Grid)
    ensures Square(g, n)
    ensures forall x: nat, y: nat | x < n && y < n :: !g[y][x]
  {
    seq(n, y => seq(n, x => false))
  }

  // What mask m leaves on a symbol without dark or function modules.
  predicate Shown(m: Mask, n: nat, x: nat, y: nat)
    requires x < n && y < n
  {
    Masked(Blank(n), Blank(n), n, m)[y][x]
  }

  // The mask flips the modules that are dark in its pattern, except function modules.
  lemma MaskFlips(g: Grid, f: Grid, n: nat, m: Mask, x: nat, y: nat)
    requires Square(g, n) && Square(f, n) && x < n && y < n
    ensures Masked(g, f, n, m)[y][x] == if !f[y][x] && Shown(m, n, x, y) then !g[y][x] else g[y][x]
  {
    hide Inverts;
    MaskedAt(g, f, n, m, x, y);
    ShownIs(m, n, x, y);
  }

  lemma ShownIs(m: Mask, n: nat, x: nat, y: nat)
    requires x < n && y < n
    ensures Shown(m, n, x, y) == Inverts(m, x, y)
  {
    hide Inverts;
    MaskedAt(Blank(n), Blank(n), n, m, x, y);
  }

  // The pattern of a mask does not depend on the size of the symbol.
  lemma SameInAnySize(m: Mask, n: nat, n': nat, x: nat, y: nat)
    requires x < n && y < n && x < n' && y < n'
    ensures Shown(m, n, x, y) == Shown(m, n', x, y)
  {
    hide Shown, Inverts;
    ShownIs(m, n, x, y);
    ShownIs(m, n', x, y);
  }

  // A chessboard.
  lemma Mask0(n: nat, x: nat, y: nat)
    requires x < n && y < n
    ensures Shown(0, n, 0, 0)
    ensures x + 1 < n ==> Shown(0, n, x + 1, y) != Shown(0, n, x, y)
    ensures y + 1 < n ==> Shown(0, n, x, y + 1) != Shown(0, n, x, y)
  {
    hide Shown;
    Near(0, n, x, y);
  }

  // Every other row.
  lemma Mask1(n: nat, x: nat, y: nat)
    requires x < n && y < n
    ensures Shown(1, n, 0, 0)
    ensures x + 1 < n ==> Shown(1, n, x + 1, y) == Shown(1, n, x, y)
    ensures y + 1 < n ==> Shown(1, n, x, y + 1) != Shown(1, n, x, y)
  {
    hide Shown;
    Near(1, n, x, y);
  }

  // The first of every three columns.
  lemma Mask2(n: nat, x: nat, y: nat)
    requires x < n && y < n && n >= 3
    ensures Shown(2, n, 0, 0) && !Shown(2, n, 1, 0) && !Shown(2, n, 2, 0)
    ensures x + 3 < n ==> Shown(2, n, x + 3, y) == Shown(2, n, x, y)
    ensures y + 1 < n ==> Shown(2, n, x, y + 1) == Shown(2, n, x, y)
  {
    hide Shown;
    Near(2, n, x, y);
  }

  // One of every three diagonals.
  lemma Mask3(n: nat, x: nat, y: nat)
    requires x < n && y < n && n >= 3
    ensures Shown(3, n, 0, 0) && !Shown(3, n, 1, 0) && !Shown(3, n, 2, 0)
    ensures x + 3 < n ==> Shown(3, n, x + 3, y) == Shown(3, n, x, y)
    ensures x + 1 < n && y + 1 < n ==> Shown(3, n, x + 1, y) == Shown(3, n, x, y + 1)
  {
    hide Shown;
    Near(3, n, x, y);
  }

  // Blocks three wide and two high, each unlike its neighbours.
  lemma Mask4(n: nat, x: nat, y: nat)
    requires x < n && y < n && n >= 3
    ensures x < 3 && y < 2 ==> Shown(4, n, x, y)
    ensures x + 3 < n ==> Shown(4, n, x + 3, y) != Shown(4, n, x, y)
    ensures y + 2 < n ==> Shown(4, n, x, y + 2) != Shown(4, n, x, y)
  {
    hide Shown, Inverts;
    Near(4, n, x, y);
    BlocksAlternate(x, y);
    BlocksAlternate(0, 0);
  }

  lemma BlocksAlternate(x: nat, y: nat)
    ensures x < 3 && y < 2 ==> Inverts(4, x, y)
    ensures Inverts(4, x + 3, y) != Inverts(4, x, y) && Inverts(4, x, y + 2) != Inverts(4, x, y)
  {
    assert (x + 3) / 3 == x / 3 + 1;
    assert (y + 2) / 2 == y / 2 + 1;
  }

  // What the pattern shows around a module, by the condition for it.
  lemma Near(m: Mask, n: nat, x: nat, y: nat)
    requires x < n && y < n
    ensures Shown(m, n, x, y) == Inverts(m, x, y)
    ensures x + 1 < n ==> Shown(m, n, x + 1, y) == Inverts(m, x + 1, y)
    ensures x + 3 < n ==> Shown(m, n, x + 3, y) == Inverts(m, x + 3, y)
    ensures x + 6 < n ==> Shown(m, n, x + 6, y) == Inverts(m, x + 6, y)
    ensures y + 1 < n ==> Shown(m, n, x, y + 1) == Inverts(m, x, y + 1)
    ensures y + 2 < n ==> Shown(m, n, x, y + 2) == Inverts(m, x, y + 2)
    ensures Shown(m, n, 0, 0) == Inverts(m, 0, 0) && Shown(m, n, y, x) == Inverts(m, y, x)
    ensures n >= 3 ==> Shown(m, n, 1, 0) == Inverts(m, 1, 0) && Shown(m, n, 2, 0) == Inverts(m, 2, 0)
  {
    hide Shown, Inverts;
    forall x': nat, y': nat | x' < n && y' < n
      ensures Shown(m, n, x', y') == Inverts(m, x', y')
    {
      ShownIs(m, n, x', y');
    }
  }

  // The other three repeat every six modules both ways, and are symmetric.
  const PATTERN5 := ["######", "#.....", "#..#..", "#.#.#.", "#..#..", "#....."]
  const PATTERN6 := ["######", "###...", "##.##.", "#.#.#.", "#.##.#", "#...##"]
  const PATTERN7 := ["#.#.#.", "...###", "#...##", ".#.#.#", "###...", ".###.."]

  function Pattern(m: Mask): (p: seq<string>)
    requires m >= 5
  {
    if m == 5 then PATTERN5 else if m == 6 then PATTERN6 else PATTERN7
  }

  lemma Masks5To7(m: Mask, n: nat, x: nat, y: nat)
    requires m >= 5 && x < n && y < n
    ensures x < 6 && y < 6 ==> Shown(m, n, x, y) == (Pattern(m)[y][x] == '#')
    ensures x + 6 < n ==> Shown(m, n, x + 6, y) == Shown(m, n, x, y)
    ensures Shown(m, n, y, x) == Shown(m, n, x, y)
  {
    hide Shown, Inverts;
    Near(m, n, x, y);
    Repeats(m, x, y);
    if x < 6 && y < 6 { InPattern(m, x, y); }
  }

  // The condition of mask m in terms of what the sum and the product leave when divided by 2 and by 3.
  predicate Combined(m: Mask, sum2: nat, product2: nat, product3: nat) {
    if m == 5 then product2 + product3 == 0
    else if m == 6 then (product2 + product3) % 2 == 0
    else (sum2 + product3) % 2 == 0
  }

  lemma InvertsIs(m: Mask, x: nat, y: nat)
    requires m >= 5
    ensures Inverts(m, x, y) == Combined(m, (x + y) % 2, (x * y) % 2, (x * y) % 3)
  {}

  lemma Repeats(m: Mask, x: nat, y: nat)
    requires m >= 5
    ensures Inverts(m, x + 6, y) == Inverts(m, x, y) == Inverts(m, y, x)
  {
    hide Inverts, Combined;
    InvertsIs(m, x + 6, y);
    InvertsIs(m, x, y);
    InvertsIs(m, y, x);
    Commutes(x, y);
    SixFurther(x, y);
  }

  lemma Commutes(x: nat, y: nat)
    ensures x * y == y * x
  {}

  lemma SixFurther(x: nat, y: nat)
    ensures (x + 6 + y) % 2 == (x + y) % 2 && ((x + 6) * y) % 2 == (x * y) % 2 && ((x + 6) * y) % 3 == (x * y) % 3
  {
    assert (x + 6) * y == x * y + 6 * y;
    SixMore(x * y, y);
  }

  lemma SixMore(p: nat, y: nat)
    ensures (p + 6 * y) % 2 == p % 2 && (p + 6 * y) % 3 == p % 3
  {
    Twos(p, 3 * y);
    Threes(p, 2 * y);
  }

  lemma Twos(p: nat, q: nat)
    ensures (p + 2 * q) % 2 == p % 2
  {}

  lemma Threes(p: nat, q: nat)
    ensures (p + 3 * q) % 3 == p % 3
  {}

  lemma InPattern(m: Mask, x: nat, y: nat)
    requires m >= 5 && x < 6 && y < 6
    ensures Inverts(m, x, y) == (Pattern(m)[y][x] == '#')
  {
    hide Inverts;
    InvertsIs(m, x, y);
    InRow(m, x, y, x * y);
  }

  lemma InRow(m: Mask, x: nat, y: nat, p: nat)
    requires m >= 5 && x < 6 && y < 6 && p == x * y
    ensures Combined(m, (x + y) % 2, p % 2, p % 3) == (Pattern(m)[y][x] == '#')
  {
    if x == 0 { assert p == 0; }
    else if x == 1 { assert p == y; }
    else if x == 2 { assert p == 2 * y; }
    else if x == 3 { assert p == 3 * y; }
    else if x == 4 { assert p == 4 * y; }
    else { assert p == 5 * y; }
  }
}
