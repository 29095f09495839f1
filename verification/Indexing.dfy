/** Row and column arithmetic for rectangles stored row by row. */
module Indexing {

  function Times(a: nat, b: nat): nat { a * b }

  lemma TimesStep(a: nat, b: nat)
    ensures Times(a + 1, b) == Times(a, b) + b && Times(0, b) == 0
  {}

  lemma TimesMonotone(a: nat, c: nat, b: nat)
    requires a <= c
    ensures Times(a, b) <= Times(c, b)
  {}

  lemma DivMod(k: nat, n: nat)
    requires n > 0
    ensures k == Times(k / n, n) + k % n && k % n < n
  {}

  // Row and column of a position in rows of n are unique.
  lemma RowColumnUnique(n: nat, j: nat, i: nat, j': nat, i': nat)
    requires i < n && i' < n
    ensures Times(j, n) + i == Times(j', n) + i' <==> j == j' && i == i'
  {
    hide Times;
    if j < j' {
      TimesStep(j, n);
      TimesMonotone(j + 1, j', n);
    } else if j' < j {
      TimesStep(j', n);
      TimesMonotone(j' + 1, j, n);
    }
  }
}
