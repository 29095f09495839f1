/**
 * What the patterns of a finished symbol look like, module by module (sections 6.3 and 7.9 of ISO/IEC 18004:2015),
   at every
 * version, level and mask.
 */
module StandardPatterns {
  import opened Bits
  import opened Versions
  import opened Modules
  import opened FunctionModules
  import opened LightModules
  import opened FormatBits
  import opened CheckBits
  import opened RawModules
  import opened Symbol
  import opened SymbolInformation

  // A finder pattern with its separator, as it stands in the upper left corner.
  const FINDER := [
    "#######.",
    "#.....#.",
    "#.###.#.",
    "#.###.#.",
    "#.###.#.",
    "#.....#.",
    "#######.",
    "........"
  ]

  predicate FinderDark(x: nat, y: nat)
    requires x < 8 && y < 8
  {
    FINDER[y][x] == '#'
  }

  const ALIGNMENT := ["#####", "#...#", "#.#.#", "#...#", "#####"]

  // Function modules other than format and version information show the standard's patterns under every mask.
  lemma PatternShown(base: Grid, codewords: seq<Byte>, v: Version, e: Level, m: Mask, x: nat, y: nat)
    requires IsBase(base, codewords, v) && x < Side(v) && y < Side(v) && !InVersionBlock(v, x, y)
      && !IsFormat(Side(v), x, y)
    requires x == 6 || y == 6 || InFinderRings(v, x, y) || InAlignment(v, x, y, 2)
    ensures Square(base, Side(v)) && Candidate(base, v, e, m)[y][x] == StandardColour(v, x, y)
  {
    hide Candidate, IsFunction, InAlignment, InFinderRings, StandardColour, InVersionBlock, IsFormat, CodewordPath,
      LightPass;
    TwoPassesDrawTheStandard(v, x, y);
    CandidateAt(base, v, e, m, x, y);
  }

  lemma InFinder8(v: Version, x: nat, y: nat)
    requires x < 8 && y < 8
    ensures InFinderRings(v, x, y) && !InVersionBlock(v, x, y) && !IsFormat(Side(v), x, y)
    ensures var x' := Side(v) - 1 - x; InFinderRings(v, x', y) && !InVersionBlock(v, x', y) && !IsFormat(Side(v), x', y)
    ensures var y' := Side(v) - 1 - y; InFinderRings(v, x, y') && !InVersionBlock(v, x, y') && !IsFormat(Side(v), x, y')
    ensures var dark := !FinderLight(x - 3, y - 3);
      StandardColour(v, x, y) == StandardColour(v, Side(v) - 1 - x, y) == StandardColour(v, x, Side(v) - 1 - y) == dark
  {
    hide InAlignment;
  }

  lemma FinderIs(x: nat, y: nat)
    requires x < 8 && y < 8
    ensures !FinderLight(x - 3, y - 3) == FinderDark(x, y)
  {
    if y == 0 {} else if y == 1 {} else if y == 2 {} else if y == 3 {}
    else if y == 4 {} else if y == 5 {} else if y == 6 {} else {}
  }

  // Three corners hold a finder pattern, each turned to its corner.
  lemma FindersShown(base: Grid, codewords: seq<Byte>, v: Version, e: Level, m: Mask, x: nat, y: nat)
    requires Square(base, Side(v)) && IsBase(base, codewords, v) && x < 8 && y < 8
    ensures var g, n := Candidate(base, v, e, m), Side(v);
      g[y][x] == g[y][n - 1 - x] == g[n - 1 - y][x] == FinderDark(x, y)
  {
    hide Candidate, IsBase, InFinderRings, StandardColour, InVersionBlock, IsFormat, FinderLight, FinderDark,
      InAlignment;
    InFinder8(v, x, y);
    FinderIs(x, y);
    PatternShown(base, codewords, v, e, m, x, y);
    PatternShown(base, codewords, v, e, m, Side(v) - 1 - x, y);
    PatternShown(base, codewords, v, e, m, x, Side(v) - 1 - y);
  }

  // Only one alignment pattern is near.
  lemma NearOnly(v: Version, i: nat, i': nat, x: int)
    requires i < NumAlign(v) && i' < NumAlign(v) && Near(v, i, x, 2) && Near(v, i', x, 2)
    ensures i == i'
  {
    hide AlignPos;
    if i < i' { AlignAscending(v, i, i'); } else if i' < i { AlignAscending(v, i', i); }
  }

  lemma InThisAlignment(v: Version, i: nat, j: nat, dx: int, dy: int, r: int)
    requires i < NumAlign(v) && j < NumAlign(v) && !Corner(v, i, j) && -2 <= dx <= 2 && -2 <= dy <= 2 && 0 <= r <= 2
    ensures InAlignment(v, AlignPos(v, i) + dx, AlignPos(v, j) + dy, r) <==> -r <= dx <= r && -r <= dy <= r
  {
    hide AlignPos, Corner;
    var x, y := AlignPos(v, i) + dx, AlignPos(v, j) + dy;
    if InAlignment(v, x, y, r) {
      var i': nat, j': nat :| i' < NumAlign(v) && j' < NumAlign(v) && !Corner(v, i', j') && Near(v, i', x, r)
        && Near(v, j', y, r);
      NearOnly(v, i, i', x);
      NearOnly(v, j, j', y);
    }
    if -r <= dx <= r && -r <= dy <= r { assert Near(v, i, x, r) && Near(v, j, y, r); }
  }

  lemma AlignmentColour(v: Version, i: nat, j: nat, dx: int, dy: int)
    requires i < NumAlign(v) && j < NumAlign(v) && !Corner(v, i, j) && -2 <= dx <= 2 && -2 <= dy <= 2
    ensures var x, y := AlignPos(v, i) + dx, AlignPos(v, j) + dy;
      && 0 <= x < Side(v) && 0 <= y < Side(v) && InAlignment(v, x, y, 2) && !InVersionBlock(v, x, y)
      && !InFinderRings(v, x, y) && !IsFormat(Side(v), x, y)
      && StandardColour(v, x, y) == (ALIGNMENT[dy + 2][dx + 2] == '#')
  {
    hide AlignPos, Corner, InAlignment, InVersionBlock;
    var x, y := AlignPos(v, i) + dx, AlignPos(v, j) + dy;
    InThisAlignment(v, i, j, dx, dy, 2);
    InThisAlignment(v, i, j, dx, dy, 1);
    InThisAlignment(v, i, j, dx, dy, 0);
    AlignRange(v, i);
    AlignRange(v, j);
    AlignmentClearOfFinders(v, x, y);
    ClearOfFormat(v, i, j, dx, dy);
  }

  // Patterns on row or column 6 lie between the finder patterns, where no format information is.
  lemma ClearOfFormat(v: Version, i: nat, j: nat, dx: int, dy: int)
    requires i < NumAlign(v) && j < NumAlign(v) && !Corner(v, i, j) && -2 <= dx <= 2 && -2 <= dy <= 2
    ensures !IsFormat(Side(v), AlignPos(v, i) + dx, AlignPos(v, j) + dy)
  {
    hide AlignPos;
    AlignRange(v, i);
    AlignRange(v, j);
  }

  // Alignment patterns of five by five stand at all positions of annex E but the corners.
  lemma AlignmentsShown(base: Grid, codewords: seq<Byte>, v: Version, e: Level, m: Mask, i: nat, j: nat, dx: int,
                        dy: int)
    requires Square(base, Side(v)) && IsBase(base, codewords, v)
    requires i < NumAlign(v) && j < NumAlign(v) && -2 <= dx <= 2 && -2 <= dy <= 2
    requires (i, j) != (0, 0) && (i, j) != (0, NumAlign(v) - 1) && (i, j) != (NumAlign(v) - 1, 0)
    ensures var x, y := AlignPos(v, i) + dx, AlignPos(v, j) + dy;
      0 <= x < Side(v) && 0 <= y < Side(v) && (Candidate(base, v, e, m)[y][x] <==> ALIGNMENT[dy + 2][dx + 2] == '#')
  {
    hide Candidate, IsBase, InFinderRings, StandardColour, InVersionBlock, IsFormat, InAlignment, AlignPos;
    AlignmentColour(v, i, j, dx, dy);
    PatternShown(base, codewords, v, e, m, AlignPos(v, i) + dx, AlignPos(v, j) + dy);
  }

  lemma TimingColour(v: Version, x: nat, y: nat)
    requires (x == 6 && 8 <= y < Side(v) - 8) || (y == 6 && 8 <= x < Side(v) - 8)
    ensures !InFinderRings(v, x, y) && StandardColour(v, x, y) == ((x + y) % 2 == 0)
  {
    hide AlignPos, InAlignment;
    if InAlignment(v, x, y, 2) {
      EvenInAlignment(v, x, y);
    }
  }

  lemma EvenInAlignment(v: Version, x: nat, y: nat)
    requires (x == 6 || y == 6) && InAlignment(v, x, y, 2)
    ensures (InAlignment(v, x, y, 0) || !InAlignment(v, x, y, 1)) == ((x + y) % 2 == 0)
  {
    hide AlignPos, Corner;
    var i: nat, j: nat :| i < NumAlign(v) && j < NumAlign(v) && !Corner(v, i, j) && Near(v, i, x, 2)
      && Near(v, j, y, 2);
    AlignRange(v, i);
    AlignRange(v, j);
    InThisAlignment(v, i, j, x - AlignPos(v, i), y - AlignPos(v, j), 0);
    InThisAlignment(v, i, j, x - AlignPos(v, i), y - AlignPos(v, j), 1);
  }

  // Row 6 and column 6 alternate between the finder patterns, dark at even places.
  lemma TimingShown(base: Grid, codewords: seq<Byte>, v: Version, e: Level, m: Mask, k: nat)
    requires Square(base, Side(v)) && IsBase(base, codewords, v) && 8 <= k < Side(v) - 8
    ensures var g := Candidate(base, v, e, m); (g[6][k] <==> k % 2 == 0) && (g[k][6] <==> k % 2 == 0)
  {
    hide Candidate, IsBase, InFinderRings, StandardColour, InAlignment;
    TimingColour(v, 6, k);
    TimingColour(v, k, 6);
    PatternShown(base, codewords, v, e, m, 6, k);
    PatternShown(base, codewords, v, e, m, k, 6);
  }

  // The places of both copies of the format information, and the module that is always dark.
  lemma FormatPlaces(base: Grid, v: Version, e: Level, m: Mask, k: nat)
    requires Square(base, Side(v)) && k < 15
    ensures var g, n, digit := Candidate(base, v, e, m), Side(v), Digits(Wide(FormatWord(e, m)), 15)[k];
      && g[n - 8][8]
      && (k <= 5 ==> g[k][8] == digit) && (k == 6 ==> g[7][8] == digit) && (k == 7 ==> g[8][8] == digit)
      && (k == 8 ==> g[8][7] == digit) && (9 <= k ==> g[8][14 - k] == digit)
      && (k <= 7 ==> g[8][n - 1 - k] == digit) && (8 <= k ==> g[n - 15 + k][8] == digit)
  {
    hide Candidate, Digits, FormatWord, Wide, GetBit;
    FormatDigitsShown(base, v, e, m, false);
    FormatDigitsShown(base, v, e, m, true);
    var g := Candidate(base, v, e, m);
    assert FormatDigitsAt(g, false)[k] == FormatDigitsAt(g, true)[k] == Digits(Wide(FormatWord(e, m)), 15)[k];
    CandidateAt(base, v, e, m, 8, Side(v) - 8);
  }
}
