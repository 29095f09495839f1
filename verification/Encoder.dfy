/** The encoder: version and level selection, drawing, mask selection, and the public entry points. */
module Encoder {
  import opened Arithmetic
  import opened Wrappers
  import opened Bits
  import opened Versions
  import opened Segments
  import opened TextSegments
  import opened DataStream
  import opened ReedSolomon
  import opened Interleaving
  import opened Indexing
  import opened Modules
  import opened FunctionModules
  import opened LightModules
  import opened FormatBits
  import opened Zigzag
  import opened Masking
  import opened Penalty
  import opened RawModules
  import opened Symbol

  // ---------- choosing version and level ----------

  // The segments fit a symbol of version v at level e.
  predicate Fits(ps: seq<Piece>, v: Version, e: Level) {
    CountsFit(ps, v) && |AllBits(ps, v)| <= 8 * NumDataCodewords(v, e)
  }

  // Some version in the range has room.
  ghost predicate SomeFits(ps: seq<Piece>, e: Level, minVersion: Version, maxVersion: Version) {
    exists u: Version :: minVersion <= u <= maxVersion && Fits(ps, u, e)
  }

  // Encoding fails exactly when no version in the range fits; otherwise the least one is taken.
  ghost predicate LeastVersion(ps: seq<Piece>, e: Level, minVersion: Version, maxVersion: Version, v: Version) {
    minVersion <= v <= maxVersion && Fits(ps, v, e) && forall u: Version | minVersion <= u < v :: !Fits(ps, u, e)
  }

  method ChooseVersion(segs: seq<Segment>, e: Level, minVersion: Version, maxVersion: Version)
    returns (ok: bool, version: Version, dataUsedBits: int)
    requires AllInBounds(segs) && minVersion <= maxVersion
    ensures ok ==> LeastVersion(Pieces(segs), e, minVersion, maxVersion, version) && Fields(segs, version)
    ensures ok ==> dataUsedBits == |AllBits(Pieces(segs), version)|
    ensures ok <==> SomeFits(Pieces(segs), e, minVersion, maxVersion)
  {
    hide NumDataCodewords, AllBits, CountsFit, TotalBits, Fields;
    version := minVersion;
    while true
      invariant minVersion <= version <= maxVersion
      invariant forall u: Version | minVersion <= u < version :: !Fits(Pieces(segs), u, e)
      decreases maxVersion - version
    {
      var dataCapacityBits := NumDataCodewords(version, e) * 8;
      dataUsedBits := GetTotalBits(segs, version);
      TotalIsLength(segs, version);
      CapacityRange(version, e);
      if dataUsedBits != LENGTH_OVERFLOW && dataUsedBits <= dataCapacityBits {
        ok := true;
        return;
      }
      assert !Fits(Pieces(segs), version, e);
      if version >= maxVersion {
        ok := false;
        return;
      }
      version := version + 1;
    }
  }

  // The highest level at which `used` bits still fit version v, but never below the requested one.
  ghost predicate BoostedLevel(v: Version, requested: Level, boost: bool, used: int, e: Level) {
    if boost then
      requested <= e && used <= 8 * NumDataCodewords(v, e)
        && forall f: Level | f > e :: used > 8 * NumDataCodewords(v, f)
    else e == requested
  }

  method BoostLevel(v: Version, requested: Level, boostEcl: bool, dataUsedBits: int) returns (e: Level)
    requires dataUsedBits <= 8 * NumDataCodewords(v, requested)
    ensures BoostedLevel(v, requested, boostEcl, dataUsedBits, e)
    ensures dataUsedBits <= 8 * NumDataCodewords(v, e)
  {
    hide NumDataCodewords;
    e := requested;
    LevelCostsCapacity(v, 0);
    LevelCostsCapacity(v, 1);
    LevelCostsCapacity(v, 2);
    for i := 1 to 4
      invariant dataUsedBits <= 8 * NumDataCodewords(v, e)
      invariant !boostEcl ==> e == requested
      invariant boostEcl ==> e == requested || e < i
      invariant boostEcl ==> forall f: Level | e < f < i :: dataUsedBits > 8 * NumDataCodewords(v, f)
      invariant boostEcl && requested < i ==> e >= requested
    {
      if boostEcl && dataUsedBits <= NumDataCodewords(v, i) * 8 {
        e := i;
      }
    }
  }

  // ---------- drawing ----------

  lemma MarkedIsFunctionGrid(v: Version, g: Grid)
    requires Square(g, Side(v))
    requires forall x: nat, y: nat | x < Side(v) && y < Side(v) :: g[y][x] == IsFunction(v, x, y)
    ensures g == FunctionGrid(v)
  {
    hide IsFunction, FunctionGrid;
    forall x: nat, y: nat | x < Side(v) && y < Side(v)
      ensures g[y][x] == FunctionGrid(v)[y][x]
    {
      FunctionGridAt(v, x, y);
    }
    SameGrid(g, FunctionGrid(v), Side(v));
  }

  lemma CodewordPathDistinct(v: Version)
    ensures Distinct(CodewordPath(v))
  {
    hide LightPath, Walk;
    CodewordPathIs(v);
    ScanVisitsOnce(Side(v));
    LightPathDistinct(Walk(Side(v), Side(v) - 1), FunctionGrid(v));
  }

  // The modules on the scan after placing codewords: their bits, then light remainder modules.
  lemma CodewordsOnPath(v: Version, g: Grid, data: seq<Byte>, k: nat)
    requires Inside(Walk(Side(v), Side(v) - 1), Side(v))
    requires BitsPlaced(FunctionGrid(v), g, Walk(Side(v), Side(v) - 1), Stream(data))
    requires 8 * |data| <= |CodewordPath(v)| && k < |CodewordPath(v)|
    ensures Square(g, Side(v))
    ensures var p := CodewordPath(v)[k]; p.x < Side(v) && p.y < Side(v) && g[p.y][p.x] == StreamBit(data, k)
  {
    hide LightPath, Walk, FunctionGrid, IsFunction;
    var path := CodewordPath(v);
    CodewordPathIs(v);
    var p := path[k];
    PathIsData(v, k);
    if k < 8 * |data| {
      assert g[p.y][p.x] == Stream(data)[k];
    } else {
      CodewordPathDistinct(v);
      assert Pos(p.x, p.y) == p && p !in path[..8 * |data|];
      FunctionGridAt(v, p.x, p.y);
    }
  }

  // Modules off the scan stay as marked.
  lemma FunctionModulesKept(v: Version, g: Grid, data: seq<Byte>, x: nat, y: nat)
    requires Inside(Walk(Side(v), Side(v) - 1), Side(v))
    requires BitsPlaced(FunctionGrid(v), g, Walk(Side(v), Side(v) - 1), Stream(data))
    requires x < Side(v) && y < Side(v) && IsFunction(v, x, y)
    ensures Square(g, Side(v)) && g[y][x]
  {
    hide LightPath, Walk, FunctionGrid, IsFunction, Stream;
    var w, f := Walk(Side(v), Side(v) - 1), FunctionGrid(v);
    var ps := LightPath(w, f);
    FunctionGridAt(v, x, y);
    LightPathMember(w, f, Pos(x, y));
    var i := Min(|ps|, |Stream(data)|);
    assert Pos(x, y) !in ps[..i];
  }

  lemma BaseDrawn(v: Version, g1: Grid, g2: Grid, data: seq<Byte>)
    requires Inside(Walk(Side(v), Side(v) - 1), Side(v)) && Square(g1, Side(v)) && Square(g2, Side(v))
    requires BitsPlaced(FunctionGrid(v), g1, Walk(Side(v), Side(v) - 1), Stream(data))
    requires 8 * |data| <= |CodewordPath(v)|
    requires forall x: nat, y: nat | x < Side(v) && y < Side(v) :: g2[y][x] == LightPass(v, x, y, g1[y][x])
    ensures IsBase(g2, data, v)
  {
    hide LightPath, Walk, FunctionGrid, IsFunction, Stream, StreamBit, LightPass, BitsPlaced, CodewordPath, Inside;
    forall x: nat, y: nat | x < Side(v) && y < Side(v) && IsFunction(v, x, y)
      ensures g2[y][x] == LightPass(v, x, y, true)
    {
      FunctionModulesKept(v, g1, data, x, y);
    }
    var path := CodewordPath(v);
    forall k | 0 <= k < |path|
      ensures path[k].x < Side(v) && path[k].y < Side(v) && g2[path[k].y][path[k].x] == StreamBit(data, k)
    {
      CodewordsOnPath(v, g1, data, k);
      PathIsData(v, k);
      LightPassFrame(v, path[k].x, path[k].y, g1[path[k].y][path[k].x]);
    }
  }

  // Draws the function patterns and the raw codewords, without mask and format information.
  method DrawUnmasked(v: Version, codewords: array<Byte>, qrcode: array<Byte>)
    requires codewords != qrcode && NumRawDataModules(v) / 8 <= codewords.Length && BufferLen(Side(v)) <= qrcode.Length
    modifies qrcode
    ensures Sized(qrcode[..], Side(v))
    ensures NumRawDataModules(v) / 8 >= 0
      && IsBase(GridOf(qrcode[..], Side(v)), codewords[..NumRawDataModules(v) / 8], v)
  {
    hide *;
    RawRange(v);
    SideIs(v);
    InitializeFunctionModules(v, qrcode);
    MarkedIsFunctionGrid(v, GridOf(qrcode[..], Side(v)));
    CodewordPathIs(v);
    RoomForCodewords(v);
    DrawCodewords(codewords, NumRawDataModules(v) / 8, qrcode, Side(v));
    ghost var g1 := GridOf(qrcode[..], Side(v));
    DrawLightFunctionModules(qrcode, v);
    BaseDrawn(v, g1, GridOf(qrcode[..], Side(v)), codewords[..NumRawDataModules(v) / 8]);
  }

  // ---------- choosing the mask ----------

  // Equal but for the format information.
  ghost predicate SameOffFormat(n: nat, g: Grid, h: Grid) {
    && Square(g, n) && Square(h, n)
    && forall x: nat, y: nat | x < n && y < n && !IsFormat(n, x, y) :: g[y][x] == h[y][x]
  }

  // Masking a symbol that agrees with the base off the format area and drawing the format gives the candidate.
  lemma CandidateDrawn(v: Version, e: Level, m: Mask, base: Grid, g: Grid, g': Grid)
    requires SameOffFormat(Side(v), g, base)
    requires FormatDrawn(Side(v), FormatWord(e, m), Masked(g, FunctionGrid(v), Side(v), m), g')
    ensures g' == Candidate(base, v, e, m)
  {
    hide IsFormat, FormatColour, FormatIndex, FormatWord, Inverts, FunctionGrid, Masked, Candidate, IsFunction;
    var n := Side(v);
    forall x: nat, y: nat | x < n && y < n ensures g'[y][x] == Candidate(base, v, e, m)[y][x] {
      CandidateAt(base, v, e, m, x, y);
      MaskedAt(g, FunctionGrid(v), n, m, x, y);
      FunctionGridAt(v, x, y);
    }
    SameGrid(g', Candidate(base, v, e, m), n);
  }

  // Undoing the mask of a candidate restores the base off the format area.
  lemma TrialUndone(v: Version, e: Level, m: Mask, base: Grid)
    requires Square(base, Side(v))
    ensures SameOffFormat(Side(v), Masked(Candidate(base, v, e, m), FunctionGrid(v), Side(v), m), base)
  {
    hide IsFormat, FormatColour, FormatIndex, FormatWord, Inverts, FunctionGrid, Masked, Candidate, IsFunction;
    var n, c := Side(v), Candidate(base, v, e, m);
    forall x: nat, y: nat | x < n && y < n && !IsFormat(n, x, y)
      ensures Masked(c, FunctionGrid(v), n, m)[y][x] == base[y][x]
    {
      CandidateAt(base, v, e, m, x, y);
      MaskedAt(c, FunctionGrid(v), n, m, x, y);
      FunctionGridAt(v, x, y);
    }
  }

  // m has the least penalty of all eight masks, and no lower-numbered mask does as well.
  ghost predicate BestMask(base: Grid, v: Version, e: Level, m: Mask)
    requires Square(base, Side(v))
  {
    forall i: Mask, p: int, q: int ::
      IsPenalty(Candidate(base, v, e, m), Side(v), p) && IsPenalty(Candidate(base, v, e, i), Side(v), q) ==>
        p <= q && (i < m ==> p < q)
  }

  const LONG_MAX := 0x7FFF_FFFF

  // Among the masks below i, `best` has the least penalty `least`, the first of equals; with none tried, `best` is -1.
  ghost predicate BestSoFar(base: Grid, v: Version, e: Level, i: int, best: int, least: int)
    requires Square(base, Side(v)) && 0 <= i <= 8
  {
    if i == 0 then best == -1 && least == LONG_MAX
    else
      && 0 <= best < i && IsPenalty(Candidate(base, v, e, best), Side(v), least)
      && forall j: Mask, q: int | j < i && IsPenalty(Candidate(base, v, e, j), Side(v), q) ::
         least <= q && (j < best ==> least < q)
  }

  lemma BestSoFarStep(base: Grid, v: Version, e: Level, i: Mask, best: int, least: int, p: int)
    requires Square(base, Side(v)) && BestSoFar(base, v, e, i, best, least)
    requires IsPenalty(Candidate(base, v, e, i), Side(v), p) && 0 <= p <= 2568888
    ensures if p < least then BestSoFar(base, v, e, i + 1, i, p) else BestSoFar(base, v, e, i + 1, best, least)
  {
    hide IsPenalty, Candidate;
    forall q: int | IsPenalty(Candidate(base, v, e, i), Side(v), q) ensures q == p {
      PenaltyUnique(Candidate(base, v, e, i), Side(v), p, q);
    }
  }

  lemma BestOfAll(base: Grid, v: Version, e: Level, best: int, least: int)
    requires Square(base, Side(v)) && BestSoFar(base, v, e, 8, best, least)
    ensures 0 <= best < 8 && BestMask(base, v, e, best)
  {
    hide IsPenalty, Candidate;
    forall i: Mask, p: int, q: int |
      IsPenalty(Candidate(base, v, e, best), Side(v), p) && IsPenalty(Candidate(base, v, e, i), Side(v), q)
      ensures p <= q && (i < best ==> p < q)
    {
      PenaltyUnique(Candidate(base, v, e, best), Side(v), p, least);
    }
  }

  // Tries all eight masks, leaving the data modules as they were.
  method ChooseMask(functionModules: array<Byte>, qrcode: array<Byte>, e: Level, ghost v: Version, ghost base: Grid)
    returns (mask: Mask)
    requires functionModules != qrcode && Sized(functionModules[..], Side(v)) && Sized(qrcode[..], Side(v))
    requires GridOf(functionModules[..], Side(v)) == FunctionGrid(v)
      && SameOffFormat(Side(v), GridOf(qrcode[..], Side(v)), base)
    requires Square(base, Side(v))
    modifies qrcode
    ensures Sized(qrcode[..], Side(v)) && SameOffFormat(Side(v), GridOf(qrcode[..], Side(v)), base)
    ensures BestMask(base, v, e, mask)
  {
    hide *;
    var minPenalty := LONG_MAX;
    var best := -1;
    BestOfNone(base, v, e);
    SideIs(v);
    for i := 0 to 8
      invariant Sized(functionModules[..], Side(v)) && Sized(qrcode[..], Side(v))
      invariant GridOf(functionModules[..], Side(v)) == FunctionGrid(v)
      invariant SameOffFormat(Side(v), GridOf(qrcode[..], Side(v)), base)
      invariant BestSoFar(base, v, e, i, best, minPenalty)
    {
      var penalty := TryMask(functionModules, qrcode, e, i, v, base);
      BestSoFarStep(base, v, e, i, best, minPenalty, penalty);
      if penalty < minPenalty {
        best := i;
        minPenalty := penalty;
      }
    }
    BestOfAll(base, v, e, best, minPenalty);
    mask := best;
  }

  lemma BestOfNone(base: Grid, v: Version, e: Level)
    requires Square(base, Side(v))
    ensures BestSoFar(base, v, e, 0, -1, LONG_MAX)
  {}

  // One trial: mask, draw the format, score, unmask.
  method TryMask(functionModules: array<Byte>, qrcode: array<Byte>, e: Level, m: Mask, ghost v: Version,
                 ghost base: Grid)
    returns (penalty: nat)
    requires functionModules != qrcode && Sized(functionModules[..], Side(v)) && Sized(qrcode[..], Side(v))
    requires GridOf(functionModules[..], Side(v)) == FunctionGrid(v)
      && SameOffFormat(Side(v), GridOf(qrcode[..], Side(v)), base)
    requires Square(base, Side(v))
    modifies qrcode
    ensures Sized(qrcode[..], Side(v)) && SameOffFormat(Side(v), GridOf(qrcode[..], Side(v)), base)
    ensures IsPenalty(Candidate(base, v, e, m), Side(v), penalty) && penalty <= 2568888
  {
    hide *;
    SideIs(v);
    ghost var n, g := Side(v), GridOf(qrcode[..], Side(v));
    ApplyMask(functionModules, qrcode, m, n);
    DrawFormatBits(e, m, qrcode, n);
    CandidateDrawn(v, e, m, base, g, GridOf(qrcode[..], n));
    penalty := GetPenaltyScore(qrcode, n);
    ApplyMask(functionModules, qrcode, m, n);
    TrialUndone(v, e, m, base);
  }

  // ---------- encoding segments ----------

  // Everything the caller is promised about a successful encoding.
  ghost predicate Encoded(g: Grid, ps: seq<Piece>, requested: Level, minVersion: Version, maxVersion: Version,
                          mask: int, boost: bool, v: Version, e: Level, m: Mask) {
    && LeastVersion(ps, requested, minVersion, maxVersion, v)
    && BoostedLevel(v, requested, boost, |AllBits(ps, v)|, e)
    && exists base: Grid, codewords: seq<Byte> ::
         && ShowsBy(g, ps, v, e, m, base, codewords)
         && Square(base, Side(v)) && if mask == -1 then BestMask(base, v, e, m) else m == mask
  }

  // The data bit stream, its error correction codewords and their interleaving; qrcode is scratch space here.
  method BuildCodewords(segs: seq<Segment>, v: Version, e: Level, tempBuffer: array<Byte>, qrcode: array<Byte>)
    requires tempBuffer != qrcode && BufferLen(Side(v)) <= tempBuffer.Length && BufferLen(Side(v)) <= qrcode.Length
    requires AllInBounds(segs) && Fields(segs, v) && forall i | 0 <= i < |segs| :: segs[i].data != qrcode
    requires |AllBits(Pieces(segs), v)| <= 8 * NumDataCodewords(v, e)
    modifies tempBuffer, qrcode
    ensures 0 <= NumRawDataModules(v) / 8 <= tempBuffer.Length
    ensures |AllBits(old(Pieces(segs)), v)| <= 8 * NumDataCodewords(v, e)
    ensures Interleaved(tempBuffer[..NumRawDataModules(v) / 8], DataCodewords(old(Pieces(segs)), v, e), LayoutOf(v, e))
  {
    hide *;
    ghost var ps := Pieces(segs);
    var cap := BufferLen(Side(v));
    var dataLen := NumDataCodewords(v, e);
    CodewordsFitBuffer(v, e);
    CapacityRange(v, e);
    ClearBytes(qrcode, cap);
    WriteDataBits(segs, v, qrcode, 8 * dataLen, cap);
    var lay := LayoutOf(v, e);
    StreamIsCodewords(qrcode[..], cap, ps, v, e);
    AddEccAndInterleave(qrcode, lay, tempBuffer);
    InterleavedPrefix(tempBuffer[..], DataCodewords(ps, v, e), lay);
  }

  lemma CodewordsFitBuffer(v: Version, e: Level)
    ensures 0 <= NumRawDataModules(v) / 8 <= BufferLen(Side(v)) && NumDataCodewords(v, e) <= NumRawDataModules(v) / 8
  {
    hide NumRawDataModules, EccCodewordsPerBlock, NumErrorCorrectionBlocks;
    RawRange(v);
    BlockParameters(v, e);
    assert Times(Side(v), Side(v)) == (4 * v + 17) * (4 * v + 17);
    assert EccCodewordsPerBlock(e, v) * NumErrorCorrectionBlocks(e, v) >= 0;
  }

  lemma StreamIsCodewords(q: seq<Byte>, cap: nat, ps: seq<Piece>, v: Version, e: Level)
    requires |AllBits(ps, v)| <= 8 * NumDataCodewords(v, e) && NumDataCodewords(v, e) <= cap
    requires Holds(q, cap, DataBits(ps, v, 8 * NumDataCodewords(v, e)))
    ensures NumDataCodewords(v, e) <= |q| && q[..NumDataCodewords(v, e)] == DataCodewords(ps, v, e)
  {
    hide DataBits, AllBits, NumDataCodewords, StreamBit;
    var n, data := NumDataCodewords(v, e), DataCodewords(ps, v, e);
    HoldsIsStream(q, cap, DataBits(ps, v, 8 * n));
    BytesOfStream(q[..n]);
    BytesOfStream(data);
  }

  lemma InterleavedPrefix(result: seq<Byte>, data: seq<Byte>, lay: Layout)
    requires lay.Valid() && lay.raw <= |result| && |data| == lay.DataLen() && Interleaved(result, data, lay)
    ensures Interleaved(result[..lay.raw], data, lay)
  {
    hide BlockPlaced, Block;
    forall i: nat | i < lay.numBlocks ensures BlockPlaced(result[..lay.raw], Block(data, lay, i), lay, i) {
      BlockIsSlice(data, lay, i);
      PlacedInPrefix(result, Block(data, lay, i), lay, i);
    }
  }

  lemma PlacedInPrefix(result: seq<Byte>, block: seq<Byte>, lay: Layout, i: nat)
    requires lay.Valid() && lay.raw <= |result| && i < lay.numBlocks && |block| == lay.BlockLen(i)
      && BlockPlaced(result, block, lay, i)
    ensures BlockPlaced(result[..lay.raw], block, lay, i)
  {
    hide Layout.Valid, Layout.DataPos, Layout.EccPos, Layout.BlockLen, Layout.DataLen, Layout.ShortLen, Layout.NumShort,
      Times, Remainder, Divisor;
    LayoutShape(lay);
    EccNotEmpty(lay);
    var prefix, ecc := result[..lay.raw], Remainder(block, Divisor(lay.eccLen));
    forall j: nat | j < lay.BlockLen(i)
      ensures 0 <= lay.DataPos(i, j) < |prefix| && prefix[lay.DataPos(i, j)] == block[j]
    {
      DataPosRange(lay, i, j);
    }
    forall j: nat | j < lay.eccLen
      ensures 0 <= lay.EccPos(i, j) < |prefix| && prefix[lay.EccPos(i, j)] == ecc[j]
    {
      EccPosRange(lay, i, j);
    }
    PlacedNow(prefix, block, ecc, lay, i);
  }

  // mask is -1 for automatic selection. The segments' data may overlap tempBuffer.
  method EncodeSegmentsAdvanced(segs: seq<Segment>, ecl: Level, minVersion: Version, maxVersion: Version, mask: int,
                                boostEcl: bool, tempBuffer: array<Byte>, qrcode: array<Byte>)
    returns (ok: bool, ghost v: Version, ghost e: Level, ghost m: Mask)
    requires minVersion <= maxVersion && -1 <= mask <= 7 && tempBuffer != qrcode
    requires BufferLen(Side(maxVersion)) <= tempBuffer.Length && BufferLen(Side(maxVersion)) <= qrcode.Length
    requires AllInBounds(segs) && forall i | 0 <= i < |segs| :: segs[i].data != qrcode
    modifies tempBuffer, qrcode
    ensures ok <==> SomeFits(old(Pieces(segs)), ecl, minVersion, maxVersion)
    ensures !ok ==> qrcode.Length > 0 && qrcode[0] == 0
    ensures ok ==> Sized(qrcode[..], Side(v))
    ensures ok ==> Encoded(GridOf(qrcode[..], Side(v)), old(Pieces(segs)), ecl, minVersion, maxVersion, mask, boostEcl,
      v, e, m)
  {
    hide *;
    ghost var ps := Pieces(segs);
    BufferSuffices(minVersion, maxVersion);
    v, e, m := minVersion, ecl, 0;
    var version, level, dataUsedBits;
    ok, version, dataUsedBits := ChooseVersion(segs, ecl, minVersion, maxVersion);
    assert Pieces(segs) == ps;
    if !ok {
      qrcode[0] := 0;
      return;
    }
    v := version;
    LeastVersionMeans(ps, ecl, minVersion, maxVersion, v);
    BufferSuffices(version, maxVersion);
    level := BoostLevel(version, ecl, boostEcl, dataUsedBits);
    e := level;
    BuildCodewords(segs, version, level, tempBuffer, qrcode);
    ghost var codewords := tempBuffer[..NumRawDataModules(v) / 8];
    DrawUnmasked(version, tempBuffer, qrcode);
    ghost var base := GridOf(qrcode[..], Side(v));
    InitializeFunctionModules(version, tempBuffer);
    MarkedIsFunctionGrid(v, GridOf(tempBuffer[..], Side(v)));
    var chosen: Mask := MaskAndFormat(tempBuffer, qrcode, level, mask, v, base);
    m := chosen;
    ShowsIntro(GridOf(qrcode[..], Side(v)), ps, v, e, m, base, codewords);
    EncodedIntro(GridOf(qrcode[..], Side(v)), ps, ecl, minVersion, maxVersion, mask, boostEcl, v, e, m, base,
      codewords);
  }

  // The masking stage: automatic or given mask, then the final format information.
  method MaskAndFormat(functionModules: array<Byte>, qrcode: array<Byte>, e: Level, mask: int, ghost v: Version,
                       ghost base: Grid)
    returns (m: Mask)
    requires functionModules != qrcode && Sized(functionModules[..], Side(v)) && Sized(qrcode[..], Side(v))
      && -1 <= mask <= 7
    requires GridOf(functionModules[..], Side(v)) == FunctionGrid(v) && GridOf(qrcode[..], Side(v)) == base
    modifies qrcode
    ensures Sized(qrcode[..], Side(v)) && GridOf(qrcode[..], Side(v)) == Candidate(base, v, e, m)
    ensures if mask == -1 then BestMask(base, v, e, m) else m == mask
  {
    hide *;
    SameOffFormatRefl(Side(v), base);
    if mask == -1 {
      m := ChooseMask(functionModules, qrcode, e, v, base);
    } else {
      m := mask;
    }
    ghost var g := GridOf(qrcode[..], Side(v));
    ApplyMask(functionModules, qrcode, m, Side(v));
    DrawFormatBits(e, m, qrcode, Side(v));
    CandidateDrawn(v, e, m, base, g, GridOf(qrcode[..], Side(v)));
  }

  lemma SameOffFormatRefl(n: nat, g: Grid)
    requires Square(g, n)
    ensures SameOffFormat(n, g, g)
  {}

  lemma BufferSuffices(u: Version, v: Version)
    requires u <= v
    ensures 1 <= BufferLen(Side(u)) <= BufferLen(Side(v))
  {
    hide Times;
    TimesMonotone(Side(u), Side(v), Side(u));
    TimesSymmetric(Side(v), Side(u));
    TimesMonotone(Side(u), Side(v), Side(v));
  }

  lemma TimesSymmetric(a: nat, b: nat)
    ensures Times(a, b) == Times(b, a)
  {}

  lemma LeastVersionMeans(ps: seq<Piece>, e: Level, minVersion: Version, maxVersion: Version, v: Version)
    requires LeastVersion(ps, e, minVersion, maxVersion, v)
    ensures minVersion <= v <= maxVersion && Fits(ps, v, e) && |AllBits(ps, v)| <= 8 * NumDataCodewords(v, e)
      && CountsFit(ps, v)
  {}

  lemma ShowsIntro(g: Grid, ps: seq<Piece>, v: Version, e: Level, m: Mask, base: Grid, codewords: seq<Byte>)
    requires |AllBits(ps, v)| <= 8 * NumDataCodewords(v, e) && |codewords| == NumRawDataModules(v) / 8
    requires Interleaved(codewords, DataCodewords(ps, v, e), LayoutOf(v, e)) && IsBase(base, codewords, v)
    requires Square(base, Side(v)) && g == Candidate(base, v, e, m)
    ensures ShowsBy(g, ps, v, e, m, base, codewords)
  {}

  lemma EncodedIntro(g: Grid, ps: seq<Piece>, requested: Level, minVersion: Version, maxVersion: Version, mask: int,
                     boost: bool, v: Version, e: Level, m: Mask, base: Grid, codewords: seq<Byte>)
    requires LeastVersion(ps, requested, minVersion, maxVersion, v)
    requires BoostedLevel(v, requested, boost, |AllBits(ps, v)|, e)
    requires ShowsBy(g, ps, v, e, m, base, codewords) && Square(base, Side(v))
    requires if mask == -1 then BestMask(base, v, e, m) else m == mask
    ensures Encoded(g, ps, requested, minVersion, maxVersion, mask, boost, v, e, m)
  {}

  // Decoding what was encoded gives back the segments, for every segment list that fits and every choice of parameters.
  lemma DecodeEncoded(g: Grid, ps: seq<Piece>, requested: Level, minVersion: Version, maxVersion: Version, mask: int,
                      boost: bool, v: Version, e: Level, m: Mask)
    requires Encoded(g, ps, requested, minVersion, maxVersion, mask, boost, v, e, m)
    requires forall i | 0 <= i < |ps| :: WellFormed(ps[i])
    ensures Square(g, |g|) && Decode(g) == Some(ps)
  {
    hide LeastVersion, BoostedLevel, ShowsBy, BestMask, WellFormed, Decode;
    LeastVersionMeans(ps, requested, minVersion, maxVersion, v);
    assert Shows(g, ps, v, e, m);
    DecodeShown(g, ps, v, e, m);
  }
}
