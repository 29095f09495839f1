/** What a finished symbol is, and how to read it: the decoder the encoder does not contain. */
module Symbol {
  import opened Wrappers
  import opened Bits
  import opened Versions
  import opened Segments
  import opened Interleaving
  import opened Modules
  import opened FunctionModules
  import opened LightModules
  import opened FormatBits
  import opened Zigzag
  import opened Masking
  import opened RawModules

  // ---------- the finished symbol ----------

  // The data codewords of a list of segments.
  function DataCodewords(ps: seq<Piece>, v: Version, e: Level): (data: seq<Byte>)
    requires |AllBits(ps, v)| <= 8 * NumDataCodewords(v, e)
    ensures |data| == NumDataCodewords(v, e)
    ensures Stream(data) == DataBits(ps, v, 8 * NumDataCodewords(v, e))
  {
    StreamOfBytes(DataBits(ps, v, 8 * NumDataCodewords(v, e)));
    Bytes(DataBits(ps, v, 8 * NumDataCodewords(v, e)))
  }

  // The symbol before masking: the function patterns, and the codewords along the scan with light remainder modules.
  ghost predicate IsBase(g: Grid, codewords: seq<Byte>, v: Version) {
    var n, path := Side(v), CodewordPath(v);
    && Square(g, n)
    && (forall x: nat, y: nat | x < n && y < n && IsFunction(v, x, y) :: g[y][x] == LightPass(v, x, y, true))
    && (forall k | 0 <= k < |path| ::
       path[k].x < n && path[k].y < n && g[path[k].y][path[k].x] == StreamBit(codewords, k))
  }

  // The symbol with one mask and the matching format information.
  function Candidate(base: Grid, v: Version, e: Level, m: Mask): (g: Grid)
    requires Square(base, Side(v))
    ensures Square(g, Side(v))
  {
    var n := Side(v);
    var masked, w := Masked(base, FunctionGrid(v), n, m), FormatWord(e, m);
    seq(n, y requires 0 <= y < n => seq(n, x requires 0 <= x < n =>
      if IsFormat(n, x, y) then FormatColour(w, FormatIndex(n, x, y)) else masked[y][x]))
  }

  lemma CandidateAt(base: Grid, v: Version, e: Level, m: Mask, x: nat, y: nat)
    requires Square(base, Side(v)) && x < Side(v) && y < Side(v)
    ensures Candidate(base, v, e, m)[y][x]
         == if IsFormat(Side(v), x, y) then FormatColour(FormatWord(e, m), FormatIndex(Side(v), x, y))
            else base[y][x] != (!IsFunction(v, x, y) && Inverts(m, x, y))
  {
    hide IsFunction, Inverts, FormatWord, FormatColour;
    MaskedAt(base, FunctionGrid(v), Side(v), m, x, y);
    FunctionGridAt(v, x, y);
  }

  // g shows the segments at version v and level e under mask m.
  ghost predicate Shows(g: Grid, ps: seq<Piece>, v: Version, e: Level, m: Mask) {
    exists base: Grid, codewords: seq<Byte> :: ShowsBy(g, ps, v, e, m, base, codewords)
  }

  ghost predicate ShowsBy(g: Grid, ps: seq<Piece>, v: Version, e: Level, m: Mask, base: Grid, codewords: seq<Byte>) {
    && |AllBits(ps, v)| <= 8 * NumDataCodewords(v, e)
    && |codewords| == NumRawDataModules(v) / 8
    && Interleaved(codewords, DataCodewords(ps, v, e), LayoutOf(v, e))
    && IsBase(base, codewords, v)
    && g == Candidate(base, v, e, m)
  }

  // ---------- the decoder ----------

  function VersionOfSide(n: nat): Option<Version> {
    if n >= 21 && n <= 177 && (n - 17) % 4 == 0 then Some((n - 17) / 4) else None
  }

  // The bits along the scan with the mask undone.
  function ReadCodewordBits(g: Grid, v: Version, m: Mask): (bits: seq<bool>)
    requires Square(g, Side(v))
  {
    var path := CodewordPath(v);
    seq(|path|, k requires 0 <= k < |path| =>
      if path[k].x < Side(v) && path[k].y < Side(v)
      then g[path[k].y][path[k].x] != Inverts(m, path[k].x, path[k].y) else false)
  }

  function ReadCodewords(g: Grid, v: Version, m: Mask): seq<Byte>
    requires Square(g, Side(v))
  {
    Bytes(ReadCodewordBits(g, v, m))
  }

  // Reads a symbol: size, format information, mask, scan, de-interleaving, parsing.
  function Decode(g: Grid): Option<seq<Piece>>
    requires Square(g, |g|)
  {
    match VersionOfSide(|g|)
    case None => None
    case Some(v) =>
      var e, m := ReadLevel(g), ReadMask(g);
      Parse(Stream(Deinterleave(ReadCodewords(g, v, m), LayoutOf(v, e), 0)), v)
  }

  // ---------- reading back what was drawn ----------

  lemma FormatRead(base: Grid, v: Version, e: Level, m: Mask)
    requires Square(base, Side(v))
    ensures var g := Candidate(base, v, e, m); ReadLevel(g) == e && ReadMask(g) == m
  {
    hide FormatWord, FormatColour, FormatIndex, IsFormat, Masked, FunctionGrid, ReadLevel, ReadMask, Candidate,
      IsFunction, Inverts;
    var n, g := Side(v), Candidate(base, v, e, m);
    assert FormatDrawn(n, FormatWord(e, m), g, g) by {
      forall x: nat, y: nat | x < n && y < n && IsFormat(n, x, y)
        ensures g[y][x] == FormatColour(FormatWord(e, m), FormatIndex(n, x, y))
      {
        CandidateAt(base, v, e, m, x, y);
      }
    }
    FormatReadsBack(n, e, m, g, g);
  }

  // Modules on the scan are not function modules.
  lemma PathIsData(v: Version, k: nat)
    requires k < |CodewordPath(v)|
    ensures var p := CodewordPath(v)[k]; p.x < Side(v) && p.y < Side(v) && !IsFunction(v, p.x, p.y)
  {
    hide IsFunction, LightPath, Walk;
    CodewordPathIs(v);
    var w := Walk(Side(v), Side(v) - 1);
    var p := CodewordPath(v)[k];
    LightPathInside(w, FunctionGrid(v));
    LightPathMember(w, FunctionGrid(v), p);
    FunctionGridAt(v, p.x, p.y);
  }

  lemma BitsRead(base: Grid, codewords: seq<Byte>, v: Version, e: Level, m: Mask)
    requires IsBase(base, codewords, v) && |codewords| == NumRawDataModules(v) / 8
    ensures ReadCodewords(Candidate(base, v, e, m), v, m) == codewords
  {
    hide IsFunction, Inverts, FormatWord, FormatColour, Candidate, LightPass, NumRawDataModules, StreamBit,
      CodewordPath, IsFormat;
    var g, path := Candidate(base, v, e, m), CodewordPath(v);
    var bits := ReadCodewordBits(g, v, m);
    RoomForCodewords(v);
    forall k: nat | k < |path|
      ensures bits[k] == StreamBit(codewords, k)
    {
      PathIsData(v, k);
      var p := path[k];
      if IsFormat(Side(v), p.x, p.y) { FormatIsFunction(v, p.x, p.y); }
      CandidateAt(base, v, e, m, p.x, p.y);
    }
    var read := Bytes(bits);
    assert |read| == |codewords|;
    forall k: nat | k < 8 * |read| ensures StreamBit(read, k) == StreamBit(codewords, k) {}
    StreamExtensional(read, codewords);
  }

  lemma BaseIsSquare(base: Grid, codewords: seq<Byte>, v: Version)
    requires IsBase(base, codewords, v)
    ensures Square(base, Side(v))
  {}

  lemma VersionRead(v: Version)
    ensures VersionOfSide(Side(v)) == Some(v)
  {}

  // Decoding a finished symbol returns the segments it was made from, whatever the version, level and mask.
  lemma DecodeShown(g: Grid, ps: seq<Piece>, v: Version, e: Level, m: Mask)
    requires Shows(g, ps, v, e, m)
    requires CountsFit(ps, v) && forall i | 0 <= i < |ps| :: WellFormed(ps[i])
    ensures Square(g, |g|) && Decode(g) == Some(ps)
  {
    hide Candidate, IsBase, Interleaved, Parse, DataBits, AllBits, NumDataCodewords, NumRawDataModules,
      EccCodewordsPerBlock, NumErrorCorrectionBlocks, LayoutOf, DataCodewords, ReadCodewords, ReadLevel, ReadMask,
      CountsFit, WellFormed;
    var base, codewords :| ShowsBy(g, ps, v, e, m, base, codewords);
    VersionRead(v);
    BaseIsSquare(base, codewords, v);
    FormatRead(base, v, e, m);
    BitsRead(base, codewords, v, e, m);
    var lay, data := LayoutOf(v, e), DataCodewords(ps, v, e);
    DeinterleaveInverts(codewords, data, lay, 0);
    LayoutShape(lay);
    assert data[0..] == data;
    ParseDataBits(ps, v, 8 * NumDataCodewords(v, e));
  }
}
