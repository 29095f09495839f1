/**
 * A damaged symbol still determines its data, as long as no block has lost more than its error correction codewords can
 * bear.
 */
module SymbolDamage {
  import opened Distances
  import opened Bits
  import opened Versions
  import opened ReedSolomon
  import opened ErrorCorrection
  import opened Interleaving
  import opened Segments
  import opened Modules
  import opened FunctionModules
  import opened FormatBits
  import opened CheckBits
  import opened Symbol
  import opened SymbolInformation

  // A block as read from the codewords of a symbol: data, then error correction.
  function ReadBlock(codewords: seq<Byte>, lay: Layout, i: nat): seq<Byte>
    requires lay.Valid()
  {
    BlockAt(codewords, lay, i) + EccAt(codewords, lay, i)
  }

  // No block of `received` differs from the block of `sent` in more than half as many symbols as it has error
  // correction codewords.
  ghost predicate BearablyDamaged(received: seq<Byte>, sent: seq<Byte>, lay: Layout)
    requires lay.Valid()
  {
    forall i: nat | i < lay.numBlocks ::
      2 * Distance(ReadBlock(received, lay, i), ReadBlock(sent, lay, i)) <= lay.eccLen
  }

  predicate BlocksShort(lay: Layout)
    requires lay.Valid()
  {
    lay.raw / lay.numBlocks + 1 <= 255
  }

  lemma BlockFits(lay: Layout, i: nat)
    requires lay.Valid() && BlocksShort(lay)
    ensures lay.BlockLen(i) + lay.eccLen <= 255
  {}

  lemma SameBlock(received: seq<Byte>, sent: seq<Byte>, sent': seq<Byte>, data: seq<Byte>, data': seq<Byte>,
                  lay: Layout, i: nat)
    requires lay.Valid() && BlocksShort(lay) && i < lay.numBlocks && |data| == |data'| == lay.DataLen()
    requires Interleaved(sent, data, lay) && Interleaved(sent', data', lay)
    requires BearablyDamaged(received, sent, lay) && BearablyDamaged(received, sent', lay)
    ensures BlockAt(sent, lay, i) == BlockAt(sent', lay, i)
  {
    hide Interleaved, Block, Codeword, Distance, BlocksShort, Layout.Valid, Layout.BlockLen, Layout.DataLen,
      Layout.BlockStart;
    BlockReadBack(sent, data, lay, i);
    BlockReadBack(sent', data', lay, i);
    BlockIsSlice(data, lay, i);
    BlockIsSlice(data', lay, i);
    BlockFits(lay, i);
    EccNotEmpty(lay);
    var a, b := Block(data, lay, i), Block(data', lay, i);
    DamageDecides(ReadBlock(received, lay, i), a, b, lay.eccLen, lay.eccLen / 2);
    CodewordHoldsData(a, lay.eccLen);
    CodewordHoldsData(b, lay.eccLen);
    assert ReadBlock(sent, lay, i)[..|a|] == BlockAt(sent, lay, i)
      && ReadBlock(sent', lay, i)[..|b|] == BlockAt(sent', lay, i);
  }

  lemma {:induction false} SameDeinterleaved(sent: seq<Byte>, sent': seq<Byte>, lay: Layout, i: nat)
    requires lay.Valid() && forall j: nat | j < lay.numBlocks :: BlockAt(sent, lay, j) == BlockAt(sent', lay, j)
    ensures Deinterleave(sent, lay, i) == Deinterleave(sent', lay, i)
    decreases lay.numBlocks - i
  {
    hide BlockAt, Layout.Valid;
    if i < lay.numBlocks { SameDeinterleaved(sent, sent', lay, i + 1); }
  }

  // Two data sequences whose symbols could both have been damaged into the same one are the same.
  lemma DamagedSymbolDecides(received: seq<Byte>, sent: seq<Byte>, sent': seq<Byte>, data: seq<Byte>, data': seq<Byte>,
                             lay: Layout)
    requires lay.Valid() && BlocksShort(lay) && |data| == |data'| == lay.DataLen()
    requires Interleaved(sent, data, lay) && Interleaved(sent', data', lay)
    requires BearablyDamaged(received, sent, lay) && BearablyDamaged(received, sent', lay)
    ensures data == data'
  {
    hide Interleaved, BearablyDamaged, BlocksShort, Layout.Valid, Layout.DataLen, Layout.BlockStart, Deinterleave,
      BlockAt;
    forall i: nat | i < lay.numBlocks ensures BlockAt(sent, lay, i) == BlockAt(sent', lay, i) {
      SameBlock(received, sent, sent', data, data', lay, i);
    }
    SameDeinterleaved(sent, sent', lay, 0);
    DeinterleaveInverts(sent, data, lay, 0);
    DeinterleaveInverts(sent', data', lay, 0);
    LayoutShape(lay);
    assert data[0..] == data && data'[0..] == data';
  }

  // The layouts of all versions and levels have blocks of at most 255 codewords.
  lemma SymbolBlocksShort(v: Version, e: Level)
    ensures BlocksShort(LayoutOf(v, e))
  {
    hide NumRawDataModules, NumErrorCorrectionBlocks, EccCodewordsPerBlock, NumDataCodewords;
    ShortBlocks(v, e);
    QuotientBound(LayoutOf(v, e).raw, LayoutOf(v, e).numBlocks);
  }

  lemma QuotientBound(a: nat, n: nat)
    requires n >= 1 && a <= 254 * n
    ensures a / n <= 254
  {}

  // So the segments survive: a bearably damaged symbol shows one list of segments at most.
  lemma DamagedSymbolShowsOneText(received: seq<Byte>, sent: seq<Byte>, sent': seq<Byte>, ps: seq<Piece>,
                                  ps': seq<Piece>, v: Version, e: Level)
    requires |AllBits(ps, v)| <= 8 * NumDataCodewords(v, e) && |AllBits(ps', v)| <= 8 * NumDataCodewords(v, e)
    requires CountsFit(ps, v) && CountsFit(ps', v) && forall p | p in ps || p in ps' :: WellFormed(p)
    requires Interleaved(sent, DataCodewords(ps, v, e), LayoutOf(v, e))
      && Interleaved(sent', DataCodewords(ps', v, e), LayoutOf(v, e))
    requires BearablyDamaged(received, sent, LayoutOf(v, e)) && BearablyDamaged(received, sent', LayoutOf(v, e))
    ensures ps == ps'
  {
    hide Interleaved, BearablyDamaged, LayoutOf, DataCodewords, Parse, DataBits, AllBits, NumDataCodewords, WellFormed,
      CountsFit, BlocksShort, Layout.Valid, Layout.DataLen;
    SymbolBlocksShort(v, e);
    DamagedSymbolDecides(received, sent, sent', DataCodewords(ps, v, e), DataCodewords(ps', v, e), LayoutOf(v, e));
    ParseDataBits(ps, v, 8 * NumDataCodewords(v, e));
    ParseDataBits(ps', v, 8 * NumDataCodewords(v, e));
  }

  // ---------- damaged grids ----------

  // g could be what has become of the finished symbol `sent`: in the copy of the format information that is read at
  // most three modules are wrong, and every block of codewords is bearably damaged. Nothing is asked of the other
  // modules.
  ghost predicate CouldComeFrom(g: Grid, sent: Grid, v: Version, e: Level, m: Mask, second: bool) {
    && Square(g, |g|) && Square(sent, |sent|) && |g| == |sent| == Side(v)
    && Distance(FormatDigitsAt(g, second), FormatDigitsAt(sent, second)) <= 3
    && BearablyDamaged(ReadCodewords(g, v, m), ReadCodewords(sent, v, m), LayoutOf(v, e))
  }

  lemma SentIs(sent: Grid, ps: seq<Piece>, v: Version, e: Level, m: Mask, second: bool) returns (codewords: seq<Byte>)
    requires Shows(sent, ps, v, e, m)
    ensures Square(sent, |sent|) && |sent| == Side(v)
    ensures FormatDigitsAt(sent, second) == Digits(Wide(FormatWord(e, m)), 15)
    ensures |AllBits(ps, v)| <= 8 * NumDataCodewords(v, e)
    ensures ReadCodewords(sent, v, m) == codewords && Interleaved(codewords, DataCodewords(ps, v, e), LayoutOf(v, e))
  {
    hide Candidate, IsBase, Interleaved, AllBits, NumDataCodewords, NumRawDataModules, LayoutOf, DataCodewords,
      ReadCodewords, FormatDigitsAt, Digits, FormatWord, Wide;
    var base, words :| ShowsBy(sent, ps, v, e, m, base, words);
    codewords := words;
    BaseIsSquare(base, codewords, v);
    BitsRead(base, codewords, v, e, m);
    FormatDigitsShown(base, v, e, m, second);
  }

  // Two finished symbols that the same grid could have come from are of one version, level and mask, and show the same
  // segments.
  lemma DamagedGridDecides(g: Grid, second: bool, sent: Grid, ps: seq<Piece>, v: Version, e: Level, m: Mask,
                           sent': Grid, ps': seq<Piece>, v': Version, e': Level, m': Mask)
    requires Shows(sent, ps, v, e, m) && Shows(sent', ps', v', e', m')
    requires CountsFit(ps, v) && CountsFit(ps', v') && forall p | p in ps || p in ps' :: WellFormed(p)
    requires CouldComeFrom(g, sent, v, e, m, second) && CouldComeFrom(g, sent', v', e', m', second)
    ensures v == v' && e == e' && m == m' && ps == ps'
  {
    hide Shows, BearablyDamaged, Interleaved, AllBits, NumDataCodewords, LayoutOf, DataCodewords, ReadCodewords,
      CountsFit, WellFormed, FormatDigitsAt, Digits, FormatWord, Wide, Distance;
    var words := SentIs(sent, ps, v, e, m, second);
    var words' := SentIs(sent', ps', v', e', m', second);
    FormatDecides(g, second, e, m, e', m');
    DamagedSymbolShowsOneText(ReadCodewords(g, v, m), words, words', ps, ps', v, e);
  }
}
