/**
 * Splitting data into blocks, adding error correction codewords and interleaving (section 7.6 of ISO/IEC 18004:2015).
 */
module Interleaving {
  import opened Bits
  import opened ReedSolomon
  import opened Versions
  import opened Indexing

  lemma EccFits(numBlocks: nat, eccLen: nat, raw: nat)
    requires numBlocks >= 1 && raw / numBlocks > eccLen
    ensures eccLen <= numBlocks * eccLen <= raw
  {
    var q := raw / numBlocks;
    assert q * numBlocks <= raw;
    MoreBlocks(numBlocks, eccLen, q);
  }

  lemma MoreBlocks(numBlocks: nat, eccLen: nat, q: nat)
    requires numBlocks >= 1 && q > eccLen
    ensures eccLen <= numBlocks * eccLen <= q * numBlocks
  {}

  // How `raw` codewords divide into blocks: the first blocks are one data codeword shorter than the rest.
  datatype Layout = Layout(numBlocks: nat, eccLen: nat, raw: nat) {

    predicate Valid() {
      numBlocks >= 1 && 1 <= eccLen <= DEGREE_MAX && raw / numBlocks > eccLen
    }

    function DataLen(): (n: nat)
      requires Valid()
      ensures n + eccLen <= raw
    {
      EccFits(numBlocks, eccLen, raw);
      raw - numBlocks * eccLen
    }

    function NumShort(): int
      requires Valid()
    { numBlocks - raw % numBlocks }

    function ShortLen(): int
      requires Valid()
    { raw / numBlocks - eccLen }

    function BlockLen(i: nat): nat
      requires Valid()
    { ShortLen() + if i < NumShort() then 0 else 1 }

    function BlockStart(i: nat): nat
      requires Valid()
    { Times(i, ShortLen()) + if i < NumShort() then 0 else i - NumShort() }

    // Where codeword j of block i's data lands. The extra codeword of a long block skips the short blocks.
    function DataPos(i: nat, j: nat): int
      requires Valid()
    { Times(j, numBlocks) + i - if j < ShortLen() then 0 else NumShort() }

    function EccPos(i: nat, j: nat): nat
      requires Valid()
    { DataLen() + Times(j, numBlocks) + i }

    ghost predicate Owns(i: nat, k: int)
      requires Valid()
    {
      || (exists j: nat | j < BlockLen(i) :: k == DataPos(i, j))
      || (exists j: nat | j < eccLen :: k == EccPos(i, j))
    }
  }

  function Block(data: seq<Byte>, lay: Layout, i: nat): seq<Byte>
    requires lay.Valid()
  {
    var from := lay.BlockStart(i);
    if from + lay.BlockLen(i) <= |data| then data[from..from + lay.BlockLen(i)] else []
  }

  // ---------- positions ----------

  // The blocks tile the data.
  lemma LayoutShape(lay: Layout)
    requires lay.Valid()
    ensures 1 <= lay.NumShort() <= lay.numBlocks && lay.ShortLen() >= 1
    ensures lay.DataLen() == Times(lay.ShortLen(), lay.numBlocks) + lay.numBlocks - lay.NumShort()
    ensures lay.BlockStart(0) == 0 && lay.BlockStart(lay.numBlocks) == lay.DataLen()
    ensures lay.raw == lay.DataLen() + Times(lay.eccLen, lay.numBlocks)
  {
    var n, q, r := lay.numBlocks, lay.raw / lay.numBlocks, lay.raw % lay.numBlocks;
    assert lay.raw == q * n + r;
    assert (q - lay.eccLen) * n == q * n - lay.eccLen * n;
    assert lay.ShortLen() * n == n * lay.ShortLen();
  }

  lemma BlockStartStep(lay: Layout, i: nat)
    requires lay.Valid()
    ensures lay.BlockStart(i + 1) == lay.BlockStart(i) + lay.BlockLen(i)
  {
    hide Times;
    TimesStep(i, lay.ShortLen());
  }

  lemma {:induction false} BlockStartMonotone(lay: Layout, i: nat, k: nat)
    requires lay.Valid() && i <= k
    ensures lay.BlockStart(i) <= lay.BlockStart(k)
    decreases k - i
  {
    if i < k {
      BlockStartStep(lay, i);
      BlockStartMonotone(lay, i + 1, k);
    }
  }

  lemma BlockInside(lay: Layout, i: nat)
    requires lay.Valid() && i < lay.numBlocks
    ensures lay.BlockStart(i) + lay.BlockLen(i) <= lay.DataLen()
  {
    BlockStartStep(lay, i);
    BlockStartMonotone(lay, i + 1, lay.numBlocks);
    LayoutShape(lay);
  }

  // A data position as row and column of the interleaved rectangle.
  function Column(lay: Layout, i: nat, j: nat): int
    requires lay.Valid()
  {
    i - if j < lay.ShortLen() then 0 else lay.NumShort()
  }

  lemma DataPosRange(lay: Layout, i: nat, j: nat)
    requires lay.Valid() && i < lay.numBlocks && j < lay.BlockLen(i)
    ensures 0 <= Column(lay, i, j) < lay.numBlocks
    ensures lay.DataPos(i, j) == Times(j, lay.numBlocks) + Column(lay, i, j)
    ensures 0 <= lay.DataPos(i, j) < lay.DataLen()
  {
    hide Times, Layout.Valid, Layout.DataLen;
    LayoutShape(lay);
    if j < lay.ShortLen() {
      TimesMonotone(j + 1, lay.ShortLen(), lay.numBlocks);
      TimesStep(j, lay.numBlocks);
    }
  }

  lemma EccPosRange(lay: Layout, i: nat, j: nat)
    requires lay.Valid() && i < lay.numBlocks && j < lay.eccLen
    ensures lay.DataLen() <= lay.EccPos(i, j) < lay.raw
  {
    hide Times, Layout.Valid, Layout.DataLen, Layout.ShortLen, Layout.NumShort;
    LayoutShape(lay);
    TimesMonotone(j + 1, lay.eccLen, lay.numBlocks);
    TimesStep(j, lay.numBlocks);
  }

  // No two codewords share a position.
  lemma DataPosInjective(lay: Layout, i: nat, j: nat, i': nat, j': nat)
    requires lay.Valid() && i < lay.numBlocks && i' < lay.numBlocks && j < lay.BlockLen(i) && j' < lay.BlockLen(i')
    ensures lay.DataPos(i, j) == lay.DataPos(i', j') <==> i == i' && j == j'
  {
    hide Times;
    DataPosRange(lay, i, j);
    DataPosRange(lay, i', j');
    RowColumnUnique(lay.numBlocks, j, Column(lay, i, j), j', Column(lay, i', j'));
  }

  lemma EccPosInjective(lay: Layout, i: nat, j: nat, i': nat, j': nat)
    requires lay.Valid() && i < lay.numBlocks && i' < lay.numBlocks
    ensures lay.EccPos(i, j) == lay.EccPos(i', j') <==> i == i' && j == j'
  {
    hide Times;
    RowColumnUnique(lay.numBlocks, j, i, j', i');
  }

  lemma OwnersDisjoint(lay: Layout, i: nat, i': nat, k: int)
    requires lay.Valid() && i < lay.numBlocks && i' < lay.numBlocks && i != i'
    requires lay.Owns(i, k)
    ensures !lay.Owns(i', k)
  {
    if j: nat :| j < lay.BlockLen(i) && k == lay.DataPos(i, j) {
      DataPosRange(lay, i, j);
      forall j': nat | j' < lay.BlockLen(i') ensures k != lay.DataPos(i', j') { DataPosInjective(lay, i, j, i', j'); }
      forall j': nat | j' < lay.eccLen ensures k != lay.EccPos(i', j') { EccPosRange(lay, i', j'); }
    } else {
      var j: nat :| j < lay.eccLen && k == lay.EccPos(i, j);
      EccPosRange(lay, i, j);
      forall j': nat | j' < lay.BlockLen(i') ensures k != lay.DataPos(i', j') { DataPosRange(lay, i', j'); }
      forall j': nat | j' < lay.eccLen ensures k != lay.EccPos(i', j') { EccPosInjective(lay, i, j, i', j'); }
    }
  }

  // Every result position belongs to some block, so with OwnersDisjoint each is written exactly once.
  lemma EveryPositionOwned(lay: Layout, k: nat)
    requires lay.Valid() && k < lay.raw
    ensures exists i: nat | i < lay.numBlocks :: lay.Owns(i, k)
  {
    hide Times;
    LayoutShape(lay);
    var n := lay.numBlocks;
    if k < Times(lay.ShortLen(), n) {
      var i, j := k % n, k / n;
      DivMod(k, n);
      if j >= lay.ShortLen() { TimesMonotone(lay.ShortLen(), j, n); }
      assert k == lay.DataPos(i, j);
      assert lay.Owns(i, k);
    } else if k < lay.DataLen() {
      var i, j := k - Times(lay.ShortLen(), n) + lay.NumShort(), lay.ShortLen();
      assert k == lay.DataPos(i, j);
      assert lay.Owns(i, k);
    } else {
      var i, j := (k - lay.DataLen()) % n, (k - lay.DataLen()) / n;
      DivMod(k - lay.DataLen(), n);
      if j >= lay.eccLen { TimesMonotone(lay.eccLen, j, n); }
      assert k == lay.EccPos(i, j);
      assert lay.Owns(i, k);
    }
  }

  // ---------- the interleaved sequence ----------

  ghost predicate BlockPlaced(result: seq<Byte>, block: seq<Byte>, lay: Layout, i: nat)
    requires lay.Valid()
  {
    && (forall j: nat | j < lay.BlockLen(i) ::
          0 <= lay.DataPos(i, j) < |result| && j < |block| && result[lay.DataPos(i, j)] == block[j])
    && (forall j: nat | j < lay.eccLen ::
          0 <= lay.EccPos(i, j) < |result| && result[lay.EccPos(i, j)] == Remainder(block, Divisor(lay.eccLen))[j])
  }

  // Every block's data and error correction codewords stand at their interleaved positions.
  ghost predicate Interleaved(result: seq<Byte>, data: seq<Byte>, lay: Layout)
    requires lay.Valid()
  {
    forall i: nat | i < lay.numBlocks :: BlockPlaced(result, Block(data, lay, i), lay, i)
  }

  function LayoutOf(v: Version, e: Level): (lay: Layout)
    ensures lay.Valid() && lay.DataLen() == NumDataCodewords(v, e) && lay.raw == NumRawDataModules(v) / 8
  {
    BlockParameters(v, e);
    BlocksFit(v, e);
    RawRange(v);
    var numBlocks, eccLen, raw := NumErrorCorrectionBlocks(e, v), EccCodewordsPerBlock(e, v), NumRawDataModules(v) / 8;
    ValidLayout(numBlocks, eccLen, raw);
    Layout(numBlocks, eccLen, raw)
  }

  lemma ValidLayout(numBlocks: nat, eccLen: nat, raw: nat)
    requires numBlocks >= 1 && 1 <= eccLen <= DEGREE_MAX && numBlocks <= raw - eccLen * numBlocks
    ensures Layout(numBlocks, eccLen, raw).Valid()
    ensures Layout(numBlocks, eccLen, raw).DataLen() == raw - eccLen * numBlocks
  {
    assert raw >= (eccLen + 1) * numBlocks;
  }

  lemma NotOwned(lay: Layout, b: nat, i: nat)
    requires lay.Valid() && b < lay.numBlocks && i < lay.numBlocks && b != i
    ensures forall j: nat | j < lay.BlockLen(b) :: !lay.Owns(i, lay.DataPos(b, j))
    ensures forall j: nat | j < lay.eccLen :: !lay.Owns(i, lay.EccPos(b, j))
  {
    forall j: nat | j < lay.BlockLen(b) ensures !lay.Owns(i, lay.DataPos(b, j)) {
      assert lay.Owns(b, lay.DataPos(b, j));
      OwnersDisjoint(lay, b, i, lay.DataPos(b, j));
    }
    forall j: nat | j < lay.eccLen ensures !lay.Owns(i, lay.EccPos(b, j)) {
      assert lay.Owns(b, lay.EccPos(b, j));
      OwnersDisjoint(lay, b, i, lay.EccPos(b, j));
    }
  }

  // Copies block i's data, data[off : off + BlockLen(i)], to its interleaved positions.
  method CopyData(data: array<Byte>, off: nat, lay: Layout, i: nat, result: array<Byte>)
    requires lay.Valid() && i < lay.numBlocks && data != result
    requires off + lay.BlockLen(i) <= data.Length && lay.raw <= result.Length
    modifies result
    ensures forall j: nat | j < lay.BlockLen(i) ::
      0 <= lay.DataPos(i, j) < lay.DataLen() <= result.Length && result[lay.DataPos(i, j)] == data[off + j]
    ensures forall k | 0 <= k < result.Length && !lay.Owns(i, k) :: result[k] == old(result[k])
  {
    hide Times;
    LayoutShape(lay);
    var datLen := lay.BlockLen(i);
    var k: int := i;
    var j := 0;
    TimesStep(0, lay.numBlocks);
    while j < datLen
      invariant 0 <= j <= datLen
      invariant k == Times(j, lay.numBlocks) + i - if j <= lay.ShortLen() then 0 else lay.NumShort()
      invariant forall m: nat | m < j ::
        0 <= lay.DataPos(i, m) < lay.DataLen() <= result.Length && result[lay.DataPos(i, m)] == data[off + m]
      invariant forall k | 0 <= k < result.Length && !lay.Owns(i, k) :: result[k] == old(result[k])
    {
      if j == lay.ShortLen() {
        k := k - lay.NumShort();
      }
      DataPosRange(lay, i, j);
      assert k == lay.DataPos(i, j) && lay.Owns(i, k);
      forall m: nat | m < j ensures lay.DataPos(i, m) != k { DataPosInjective(lay, i, m, i, j); }
      result[k] := data[off + j];
      TimesStep(j, lay.numBlocks);
      j := j + 1;
      k := k + lay.numBlocks;
    }
  }

  // Copies block i's error correction codewords from the scratch area data[at : at + eccLen].
  method CopyEcc(data: array<Byte>, at: nat, lay: Layout, i: nat, result: array<Byte>)
    requires lay.Valid() && i < lay.numBlocks && data != result
    requires at == lay.DataLen() && at + lay.eccLen <= data.Length && lay.raw <= result.Length
    modifies result
    ensures forall j: nat | j < lay.eccLen ::
      at <= lay.EccPos(i, j) < result.Length && result[lay.EccPos(i, j)] == data[at + j]
    ensures forall k | 0 <= k < at :: result[k] == old(result[k])
    ensures forall k | 0 <= k < result.Length && !lay.Owns(i, k) :: result[k] == old(result[k])
  {
    hide Times;
    LayoutShape(lay);
    var k := at + i;
    var j := 0;
    TimesStep(0, lay.numBlocks);
    while j < lay.eccLen
      invariant 0 <= j <= lay.eccLen
      invariant k == lay.EccPos(i, j)
      invariant forall m: nat | m < j ::
        at <= lay.EccPos(i, m) < result.Length && result[lay.EccPos(i, m)] == data[at + m]
      invariant forall k | 0 <= k < at :: result[k] == old(result[k])
      invariant forall k | 0 <= k < result.Length && !lay.Owns(i, k) :: result[k] == old(result[k])
    {
      EccPosRange(lay, i, j);
      assert lay.Owns(i, k);
      forall m: nat | m < j ensures lay.EccPos(i, m) != k { EccPosInjective(lay, i, m, i, j); }
      result[k] := data[at + j];
      TimesStep(j, lay.numBlocks);
      j := j + 1;
      k := k + lay.numBlocks;
    }
  }

  lemma BlockIsSlice(data: seq<Byte>, lay: Layout, i: nat)
    requires lay.Valid() && i < lay.numBlocks && |data| == lay.DataLen()
    ensures lay.BlockStart(i) + lay.BlockLen(i) <= |data|
    ensures Block(data, lay, i) == data[lay.BlockStart(i)..lay.BlockStart(i) + lay.BlockLen(i)]
  {
    BlockInside(lay, i);
  }

  lemma EccNotEmpty(lay: Layout)
    requires lay.Valid()
    ensures 1 <= lay.eccLen <= DEGREE_MAX && 1 <= lay.numBlocks
  {}

  lemma PlacedNow(result: seq<Byte>, block: seq<Byte>, ecc: seq<Byte>, lay: Layout, i: nat)
    requires lay.Valid() && |block| == lay.BlockLen(i) && ecc == Remainder(block, Divisor(lay.eccLen))
    requires forall j: nat | j < lay.BlockLen(i) ::
      0 <= lay.DataPos(i, j) < |result| && result[lay.DataPos(i, j)] == block[j]
    requires forall j: nat | j < lay.eccLen :: 0 <= lay.EccPos(i, j) < |result| && result[lay.EccPos(i, j)] == ecc[j]
    ensures BlockPlaced(result, block, lay, i)
  {}

  lemma PlacedStill(before: seq<Byte>, after: seq<Byte>, data: seq<Byte>, lay: Layout, i: nat)
    requires lay.Valid() && i < lay.numBlocks && |before| == |after| && |data| == lay.DataLen()
    requires forall k | 0 <= k < |before| && !lay.Owns(i, k) :: after[k] == before[k]
    requires forall b: nat | b < i :: BlockPlaced(before, Block(data, lay, b), lay, b)
    ensures forall b: nat | b < i :: BlockPlaced(after, Block(data, lay, b), lay, b)
  {
    hide Block, BlockPlaced, Layout.Valid, Layout.BlockLen, Layout.DataPos, Layout.EccPos, Layout.Owns;
    forall b: nat | b < i ensures BlockPlaced(after, Block(data, lay, b), lay, b) {
      NotOwned(lay, b, i);
      BlockIsSlice(data, lay, b);
      PlacedElsewhere(before, after, Block(data, lay, b), lay, b, i);
    }
  }

  lemma PlacedElsewhere(before: seq<Byte>, after: seq<Byte>, block: seq<Byte>, lay: Layout, b: nat, i: nat)
    requires lay.Valid() && |before| == |after| && |block| == lay.BlockLen(b) && BlockPlaced(before, block, lay, b)
    requires forall k | 0 <= k < |before| && !lay.Owns(i, k) :: after[k] == before[k]
    requires forall j: nat | j < lay.BlockLen(b) :: !lay.Owns(i, lay.DataPos(b, j))
    requires forall j: nat | j < lay.eccLen :: !lay.Owns(i, lay.EccPos(b, j))
    ensures BlockPlaced(after, block, lay, b)
  {
    hide Layout.Valid, Layout.BlockLen, Layout.DataPos, Layout.EccPos, Layout.Owns, Remainder, Divisor;
    EccNotEmpty(lay);
    var ecc := Remainder(block, Divisor(lay.eccLen));
    forall j: nat | j < lay.BlockLen(b)
      ensures 0 <= lay.DataPos(b, j) < |after| && after[lay.DataPos(b, j)] == block[j]
    {}
    forall j: nat | j < lay.eccLen ensures 0 <= lay.EccPos(b, j) < |after| && after[lay.EccPos(b, j)] == ecc[j] {}
    PlacedNow(after, block, ecc, lay, b);
  }

  lemma SliceOfPrefix(s: seq<Byte>, n: nat, a: nat, b: nat)
    requires a <= b <= n <= |s|
    ensures s[a..b] == s[..n][a..b]
  {}

  // One round of the block loop: compute block i's error correction codewords in the scratch area, then copy both
  // parts.
  method PlaceBlock(data: array<Byte>, dat: nat, lay: Layout, i: nat, rsdiv: array<Byte>, result: array<Byte>,
                    ghost input: seq<Byte>)
    requires lay.Valid() && i < lay.numBlocks && data != result && rsdiv != data && rsdiv != result
    requires lay.DataLen() + lay.eccLen <= data.Length && lay.raw <= result.Length
    requires |input| == lay.DataLen() && data[..lay.DataLen()] == input && dat == lay.BlockStart(i)
    requires lay.eccLen <= rsdiv.Length && rsdiv[..lay.eccLen] == Divisor(lay.eccLen)
    modifies data, result
    ensures forall k | 0 <= k < data.Length && !(lay.DataLen() <= k < lay.DataLen() + lay.eccLen) ::
      data[k] == old(data[k])
    ensures forall k | 0 <= k < result.Length && !lay.Owns(i, k) :: result[k] == old(result[k])
    ensures BlockPlaced(result[..], Block(input, lay, i), lay, i)
  {
    hide Times, Divisor, Block, BlockPlaced, Layout.BlockStart, Layout.BlockLen, Layout.DataLen, Layout.DataPos,
      Layout.EccPos, Layout.Owns, Layout.Valid, Remainder;
    EccNotEmpty(lay);
    var datLen, dataLen := lay.BlockLen(i), lay.DataLen();
    BlockInside(lay, i);
    BlockIsSlice(input, lay, i);
    ghost var block := Block(input, lay, i);
    SliceOfPrefix(data[..], dataLen, dat, dat + datLen);
    assert data[dat..dat + datLen] == block;
    ComputeRemainder(data, dat, datLen, rsdiv, lay.eccLen, data, dataLen);
    SliceOfPrefix(data[..], dataLen, dat, dat + datLen);
    CopyData(data, dat, lay, i, result);
    ghost var copied := result[..];
    CopyEcc(data, dataLen, lay, i, result);
    forall j: nat | j < datLen ensures result[lay.DataPos(i, j)] == block[j] {
      DataPosRange(lay, i, j);
      assert copied[lay.DataPos(i, j)] == data[dat + j] == block[j];
    }
    PlacedNow(result[..], block, data[dataLen..dataLen + lay.eccLen], lay, i);
  }

  // data[dataLen : rawCodewords] is scratch space; result[0 : rawCodewords] receives the interleaved blocks.
  method AddEccAndInterleave(data: array<Byte>, lay: Layout, result: array<Byte>)
    requires lay.Valid() && data != result
    requires lay.raw <= data.Length && lay.raw <= result.Length
    modifies data, result
    ensures Interleaved(result[..], old(data[..lay.DataLen()]), lay)
    ensures forall k | 0 <= k < data.Length && !(lay.DataLen() <= k < lay.raw) :: data[k] == old(data[k])
    ensures forall k | lay.raw <= k < result.Length :: result[k] == old(result[k])
  {
    hide Times, Divisor, BlockPlaced, Block, Layout.BlockStart, Layout.BlockLen, Layout.DataPos, Layout.EccPos,
      Layout.Owns, Layout.DataLen, Layout.Valid, Interleaved;
    LayoutShape(lay);
    EccNotEmpty(lay);
    var dataLen := lay.DataLen();
    ghost var input := data[..dataLen];
    var rsdiv := new Byte[DEGREE_MAX];
    ComputeDivisor(lay.eccLen, rsdiv);
    var dat := 0;
    for i := 0 to lay.numBlocks
      invariant dat == lay.BlockStart(i)
      invariant data[..dataLen] == input && rsdiv[..lay.eccLen] == Divisor(lay.eccLen)
      invariant forall k | 0 <= k < data.Length && !(dataLen <= k < lay.raw) :: data[k] == old(data[k])
      invariant forall b: nat | b < i :: BlockPlaced(result[..], Block(input, lay, b), lay, b)
      invariant forall k | lay.raw <= k < result.Length :: result[k] == old(result[k])
    {
      ghost var before := result[..];
      PlaceBlock(data, dat, lay, i, rsdiv, result, input);
      PlacedStill(before, result[..], input, lay, i);
      OwnedInside(lay, i);
      BlockStartStep(lay, i);
      dat := dat + lay.BlockLen(i);
    }
    AllPlaced(result[..], input, lay);
  }

  lemma AllPlaced(result: seq<Byte>, data: seq<Byte>, lay: Layout)
    requires lay.Valid() && forall b: nat | b < lay.numBlocks :: BlockPlaced(result, Block(data, lay, b), lay, b)
    ensures Interleaved(result, data, lay)
  {
    hide BlockPlaced, Block;
  }

  lemma OwnedInside(lay: Layout, i: nat)
    requires lay.Valid() && i < lay.numBlocks
    ensures forall k | lay.raw <= k :: !lay.Owns(i, k)
  {
    LayoutShape(lay);
    forall j: nat | j < lay.BlockLen(i) ensures lay.DataPos(i, j) < lay.raw { DataPosRange(lay, i, j); }
    forall j: nat | j < lay.eccLen ensures lay.EccPos(i, j) < lay.raw { EccPosRange(lay, i, j); }
  }

  // ---------- reading the blocks back ----------

  function BlockAt(result: seq<Byte>, lay: Layout, i: nat): seq<Byte>
    requires lay.Valid()
  {
    seq(lay.BlockLen(i), j requires 0 <= j =>
      if 0 <= lay.DataPos(i, j) < |result| then result[lay.DataPos(i, j)] else 0)
  }

  function EccAt(result: seq<Byte>, lay: Layout, i: nat): seq<Byte>
    requires lay.Valid()
  {
    seq(lay.eccLen, j requires 0 <= j => if 0 <= lay.EccPos(i, j) < |result| then result[lay.EccPos(i, j)] else 0)
  }

  // The data codewords of blocks i, i + 1, ... in order.
  function Deinterleave(result: seq<Byte>, lay: Layout, i: nat): seq<Byte>
    requires lay.Valid()
    decreases lay.numBlocks - i
  {
    if i >= lay.numBlocks then [] else BlockAt(result, lay, i) + Deinterleave(result, lay, i + 1)
  }

  // Each block read back is the codeword that was written: its data, then the remainder of that data.
  lemma BlockReadBack(result: seq<Byte>, data: seq<Byte>, lay: Layout, i: nat)
    requires lay.Valid() && i < lay.numBlocks && |data| == lay.DataLen()
    requires Interleaved(result, data, lay)
    ensures BlockAt(result, lay, i) + EccAt(result, lay, i) == Codeword(Block(data, lay, i), lay.eccLen)
  {
    hide Times, Divisor, Remainder;
    BlockIsSlice(data, lay, i);
    assert BlockPlaced(result, Block(data, lay, i), lay, i);
  }

  lemma {:induction false} DeinterleaveInverts(result: seq<Byte>, data: seq<Byte>, lay: Layout, i: nat)
    requires lay.Valid() && i <= lay.numBlocks && |data| == lay.DataLen()
    requires Interleaved(result, data, lay)
    ensures lay.BlockStart(i) <= |data|
    ensures Deinterleave(result, lay, i) == data[lay.BlockStart(i)..]
    decreases lay.numBlocks - i
  {
    hide Times, Divisor, Remainder;
    LayoutShape(lay);
    if i < lay.numBlocks {
      BlockStartStep(lay, i);
      DeinterleaveInverts(result, data, lay, i + 1);
      BlockIsSlice(data, lay, i);
      assert BlockPlaced(result, Block(data, lay, i), lay, i);
      assert BlockAt(result, lay, i) == Block(data, lay, i);
    }
  }
}
