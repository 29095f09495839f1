/**
 * The interleaved sequence as section 7.6 of ISO/IEC 18004:2015 describes it: the data is cut into blocks as even as
 * possible, the shorter ones first; then come the first codewords of all blocks, the second ones, and so on.
 */
module InterleavedOrder {
  import opened Bits
  import opened Indexing
  import opened ReedSolomon
  import opened Interleaving

  // Codeword j of every block that has so many, block after block.
  function Row(blocks: seq<seq<Byte>>, j: nat): seq<Byte> {
    if blocks == [] then []
    else
      var last := blocks[|blocks| - 1];
      Row(blocks[..|blocks| - 1], j) + if j < |last| then [last[j]] else []
  }

  // The first n rows, one after the other.
  function Rows(blocks: seq<seq<Byte>>, n: nat): seq<Byte> {
    if n == 0 then [] else Rows(blocks, n - 1) + Row(blocks, n - 1)
  }

  function Joined(blocks: seq<seq<Byte>>): seq<Byte> {
    if blocks == [] then [] else Joined(blocks[..|blocks| - 1]) + blocks[|blocks| - 1]
  }

  // Blocks are as long as each other, or one codeword longer than those before.
  predicate Even(blocks: seq<seq<Byte>>) {
    forall i, k | 0 <= i < k < |blocks| :: |blocks[i]| <= |blocks[k]| <= |blocks[i]| + 1
  }

  function DataBlocks(data: seq<Byte>, lay: Layout): (blocks: seq<seq<Byte>>)
    requires lay.Valid()
    ensures |blocks| == lay.numBlocks
  {
    seq(lay.numBlocks, i requires 0 <= i < lay.numBlocks => Block(data, lay, i))
  }

  // The blocks are the data in order.
  lemma BlocksTile(data: seq<Byte>, lay: Layout)
    requires lay.Valid() && |data| == lay.DataLen()
    ensures Joined(DataBlocks(data, lay)) == data && Even(DataBlocks(data, lay))
  {
    hide Block;
    LayoutShape(lay);
    JoinedUpTo(data, lay, lay.numBlocks);
    var blocks := DataBlocks(data, lay);
    assert blocks[..lay.numBlocks] == blocks && data[..lay.DataLen()] == data;
    forall i: nat | i < lay.numBlocks ensures |blocks[i]| == lay.BlockLen(i) { BlockIs(data, lay, i); }
  }

  lemma BlockIs(data: seq<Byte>, lay: Layout, i: nat)
    requires lay.Valid() && |data| == lay.DataLen() && i < lay.numBlocks
    ensures lay.BlockStart(i) <= lay.BlockStart(i + 1) <= |data|
    ensures Block(data, lay, i) == data[lay.BlockStart(i)..lay.BlockStart(i + 1)]
    ensures |Block(data, lay, i)| == lay.BlockLen(i)
  {
    hide Times;
    BlockStartStep(lay, i);
    BlockInside(lay, i);
  }

  lemma {:induction false} JoinedUpTo(data: seq<Byte>, lay: Layout, i: nat)
    requires lay.Valid() && |data| == lay.DataLen() && i <= lay.numBlocks
    ensures lay.BlockStart(i) <= |data| && Joined(DataBlocks(data, lay)[..i]) == data[..lay.BlockStart(i)]
  {
    hide Block, Layout.BlockStart;
    var blocks := DataBlocks(data, lay);
    if i == 0 {
      LayoutShape(lay);
    } else {
      JoinedUpTo(data, lay, i - 1);
      BlockIs(data, lay, i - 1);
      assert blocks[..i][..i - 1] == blocks[..i - 1];
    }
  }

  // ---------- where rows put a codeword ----------

  // In a row that the first s blocks are too short for.
  lemma {:induction false} RowAt(blocks: seq<seq<Byte>>, j: nat, s: nat)
    requires s <= |blocks| && forall i | 0 <= i < |blocks| :: j < |blocks[i]| <==> s <= i
    ensures |Row(blocks, j)| == |blocks| - s
      && forall i: nat | s <= i < |blocks| :: Row(blocks, j)[i - s] == blocks[i][j]
  {
    if blocks != [] {
      var init := blocks[..|blocks| - 1];
      RowAt(init, j, if s == |blocks| then s - 1 else s);
    }
  }

  // In rows that all blocks are long enough for.
  lemma {:induction false} RowsAt(blocks: seq<seq<Byte>>, n: nat, i: nat, j: nat)
    requires i < |blocks| && j < n && forall k | 0 <= k < |blocks| :: n <= |blocks[k]|
    ensures |Rows(blocks, n)| == Times(n, |blocks|) && Times(j, |blocks|) + i < Times(n, |blocks|)
    ensures Rows(blocks, n)[Times(j, |blocks|) + i] == blocks[i][j]
  {
    hide Times, Row;
    RowsLength(blocks, n);
    RowsLength(blocks, n - 1);
    RowAt(blocks, n - 1, 0);
    TimesStep(n - 1, |blocks|);
    if j < n - 1 { RowsAt(blocks, n - 1, i, j); }
  }

  lemma {:induction false} RowsLength(blocks: seq<seq<Byte>>, n: nat)
    requires forall k | 0 <= k < |blocks| :: n <= |blocks[k]|
    ensures |Rows(blocks, n)| == Times(n, |blocks|)
  {
    hide Times, Row;
    if n == 0 {
      TimesStep(0, |blocks|);
    } else {
      RowsLength(blocks, n - 1);
      RowAt(blocks, n - 1, 0);
      TimesStep(n - 1, |blocks|);
    }
  }

  function EccBlocks(data: seq<Byte>, lay: Layout): (blocks: seq<seq<Byte>>)
    requires lay.Valid()
    ensures |blocks| == lay.numBlocks && forall i: nat | i < lay.numBlocks :: |blocks[i]| == lay.eccLen
  {
    seq(lay.numBlocks, i requires 0 <= i < lay.numBlocks => Remainder(Block(data, lay, i), Divisor(lay.eccLen)))
  }

  lemma DataStands(data: seq<Byte>, lay: Layout, i: nat, j: nat)
    requires lay.Valid() && |data| == lay.DataLen() && i < lay.numBlocks && j < lay.BlockLen(i)
    ensures var rows := Rows(DataBlocks(data, lay), lay.ShortLen() + 1);
      |rows| == lay.DataLen() && 0 <= lay.DataPos(i, j) < |rows| && j < |Block(data, lay, i)|
      && rows[lay.DataPos(i, j)] == Block(data, lay, i)[j]
  {
    hide Times, Block, Row;
    LayoutShape(lay);
    DataPosRange(lay, i, j);
    var blocks, n := DataBlocks(data, lay), lay.ShortLen();
    forall k: nat | k < lay.numBlocks ensures |blocks[k]| == lay.BlockLen(k) { BlockIs(data, lay, k); }
    RowsLength(blocks, n);
    RowAt(blocks, n, lay.NumShort());
    if j < n { RowsAt(blocks, n, i, j); }
  }

  lemma EccStands(data: seq<Byte>, lay: Layout, i: nat, j: nat)
    requires lay.Valid() && i < lay.numBlocks && j < lay.eccLen
    ensures var rows := Rows(EccBlocks(data, lay), lay.eccLen);
      |rows| == lay.raw - lay.DataLen() && 0 <= lay.EccPos(i, j) - lay.DataLen() < |rows|
      && rows[lay.EccPos(i, j) - lay.DataLen()] == EccBlocks(data, lay)[i][j]
  {
    hide Times, Rows;
    LayoutShape(lay);
    RowsAt(EccBlocks(data, lay), lay.eccLen, i, j);
  }

  // An interleaved sequence is the rows of the data, then the rows of the error correction codewords.
  lemma InterleavedIsRows(result: seq<Byte>, data: seq<Byte>, lay: Layout)
    requires lay.Valid() && |result| == lay.raw && |data| == lay.DataLen() && Interleaved(result, data, lay)
    ensures result == Rows(DataBlocks(data, lay), lay.ShortLen() + 1) + Rows(EccBlocks(data, lay), lay.eccLen)
  {
    hide Rows, Times, Layout.DataPos, Layout.EccPos, Block, Remainder;
    var d, e := Rows(DataBlocks(data, lay), lay.ShortLen() + 1), Rows(EccBlocks(data, lay), lay.eccLen);
    LayoutShape(lay);
    DataStands(data, lay, 0, 0);
    EccStands(data, lay, 0, 0);
    forall k: nat | k < lay.raw
      ensures result[k] == (d + e)[k]
    {
      EveryPositionOwned(lay, k);
      var i: nat :| i < lay.numBlocks && lay.Owns(i, k);
      assert BlockPlaced(result, Block(data, lay, i), lay, i);
      if j: nat :| j < lay.BlockLen(i) && k == lay.DataPos(i, j) {
        DataStands(data, lay, i, j);
      } else {
        var j: nat :| j < lay.eccLen && k == lay.EccPos(i, j);
        EccStands(data, lay, i, j);
      }
    }
    assert |d + e| == |result|;
  }
}
