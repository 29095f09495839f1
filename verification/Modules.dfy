/** The module grid of a symbol, packed one bit per module into a byte array. */
module Modules {
  import opened Bits
  import opened Indexing

  // Row-major: g[y][x] is true for a dark module.
  type Grid = seq<seq<bool>>

  predicate Square(g: Grid, n: nat) {
    |g| == n && forall y | 0 <= y < n :: |g[y]| == n
  }

  function Paint(g: Grid, x: nat, y: nat, dark: bool): (g': Grid)
    requires y < |g| && x < |g[y]|
  {
    g[y := g[y][x := dark]]
  }

  // Bytes needed for a symbol of side n.
  function BufferLen(n: nat): nat {
    (Times(n, n) + 7) / 8 + 1
  }

  // The first byte holds the side length.
  predicate Sized(q: seq<Byte>, n: nat) {
    21 <= n <= 177 && BufferLen(n) <= |q| && q[0] as int == n
  }

  predicate Cell(q: seq<Byte>, k: nat) {
    k / 8 + 1 < |q| && Bit(q[k / 8 + 1], k % 8)
  }

  function Row(q: seq<Byte>, n: nat, y: nat): (r: seq<bool>)
    ensures |r| == n
  {
    seq(n, x requires 0 <= x => Cell(q, Times(y, n) + x))
  }

  function GridOf(q: seq<Byte>, n: nat): (g: Grid)
    ensures Square(g, n)
  {
    seq(n, y requires 0 <= y => Row(q, n, y))
  }

  // Module (x, y) is the bit of value 2^(k % 8) in byte k / 8 after the first, for k = y n + x.
  lemma ModuleBit(q: seq<Byte>, n: nat, x: nat, y: nat, k: nat)
    requires x < n && y < n && k == y * n + x && k / 8 + 1 < |q|
    ensures GridOf(q, n)[y][x] <==> (q[k / 8 + 1] >> (k % 8)) & 1 == 1
  {
    ShiftIsBit(q[k / 8 + 1], k % 8);
    assert k == Times(y, n) + x;
    assert GridOf(q, n)[y][x] == Row(q, n, y)[x] == Cell(q, k);
  }

  lemma IndexInside(n: nat, x: nat, y: nat)
    requires x < n && y < n
    ensures Times(y, n) + x < Times(n, n)
    ensures (Times(y, n) + x) / 8 + 1 < BufferLen(n)
  {
    TimesStep(y, n);
    TimesMonotone(y + 1, n, n);
  }

  lemma GridAt(q: seq<Byte>, n: nat, x: nat, y: nat)
    requires x < n && y < n
    ensures GridOf(q, n)[y][x] == Cell(q, Times(y, n) + x)
  {}

  predicate OneBitChanged(q: seq<Byte>, q': seq<Byte>, k: nat, dark: bool) {
    k / 8 + 1 < |q| && q' == q[k / 8 + 1 := WithBit(q[k / 8 + 1], k % 8, dark)]
  }

  lemma CellChanged(q: seq<Byte>, q': seq<Byte>, k: nat, dark: bool, k': nat)
    requires OneBitChanged(q, q', k, dark)
    ensures Cell(q', k') == if k' == k then dark else Cell(q, k')
  {
    hide Bit, WithBit;
    if k' / 8 == k / 8 {
      BitOfWithBit(q[k / 8 + 1], k % 8, dark, k' % 8);
    }
  }

  // Changing one bit of the packed array repaints one module and nothing else.
  lemma PaintOneBit(q: seq<Byte>, q': seq<Byte>, n: nat, x: nat, y: nat, dark: bool)
    requires x < n && y < n && OneBitChanged(q, q', Times(y, n) + x, dark)
    ensures GridOf(q', n) == Paint(GridOf(q, n), x, y, dark)
  {
    hide Times, Cell, OneBitChanged;
    var k := Times(y, n) + x;
    var g, g' := GridOf(q, n), GridOf(q', n);
    forall y': nat, x': nat | y' < n && x' < n
      ensures g'[y'][x'] == Paint(g, x, y, dark)[y'][x']
    {
      var k' := Times(y', n) + x';
      RowColumnUnique(n, y, x, y', x');
      CellChanged(q, q', k, dark, k');
      GridAt(q, n, x', y');
      GridAt(q', n, x', y');
    }
    assert forall y' | 0 <= y' < n :: g'[y'] == Paint(g, x, y, dark)[y'];
  }

  lemma SetBitAsMask(b: Byte, i: nat)
    requires i < 8
    ensures b | (1 << i) == WithBit(b, i, true)
    ensures b & ((1 << i) ^ 0xFF) == WithBit(b, i, false)
  {
    ShiftIsOne(i);
  }

  // ---------- the accessors of the source ----------

  method GetModuleBounded(qrcode: array<Byte>, x: nat, y: nat, ghost n: nat) returns (dark: bool)
    requires Sized(qrcode[..], n) && x < n && y < n
    ensures dark == GridOf(qrcode[..], n)[y][x]
  {
    hide Times, Bit;
    var qrsize := qrcode[0] as int;
    var index := Times(y, qrsize) + x;
    IndexInside(n, x, y);
    GridAt(qrcode[..], n, x, y);
    ShiftIsBit(qrcode[index / 8 + 1], index % 8);
    dark := (qrcode[index / 8 + 1] >> (index % 8)) & 1 != 0;
    assert (qrcode[index / 8 + 1] >> (index % 8)) & 1 == 0 || (qrcode[index / 8 + 1] >> (index % 8)) & 1 == 1;
  }

  method WriteBit(qrcode: array<Byte>, byteIndex: nat, bitIndex: nat, isDark: bool)
    requires byteIndex < qrcode.Length && bitIndex < 8
    modifies qrcode
    ensures qrcode[..] == old(qrcode[..])[byteIndex := WithBit(old(qrcode[byteIndex]), bitIndex, isDark)]
  {
    hide WithBit;
    var b := qrcode[byteIndex];
    SetBitAsMask(b, bitIndex);
    if isDark {
      qrcode[byteIndex] := b | (1 << bitIndex);
    } else {
      qrcode[byteIndex] := b & ((1 << bitIndex) ^ 0xFF);
    }
  }

  method SetModuleBounded(qrcode: array<Byte>, x: nat, y: nat, isDark: bool, ghost n: nat)
    requires Sized(qrcode[..], n) && x < n && y < n
    modifies qrcode
    ensures Sized(qrcode[..], n)
    ensures GridOf(qrcode[..], n) == Paint(old(GridOf(qrcode[..], n)), x, y, isDark)
  {
    hide Times, Bit, WithBit, GridOf;
    var qrsize := qrcode[0] as int;
    var index := Times(y, qrsize) + x;
    IndexInside(n, x, y);
    ghost var before := qrcode[..];
    var bitIndex, byteIndex := index % 8, index / 8 + 1;
    WriteBit(qrcode, byteIndex, bitIndex, isDark);
    assert OneBitChanged(before, qrcode[..], index, isDark);
    PaintOneBit(before, qrcode[..], n, x, y, isDark);
  }

  // Does nothing when the coordinates are out of bounds.
  method SetModuleUnbounded(qrcode: array<Byte>, x: int, y: int, isDark: bool, ghost n: nat)
    requires Sized(qrcode[..], n)
    modifies qrcode
    ensures Sized(qrcode[..], n)
    ensures GridOf(qrcode[..], n) == if 0 <= x < n && 0 <= y < n then Paint(old(GridOf(qrcode[..], n)), x, y, isDark)
      else old(GridOf(qrcode[..], n))
  {
    var qrsize := qrcode[0] as int;
    if 0 <= x < qrsize && 0 <= y < qrsize {
      SetModuleBounded(qrcode, x, y, isDark, n);
    }
  }
}
