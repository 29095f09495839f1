/** Bits of bytes, numbers as bit strings, and byte buffers read as big-endian bit streams. */
module Bits {

  type Byte = bv8

  function ByteOf(x: int): (b: Byte)
    requires 0 <= x < 256
    ensures b as int == x
  {
    var b := x as Byte;
    assert b as int == x by { if x < 128 {} else {} }
    b
  }

  // ---------- bits of one byte ----------

  function One(i: nat): Byte
    requires i < 8
  {
    if i == 0 then 1 else One(i - 1) << 1
  }

  predicate Bit(b: Byte, i: nat)
    requires i < 8
  {
    b & One(i) != 0
  }

  function WithBit(b: Byte, i: nat, v: bool): Byte
    requires i < 8
  {
    if v then b | One(i) else b & (One(i) ^ 0xFF)
  }

  // The shifts of the source agree with the mask table.
  lemma ShiftIsOne(i: nat)
    requires i < 8
    ensures One(i) == 1 << i
  {
    if i == 0 {} else if i == 1 {} else if i == 2 {} else if i == 3 {}
    else if i == 4 {} else if i == 5 {} else if i == 6 {} else { assert i == 7; }
  }

  lemma ShiftIsBit(b: Byte, i: nat)
    requires i < 8
    ensures Bit(b, i) <==> (b >> i) & 1 == 1
  {
    if i == 0 {} else if i == 1 {} else if i == 2 {} else if i == 3 {}
    else if i == 4 {} else if i == 5 {} else if i == 6 {} else { assert i == 7; }
  }

  lemma OneTable(i: nat)
    requires i < 8
    ensures One(i) == [1, 2, 4, 8, 16, 32, 64, 128][i]
  {
    assert One(0) == 1 && One(1) == 2 && One(2) == 4 && One(3) == 8;
    assert One(4) == 16 && One(5) == 32 && One(6) == 64 && One(7) == 128;
  }

  lemma BitOfWithBit(b: Byte, i: nat, v: bool, k: nat)
    requires i < 8 && k < 8
    ensures Bit(WithBit(b, i, v), k) == if i == k then v else Bit(b, k)
  {
    OneTable(i);
    OneTable(k);
  }

  // A byte is determined by its eight bits.
  lemma ByteExtensional(a: Byte, b: Byte)
    requires forall i: nat | i < 8 :: Bit(a, i) == Bit(b, i)
    ensures a == b
  {
    assert Bit(a, 0) == Bit(b, 0) && Bit(a, 1) == Bit(b, 1);
    assert Bit(a, 2) == Bit(b, 2) && Bit(a, 3) == Bit(b, 3);
    assert Bit(a, 4) == Bit(b, 4) && Bit(a, 5) == Bit(b, 5);
    assert Bit(a, 6) == Bit(b, 6) && Bit(a, 7) == Bit(b, 7);
  }

  function Pack8(s: seq<bool>): (b: Byte)
    requires |s| == 8
    ensures forall k: nat | k < 8 :: Bit(b, 7 - k) == s[k]
  {
    var b := (if s[0] then 128 else 0) | (if s[1] then 64 else 0) | (if s[2] then 32 else 0) | (if s[3] then 16 else 0)
           | (if s[4] then 8 else 0) | (if s[5] then 4 else 0) | (if s[6] then 2 else 0) | (if s[7] then 1 else 0);
    assert Bit(b, 7) == s[0] && Bit(b, 6) == s[1] && Bit(b, 5) == s[2] && Bit(b, 4) == s[3];
    assert Bit(b, 3) == s[4] && Bit(b, 2) == s[5] && Bit(b, 1) == s[6] && Bit(b, 0) == s[7];
    b
  }

  // ---------- numbers as bit strings, most significant bit first ----------

  // `v >> i` on an unbounded unsigned value.
  function Shr(v: nat, i: nat): nat {
    if i == 0 then v else Shr(v, i - 1) / 2
  }

  function NatBits(v: nat, n: nat): (s: seq<bool>)
    ensures |s| == n
  {
    if n == 0 then [] else NatBits(v / 2, n - 1) + [v % 2 == 1]
  }

  function BitsNat(s: seq<bool>): nat {
    if s == [] then 0 else 2 * BitsNat(s[..|s| - 1]) + if s[|s| - 1] then 1 else 0
  }

  lemma {:induction false} ShrHalf(v: nat, i: nat)
    ensures Shr(v / 2, i) == Shr(v, i + 1)
  {
    if i > 0 { ShrHalf(v, i - 1); }
  }

  // Reading a number back from the bits written for it.
  lemma {:induction false} NatBitsRoundTrip(v: nat, n: nat)
    requires Shr(v, n) == 0
    ensures BitsNat(NatBits(v, n)) == v
  {
    if n > 0 {
      ShrHalf(v, n - 1);
      NatBitsRoundTrip(v / 2, n - 1);
      assert NatBits(v, n)[..n - 1] == NatBits(v / 2, n - 1);
    }
  }

  lemma {:induction false} ShrMonotone(a: nat, b: nat, i: nat)
    requires a <= b
    ensures Shr(a, i) <= Shr(b, i)
  {
    if i > 0 { ShrMonotone(a, b, i - 1); }
  }

  // ---------- byte buffers as bit streams ----------

  // Bit `k` of the stream is bit `7 - k % 8` of byte `k / 8`; nothing is set outside the buffer.
  predicate StreamBit(buf: seq<Byte>, k: nat) {
    k / 8 < |buf| && Bit(buf[k / 8], 7 - k % 8)
  }

  function Stream(buf: seq<Byte>): (s: seq<bool>)
    ensures |s| == 8 * |buf|
    ensures forall k | 0 <= k < |s| :: s[k] == StreamBit(buf, k)
  {
    seq(8 * |buf|, k requires 0 <= k => StreamBit(buf, k))
  }

  function Bytes(s: seq<bool>): (buf: seq<Byte>)
    ensures |buf| == |s| / 8
    ensures forall k: nat | k < |s| / 8 * 8 :: StreamBit(buf, k) == s[k]
  {
    var buf := seq(|s| / 8, i requires 0 <= i < |s| / 8 => Pack8(s[8 * i..8 * i + 8]));
    assert forall k: nat | k < |s| / 8 * 8 :: StreamBit(buf, k) == s[k] by {
      forall k: nat | k < |s| / 8 * 8
        ensures StreamBit(buf, k) == s[k]
      {
        var i, r := k / 8, k % 8;
        assert s[8 * i..8 * i + 8][r] == s[k];
        assert Bit(Pack8(s[8 * i..8 * i + 8]), 7 - r) == s[8 * i..8 * i + 8][r];
      }
    }
    buf
  }

  lemma StreamExtensional(a: seq<Byte>, b: seq<Byte>)
    requires |a| == |b|
    requires forall k: nat | k < 8 * |a| :: StreamBit(a, k) == StreamBit(b, k)
    ensures a == b
  {
    forall i | 0 <= i < |a|
      ensures a[i] == b[i]
    {
      forall j: nat | j < 8
        ensures Bit(a[i], j) == Bit(b[i], j)
      {
        var k: nat := 8 * i + 7 - j;
        assert k / 8 == i && k % 8 == 7 - j;
        assert StreamBit(a, k) == StreamBit(b, k);
      }
      ByteExtensional(a[i], b[i]);
    }
  }

  // Packing a stream's own bits gives the bytes back.
  lemma BytesOfStream(buf: seq<Byte>)
    ensures Bytes(Stream(buf)) == buf
  {
    StreamExtensional(Bytes(Stream(buf)), buf);
  }

  // Writing whole bytes and reading them as bits is the identity on bit strings of byte length.
  lemma StreamOfBytes(s: seq<bool>)
    requires |s| % 8 == 0
    ensures Stream(Bytes(s)) == s
  {
  }

  // The first `cap` bytes of the buffer hold exactly `bits` followed by zeros.
  ghost predicate Holds(buf: seq<Byte>, cap: nat, bits: seq<bool>) {
    && cap <= |buf|
    && |bits| <= 8 * cap
    && forall k: nat | k < 8 * cap :: StreamBit(buf, k) == (k < |bits| && bits[k])
  }

  lemma HoldsIsStream(buf: seq<Byte>, cap: nat, bits: seq<bool>)
    requires Holds(buf, cap, bits) && |bits| % 8 == 0
    ensures Stream(buf[..|bits| / 8]) == bits
  {
    var pre := buf[..|bits| / 8];
    forall k: nat | k < |bits|
      ensures StreamBit(pre, k) == bits[k]
    {
      assert StreamBit(pre, k) == StreamBit(buf, k);
    }
  }

  // OR-ing a bit into a clear position stores it.
  lemma OrBit(b: Byte, i: nat, v: bool)
    requires i < 8 && (v || !Bit(b, i))
    ensures b | ((if v then 1 else 0) << i) == WithBit(b, i, v)
  {
    ShiftIsOne(i);
    assert 0 as Byte << i == 0 by {
      if i == 0 {} else if i == 1 {} else if i == 2 {} else if i == 3 {}
      else if i == 4 {} else if i == 5 {} else if i == 6 {} else { assert i == 7; }
    }
  }

  lemma HoldsExtend(old_: seq<Byte>, new_: seq<Byte>, cap: nat, bits: seq<bool>, v: bool)
    requires Holds(old_, cap, bits) && |bits| < 8 * cap
    requires |new_| == |old_|
    requires new_ == old_[|bits| / 8 := WithBit(old_[|bits| / 8], 7 - |bits| % 8, v)]
    ensures Holds(new_, cap, bits + [v])
  {
    forall k: nat | k < 8 * cap
      ensures StreamBit(new_, k) == (k < |bits| + 1 && (bits + [v])[k])
    {
      assert StreamBit(old_, k) == (k < |bits| && bits[k]);
      if k / 8 == |bits| / 8 {
        BitOfWithBit(old_[|bits| / 8], 7 - |bits| % 8, v, 7 - k % 8);
      }
    }
  }

  // ORs one bit into the first free position.
  method AppendBit(v: bool, buffer: array<Byte>, bitLen: nat, ghost cap: nat, ghost bits: seq<bool>)
    requires Holds(buffer[..], cap, bits) && |bits| == bitLen < 8 * cap
    modifies buffer
    ensures Holds(buffer[..], cap, bits + [v])
    ensures buffer[cap..] == old(buffer[cap..])
  {
    ghost var before := buffer[..];
    assert !StreamBit(before, bitLen);
    var i, shift := bitLen / 8, 7 - bitLen % 8;
    OrBit(buffer[i], shift, v);
    buffer[i] := buffer[i] | ((if v then 1 else 0) << shift);
    assert buffer[..] == before[i := WithBit(before[i], shift, v)];
    HoldsExtend(before, buffer[..], cap, bits, v);
  }

  // Appends the low `numBits` bits of `val`, most significant first.
  method AppendBits(val: nat, numBits: nat, buffer: array<Byte>, bitLen: nat, ghost cap: nat, ghost bits: seq<bool>)
    returns (newLen: nat)
    requires numBits <= 16 && Shr(val, numBits) == 0
    requires Holds(buffer[..], cap, bits) && |bits| == bitLen && bitLen + numBits <= 8 * cap
    modifies buffer
    ensures newLen == bitLen + numBits
    ensures Holds(buffer[..], cap, bits + NatBits(val, numBits))
    ensures buffer[cap..] == old(buffer[cap..])
  {
    newLen := bitLen;
    ghost var done := bits;
    var i := numBits;
    while i > 0
      invariant 0 <= i <= numBits
      invariant newLen == |done| == bitLen + numBits - i
      invariant done == bits + NatBits(Shr(val, i), numBits - i)
      invariant Holds(buffer[..], cap, done)
      invariant buffer[cap..] == old(buffer[cap..])
    {
      i := i - 1;
      var bit := Shr(val, i) % 2 == 1;
      AppendBit(bit, buffer, newLen, cap, done);
      done := done + [bit];
      newLen := newLen + 1;
    }
  }
}
