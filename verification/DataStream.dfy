/** Counting and writing the data bits of a symbol. */
module DataStream {
  import opened Arithmetic
  import opened Bits
  import opened Versions
  import opened Segments
  import opened TextSegments

  predicate AllInBounds(segs: seq<Segment>) {
    forall i | 0 <= i < |segs| :: InBounds(segs[i])
  }

  ghost function Pieces(segs: seq<Segment>): (ps: seq<Piece>)
    requires AllInBounds(segs)
    reads set s | s in segs :: s.data
    ensures |ps| == |segs| && forall i | 0 <= i < |ps| :: ps[i] == PieceOf(segs[i])
  {
    seq(|segs|, i requires 0 <= i < |segs| reads set s | s in segs :: s.data => PieceOf(segs[i]))
  }

  function {:induction false} TotalBits(segs: seq<Segment>, v: Version): nat {
    if segs == [] then 0
    else
      var s := segs[|segs| - 1];
      TotalBits(segs[..|segs| - 1], v) + 4 + NumCharCountBits(s.mode, v) + s.bitLength
  }

  predicate Fields(segs: seq<Segment>, v: Version) {
    forall i | 0 <= i < |segs| :: segs[i].numChars < TwoTo(NumCharCountBits(segs[i].mode, v))
  }

  lemma {:induction false} TotalMonotone(segs: seq<Segment>, n: nat, v: Version)
    requires n <= |segs|
    ensures TotalBits(segs[..n], v) <= TotalBits(segs, v)
    decreases |segs|
  {
    if n == |segs| {
      assert segs[..n] == segs;
    } else {
      var init := segs[..|segs| - 1];
      TotalMonotone(init, n, v);
      assert init[..n] == segs[..n];
    }
  }

  // The arithmetic total is the length of the bit string.
  lemma {:induction false} TotalIsLength(segs: seq<Segment>, v: Version)
    requires AllInBounds(segs)
    ensures TotalBits(segs, v) == |AllBits(Pieces(segs), v)|
    ensures Fields(segs, v) <==> CountsFit(Pieces(segs), v)
  {
    var ps := Pieces(segs);
    assert Fields(segs, v) <==> CountsFit(ps, v) by {
      assert forall i | 0 <= i < |segs| :: ps[i].numChars == segs[i].numChars && ps[i].mode == segs[i].mode;
    }
    if segs != [] {
      var init := segs[..|segs| - 1];
      TotalIsLength(init, v);
      assert ps[..|ps| - 1] == Pieces(init);
    }
  }

  // Number of bits the segments take, or LENGTH_OVERFLOW.
  method GetTotalBits(segs: seq<Segment>, v: Version) returns (result: int)
    requires AllInBounds(segs)
    ensures result == if Fields(segs, v) && TotalBits(segs, v) <= INT16_MAX then TotalBits(segs, v) else LENGTH_OVERFLOW
  {
    hide TwoTo, NumCharCountBits;
    result := 0;
    for i := 0 to |segs|
      invariant result == TotalBits(segs[..i], v) <= INT16_MAX
      invariant Fields(segs[..i], v)
    {
      var ccbits := NumCharCountBits(segs[i].mode, v);
      if segs[i].numChars >= TwoTo(ccbits) {
        return LENGTH_OVERFLOW;
      }
      assert segs[..i + 1][..i] == segs[..i];
      result := result + 4 + ccbits + segs[i].bitLength;
      assert result == TotalBits(segs[..i + 1], v);
      if result > INT16_MAX {
        TotalMonotone(segs, i + 1, v);
        return LENGTH_OVERFLOW;
      }
    }
    assert segs[..|segs|] == segs;
  }

  // Mode indicator, character count and payload of one segment.
  method AppendSegment(seg: Segment, v: Version, buffer: array<Byte>, bitLen: nat, ghost cap: nat,
                       ghost bits: seq<bool>)
    returns (newLen: nat)
    requires InBounds(seg) && seg.data != buffer && seg.numChars < TwoTo(NumCharCountBits(seg.mode, v))
    requires Holds(buffer[..], cap, bits) && |bits| == bitLen
    requires bitLen + |PieceBits(PieceOf(seg), v)| <= 8 * cap
    modifies buffer
    ensures newLen == |bits + PieceBits(PieceOf(seg), v)|
    ensures Holds(buffer[..], cap, bits + PieceBits(PieceOf(seg), v))
  {
    hide Holds, NatBits, Shr, TwoTo, Stream, NumCharCountBits;
    ghost var payload := PieceOf(seg).bits;
    HeaderFits(seg, v);
    newLen := AppendBits(ModeBits(seg.mode), 4, buffer, bitLen, cap, bits);
    ghost var head := bits + NatBits(ModeBits(seg.mode), 4);
    newLen := AppendBits(seg.numChars, NumCharCountBits(seg.mode, v), buffer, newLen, cap, head);
    head := head + NatBits(seg.numChars, NumCharCountBits(seg.mode, v));
    assert bits + PieceBits(PieceOf(seg), v) == head + payload;
    assert head + payload[..0] == head;
    for j := 0 to seg.bitLength
      invariant newLen == |head| + j
      invariant Holds(buffer[..], cap, head + payload[..j])
    {
      ShiftIsBit(seg.data[j / 8], 7 - j % 8);
      var bit: Byte := (seg.data[j / 8] >> (7 - j % 8)) & 1;
      PayloadBit(seg, j);
      var value := if bit == 1 then 1 else 0;
      OneBit(value);
      newLen := AppendBits(value, 1, buffer, newLen, cap, head + payload[..j]);
      assert head + payload[..j] + NatBits(value, 1) == head + payload[..j + 1];
    }
    assert payload[..seg.bitLength] == payload;
  }

  lemma HeaderFits(seg: Segment, v: Version)
    requires seg.numChars < TwoTo(NumCharCountBits(seg.mode, v))
    ensures Shr(ModeBits(seg.mode), 4) == 0 && Shr(seg.numChars, NumCharCountBits(seg.mode, v)) == 0
  {
    assert TwoTo(4) == 16;
    ShrZero(ModeBits(seg.mode), 4);
    ShrZero(seg.numChars, NumCharCountBits(seg.mode, v));
  }

  lemma PayloadBit(seg: Segment, j: nat)
    requires InBounds(seg) && j < seg.bitLength
    ensures PieceOf(seg).bits[j] == Bit(seg.data[j / 8], 7 - j % 8)
  {}

  lemma OneBit(value: nat)
    requires value < 2
    ensures Shr(value, 1) == 0 && NatBits(value, 1) == [value == 1]
  {}

  method WriteSegments(segs: seq<Segment>, v: Version, buffer: array<Byte>, ghost cap: nat) returns (bitLen: nat)
    requires AllInBounds(segs) && Fields(segs, v) && forall i | 0 <= i < |segs| :: segs[i].data != buffer
    requires Holds(buffer[..], cap, [])
    requires |AllBits(Pieces(segs), v)| <= 8 * cap
    modifies buffer
    ensures Pieces(segs) == old(Pieces(segs))
    ensures bitLen == |AllBits(Pieces(segs), v)|
    ensures Holds(buffer[..], cap, AllBits(Pieces(segs), v))
  {
    hide Holds, NatBits, Shr, TwoTo, Stream, NumCharCountBits, PieceBits;
    ghost var ps := Pieces(segs);
    bitLen := 0;
    for i := 0 to |segs|
      invariant forall k | 0 <= k < |segs| :: PieceOf(segs[k]) == ps[k]
      invariant bitLen == |AllBits(ps[..i], v)|
      invariant Holds(buffer[..], cap, AllBits(ps[..i], v))
    {
      AllBitsStep(ps, i, v);
      bitLen := AppendSegment(segs[i], v, buffer, bitLen, cap, AllBits(ps[..i], v));
    }
    assert ps[..|segs|] == ps;
    assert Pieces(segs) == ps;
  }

  // Terminator, alignment and pad bytes after the `used` bits already present.
  method WriteFiller(buffer: array<Byte>, used: nat, dataCapacityBits: nat, ghost cap: nat, ghost bits: seq<bool>)
    requires |bits| == used <= dataCapacityBits <= 8 * cap && dataCapacityBits % 8 == 0
    requires Holds(buffer[..], cap, bits)
    modifies buffer
    ensures Holds(buffer[..], cap, bits + Filler(used, dataCapacityBits))
  {
    hide Holds, NatBits, Shr, PadBits, Filler;
    var terminatorBits := Min(4, dataCapacityBits - used);
    ZeroBits(terminatorBits);
    var bitLen := AppendBits(0, terminatorBits, buffer, used, cap, bits);
    AlignUp(bitLen, dataCapacityBits);
    var alignBits := (8 - bitLen % 8) % 8;
    ZeroBits(alignBits);
    bitLen := AppendBits(0, alignBits, buffer, bitLen, cap, bits + Falses(terminatorBits));
    ghost var aligned := bits + Falses(bitLen - used);
    assert bits + Falses(terminatorBits) + Falses(alignBits) == aligned;
    PadBitsStep(0);
    assert aligned + PadBits(0) == aligned;
    WritePads(buffer, bitLen, dataCapacityBits, cap, aligned);
    FillerShape(bits, used, dataCapacityBits, bitLen);
  }

  lemma AlignUp(n: nat, capacity: nat)
    requires n <= capacity && capacity % 8 == 0
    ensures n + (8 - n % 8) % 8 == (n + 7) / 8 * 8 <= capacity
  {}

  lemma FillerShape(bits: seq<bool>, used: nat, capacity: nat, aligned: nat)
    requires |bits| == used <= capacity && capacity % 8 == 0
    requires aligned == (used + Min(4, capacity - used) + 7) / 8 * 8
    ensures aligned <= capacity
    ensures bits + Falses(aligned - used) + PadBits((capacity - aligned) / 8) == bits + Filler(used, capacity)
  {}

  // Alternating pad bytes until the capacity is reached.
  method WritePads(buffer: array<Byte>, start: nat, dataCapacityBits: nat, ghost cap: nat, ghost bits: seq<bool>)
    requires |bits| == start <= dataCapacityBits <= 8 * cap && dataCapacityBits % 8 == 0 && start % 8 == 0
    requires Holds(buffer[..], cap, bits)
    modifies buffer
    ensures Holds(buffer[..], cap, bits + PadBits((dataCapacityBits - start) / 8))
  {
    hide Holds, NatBits, Shr, PadBits;
    var bitLen := start;
    var padByte: Byte := 0xEC;
    ghost var n := 0;
    PadBitsStep(0);
    assert bits + PadBits(0) == bits;
    while bitLen < dataCapacityBits
      invariant bitLen == start + 8 * n <= dataCapacityBits
      invariant padByte == if n % 2 == 0 then 0xEC else 0x11
      invariant Holds(buffer[..], cap, bits + PadBits(n))
      decreases dataCapacityBits - bitLen
    {
      PadByteFits(padByte);
      PadBitsStep(n);
      bitLen := AppendBits(padByte as int, 8, buffer, bitLen, cap, bits + PadBits(n));
      assert bits + PadBits(n) + NatBits(padByte as int, 8) == bits + PadBits(n + 1);
      padByte := padByte ^ (0xEC ^ 0x11);
      n := n + 1;
    }
  }

  lemma PadBitsStep(n: nat)
    ensures PadBits(0) == []
    ensures PadBits(n + 1) == PadBits(n) + NatBits(if n % 2 == 0 then 0xEC else 0x11, 8)
  {}

  lemma PadByteFits(padByte: Byte)
    requires padByte == 0xEC || padByte == 0x11
    ensures padByte as int == if padByte == 0xEC then 0xEC else 0x11
    ensures Shr(padByte as int, 8) == 0
    ensures padByte ^ (0xEC ^ 0x11) == if padByte == 0xEC then 0x11 else 0xEC
  {
    assert Shr(0xEC, 4) == 14 && Shr(0x11, 4) == 1;
  }

  // Writes the whole data bit stream: segments, terminator, alignment and pad bytes.
  method WriteDataBits(segs: seq<Segment>, v: Version, buffer: array<Byte>, dataCapacityBits: nat, ghost cap: nat)
    requires AllInBounds(segs) && Fields(segs, v) && forall i | 0 <= i < |segs| :: segs[i].data != buffer
    requires Holds(buffer[..], cap, [])
    requires |AllBits(Pieces(segs), v)| <= dataCapacityBits <= 8 * cap && dataCapacityBits % 8 == 0
    modifies buffer
    ensures Pieces(segs) == old(Pieces(segs))
    ensures Holds(buffer[..], cap, DataBits(Pieces(segs), v, dataCapacityBits))
  {
    hide Holds, AllBits, Filler;
    ghost var ps := Pieces(segs);
    var bitLen := WriteSegments(segs, v, buffer, cap);
    WriteFiller(buffer, bitLen, dataCapacityBits, cap, AllBits(ps, v));
    assert Pieces(segs) == ps;
  }

  lemma AllBitsStep(ps: seq<Piece>, i: nat, v: Version)
    requires i < |ps|
    ensures AllBits(ps[..i + 1], v) == AllBits(ps[..i], v) + PieceBits(ps[i], v)
    ensures |AllBits(ps[..i + 1], v)| <= |AllBits(ps, v)|
  {
    assert ps[..i + 1][..i] == ps[..i];
    AllBitsMonotone(ps, i + 1, v);
  }

  lemma {:induction false} AllBitsMonotone(ps: seq<Piece>, n: nat, v: Version)
    requires n <= |ps|
    ensures |AllBits(ps[..n], v)| <= |AllBits(ps, v)|
    decreases |ps|
  {
    if n == |ps| {
      assert ps[..n] == ps;
    } else {
      var init := ps[..|ps| - 1];
      AllBitsMonotone(init, n, v);
      assert init[..n] == ps[..n];
    }
  }

  lemma {:induction false} ZeroBits(n: nat)
    ensures Shr(0, n) == 0 && NatBits(0, n) == Falses(n)
  {
    if n > 0 { ZeroBits(n - 1); }
  }
}
