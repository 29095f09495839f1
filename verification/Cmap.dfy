/** Character to glyph lookup in 'cmap' subtables of formats 4, 12 and 13. */
module Cmap {
  import opened Arithmetic

  type Octet = x: int | 0 <= x < 256

  function U16(data: seq<Octet>, pos: nat): (v: nat)
    requires pos + 2 <= |data|
    ensures v < 0x1_0000
  {
    var high: int, low: int := data[pos], data[pos + 1];
    256 * high + low
  }

  function S16(data: seq<Octet>, pos: nat): int
    requires pos + 2 <= |data|
  {
    var v := U16(data, pos);
    if v >= 0x8000 then v - 0x1_0000 else v
  }

  function U32(data: seq<Octet>, pos: nat): (v: nat)
    requires pos + 4 <= |data|
    ensures v < 0x1_0000_0000
  {
    U16(data, pos) * 0x1_0000 + U16(data, pos + 2)
  }

  // ---------- format 4: segments ----------

  function SegCount(data: seq<Octet>, at: nat): nat
    requires at + 14 <= |data|
  {
    U16(data, at + 6) / 2
  }

  // The four parallel arrays are there.
  predicate Present4(data: seq<Octet>, at: nat) {
    at + 14 <= |data| && at + 16 + 8 * SegCount(data, at) <= |data|
  }

  function EndCode(data: seq<Octet>, at: nat, i: nat): nat
    requires Present4(data, at) && i < SegCount(data, at)
  {
    U16(data, at + 14 + 2 * i)
  }

  function StartCode(data: seq<Octet>, at: nat, i: nat): nat
    requires Present4(data, at) && i < SegCount(data, at)
  {
    U16(data, at + 16 + 2 * SegCount(data, at) + 2 * i)
  }

  function IdDelta(data: seq<Octet>, at: nat, i: nat): int
    requires Present4(data, at) && i < SegCount(data, at)
  {
    S16(data, at + 16 + 4 * SegCount(data, at) + 2 * i)
  }

  function RangeOffsetAt(data: seq<Octet>, at: nat, i: nat): nat
    requires Present4(data, at) && i < SegCount(data, at)
  {
    at + 16 + 6 * SegCount(data, at) + 2 * i
  }

  function RangeOffset(data: seq<Octet>, at: nat, i: nat): nat
    requires Present4(data, at) && i < SegCount(data, at)
  {
    U16(data, RangeOffsetAt(data, at, i))
  }

  // The search parameters of the header belong to the segment count: the largest power of two in it, and what is left
  // over.
  predicate Consistent(data: seq<Octet>, at: nat)
    requires at + 14 <= |data|
  {
    var p := TwoTo(U16(data, at + 10));
    p <= SegCount(data, at) < 2 * p && U16(data, at + 8) / 2 == p && U16(data, at + 12) / 2 == SegCount(data, at) - p
  }

  predicate EndsIncrease(data: seq<Octet>, at: nat)
    requires Present4(data, at)
  {
    forall i: nat, j: nat | i < j < SegCount(data, at) :: EndCode(data, at, i) < EndCode(data, at, j)
  }

  // Segment i is the first that ends at or after the code point; with none such, the last one.
  predicate IsSegmentFor(data: seq<Octet>, at: nat, codepoint: int, i: nat)
    requires Present4(data, at)
  {
    && i < SegCount(data, at)
    && (forall j: nat | j < i :: EndCode(data, at, j) < codepoint)
    && (codepoint <= EndCode(data, at, i) || i + 1 == SegCount(data, at))
  }

  // A binary search without a comparison for equality: the first probe decides which power-of-two window to halve.
  method FindSegment(data: seq<Octet>, at: nat, codepoint: int) returns (item: nat)
    requires Present4(data, at) && Consistent(data, at)
    ensures item < SegCount(data, at)
    ensures EndsIncrease(data, at) ==> IsSegmentFor(data, at, codepoint, item)
  {
    hide U16;
    var segcount := SegCount(data, at);
    var searchRange, entrySelector, rangeShift := U16(data, at + 8) / 2, U16(data, at + 10), U16(data, at + 12) / 2;
    var search := 0;
    if codepoint >= EndCode(data, at, rangeShift) {
      search := search + rangeShift;
    }
    search := search - 1;
    while entrySelector > 0
      invariant entrySelector >= 0 && searchRange == TwoTo(entrySelector)
      invariant -1 <= search && 1 <= searchRange && search + searchRange < segcount
      invariant EndsIncrease(data, at) ==> forall j: nat | j <= search :: EndCode(data, at, j) < codepoint
      invariant EndsIncrease(data, at) ==>
        codepoint <= EndCode(data, at, search + searchRange) || search + searchRange + 1 == segcount
    {
      searchRange := searchRange / 2;
      var end := EndCode(data, at, search + searchRange);
      if codepoint > end {
        search := search + searchRange;
      }
      entrySelector := entrySelector - 1;
    }
    item := search + 1;
  }

  // The glyph of a code point in segment i: by difference, or from the glyph array the segment points into.
  function SegmentGlyph(data: seq<Octet>, at: nat, codepoint: int, i: nat): int
    requires Present4(data, at) && i < SegCount(data, at) && StartCode(data, at, i) <= codepoint
    requires GlyphPresent(data, at, codepoint, i)
  {
    if RangeOffset(data, at, i) == 0 then (codepoint + IdDelta(data, at, i)) % 0x1_0000
    else U16(data, RangeOffsetAt(data, at, i) + RangeOffset(data, at, i) + (codepoint - StartCode(data, at, i)) * 2)
  }

  predicate GlyphPresent(data: seq<Octet>, at: nat, codepoint: int, i: nat)
    requires Present4(data, at) && i < SegCount(data, at) && StartCode(data, at, i) <= codepoint
  {
    RangeOffset(data, at, i) == 0
    || RangeOffsetAt(data, at, i) + RangeOffset(data, at, i) + (codepoint - StartCode(data, at, i)) * 2 + 2 <= |data|
  }

  predicate Contains(data: seq<Octet>, at: nat, codepoint: int, i: nat)
    requires Present4(data, at)
  {
    i < SegCount(data, at) && StartCode(data, at, i) <= codepoint <= EndCode(data, at, i)
  }

  // Segments do not overlap.
  predicate Disjoint(data: seq<Octet>, at: nat)
    requires Present4(data, at)
  {
    forall i: nat, j: nat | i < j < SegCount(data, at) :: EndCode(data, at, i) < StartCode(data, at, j)
  }

  // Every glyph index the segments refer to is there.
  ghost predicate GlyphsPresent(data: seq<Octet>, at: nat)
    requires Present4(data, at)
  {
    forall i: nat, c: int | Contains(data, at, c, i) :: GlyphPresent(data, at, c, i)
  }

  // The glyph segment `item` gives a code point: 0 outside the segment.
  predicate GivenBy(data: seq<Octet>, at: nat, codepoint: int, item: nat, glyph: int)
    requires Present4(data, at)
  {
    if Contains(data, at, codepoint, item) then
      GlyphPresent(data, at, codepoint, item) && glyph == SegmentGlyph(data, at, codepoint, item)
    else glyph == 0
  }

  // Format 4: the glyph is the one given by a segment, and if ends ascend by the first that ends at or after the code
  // point.
  method FindGlyph4(data: seq<Octet>, at: nat, codepoint: int) returns (glyph: int, ghost item: nat)
    requires Present4(data, at) && Consistent(data, at) && GlyphsPresent(data, at)
    ensures codepoint > 0xFFFF ==> glyph == 0
    ensures codepoint <= 0xFFFF ==> item < SegCount(data, at) && GivenBy(data, at, codepoint, item, glyph)
    ensures codepoint <= 0xFFFF && EndsIncrease(data, at) ==> IsSegmentFor(data, at, codepoint, item)
  {
    hide U16, Consistent, EndsIncrease, GlyphPresent;
    if codepoint > 0xFFFF { return 0, 0; }
    var i := FindSegment(data, at, codepoint);
    item := i;
    var start, last := StartCode(data, at, i), EndCode(data, at, i);
    if codepoint < start || codepoint > last { return 0, item; }
    assert Contains(data, at, codepoint, i);
    glyph := SegmentGlyph(data, at, codepoint, i);
  }

  // In a table whose segments do not overlap that is the answer of a linear scan: whichever segment contains the code
  // point gives the glyph, and there is none if no segment does.
  lemma SearchIsScan(data: seq<Octet>, at: nat, codepoint: int, item: nat, glyph: int)
    requires Present4(data, at) && Disjoint(data, at)
    requires IsSegmentFor(data, at, codepoint, item) && GivenBy(data, at, codepoint, item, glyph)
    ensures forall i: nat | Contains(data, at, codepoint, i) :: i == item && GivenBy(data, at, codepoint, i, glyph)
    ensures (forall i: nat :: !Contains(data, at, codepoint, i)) ==> glyph == 0
  {
    hide U16, SegmentGlyph, GlyphPresent;
  }

  // ---------- formats 12 and 13: groups ----------

  function GroupCount(data: seq<Octet>, at: nat): nat
    requires at + 16 <= |data|
  {
    U32(data, at + 12)
  }

  predicate Present12(data: seq<Octet>, at: nat) {
    at + 16 <= |data| && at + 16 + 12 * GroupCount(data, at) <= |data| && GroupCount(data, at) < 0x8000_0000
  }

  function GroupStart(data: seq<Octet>, at: nat, i: nat): nat
    requires Present12(data, at) && i < GroupCount(data, at)
  {
    U32(data, at + 16 + i * 12)
  }

  function GroupEnd(data: seq<Octet>, at: nat, i: nat): nat
    requires Present12(data, at) && i < GroupCount(data, at)
  {
    U32(data, at + 16 + i * 12 + 4)
  }

  function GroupGlyph(data: seq<Octet>, at: nat, i: nat): nat
    requires Present12(data, at) && i < GroupCount(data, at)
  {
    U32(data, at + 16 + i * 12 + 8)
  }

  predicate GroupsSorted(data: seq<Octet>, at: nat)
    requires Present12(data, at)
  {
    && (forall i: nat | i < GroupCount(data, at) :: GroupStart(data, at, i) <= GroupEnd(data, at, i))
    && (forall i: nat, j: nat | i < j < GroupCount(data, at) :: GroupEnd(data, at, i) < GroupStart(data, at, j))
  }

  predicate InGroup(data: seq<Octet>, at: nat, c: nat, i: nat)
    requires Present12(data, at)
  {
    i < GroupCount(data, at) && GroupStart(data, at, i) <= c <= GroupEnd(data, at, i)
  }

  // The casts between signed and unsigned 32-bit integers.
  function Unsigned(v: int): nat { v % 0x1_0000_0000 }

  function Signed(v: nat): int {
    if v % 0x1_0000_0000 < 0x8000_0000 then v % 0x1_0000_0000 else v % 0x1_0000_0000 - 0x1_0000_0000
  }

  // Format 12 numbers the glyphs of a group from its first; in format 13 the whole group has one glyph.
  function GlyphInGroup(data: seq<Octet>, at: nat, format: nat, c: nat, i: nat): int
    requires Present12(data, at) && i < GroupCount(data, at) && GroupStart(data, at, i) <= c
  {
    if format == 12 then Signed(GroupGlyph(data, at, i) + c - GroupStart(data, at, i))
    else Signed(GroupGlyph(data, at, i))
  }

  // Formats 12 and 13: the glyph by a group that contains the code point, or 0. Groups that are sorted leave no choice.
  method FindGlyph12(data: seq<Octet>, at: nat, format: nat, codepoint: int) returns (glyph: int)
    requires Present12(data, at) && (format == 12 || format == 13)
    ensures glyph == 0
            || exists i: nat ::
              InGroup(data, at, Unsigned(codepoint), i)
              && glyph == GlyphInGroup(data, at, format, Unsigned(codepoint), i)
    ensures GroupsSorted(data, at) ==> forall i: nat | InGroup(data, at, Unsigned(codepoint), i) ::
              glyph == GlyphInGroup(data, at, format, Unsigned(codepoint), i)
  {
    hide U16, U32, Signed;
    var c := Unsigned(codepoint);
    var low: nat, high: nat := 0, GroupCount(data, at);
    while low < high
      invariant low <= high <= GroupCount(data, at)
      invariant GroupsSorted(data, at) ==> forall i: nat | InGroup(data, at, c, i) :: low <= i < high
    {
      var mid := low + (high - low) / 2;
      var startChar, endChar := GroupStart(data, at, mid), GroupEnd(data, at, mid);
      if c < startChar {
        BeforeGroup(data, at, c, mid);
        high := mid;
      } else if c > endChar {
        AfterGroup(data, at, c, mid);
        low := mid + 1;
      } else {
        OnlyGroup(data, at, c, mid);
        return GlyphInGroup(data, at, format, c, mid);
      }
    }
    glyph := 0;
  }

  lemma BeforeGroup(data: seq<Octet>, at: nat, c: nat, mid: nat)
    requires Present12(data, at) && mid < GroupCount(data, at) && c < GroupStart(data, at, mid)
    ensures GroupsSorted(data, at) ==> forall i: nat | InGroup(data, at, c, i) :: i < mid
  {
    hide U16, U32;
  }

  lemma AfterGroup(data: seq<Octet>, at: nat, c: nat, mid: nat)
    requires Present12(data, at) && mid < GroupCount(data, at) && c > GroupEnd(data, at, mid)
    ensures GroupsSorted(data, at) ==> forall i: nat | InGroup(data, at, c, i) :: i > mid
  {
    hide U16, U32;
  }

  lemma OnlyGroup(data: seq<Octet>, at: nat, c: nat, mid: nat)
    requires Present12(data, at) && InGroup(data, at, c, mid)
    ensures GroupsSorted(data, at) ==> forall i: nat | InGroup(data, at, c, i) :: i == mid
  {
    hide U16, U32;
  }
}
