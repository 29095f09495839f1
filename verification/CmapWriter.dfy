/**
 * Writing 'cmap' subtables as the OpenType specification stores them,
   from the mapping they stand for. The source only reads; that
 * it finds the glyphs of the mapping says what the fields mean.
 */
module CmapWriter {
  import opened Arithmetic
  import opened Cmap

  type Word = w: int | 0 <= w < 0x1_0000

  // Big-endian words.
  function WordBytes(ws: seq<Word>): (s: seq<Octet>)
    ensures |s| == 2 * |ws|
  {
    seq(2 * |ws|, i requires 0 <= i < 2 * |ws| => if i % 2 == 0 then ws[i / 2] / 256 else ws[i / 2] % 256)
  }

  lemma WordRead(before: seq<Octet>, ws: seq<Word>, after: seq<Octet>, k: nat)
    requires k < |ws|
    ensures U16(before + WordBytes(ws) + after, |before| + 2 * k) == ws[k]
  {
    var data, s := before + WordBytes(ws) + after, WordBytes(ws);
    assert data[|before| + 2 * k] == s[2 * k] && data[|before| + 2 * k + 1] == s[2 * k + 1];
    assert (2 * k + 1) / 2 == k && (2 * k + 1) % 2 == 1;
  }

  // ---------- format 4 ----------

  // Consecutive glyphs from `first` on, or a glyph for every code point.
  datatype Segment =
    | Counted(start: Word, end: Word, first: Word)
    | Listed(start: Word, end: Word, glyphs: seq<Word>)

  predicate GoodSegment(s: Segment) {
    && s.start <= s.end
    && match s
       case Counted(start, end, first) => first + (end - start) < 0x1_0000
       case Listed(start, end, glyphs) => |glyphs| == end - start + 1
  }

  // The glyph of a code point in the segment.
  function GlyphOf(s: Segment, c: int): int
    requires GoodSegment(s) && s.start <= c <= s.end
  {
    match s
    case Counted(start, _, first) => first + (c - start)
    case Listed(start, _, glyphs) => glyphs[c - start]
  }

  // The glyph arrays of all segments, one after the other.
  function Arrays(segs: seq<Segment>): seq<Word> {
    if segs == [] then []
    else
      var last := segs[|segs| - 1];
      Arrays(segs[..|segs| - 1]) + if last.Listed? then last.glyphs else []
  }

  // From the place of the offset to the array, in bytes; 0 if there is no array.
  function OffsetOf(segs: seq<Segment>, i: nat): nat
    requires i < |segs|
  {
    if segs[i].Listed? then 2 * (|segs| - i + |Arrays(segs[..i])|) else 0
  }

  // Segments that ascend and do not overlap, in a table with room for their arrays.
  predicate GoodTable(segs: seq<Segment>) {
    && 1 <= |segs| < 0x8000 && (forall i | 0 <= i < |segs| :: GoodSegment(segs[i]))
    && (forall i, j | 0 <= i < j < |segs| :: segs[i].end < segs[j].start)
    && forall i: nat | i < |segs| :: OffsetOf(segs, i) < 0x1_0000
  }

  function Log2(n: nat): (k: nat)
    requires n >= 1
    ensures TwoTo(k) <= n < 2 * TwoTo(k) && k <= n
  {
    if n == 1 then 0 else 1 + Log2(n / 2)
  }

  function Ends(segs: seq<Segment>): (ws: seq<Word>)
    ensures |ws| == |segs|
  {
    seq(|segs|, i requires 0 <= i < |segs| => segs[i].end)
  }

  function Starts(segs: seq<Segment>): (ws: seq<Word>)
    ensures |ws| == |segs|
  {
    seq(|segs|, i requires 0 <= i < |segs| => segs[i].start)
  }

  // What is added to a code point, cut to 16 bits.
  function Deltas(segs: seq<Segment>): (ws: seq<Word>)
    ensures |ws| == |segs|
  {
    seq(|segs|, i requires 0 <= i < |segs| =>
      if segs[i].Counted? then (segs[i].first - segs[i].start) % 0x1_0000 else 0)
  }

  function Offsets(segs: seq<Segment>): (ws: seq<Word>)
    requires GoodTable(segs)
    ensures |ws| == |segs|
  {
    seq(|segs|, i requires 0 <= i < |segs| => OffsetOf(segs, i))
  }

  // Format, length, language, twice the segment count, and the parameters of the search.
  function Header4(segs: seq<Segment>, length: Word, language: Word): (ws: seq<Word>)
    requires GoodTable(segs)
    ensures |ws| == 7
  {
    var n, k := |segs|, Log2(|segs|);
    [4, length, language, 2 * n, 2 * TwoTo(k), k, 2 * (n - TwoTo(k))]
  }

  function Table4(segs: seq<Segment>, length: Word, language: Word): seq<Word>
    requires GoodTable(segs)
  {
    Header4(segs, length, language) + Ends(segs) + [0] + Starts(segs) + Deltas(segs) + Offsets(segs) + Arrays(segs)
  }

  // The table stands in a font file.
  ghost predicate Holds4(data: seq<Octet>, at: nat, segs: seq<Segment>) {
    && GoodTable(segs)
    && exists before: seq<Octet>, after: seq<Octet>, length: Word, language: Word ::
         at == |before| && data == before + WordBytes(Table4(segs, length, language)) + after
  }

  lemma {:induction false} ArrayAt(segs: seq<Segment>, i: nat, j: nat)
    requires i < |segs| && segs[i].Listed? && j < |segs[i].glyphs|
    ensures |Arrays(segs[..i])| + j < |Arrays(segs)|
    ensures Arrays(segs)[|Arrays(segs[..i])| + j] == segs[i].glyphs[j]
  {
    var init := segs[..|segs| - 1];
    if i < |init| {
      ArrayAt(init, i, j);
      assert init[..i] == segs[..i];
    }
  }

  // ---------- what the source reads from the bytes of the table ----------

  ghost predicate ReadsWords(data: seq<Octet>, at: nat, ws: seq<Word>) {
    at + 2 * |ws| <= |data| && forall k: nat | k < |ws| :: U16(data, at + 2 * k) == ws[k]
  }

  lemma WordIs(data: seq<Octet>, at: nat, ws: seq<Word>, k: nat, pos: nat)
    requires ReadsWords(data, at, ws) && k < |ws| && pos == at + 2 * k
    ensures pos + 2 <= |data| && U16(data, pos) == ws[k]
  {
    hide U16;
  }

  lemma HoldsGood(data: seq<Octet>, at: nat, segs: seq<Segment>)
    requires Holds4(data, at, segs)
    ensures GoodTable(segs)
  {}

  lemma TableRead(data: seq<Octet>, at: nat, segs: seq<Segment>) returns (length: Word, language: Word)
    requires Holds4(data, at, segs)
    ensures ReadsWords(data, at, Table4(segs, length, language))
  {
    hide U16, WordBytes, Table4;
    var before: seq<Octet>, after: seq<Octet>, len: Word, lang: Word :|
      at == |before| && data == before + WordBytes(Table4(segs, len, lang)) + after;
    length, language := len, lang;
    var ws := Table4(segs, length, language);
    forall k: nat | k < |ws| ensures U16(data, at + 2 * k) == ws[k] { WordRead(before, ws, after, k); }
  }

  // The words of a table by their places: the header, and those of segment i.
  lemma HeaderAt(segs: seq<Segment>, length: Word, language: Word)
    requires GoodTable(segs)
    ensures var ws := Table4(segs, length, language);
      |ws| == 8 + 4 * |segs| + |Arrays(segs)| && forall i | 0 <= i < 7 :: ws[i] == Header4(segs, length, language)[i]
  {
    hide Deltas, Arrays, Offsets, Ends, Starts, GoodTable, Header4;
  }

  lemma SegmentAt(segs: seq<Segment>, length: Word, language: Word, i: nat)
    requires GoodTable(segs) && i < |segs|
    ensures var ws, n := Table4(segs, length, language), |segs|;
      && |ws| == 8 + 4 * n + |Arrays(segs)|
      && ws[7 + i] == segs[i].end && ws[8 + n + i] == segs[i].start
      && ws[8 + 2 * n + i] == Deltas(segs)[i] && ws[8 + 3 * n + i] == OffsetOf(segs, i)
  {
    hide Deltas, Arrays, OffsetOf, GoodTable, Header4;
    var n, a := |segs|, Header4(segs, length, language);
    var b := a + Ends(segs) + [0];
    var c := b + Starts(segs);
    var d := c + Deltas(segs);
    var e := d + Offsets(segs);
    assert e[8 + 3 * n + i] == Offsets(segs)[i];
    assert e[8 + 2 * n + i] == d[8 + 2 * n + i] == Deltas(segs)[i];
    assert e[8 + n + i] == d[8 + n + i] == c[8 + n + i] == Starts(segs)[i];
    assert e[7 + i] == d[7 + i] == c[7 + i] == b[7 + i] == Ends(segs)[i];
    InFront(e, Arrays(segs));
  }

  lemma ArrayWordAt(segs: seq<Segment>, length: Word, language: Word, j: nat)
    requires GoodTable(segs) && j < |Arrays(segs)|
    ensures var ws, n := Table4(segs, length, language), |segs|;
      |ws| == 8 + 4 * n + |Arrays(segs)| && ws[8 + 4 * n + j] == Arrays(segs)[j]
  {
    hide Deltas, Arrays, Offsets, Ends, Starts, GoodTable;
  }

  lemma InFront(a: seq<Word>, b: seq<Word>)
    ensures forall i | 0 <= i < |a| :: (a + b)[i] == a[i]
  {}

  lemma HeaderWords(data: seq<Octet>, at: nat, segs: seq<Segment>)
    requires Holds4(data, at, segs)
    ensures var n, k := |segs|, Log2(|segs|);
      && at + 16 + 8 * n + 2 * |Arrays(segs)| <= |data|
      && U16(data, at + 6) == 2 * n && U16(data, at + 8) == 2 * TwoTo(k) && U16(data, at + 10) == k
      && U16(data, at + 12) == 2 * (n - TwoTo(k))
  {
    var length, language := TableRead(data, at, segs);
    hide U16, Arrays, Table4, Holds4;
    HeaderAt(segs, length, language);
    var ws := Table4(segs, length, language);
    WordIs(data, at, ws, 3, at + 6);
    WordIs(data, at, ws, 4, at + 8);
    WordIs(data, at, ws, 5, at + 10);
    WordIs(data, at, ws, 6, at + 12);
  }

  lemma SegmentWords(data: seq<Octet>, at: nat, segs: seq<Segment>, i: nat)
    requires Holds4(data, at, segs) && i < |segs|
    ensures at + 16 + 8 * |segs| + 2 * |Arrays(segs)| <= |data|
    ensures U16(data, at + 14 + 2 * i) == segs[i].end && U16(data, at + 16 + 2 * |segs| + 2 * i) == segs[i].start
    ensures U16(data, at + 16 + 4 * |segs| + 2 * i) == Deltas(segs)[i]
    ensures U16(data, at + 16 + 6 * |segs| + 2 * i) == OffsetOf(segs, i)
  {
    hide *;
    HoldsGood(data, at, segs);
    var length, language := TableRead(data, at, segs);
    SegmentAt(segs, length, language, i);
    FourWords(data, at, Table4(segs, length, language), |segs|, i, |Arrays(segs)|);
  }

  lemma FourWords(data: seq<Octet>, at: nat, ws: seq<Word>, n: nat, i: nat, m: nat)
    requires ReadsWords(data, at, ws) && |ws| == 8 + 4 * n + m && i < n
    ensures at + 16 + 8 * n + 2 * m <= |data|
    ensures U16(data, at + 14 + 2 * i) == ws[7 + i] && U16(data, at + 16 + 2 * n + 2 * i) == ws[8 + n + i]
    ensures U16(data, at + 16 + 4 * n + 2 * i) == ws[8 + 2 * n + i]
    ensures U16(data, at + 16 + 6 * n + 2 * i) == ws[8 + 3 * n + i]
  {
    hide U16;
    WordIs(data, at, ws, 7 + i, at + 14 + 2 * i);
    WordIs(data, at, ws, 8 + n + i, at + 16 + 2 * n + 2 * i);
    WordIs(data, at, ws, 8 + 2 * n + i, at + 16 + 4 * n + 2 * i);
    WordIs(data, at, ws, 8 + 3 * n + i, at + 16 + 6 * n + 2 * i);
  }

  lemma ArrayWord(data: seq<Octet>, at: nat, segs: seq<Segment>, j: nat)
    requires Holds4(data, at, segs) && j < |Arrays(segs)|
    ensures at + 16 + 8 * |segs| + 2 * |Arrays(segs)| <= |data|
    ensures U16(data, at + 16 + 8 * |segs| + 2 * j) == Arrays(segs)[j]
  {
    hide *;
    HoldsGood(data, at, segs);
    var length, language := TableRead(data, at, segs);
    ArrayWordAt(segs, length, language, j);
    OneWord(data, at, Table4(segs, length, language), |segs|, j, |Arrays(segs)|);
  }

  lemma OneWord(data: seq<Octet>, at: nat, ws: seq<Word>, n: nat, j: nat, m: nat)
    requires ReadsWords(data, at, ws) && |ws| == 8 + 4 * n + m && j < m
    ensures at + 16 + 8 * n + 2 * m <= |data| && U16(data, at + 16 + 8 * n + 2 * j) == ws[8 + 4 * n + j]
  {
    hide U16;
    WordIs(data, at, ws, 8 + 4 * n + j, at + 16 + 8 * n + 2 * j);
  }

  // ---------- the table meets what the search asks for ----------

  lemma TablePresent(data: seq<Octet>, at: nat, segs: seq<Segment>)
    requires Holds4(data, at, segs)
    ensures Present4(data, at) && SegCount(data, at) == |segs| && Consistent(data, at)
  {
    hide U16, Arrays;
    HeaderWords(data, at, segs);
  }

  lemma SegmentRead(data: seq<Octet>, at: nat, segs: seq<Segment>, i: nat)
    requires Holds4(data, at, segs) && i < |segs| && Present4(data, at) && SegCount(data, at) == |segs|
    ensures EndCode(data, at, i) == segs[i].end && StartCode(data, at, i) == segs[i].start
    ensures RangeOffset(data, at, i) == OffsetOf(segs, i)
  {
    hide U16, Deltas, Arrays, OffsetOf;
    SegmentWords(data, at, segs, i);
  }

  // Inside segment i the bytes give the glyph of the mapping.
  lemma GlyphRead(data: seq<Octet>, at: nat, segs: seq<Segment>, i: nat, c: int)
    requires Holds4(data, at, segs) && i < |segs| && segs[i].start <= c <= segs[i].end
    requires Present4(data, at) && SegCount(data, at) == |segs|
    ensures StartCode(data, at, i) == segs[i].start && GlyphPresent(data, at, c, i)
    ensures SegmentGlyph(data, at, c, i) == GlyphOf(segs[i], c)
  {
    hide U16, Arrays;
    SegmentRead(data, at, segs, i);
    SegmentWords(data, at, segs, i);
    assert GoodSegment(segs[i]);
    if segs[i].Counted? {
      hide OffsetOf;
      CountedDelta(segs[i].first, segs[i].start, c);
    } else {
      var j := |Arrays(segs[..i])| + (c - segs[i].start);
      ArrayAt(segs, i, c - segs[i].start);
      ArrayWord(data, at, segs, j);
      assert at + 16 + 6 * |segs| + 2 * i + OffsetOf(segs, i) + (c - segs[i].start) * 2 == at + 16 + 8 * |segs| + 2 * j;
    }
  }

  // Reading the difference as a signed number makes no difference to the sum cut to 16 bits.
  lemma CountedDelta(first: Word, start: Word, c: int)
    requires 0 <= first + (c - start) < 0x1_0000
    ensures var u := (first - start) % 0x1_0000;
      (c + if u >= 0x8000 then u - 0x1_0000 else u) % 0x1_0000 == first + (c - start)
  {
    var u := (first - start) % 0x1_0000;
    assert u == first - start || u == first - start + 0x1_0000;
  }

  lemma TableSound(data: seq<Octet>, at: nat, segs: seq<Segment>)
    requires Holds4(data, at, segs) && Present4(data, at) && SegCount(data, at) == |segs|
    ensures EndsIncrease(data, at) && Disjoint(data, at) && GlyphsPresent(data, at)
  {
    hide U16, GlyphPresent, Holds4, OffsetOf, Arrays;
    assert GoodTable(segs) by { HoldsGood(data, at, segs); }
    forall i: nat | i < |segs| ensures EndCode(data, at, i) == segs[i].end && StartCode(data, at, i) == segs[i].start {
      SegmentRead(data, at, segs, i);
    }
    forall i: nat, j: nat | i < j < |segs| ensures EndCode(data, at, i) < StartCode(data, at, j) {}
    forall i: nat, j: nat | i < j < |segs| ensures EndCode(data, at, i) < EndCode(data, at, j) {
      assert GoodSegment(segs[j]);
    }
    forall i: nat, c: int | Contains(data, at, c, i)
      ensures GlyphPresent(data, at, c, i)
    {
      GlyphRead(data, at, segs, i, c);
    }
  }

  // The lookup finds the glyph of the mapping for every code point of a segment, and no glyph for any other.
  method FindWritten4(data: seq<Octet>, at: nat, segs: seq<Segment>, codepoint: int) returns (glyph: int)
    requires Holds4(data, at, segs)
    ensures forall i | 0 <= i < |segs| && segs[i].start <= codepoint <= segs[i].end ::
      GoodSegment(segs[i]) && glyph == GlyphOf(segs[i], codepoint)
    ensures (forall i | 0 <= i < |segs| :: !(segs[i].start <= codepoint <= segs[i].end)) ==> glyph == 0
  {
    hide U16, SegmentGlyph, GlyphPresent, Consistent, GoodSegment;
    TablePresent(data, at, segs);
    TableSound(data, at, segs);
    ghost var item;
    glyph, item := FindGlyph4(data, at, codepoint);
    forall i: nat | i < |segs|
      ensures GoodSegment(segs[i]) && (Contains(data, at, codepoint, i) <==> segs[i].start <= codepoint <= segs[i].end)
    {
      SegmentRead(data, at, segs, i);
    }
    if codepoint <= 0xFFFF {
      SearchIsScan(data, at, codepoint, item, glyph);
      if Contains(data, at, codepoint, item) { GlyphRead(data, at, segs, item, codepoint); }
    }
  }

  // ---------- formats 12 and 13 ----------

  type Long = v: int | 0 <= v < 0x1_0000_0000

  function LongWords(v: Long): (ws: seq<Word>)
    ensures |ws| == 2
  {
    [v / 0x1_0000, v % 0x1_0000]
  }

  datatype Group = Group(start: Long, end: Long, glyph: Long)

  // Groups that ascend and do not overlap.
  predicate GoodGroups(gs: seq<Group>) {
    && |gs| < 0x8000_0000 && (forall i | 0 <= i < |gs| :: gs[i].start <= gs[i].end)
    && forall i, j | 0 <= i < j < |gs| :: gs[i].end < gs[j].start
  }

  function GroupWords(gs: seq<Group>): (ws: seq<Word>)
    ensures |ws| == 6 * |gs|
  {
    if gs == [] then []
    else
      var g := gs[|gs| - 1];
      GroupWords(gs[..|gs| - 1]) + (LongWords(g.start) + LongWords(g.end) + LongWords(g.glyph))
  }

  // Format, length, language, number of groups, and the groups.
  function Table12(format: Word, gs: seq<Group>, length: Long, language: Long): seq<Word>
    requires GoodGroups(gs)
  {
    [format, 0] + LongWords(length) + LongWords(language) + LongWords(|gs|) + GroupWords(gs)
  }

  ghost predicate Holds12(data: seq<Octet>, at: nat, format: Word, gs: seq<Group>) {
    && GoodGroups(gs)
    && exists before: seq<Octet>, after: seq<Octet>, length: Long, language: Long ::
         at == |before| && data == before + WordBytes(Table12(format, gs, length, language)) + after
  }

  lemma {:induction false} GroupAt(gs: seq<Group>, i: nat)
    requires i < |gs|
    ensures var ws := GroupWords(gs);
      && ws[6 * i..6 * i + 2] == LongWords(gs[i].start) && ws[6 * i + 2..6 * i + 4] == LongWords(gs[i].end)
      && ws[6 * i + 4..6 * i + 6] == LongWords(gs[i].glyph)
  {
    hide LongWords;
    var init := gs[..|gs| - 1];
    if i < |init| {
      GroupAt(init, i);
      var ws, vs := GroupWords(gs), GroupWords(init);
      assert ws[..6 * |init|] == vs;
      assert ws[6 * i..6 * i + 2] == vs[6 * i..6 * i + 2] && ws[6 * i + 2..6 * i + 4] == vs[6 * i + 2..6 * i + 4];
      assert ws[6 * i + 4..6 * i + 6] == vs[6 * i + 4..6 * i + 6];
    }
  }

  lemma LongIs(data: seq<Octet>, at: nat, ws: seq<Word>, k: nat, v: Long, pos: nat)
    requires ReadsWords(data, at, ws) && k + 2 <= |ws| && ws[k..k + 2] == LongWords(v) && pos == at + 2 * k
    ensures pos + 4 <= |data| && U32(data, pos) == v
  {
    hide U16;
    WordIs(data, at, ws, k, pos);
    WordIs(data, at, ws, k + 1, pos + 2);
    assert ws[k] == ws[k..k + 2][0] && ws[k + 1] == ws[k..k + 2][1];
  }

  lemma Table12Read(data: seq<Octet>, at: nat, format: Word, gs: seq<Group>) returns (length: Long, language: Long)
    requires Holds12(data, at, format, gs)
    ensures GoodGroups(gs) && ReadsWords(data, at, Table12(format, gs, length, language))
  {
    hide U16, WordBytes, Table12;
    var before: seq<Octet>, after: seq<Octet>, len: Long, lang: Long :|
      at == |before| && data == before + WordBytes(Table12(format, gs, len, lang)) + after;
    length, language := len, lang;
    var ws := Table12(format, gs, length, language);
    forall k: nat | k < |ws| ensures U16(data, at + 2 * k) == ws[k] { WordRead(before, ws, after, k); }
  }

  lemma Table12Parts(format: Word, gs: seq<Group>, length: Long, language: Long)
    requires GoodGroups(gs)
    ensures var ws := Table12(format, gs, length, language);
      |ws| == 8 + 6 * |gs| && ws[6..8] == LongWords(|gs|) && ws[8..] == GroupWords(gs)
  {
    hide LongWords, GroupWords;
  }

  lemma Groups12(data: seq<Octet>, at: nat, format: Word, gs: seq<Group>)
    requires Holds12(data, at, format, gs)
    ensures GoodGroups(gs) && Present12(data, at) && GroupCount(data, at) == |gs|
    ensures forall i: nat | i < |gs| :: GroupStart(data, at, i) == gs[i].start
    ensures forall i: nat | i < |gs| :: GroupEnd(data, at, i) == gs[i].end
    ensures forall i: nat | i < |gs| :: GroupGlyph(data, at, i) == gs[i].glyph
  {
    hide U16, U32, LongWords, GroupWords, Table12, GoodGroups, Holds12, ReadsWords;
    var length, language := Table12Read(data, at, format, gs);
    assert |gs| < 0x8000_0000 by { FewGroups(gs); }
    var ws := Table12(format, gs, length, language);
    Table12Parts(format, gs, length, language);
    LongIs(data, at, ws, 6, |gs|, at + 12);
    WordsPresent(data, at, ws);
    forall i: nat | i < |gs|
      ensures U32(data, at + 16 + i * 12) == gs[i].start && U32(data, at + 16 + i * 12 + 4) == gs[i].end
      ensures U32(data, at + 16 + i * 12 + 8) == gs[i].glyph
    {
      GroupAt(gs, i);
      InTail(ws, 8, 6 * i, GroupWords(gs));
      InTail(ws, 8, 6 * i + 2, GroupWords(gs));
      InTail(ws, 8, 6 * i + 4, GroupWords(gs));
      LongIs(data, at, ws, 8 + 6 * i, gs[i].start, at + 16 + i * 12);
      LongIs(data, at, ws, 8 + 6 * i + 2, gs[i].end, at + 16 + i * 12 + 4);
      LongIs(data, at, ws, 8 + 6 * i + 4, gs[i].glyph, at + 16 + i * 12 + 8);
    }
  }

  lemma FewGroups(gs: seq<Group>)
    requires GoodGroups(gs)
    ensures |gs| < 0x8000_0000
  {}

  lemma WordsPresent(data: seq<Octet>, at: nat, ws: seq<Word>)
    requires ReadsWords(data, at, ws)
    ensures at + 2 * |ws| <= |data|
  {}

  lemma InTail(ws: seq<Word>, n: nat, k: nat, tail: seq<Word>)
    requires n <= |ws| && ws[n..] == tail && k + 2 <= |tail|
    ensures ws[n + k..n + k + 2] == tail[k..k + 2]
  {}

  // Format 12 counts glyphs up from the first of the group, format 13 gives all code points of the group the same one.
  method FindWritten12(data: seq<Octet>, at: nat, format: Word, gs: seq<Group>, codepoint: int) returns (glyph: int)
    requires Holds12(data, at, format, gs) && (format == 12 || format == 13) && 0 <= codepoint < 0x1_0000_0000
    ensures forall i | 0 <= i < |gs| && gs[i].start <= codepoint <= gs[i].end ::
      var found := if format == 12 then gs[i].glyph + (codepoint - gs[i].start) else gs[i].glyph;
      found < 0x8000_0000 ==> glyph == found
    ensures (forall i | 0 <= i < |gs| :: !(gs[i].start <= codepoint <= gs[i].end)) ==> glyph == 0
  {
    hide U16, U32, Holds12;
    Groups12(data, at, format, gs);
    glyph := FindGlyph12(data, at, format, codepoint);
    assert Unsigned(codepoint) == codepoint;
    assert GroupsSorted(data, at);
    forall i: nat | i < |gs| ensures InGroup(data, at, codepoint, i) <==> gs[i].start <= codepoint <= gs[i].end {}
  }
}
