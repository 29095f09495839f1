/**
 * Where the fields of the data stream stand and what they hold,
   in the numbers of section 7.4 of ISO/IEC 18004:2015: tables 2, 3
 * and 5, and sections 7.4.3 to 7.4.5, 7.4.9 and 7.4.10.
 */
module StreamLayout {
  import opened Arithmetic
  import opened Bits
  import opened Versions
  import opened Segments
  import opened TextSegments

  // ---------- one field ----------

  lemma FieldAt(before: seq<bool>, k: nat, w: nat, after: seq<bool>)
    requires k < TwoTo(w)
    ensures var s := before + NatBits(k, w) + after;
      BitsNat(s[|before|..|before| + w]) == k && s[|before| + w..] == after
  {
    ShrZero(k, w);
    NatBitsRoundTrip(k, w);
    var s := before + NatBits(k, w) + after;
    assert s[|before|..|before| + w] == NatBits(k, w);
    assert s[|before| + w..] == after;
  }

  lemma Powers()
    ensures TwoTo(4) == 16 && TwoTo(6) == 64 && TwoTo(7) == 128 && TwoTo(8) == 256 && TwoTo(9) == 512
      && TwoTo(10) == 1024
    ensures TwoTo(11) == 2048 && TwoTo(12) == 4096 && TwoTo(13) == 8192 && TwoTo(14) == 16384 && TwoTo(16) == 65536
  {
    assert TwoTo(5) == 32;
    assert TwoTo(15) == 32768;
  }

  // ---------- mode indicators and count fields ----------

  // The number in the count field of a segment fits `w` digits; the segment stands in the stream after those before it.
  ghost predicate StandsAt(ps: seq<Piece>, v: Version, cap: nat, i: nat, indicator: nat, w: nat) {
    && i < |ps| && cap % 8 == 0 && |AllBits(ps, v)| <= cap
    && var s, at, p := DataBits(ps, v, cap), |AllBits(ps[..i], v)|, ps[i];
    && |AllBits(ps[..i + 1], v)| == at + 4 + w + |p.bits| <= cap
    && BitsNat(s[at..at + 4]) == indicator && BitsNat(s[at + 4..at + 4 + w]) == p.numChars
    && s[at + 4 + w..at + 4 + w + |p.bits|] == p.bits
  }

  lemma {:induction false} AllBitsSplits(ps: seq<Piece>, v: Version, i: nat) returns (after: seq<bool>)
    requires i < |ps|
    ensures AllBits(ps, v) == AllBits(ps[..i], v) + PieceBits(ps[i], v) + after
    ensures AllBits(ps[..i + 1], v) == AllBits(ps[..i], v) + PieceBits(ps[i], v)
  {
    hide PieceBits;
    assert ps[..i + 1][..i] == ps[..i];
    if i + 1 == |ps| {
      assert ps[..i + 1] == ps;
      after := [];
    } else {
      var init := ps[..|ps| - 1];
      var rest := AllBitsSplits(init, v, i);
      assert init[..i] == ps[..i] && init[i] == ps[i];
      after := rest + PieceBits(ps[|ps| - 1], v);
    }
  }

  lemma PieceStands(ps: seq<Piece>, v: Version, cap: nat, i: nat, indicator: nat, w: nat)
    requires i < |ps| && cap % 8 == 0 && |AllBits(ps, v)| <= cap && ps[i].numChars < TwoTo(w)
    requires ModeBits(ps[i].mode) == indicator && NumCharCountBits(ps[i].mode, v) == w
    ensures StandsAt(ps, v, cap, i, indicator, w)
  {
    hide ModeBits, NumCharCountBits, NatBits, BitsNat, Filler, AllBits, TwoTo, PieceBits;
    var after := AllBitsSplits(ps, v, i);
    var a, p := AllBits(ps[..i], v), ps[i];
    var mode, count, rest := NatBits(indicator, 4), NatBits(p.numChars, w), after + Filler(|AllBits(ps, v)|, cap);
    Powers();
    FieldsAt(a, indicator, p.numChars, w, p.bits, rest);
    PieceIs(p, v, indicator, w);
    Regrouped(a, mode, count, p.bits, after, Filler(|AllBits(ps, v)|, cap));
    assert DataBits(ps, v, cap) == a + mode + count + p.bits + rest;
  }

  lemma PieceIs(p: Piece, v: Version, indicator: nat, w: nat)
    requires ModeBits(p.mode) == indicator && NumCharCountBits(p.mode, v) == w
    ensures PieceBits(p, v) == NatBits(indicator, 4) + NatBits(p.numChars, w) + p.bits
  {
    hide NatBits, ModeBits, NumCharCountBits;
  }

  lemma Regrouped(a: seq<bool>, b: seq<bool>, c: seq<bool>, d: seq<bool>, e: seq<bool>, f: seq<bool>)
    ensures a + (b + c + d) + e + f == a + b + c + d + (e + f)
  {
    assert a + (b + c + d) == a + b + c + d;
  }

  lemma FieldsAt(a: seq<bool>, indicator: nat, n: nat, w: nat, bits: seq<bool>, rest: seq<bool>)
    requires indicator < TwoTo(4) && n < TwoTo(w)
    ensures var s, at := a + NatBits(indicator, 4) + NatBits(n, w) + bits + rest, |a|;
      && BitsNat(s[at..at + 4]) == indicator && BitsNat(s[at + 4..at + 4 + w]) == n
      && s[at + 4 + w..at + 4 + w + |bits|] == bits
  {
    hide NatBits, BitsNat, TwoTo;
    var mode, count := NatBits(indicator, 4), NatBits(n, w);
    var s := a + mode + count + bits + rest;
    FieldAt(a, indicator, 4, count + bits + rest);
    assert s == a + mode + (count + bits + rest);
    FieldAt(a + mode, n, w, bits + rest);
    assert s == (a + mode) + count + (bits + rest);
    assert s[|a| + 4 + w..|a| + 4 + w + |bits|] == bits;
  }

  // Versions 1 to 9, 10 to 26 and 27 to 40 have counts of different widths.
  lemma NumericStands(ps: seq<Piece>, v: Version, cap: nat, i: nat)
    requires i < |ps| && ps[i].mode == Numeric && cap % 8 == 0 && |AllBits(ps, v)| <= cap
    ensures v <= 9 && ps[i].numChars < 1024 ==> StandsAt(ps, v, cap, i, 1, 10)
    ensures 10 <= v <= 26 && ps[i].numChars < 4096 ==> StandsAt(ps, v, cap, i, 1, 12)
    ensures 27 <= v && ps[i].numChars < 16384 ==> StandsAt(ps, v, cap, i, 1, 14)
  {
    hide StandsAt, TwoTo, AllBits;
    Powers();
    var w := if v <= 9 then 10 else if v <= 26 then 12 else 14;
    if ps[i].numChars < TwoTo(w) { PieceStands(ps, v, cap, i, 1, w); }
  }

  lemma AlphanumericStands(ps: seq<Piece>, v: Version, cap: nat, i: nat)
    requires i < |ps| && ps[i].mode == Alphanumeric && cap % 8 == 0 && |AllBits(ps, v)| <= cap
    ensures v <= 9 && ps[i].numChars < 512 ==> StandsAt(ps, v, cap, i, 2, 9)
    ensures 10 <= v <= 26 && ps[i].numChars < 2048 ==> StandsAt(ps, v, cap, i, 2, 11)
    ensures 27 <= v && ps[i].numChars < 8192 ==> StandsAt(ps, v, cap, i, 2, 13)
  {
    hide StandsAt, TwoTo, AllBits;
    Powers();
    var w := if v <= 9 then 9 else if v <= 26 then 11 else 13;
    if ps[i].numChars < TwoTo(w) { PieceStands(ps, v, cap, i, 2, w); }
  }

  lemma BytesStand(ps: seq<Piece>, v: Version, cap: nat, i: nat)
    requires i < |ps| && ps[i].mode == ByteMode && cap % 8 == 0 && |AllBits(ps, v)| <= cap
    ensures v <= 9 && ps[i].numChars < 256 ==> StandsAt(ps, v, cap, i, 4, 8)
    ensures 10 <= v && ps[i].numChars < 65536 ==> StandsAt(ps, v, cap, i, 4, 16)
  {
    hide StandsAt, TwoTo, AllBits;
    Powers();
    var w := if v <= 9 then 8 else 16;
    if ps[i].numChars < TwoTo(w) { PieceStands(ps, v, cap, i, 4, w); }
  }

  lemma KanjiStands(ps: seq<Piece>, v: Version, cap: nat, i: nat)
    requires i < |ps| && ps[i].mode == Kanji && cap % 8 == 0 && |AllBits(ps, v)| <= cap
    ensures v <= 9 && ps[i].numChars < 256 ==> StandsAt(ps, v, cap, i, 8, 8)
    ensures 10 <= v <= 26 && ps[i].numChars < 1024 ==> StandsAt(ps, v, cap, i, 8, 10)
    ensures 27 <= v && ps[i].numChars < 4096 ==> StandsAt(ps, v, cap, i, 8, 12)
  {
    hide StandsAt, TwoTo, AllBits;
    Powers();
    var w := if v <= 9 then 8 else if v <= 26 then 10 else 12;
    if ps[i].numChars < TwoTo(w) { PieceStands(ps, v, cap, i, 8, w); }
  }

  // A designator has no count.
  lemma EciStands(ps: seq<Piece>, v: Version, cap: nat, i: nat)
    requires i < |ps| && ps[i].mode == Eci && ps[i].numChars == 0 && cap % 8 == 0 && |AllBits(ps, v)| <= cap
    ensures StandsAt(ps, v, cap, i, 7, 0)
  {
    hide StandsAt, AllBits;
    PieceStands(ps, v, cap, i, 7, 0);
  }

  // The first segment begins with the stream.
  lemma FirstStands(ps: seq<Piece>, v: Version)
    ensures |ps| > 0 ==> AllBits(ps[..0], v) == []
  {}

  // Ten bits for three digits, eleven for two characters, eight for a byte and thirteen for a Kanji character.
  lemma PayloadBits(p: Piece)
    requires WellFormed(p)
    ensures p.mode == Numeric ==> |p.bits| == 10 * (p.numChars / 3) + [0, 4, 7][p.numChars % 3]
    ensures p.mode == Alphanumeric ==> |p.bits| == 11 * (p.numChars / 2) + [0, 6][p.numChars % 2]
    ensures p.mode == ByteMode ==> |p.bits| == 8 * p.numChars
    ensures p.mode == Kanji ==> |p.bits| == 13 * p.numChars
    ensures p.mode == Eci ==> |p.bits| == if !p.bits[0] then 8 else if !p.bits[1] then 16 else 24
  {}

  // ---------- what follows the segments ----------

  lemma {:induction false} PadAt(n: nat, k: nat)
    requires k < n
    ensures BitsNat(PadBits(n)[8 * k..8 * k + 8]) == if k % 2 == 0 then 236 else 17
  {
    hide NatBits, BitsNat;
    if k < n - 1 {
      PadAt(n - 1, k);
      assert PadBits(n)[8 * k..8 * k + 8] == PadBits(n - 1)[8 * k..8 * k + 8];
    } else {
      Powers();
      var b := if n % 2 == 1 then 0xEC else 0x11;
      FieldAt(PadBits(n - 1), b, 8, []);
      assert PadBits(n - 1) + NatBits(b, 8) + [] == PadBits(n);
    }
  }

  // At most four zeros, zeros up to a whole byte, and then 236 and 17 by turns.
  lemma FillerStands(ps: seq<Piece>, v: Version, bytes: nat, used: nat, whole: nat, s: seq<bool>)
    requires used == |AllBits(ps, v)| <= 8 * bytes && s == DataBits(ps, v, 8 * bytes)
    requires whole == ((if used + 4 <= 8 * bytes then used + 4 else 8 * bytes) + 7) / 8
    ensures 8 * whole <= 8 * bytes == |s| && forall j | used <= j < 8 * whole :: !s[j]
    ensures forall k: nat | k < bytes - whole ::
      BitsNat(s[8 * whole..][8 * k..8 * k + 8]) == if k % 2 == 0 then 236 else 17
  {
    hide AllBits, BitsNat, PadBits;
    var n := bytes - whole;
    assert s == AllBits(ps, v) + Falses(8 * whole - used) + PadBits(n);
    assert s[8 * whole..] == PadBits(n);
    forall k: nat | k < n
      ensures BitsNat(s[8 * whole..][8 * k..8 * k + 8]) == if k % 2 == 0 then 236 else 17
    {
      PadAt(n, k);
    }
  }

  // ---------- bytes ----------

  lemma ByteHalf(x: nat)
    requires x < 256
    ensures (x as Byte) >> 1 == (x / 2) as Byte
  {
    if x < 64 {} else if x < 128 {} else if x < 192 {} else {}
  }

  lemma ByteOdd(x: nat)
    requires x < 256
    ensures ((x as Byte) & 1 != 0) == (x % 2 == 1)
  {
    if x < 64 {} else if x < 128 {} else if x < 192 {} else {}
  }

  lemma BitOfHalf(b: Byte, k: nat)
    requires k < 7
    ensures Bit(b, k + 1) == Bit(b >> 1, k) && Bit(b, 0) == (b & 1 != 0)
  {
    OneTable(k);
    OneTable(k + 1);
    OneTable(0);
  }

  lemma {:induction false} ByteDigit(x: nat, n: nat, k: nat)
    requires x < 256 && k < n <= 8
    ensures NatBits(x, n)[n - 1 - k] == Bit(x as Byte, k)
  {
    hide Bit;
    ByteHalf(x);
    ByteOdd(x);
    if k == 0 {
      BitOfHalf(x as Byte, 0);
    } else {
      BitOfHalf(x as Byte, k - 1);
      ByteDigit(x / 2, n - 1, k - 1);
    }
  }

  // Bits of a byte run from the highest to the lowest.
  lemma ByteAt(buf: seq<Byte>, i: nat, x: nat)
    requires i < |buf| && x < 256 && buf[i] == x as Byte
    ensures BitsNat(Stream(buf)[8 * i..8 * i + 8]) == x
  {
    hide Bit, NatBits, BitsNat;
    var s, t := Stream(buf)[8 * i..8 * i + 8], NatBits(x, 8);
    forall j: nat | j < 8 ensures s[j] == t[j] {
      ByteDigit(x, 8, 7 - j);
      assert (8 * i + j) / 8 == i && (8 * i + j) % 8 == j;
    }
    assert s == t;
    Powers();
    FieldAt([], x, 8, []);
    assert ([] + t + [])[0..8] == t;
  }

  lemma TextByteAt(text: string, i: nat)
    requires (forall k | 0 <= k < |text| :: text[k] as int < 256) && i < |text|
    ensures BitsNat(Stream(TextBytes(text))[8 * i..8 * i + 8]) == text[i] as int
  {
    ByteAt(TextBytes(text), i, text[i] as int);
  }

  // ---------- digits ----------

  lemma ValueOfThree(a: nat, b: nat, c: nat)
    ensures Value([a], 10) == a && Value([a, b], 10) == 10 * a + b && Value([a, b, c], 10) == 100 * a + 10 * b + c
    ensures Value([a], 45) == a && Value([a, b], 45) == 45 * a + b
  {
    assert [a, b, c][..2] == [a, b] && [a, b][..1] == [a] && [a][..0] == [];
    assert Value([a], 10) == Value([], 10) * 10 + a;
    assert Value([a, b], 10) == Value([a], 10) * 10 + b;
    assert Value([a], 45) == Value([], 45) * 45 + a;
    assert Value([a, b], 45) == Value([a], 45) * 45 + b;
  }

  // Three digits in ten bits, and the one or two that are left in four or seven.
  lemma {:induction false} DigitsAt(ds: seq<nat>, k: nat)
    requires Below(ds, 10) && 3 * k < |ds|
    ensures var s, left := NumericBits(ds), |ds| - 3 * k;
      && |s| >= 10 * k + (if left >= 3 then 10 else 3 * left + 1)
      && (left >= 3 ==> BitsNat(s[10 * k..10 * k + 10]) == 100 * ds[3 * k] + 10 * ds[3 * k + 1] + ds[3 * k + 2])
      && (left == 2 ==> BitsNat(s[10 * k..]) == 10 * ds[3 * k] + ds[3 * k + 1] && |s| == 10 * k + 7)
      && (left == 1 ==> BitsNat(s[10 * k..]) == ds[3 * k] && |s| == 10 * k + 4)
    decreases k
  {
    hide NatBits, BitsNat, Value;
    Powers();
    var s := NumericBits(ds);
    if k > 0 {
      DigitsAt(ds[3..], k - 1);
      var t := NumericBits(ds[3..]);
      assert s[10..] == t;
      assert s[10 * k..] == t[10 * (k - 1)..];
      if |ds| - 3 * k >= 3 { assert s[10 * k..10 * k + 10] == t[10 * (k - 1)..10 * (k - 1) + 10]; }
    } else if |ds| >= 3 {
      ValueOfThree(ds[0], ds[1], ds[2]);
      assert ds[..3] == [ds[0], ds[1], ds[2]];
      FieldAt([], Value(ds[..3], 10), 10, NumericBits(ds[3..]));
      assert s == [] + NatBits(Value(ds[..3], 10), 10) + NumericBits(ds[3..]);
    } else {
      ValueOfThree(ds[0], if |ds| == 2 then ds[1] else 0, 0);
      assert ds == if |ds| == 2 then [ds[0], ds[1]] else [ds[0]];
      FieldAt([], Value(ds, 10), 3 * |ds| + 1, []);
      assert s == [] + NatBits(Value(ds, 10), 3 * |ds| + 1) + [];
      assert s[0..3 * |ds| + 1] == s[0..];
    }
  }

  // Two characters in eleven bits, and the one that is left in six.
  lemma {:induction false} CharactersAt(ds: seq<nat>, k: nat)
    requires Below(ds, 45) && 2 * k < |ds|
    ensures var s, left := AlphanumericBits(ds), |ds| - 2 * k;
      && |s| >= 11 * k + (if left >= 2 then 11 else 6)
      && (left >= 2 ==> BitsNat(s[11 * k..11 * k + 11]) == 45 * ds[2 * k] + ds[2 * k + 1])
      && (left == 1 ==> BitsNat(s[11 * k..]) == ds[2 * k] && |s| == 11 * k + 6)
    decreases k
  {
    hide NatBits, BitsNat, Value;
    Powers();
    var s := AlphanumericBits(ds);
    if k > 0 {
      CharactersAt(ds[2..], k - 1);
      var t := AlphanumericBits(ds[2..]);
      assert s[11..] == t;
      assert s[11 * k..] == t[11 * (k - 1)..];
      if |ds| - 2 * k >= 2 { assert s[11 * k..11 * k + 11] == t[11 * (k - 1)..11 * (k - 1) + 11]; }
    } else if |ds| >= 2 {
      ValueOfThree(ds[0], ds[1], 0);
      assert ds[..2] == [ds[0], ds[1]];
      FieldAt([], Value(ds[..2], 45), 11, AlphanumericBits(ds[2..]));
      assert s == [] + NatBits(Value(ds[..2], 45), 11) + AlphanumericBits(ds[2..]);
    } else {
      ValueOfThree(ds[0], 0, 0);
      assert ds == [ds[0]];
      FieldAt([], Value(ds, 45), 6, []);
      assert s == [] + NatBits(Value(ds, 45), 6) + [];
      assert s[0..6] == s[0..];
    }
  }

  // ---------- characters ----------

  // The character at a place of the set.
  function CharAt(d: nat): char
    requires d < 45
  {
    if d < 10 then (48 + d) as char else if d < 36 then (55 + d) as char else " $%*+-./:"[d - 36]
  }

  lemma CharsetIs(d: nat)
    requires d < 45
    ensures ALPHANUMERIC_CHARSET[d] == CharAt(d)
  {
    var digits, letters, signs := "0123456789", "ABCDEFGHIJKLMNOPQRSTUVWXYZ", " $%*+-./:";
    ThreeRuns(digits, letters, signs, d);
    if 10 <= d < 36 { Letter(d - 10); }
  }

  lemma CharAtDistinct(d: nat, e: nat)
    requires d < 45 && e < 45 && CharAt(d) == CharAt(e)
    ensures d == e
  {}

  lemma ThreeRuns(a: string, b: string, c: string, d: nat)
    requires |a| == 10 && |b| == 26 && |c| == 9 && d < 45
    ensures (a + b + c)[d] == if d < 10 then a[d] else if d < 36 then b[d - 10] else c[d - 36]
  {}

  lemma Letter(i: nat)
    requires i < 26
    ensures "ABCDEFGHIJKLMNOPQRSTUVWXYZ"[i] == (65 + i) as char
  {
    if i < 13 {} else {}
  }

  lemma ValueIsPlace(d: nat)
    requires d < 45
    ensures IsAlphanumericChar(ALPHANUMERIC_CHARSET[d]) && CharValue(ALPHANUMERIC_CHARSET[d]) == d
  {
    hide IndexIn, CharAt;
    assert ALPHANUMERIC_CHARSET[d] in ALPHANUMERIC_CHARSET;
    var e := CharValue(ALPHANUMERIC_CHARSET[d]);
    CharsetIs(d);
    CharsetIs(e);
    CharAtDistinct(d, e);
  }

  // Digits stand for themselves, letters for 10 to 35, and nine more characters for 36 to 44.
  lemma CharacterValues(c: char)
    ensures '0' <= c <= '9' ==> IsAlphanumericChar(c) && CharValue(c) == c as int - 48
    ensures 'A' <= c <= 'Z' ==> IsAlphanumericChar(c) && CharValue(c) == c as int - 55
    ensures IsAlphanumericChar(c) ==> ('0' <= c <= '9' || 'A' <= c <= 'Z' || c in " $%*+-./:")
  {
    if '0' <= c <= '9' {
      CharsetIs(c as int - 48);
      ValueIsPlace(c as int - 48);
    }
    if 'A' <= c <= 'Z' {
      CharsetIs(c as int - 55);
      ValueIsPlace(c as int - 55);
    }
    if IsAlphanumericChar(c) { CharsetIs(CharValue(c)); }
  }

  lemma SignValues(i: nat)
    requires i < 9
    ensures IsAlphanumericChar(" $%*+-./:"[i]) && CharValue(" $%*+-./:"[i]) == 36 + i
  {
    CharsetIs(36 + i);
    ValueIsPlace(36 + i);
  }

  // ---------- designators ----------

  lemma {:induction false} BitsNatAppend(a: seq<bool>, b: seq<bool>)
    ensures BitsNat(a + b) == BitsNat(a) * TwoTo(|b|) + BitsNat(b)
  {
    hide BitsNat;
    if b == [] {
      assert a + b == a;
      assert BitsNat([]) == 0 by { NoDigits(); }
    } else {
      var b' := b[..|b| - 1];
      BitsNatAppend(a, b');
      assert (a + b)[..|a + b| - 1] == a + b';
      LastDigit(a + b);
      LastDigit(b);
      assert |b| == |b'| + 1;
      TwiceProduct(BitsNat(a), TwoTo(|b'|));
    }
  }

  lemma LastDigit(s: seq<bool>)
    requires s != []
    ensures BitsNat(s) == 2 * BitsNat(s[..|s| - 1]) + if s[|s| - 1] then 1 else 0
  {}

  lemma NoDigits()
    ensures BitsNat([]) == 0
  {}

  lemma TwiceProduct(x: nat, y: nat)
    ensures x * (2 * y) == 2 * (x * y)
  {}

  // The number behind no, one or two leading ones and a zero.
  lemma DesignatorNumber(n: nat)
    requires n < 1000000
    ensures n < 128 ==> |EciBits(n)| == 8 && BitsNat(EciBits(n)) == n
    ensures 128 <= n < 16384 ==> |EciBits(n)| == 16 && BitsNat(EciBits(n)) == 32768 + n
    ensures 16384 <= n ==> |EciBits(n)| == 24 && BitsNat(EciBits(n)) == 12582912 + n
  {
    hide NatBits, BitsNat;
    Powers();
    FieldValue(2, 2);
    FieldValue(6, 3);
    if n < 128 {
      FieldValue(n, 8);
    } else if n < 16384 {
      FieldValue(n, 14);
      BitsNatAppend(NatBits(2, 2), NatBits(n, 14));
    } else {
      var high, low := n / 1024, n % 1024;
      FieldValue(high, 11);
      FieldValue(low, 10);
      BitsNatAppend(NatBits(6, 3), NatBits(high, 11));
      BitsNatAppend(NatBits(6, 3) + NatBits(high, 11), NatBits(low, 10));
    }
  }

  lemma FieldValue(k: nat, w: nat)
    requires k < TwoTo(w)
    ensures BitsNat(NatBits(k, w)) == k
  {
    ShrZero(k, w);
    NatBitsRoundTrip(k, w);
  }
}
