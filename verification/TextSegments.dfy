/** Making segments from text and binary data, and reading the text back. */
module TextSegments {
  import opened Arithmetic
  import opened Wrappers
  import opened Bits
  import opened Segments

  const ALPHANUMERIC_CHARSET := "0123456789" + "ABCDEFGHIJKLMNOPQRSTUVWXYZ" + " $%*+-./:"

  // A segment with its payload in a byte buffer, packed big-endian.
  datatype Segment = Segment(mode: Mode, numChars: nat, data: array<Byte>, bitLength: nat)

  predicate InBounds(seg: Segment) {
    seg.bitLength <= 8 * seg.data.Length && seg.bitLength <= INT16_MAX && seg.numChars <= INT16_MAX
  }

  ghost function PieceOf(seg: Segment): Piece
    requires InBounds(seg)
    reads seg.data
  {
    Piece(seg.mode, seg.numChars, Stream(seg.data[..])[..seg.bitLength])
  }

  // ---------- lengths ----------

  const LENGTH_OVERFLOW := -1

  function CalcSegmentBitLength(mode: Mode, numChars: nat): (r: int)
    requires mode == Eci ==> numChars == 0
  {
    if numChars > INT16_MAX then LENGTH_OVERFLOW
    else
      var result := match mode
        case Numeric => (numChars * 10 + 2) / 3
        case Alphanumeric => (numChars * 11 + 1) / 2
        case ByteMode => numChars * 8
        case Kanji => numChars * 13
        case Eci => 3 * 8;
      if result > INT16_MAX then LENGTH_OVERFLOW else result
  }

  // Overflow is reported exactly when the payload does not fit in 32767 bits; otherwise the length is exact.
  lemma CalcIsPayloadLen(mode: Mode, n: nat)
    requires mode != Eci
    ensures var r, len := CalcSegmentBitLength(mode, n), PayloadLen(mode, n, []).value;
            if len <= INT16_MAX then r == len else r == LENGTH_OVERFLOW
  {}

  // ---------- digits and alphanumeric characters ----------

  predicate IsDigit(c: char) { '0' <= c <= '9' }

  predicate IsNumeric(text: string) { forall i | 0 <= i < |text| :: IsDigit(text[i]) }

  predicate IsAlphanumeric(text: string) { forall i | 0 <= i < |text| :: IsAlphanumericChar(text[i]) }

  function DigitValue(c: char): (d: nat)
    requires IsDigit(c)
    ensures d < 10
  {
    c as int - '0' as int
  }

  function DigitChar(d: nat): char
    requires d < 10
  {
    (d + '0' as int) as char
  }

  // Index of the first occurrence, as strchr finds it.
  function IndexIn(s: string, c: char): (i: nat)
    requires c in s
    ensures i < |s| && s[i] == c && c !in s[..i]
  {
    if s[0] == c then 0 else 1 + IndexIn(s[1..], c)
  }

  predicate IsAlphanumericChar(c: char) { c in ALPHANUMERIC_CHARSET }

  function CharValue(c: char): (d: nat)
    requires IsAlphanumericChar(c)
    ensures d < 45 && ALPHANUMERIC_CHARSET[d] == c
  {
    IndexIn(ALPHANUMERIC_CHARSET, c)
  }

  function DigitValues(text: string): (ds: seq<nat>)
    requires IsNumeric(text)
    ensures |ds| == |text| && forall i | 0 <= i < |ds| :: ds[i] == DigitValue(text[i])
  {
    seq(|text|, i requires 0 <= i < |text| => DigitValue(text[i]))
  }

  function CharValues(text: string): (ds: seq<nat>)
    requires IsAlphanumeric(text)
    ensures |ds| == |text| && forall i | 0 <= i < |ds| :: ds[i] == CharValue(text[i])
  {
    seq(|text|, i requires 0 <= i < |text| => CharValue(text[i]))
  }

  // ---------- packing ----------

  type Base = b: nat | b == 10 || b == 45 witness 10

  // Base-`b` number with digits `ds`, most significant first.
  function Value(ds: seq<nat>, b: Base): nat {
    if ds == [] then 0 else Value(ds[..|ds| - 1], b) * b + ds[|ds| - 1]
  }

  // Groups of three digits in ten bits each; one or two left over take four or seven bits.
  function NumericBits(ds: seq<nat>): seq<bool> {
    if |ds| >= 3 then NatBits(Value(ds[..3], 10), 10) + NumericBits(ds[3..])
    else if |ds| > 0 then NatBits(Value(ds, 10), 3 * |ds| + 1)
    else []
  }

  // Groups of two characters in eleven bits each; one left over takes six bits.
  function AlphanumericBits(ds: seq<nat>): seq<bool> {
    if |ds| >= 2 then NatBits(Value(ds[..2], 45), 11) + AlphanumericBits(ds[2..])
    else if |ds| > 0 then NatBits(Value(ds, 45), 6)
    else []
  }

  // The low `n` base-`b` digits of `v`.
  function Digits(v: nat, b: Base, n: nat): (ds: seq<nat>)
    ensures |ds| == n
  {
    if n == 0 then [] else Digits(if b == 10 then v / 10 else v / 45, b, n - 1) + [if b == 10 then v % 10 else v % 45]
  }

  function UnpackNumeric(bits: seq<bool>, n: nat): Option<seq<nat>> {
    if n >= 3 then
      if |bits| < 10 then None
      else match UnpackNumeric(bits[10..], n - 3)
        case None => None
        case Some(more) => Some(Digits(BitsNat(bits[..10]), 10, 3) + more)
    else if n > 0 then
      if |bits| < 3 * n + 1 then None else Some(Digits(BitsNat(bits[..3 * n + 1]), 10, n))
    else Some([])
  }

  function UnpackAlphanumeric(bits: seq<bool>, n: nat): Option<seq<nat>> {
    if n >= 2 then
      if |bits| < 11 then None
      else match UnpackAlphanumeric(bits[11..], n - 2)
        case None => None
        case Some(more) => Some(Digits(BitsNat(bits[..11]), 45, 2) + more)
    else if n > 0 then
      if |bits| < 6 then None else Some(Digits(BitsNat(bits[..6]), 45, 1))
    else Some([])
  }

  predicate Below(ds: seq<nat>, b: nat) { forall i | 0 <= i < |ds| :: ds[i] < b }

  lemma GroupRoundTrip(ds: seq<nat>, b: Base, width: nat)
    requires Below(ds, b)
    requires 1 <= |ds| && ((b == 10 && |ds| <= 3) || (b == 45 && |ds| <= 2))
    requires width == (if b == 10 then 3 else 5) * |ds| + 1
    ensures Shr(Value(ds, b), width) == 0
    ensures Digits(BitsNat(NatBits(Value(ds, b), width)), b, |ds|) == ds
  {
    ValueBounds(ds, b);
    TwoToTable();
    ShrZero(Value(ds, b), width);
    NatBitsRoundTrip(Value(ds, b), width);
    DigitsOfValue(ds, b);
  }

  lemma TwoToTable()
    ensures TwoTo(1) == 2 && TwoTo(4) == 16 && TwoTo(6) == 64 && TwoTo(7) == 128 && TwoTo(10) == 1024
      && TwoTo(11) == 2048
  {
    assert TwoTo(3) == 8 && TwoTo(8) == 256;
  }

  lemma {:induction false} ValueBounds(ds: seq<nat>, b: Base)
    requires Below(ds, b)
    ensures |ds| == 0 ==> Value(ds, b) == 0
    ensures |ds| == 1 ==> Value(ds, b) < b
    ensures |ds| == 2 ==> Value(ds, b) < b * b
    ensures |ds| == 3 ==> Value(ds, b) < b * b * b
  {
    if |ds| > 0 { ValueBounds(ds[..|ds| - 1], b); }
  }

  lemma {:induction false} DigitsOfValue(ds: seq<nat>, b: Base)
    requires Below(ds, b)
    ensures Digits(Value(ds, b), b, |ds|) == ds
  {
    if ds != [] {
      var init, last := ds[..|ds| - 1], ds[|ds| - 1];
      DigitsOfValue(init, b);
      var v := Value(init, b) * b + last;
      assert v / b == Value(init, b) && v % b == last;
      assert ds == init + [last];
    }
  }

  lemma {:induction false} NumericRoundTrip(ds: seq<nat>)
    requires Below(ds, 10)
    ensures |NumericBits(ds)| == (10 * |ds| + 2) / 3
    ensures UnpackNumeric(NumericBits(ds), |ds|) == Some(ds)
  {
    hide Value, Digits, Shr, NatBits, BitsNat;
    if |ds| >= 3 {
      NumericRoundTrip(ds[3..]);
      GroupRoundTrip(ds[..3], 10, 10);
      var bits := NumericBits(ds);
      assert bits[..10] == NatBits(Value(ds[..3], 10), 10);
      assert bits[10..] == NumericBits(ds[3..]);
      assert ds == ds[..3] + ds[3..];
    } else if |ds| > 0 {
      GroupRoundTrip(ds, 10, 3 * |ds| + 1);
      assert NumericBits(ds)[..3 * |ds| + 1] == NumericBits(ds);
    }
  }

  lemma {:induction false} AlphanumericRoundTrip(ds: seq<nat>)
    requires Below(ds, 45)
    ensures |AlphanumericBits(ds)| == (11 * |ds| + 1) / 2
    ensures UnpackAlphanumeric(AlphanumericBits(ds), |ds|) == Some(ds)
  {
    hide Value, Digits, Shr, NatBits, BitsNat;
    if |ds| >= 2 {
      AlphanumericRoundTrip(ds[2..]);
      GroupRoundTrip(ds[..2], 45, 11);
      var bits := AlphanumericBits(ds);
      assert bits[..11] == NatBits(Value(ds[..2], 45), 11);
      assert bits[11..] == AlphanumericBits(ds[2..]);
      assert ds == ds[..2] + ds[2..];
    } else if |ds| > 0 {
      GroupRoundTrip(ds, 45, 6);
      assert AlphanumericBits(ds)[..6] == AlphanumericBits(ds);
    }
  }

  // ---------- segment factories ----------

  lemma ValueAppend(ds: seq<nat>, d: nat, b: Base)
    ensures Value(ds + [d], b) == Value(ds, b) * b + d
  {
    assert (ds + [d])[..|ds|] == ds;
  }

  // The group of digits from `start` up to `k` that has not been written yet.
  ghost function Pending(ds: seq<nat>, start: nat, k: nat, b: Base): nat
    requires start <= k <= |ds|
  {
    Value(ds[start..k], b)
  }

  lemma PendingStep(ds: seq<nat>, start: nat, k: nat, b: Base)
    requires start <= k < |ds|
    ensures Pending(ds, start, k + 1, b) == Pending(ds, start, k, b) * b + ds[k]
    ensures Pending(ds, k + 1, k + 1, b) == 0
  {
    assert ds[start..k + 1] == ds[start..k] + [ds[k]];
    ValueAppend(ds[start..k], ds[k], b);
    assert ds[k + 1..k + 1] == [];
  }

  ghost function NumericRest(ds: seq<nat>, start: nat): seq<bool>
    requires start <= |ds|
  {
    NumericBits(ds[start..])
  }

  lemma RestStart(ds: seq<nat>, b: Base)
    ensures Pending(ds, 0, 0, b) == 0 && NumericRest(ds, 0) == NumericBits(ds)
      && AlphanumericRest(ds, 0) == AlphanumericBits(ds)
  {
    assert ds[0..] == ds;
  }

  // Writing out a full group of three digits.
  lemma NumericGroup(ds: seq<nat>, start: nat, done: seq<bool>)
    requires start + 3 <= |ds| && Below(ds, 10)
    ensures Shr(Pending(ds, start, start + 3, 10), 10) == 0
    ensures done + NumericRest(ds, start)
      == done + NatBits(Pending(ds, start, start + 3, 10), 10) + NumericRest(ds, start + 3)
  {
    hide Value, Shr, NatBits;
    var rest := ds[start..];
    assert rest[..3] == ds[start..start + 3] && rest[3..] == ds[start + 3..];
    GroupRoundTrip(ds[start..start + 3], 10, 10);
  }

  lemma NumericTail(ds: seq<nat>, start: nat)
    requires start <= |ds| <= start + 2 && Below(ds, 10)
    ensures var n, v := |ds| - start, Pending(ds, start, |ds|, 10);
      && NumericRest(ds, start) == (if n == 0 then [] else NatBits(v, n * 3 + 1))
      && (n > 0 ==> Shr(v, n * 3 + 1) == 0)
  {
    hide Value, Shr, NatBits;
    var rest := ds[start..];
    assert rest == ds[start..|ds|];
    if rest != [] { GroupRoundTrip(rest, 10, 3 * |rest| + 1); }
  }

  ghost function AlphanumericRest(ds: seq<nat>, start: nat): seq<bool>
    requires start <= |ds|
  {
    AlphanumericBits(ds[start..])
  }

  // Writing out a full group of two characters.
  lemma AlphanumericGroup(ds: seq<nat>, start: nat, done: seq<bool>)
    requires start + 2 <= |ds| && Below(ds, 45)
    ensures Shr(Pending(ds, start, start + 2, 45), 11) == 0
    ensures done + AlphanumericRest(ds, start)
         == done + NatBits(Pending(ds, start, start + 2, 45), 11) + AlphanumericRest(ds, start + 2)
  {
    hide Value, Shr, NatBits;
    var rest := ds[start..];
    assert rest[..2] == ds[start..start + 2] && rest[2..] == ds[start + 2..];
    GroupRoundTrip(ds[start..start + 2], 45, 11);
  }

  lemma AlphanumericTail(ds: seq<nat>, start: nat)
    requires start <= |ds| <= start + 1 && Below(ds, 45)
    ensures var n, v := |ds| - start, Pending(ds, start, |ds|, 45);
      && AlphanumericRest(ds, start) == (if n == 0 then [] else NatBits(v, 6))
      && (n > 0 ==> Shr(v, 6) == 0)
  {
    hide Value, Shr, NatBits;
    var rest := ds[start..];
    assert rest == ds[start..|ds|];
    if rest != [] { GroupRoundTrip(rest, 45, 6); }
  }

  lemma HoldsMeansStream(buf: seq<Byte>, cap: nat, bits: seq<bool>)
    requires Holds(buf, cap, bits)
    ensures |bits| <= 8 * |buf| && Stream(buf)[..|bits|] == bits
  {}

  // memset(buf, 0, n)
  method ClearBytes(buf: array<Byte>, n: nat)
    requires n <= buf.Length
    modifies buf
    ensures Holds(buf[..], n, [])
    ensures forall k | n <= k < buf.Length :: buf[k] == old(buf[k])
  {
    forall k | 0 <= k < n { buf[k] := 0; }
    ghost var now := buf[..];
    forall k: nat | k < 8 * n ensures !StreamBit(now, k) {
      assert now[k / 8] == 0;
      assert !Bit(0, 7 - k % 8);
    }
  }

  lemma NumericLen(ds: seq<nat>)
    requires Below(ds, 10)
    ensures PayloadLen(Numeric, |ds|, []) == Some(|NumericBits(ds)|)
  {
    NumericRoundTrip(ds);
  }

  lemma AlphanumericLen(ds: seq<nat>)
    requires Below(ds, 45)
    ensures PayloadLen(Alphanumeric, |ds|, []) == Some(|AlphanumericBits(ds)|)
  {
    AlphanumericRoundTrip(ds);
  }

  lemma CapSuffices(mode: Mode, n: nat)
    requires mode != Eci && CalcSegmentBitLength(mode, n) != LENGTH_OVERFLOW
    ensures var r := CalcSegmentBitLength(mode, n);
      && r == PayloadLen(mode, n, []).value <= INT16_MAX && n <= INT16_MAX && r <= 8 * ((r + 7) / 8)
  {}

  method MakeNumeric(digits: string, buf: array<Byte>) returns (seg: Segment)
    requires IsNumeric(digits) && CalcSegmentBitLength(Numeric, |digits|) != LENGTH_OVERFLOW
    requires (CalcSegmentBitLength(Numeric, |digits|) + 7) / 8 <= buf.Length
    modifies buf
    ensures InBounds(seg) && seg.data == buf
    ensures PieceOf(seg) == Piece(Numeric, |digits|, NumericBits(DigitValues(digits)))
  {
    hide CalcSegmentBitLength, PayloadLen, Stream, Pending, Shr, NatBits, Holds, NumericBits, NumericRest;
    ghost var ds := DigitValues(digits);
    CapSuffices(Numeric, |digits|);
    assert PayloadLen(Numeric, |digits|, []).value == |NumericBits(ds)| by { NumericLen(ds); }
    var cap := (CalcSegmentBitLength(Numeric, |digits|) + 7) / 8;
    ClearBytes(buf, cap);
    var bitLength := 0;
    var accumData, accumCount := 0, 0;
    ghost var done: seq<bool> := [];
    ghost var start := 0;
    RestStart(ds, 10);
    for k := 0 to |digits|
      invariant start == k - accumCount && 0 <= accumCount <= 2 && start >= 0
      invariant accumData == Pending(ds, start, k, 10)
      invariant done + NumericRest(ds, start) == NumericBits(ds)
      invariant |done| == bitLength && Holds(buf[..], cap, done)
    {
      PendingStep(ds, start, k, 10);
      accumData := accumData * 10 + (digits[k] as int - '0' as int);
      accumCount := accumCount + 1;
      if accumCount == 3 {
        NumericGroup(ds, start, done);
        bitLength := AppendBits(accumData, 10, buf, bitLength, cap, done);
        done := done + NatBits(accumData, 10);
        accumData, accumCount, start := 0, 0, k + 1;
      }
    }
    NumericTail(ds, start);
    if accumCount > 0 {
      bitLength := AppendBits(accumData, accumCount * 3 + 1, buf, bitLength, cap, done);
      done := done + NatBits(accumData, accumCount * 3 + 1);
    }
    seg := Segment(Numeric, |digits|, buf, bitLength);
    HoldsMeansStream(buf[..], cap, done);
  }

  method MakeAlphanumeric(text: string, buf: array<Byte>) returns (seg: Segment)
    requires IsAlphanumeric(text) && CalcSegmentBitLength(Alphanumeric, |text|) != LENGTH_OVERFLOW
    requires (CalcSegmentBitLength(Alphanumeric, |text|) + 7) / 8 <= buf.Length
    modifies buf
    ensures InBounds(seg) && seg.data == buf
    ensures PieceOf(seg) == Piece(Alphanumeric, |text|, AlphanumericBits(CharValues(text)))
  {
    hide CalcSegmentBitLength, PayloadLen, Stream, Pending, Shr, NatBits, Holds, AlphanumericBits, AlphanumericRest,
      CharValue, IsAlphanumericChar;
    ghost var ds := CharValues(text);
    CapSuffices(Alphanumeric, |text|);
    assert PayloadLen(Alphanumeric, |text|, []).value == |AlphanumericBits(ds)| by { AlphanumericLen(ds); }
    var cap := (CalcSegmentBitLength(Alphanumeric, |text|) + 7) / 8;
    ClearBytes(buf, cap);
    var bitLength := 0;
    var accumData, accumCount := 0, 0;
    ghost var done: seq<bool> := [];
    ghost var start := 0;
    RestStart(ds, 45);
    for k := 0 to |text|
      invariant start == k - accumCount && 0 <= accumCount <= 1 && start >= 0
      invariant accumData == Pending(ds, start, k, 45)
      invariant done + AlphanumericRest(ds, start) == AlphanumericBits(ds)
      invariant |done| == bitLength && Holds(buf[..], cap, done)
    {
      PendingStep(ds, start, k, 45);
      accumData := accumData * 45 + CharValue(text[k]);
      accumCount := accumCount + 1;
      if accumCount == 2 {
        AlphanumericGroup(ds, start, done);
        bitLength := AppendBits(accumData, 11, buf, bitLength, cap, done);
        done := done + NatBits(accumData, 11);
        accumData, accumCount, start := 0, 0, k + 1;
      }
    }
    AlphanumericTail(ds, start);
    if accumCount > 0 {
      bitLength := AppendBits(accumData, 6, buf, bitLength, cap, done);
      done := done + NatBits(accumData, 6);
    }
    seg := Segment(Alphanumeric, |text|, buf, bitLength);
    HoldsMeansStream(buf[..], cap, done);
  }

  method MakeBytes(data: array<Byte>, len: nat, buf: array<Byte>) returns (seg: Segment)
    requires len <= data.Length && len <= buf.Length && CalcSegmentBitLength(ByteMode, len) != LENGTH_OVERFLOW
    modifies buf
    ensures InBounds(seg) && seg.data == buf
    ensures PieceOf(seg) == Piece(ByteMode, len, Stream(old(data[..len])))
  {
    forall k | 0 <= k < len { buf[k] := data[k]; }
    seg := Segment(ByteMode, len, buf, 8 * len);
    assert buf[..len] == old(data[..len]);
    StreamPrefix(buf[..], len);
  }

  lemma StreamPrefix(buf: seq<Byte>, len: nat)
    requires len <= |buf|
    ensures Stream(buf)[..8 * len] == Stream(buf[..len])
  {
    forall k: nat | k < 8 * len ensures StreamBit(buf, k) == StreamBit(buf[..len], k) {}
  }

  // ---------- Extended Channel Interpretation designators ----------

  // Section 7.4.2.2 of ISO/IEC 18004:2015: one, two or three codewords by the size of the assignment value.
  function EciBits(assignVal: nat): seq<bool> {
    if assignVal < 0x80 then NatBits(assignVal, 8)
    else if assignVal < 0x4000 then NatBits(2, 2) + NatBits(assignVal, 14)
    else NatBits(6, 3) + NatBits(assignVal / 0x400, 11) + NatBits(assignVal % 0x400, 10)
  }

  method MakeEci(assignVal: nat, buf: array<Byte>) returns (seg: Segment)
    requires assignVal < 1000000 && buf.Length >= 3
    modifies buf
    ensures InBounds(seg) && seg.data == buf
    ensures PieceOf(seg) == Piece(Eci, 0, EciBits(assignVal))
  {
    hide Shr, NatBits, Holds, TwoTo;
    var bitLength := 0;
    ghost var done: seq<bool> := [];
    ghost var cap;
    EciFits(assignVal);
    if assignVal < 0x80 {
      ClearBytes(buf, 1);
      cap := 1;
      bitLength := AppendBits(assignVal, 8, buf, bitLength, 1, []);
      assert [] + NatBits(assignVal, 8) == NatBits(assignVal, 8);
    } else if assignVal < 0x4000 {
      ClearBytes(buf, 2);
      cap := 2;
      bitLength := AppendBits(2, 2, buf, bitLength, 2, []);
      bitLength := AppendBits(assignVal, 14, buf, bitLength, 2, [] + NatBits(2, 2));
      assert [] + NatBits(2, 2) + NatBits(assignVal, 14) == EciBits(assignVal);
    } else {
      ClearBytes(buf, 3);
      cap := 3;
      bitLength := AppendBits(6, 3, buf, bitLength, 3, []);
      bitLength := AppendBits(assignVal / 0x400, 11, buf, bitLength, 3, [] + NatBits(6, 3));
      bitLength := AppendBits(assignVal % 0x400, 10, buf, bitLength, 3,
        [] + NatBits(6, 3) + NatBits(assignVal / 0x400, 11));
      assert [] + NatBits(6, 3) + NatBits(assignVal / 0x400, 11) + NatBits(assignVal % 0x400, 10) == EciBits(assignVal);
    }
    seg := Segment(Eci, 0, buf, bitLength);
    HoldsMeansStream(buf[..], cap, EciBits(assignVal));
  }

  lemma EciFits(assignVal: nat)
    requires assignVal < 1000000
    ensures assignVal < 0x80 ==> Shr(assignVal, 8) == 0
    ensures assignVal < 0x4000 ==> Shr(assignVal, 14) == 0
    ensures Shr(assignVal / 0x400, 11) == 0 && Shr(assignVal % 0x400, 10) == 0 && Shr(2, 2) == 0 && Shr(6, 3) == 0
  {
    hide Shr;
    TwoToTable();
    assert TwoTo(14) == 8 * TwoTo(11) && TwoTo(8) == 2 * TwoTo(7) && TwoTo(2) == 4 && TwoTo(3) == 8;
    ShrZero(assignVal, 8);
    ShrZero(assignVal, 14);
    ShrZero(assignVal / 0x400, 11);
    ShrZero(assignVal % 0x400, 10);
    ShrZero(2, 2);
    ShrZero(6, 3);
  }

  // The designator announces its own length, so the segment is well formed.
  lemma EciWellFormed(assignVal: nat)
    requires assignVal < 1000000
    ensures WellFormed(Piece(Eci, 0, EciBits(assignVal)))
  {
    if assignVal < 0x80 {
      TopBitClear(assignVal, 8);
    }
    LeadingOnes();
  }

  // The assignment value a designator stands for.
  function EciValue(bits: seq<bool>): Option<nat> {
    if |bits| == 8 then Some(BitsNat(bits))
    else if |bits| == 16 then Some(BitsNat(bits[2..]))
    else if |bits| == 24 then Some(BitsNat(bits[3..14]) * 0x400 + BitsNat(bits[14..]))
    else None
  }

  lemma EciRoundTrip(assignVal: nat)
    requires assignVal < 1000000
    ensures EciValue(EciBits(assignVal)) == Some(assignVal)
  {
    hide NatBits, BitsNat, Shr;
    EciFits(assignVal);
    if assignVal < 0x80 {
      NatBitsRoundTrip(assignVal, 8);
    } else if assignVal < 0x4000 {
      NatBitsRoundTrip(assignVal, 14);
      assert EciBits(assignVal)[2..] == NatBits(assignVal, 14);
    } else {
      NatBitsRoundTrip(assignVal / 0x400, 11);
      NatBitsRoundTrip(assignVal % 0x400, 10);
      assert EciBits(assignVal)[3..14] == NatBits(assignVal / 0x400, 11);
      assert EciBits(assignVal)[14..] == NatBits(assignVal % 0x400, 10);
    }
  }

  lemma LeadingOnes()
    ensures NatBits(2, 2) == [true, false] && NatBits(6, 3) == [true, true, false]
  {
    assert NatBits(1, 1) == [true];
    assert NatBits(3, 2) == [true, true];
  }

  lemma {:induction false} TopBitClear(v: nat, n: nat)
    requires n >= 1 && v < TwoTo(n - 1)
    ensures !NatBits(v, n)[0]
  {
    if n > 1 { TopBitClear(v / 2, n - 1); }
  }

  // ---------- reading text back from a parsed segment ----------

  function DigitText(ds: seq<nat>): (text: string)
    requires Below(ds, 10)
    ensures |text| == |ds|
  {
    seq(|ds|, i requires 0 <= i < |ds| => DigitChar(ds[i]))
  }

  function CharsetText(ds: seq<nat>): (text: string)
    requires Below(ds, 45)
    ensures |text| == |ds|
  {
    seq(|ds|, i requires 0 <= i < |ds| => ALPHANUMERIC_CHARSET[ds[i]])
  }

  function ByteText(buf: seq<Byte>): (text: string)
    ensures |text| == |buf|
  {
    seq(|buf|, i requires 0 <= i < |buf| => buf[i] as int as char)
  }

  function TextBytes(text: string): (buf: seq<Byte>)
    requires forall i | 0 <= i < |text| :: text[i] as int < 256
    ensures |buf| == |text|
  {
    seq(|text|, i requires 0 <= i < |text| => text[i] as int as Byte)
  }

  function PieceText(p: Piece): Option<string> {
    match p.mode
    case Numeric =>
      (match UnpackNumeric(p.bits, p.numChars)
       case None => None
       case Some(ds) => if Below(ds, 10) then Some(DigitText(ds)) else None)
    case Alphanumeric =>
      (match UnpackAlphanumeric(p.bits, p.numChars)
       case None => None
       case Some(ds) => if Below(ds, 45) then Some(CharsetText(ds)) else None)
    case ByteMode => Some(ByteText(Bytes(p.bits)))
    case _ => None
  }

  lemma NumericTextRoundTrip(text: string)
    requires IsNumeric(text)
    ensures PieceText(Piece(Numeric, |text|, NumericBits(DigitValues(text)))) == Some(text)
  {
    var ds := DigitValues(text);
    NumericRoundTrip(ds);
    assert DigitText(ds) == text;
  }

  lemma AlphanumericTextRoundTrip(text: string)
    requires IsAlphanumeric(text)
    ensures PieceText(Piece(Alphanumeric, |text|, AlphanumericBits(CharValues(text)))) == Some(text)
  {
    hide CharValue, IsAlphanumericChar;
    var ds := CharValues(text);
    AlphanumericRoundTrip(ds);
    assert CharsetText(ds) == text;
  }

  lemma ByteTextRoundTrip(text: string)
    requires forall i | 0 <= i < |text| :: text[i] as int < 256
    ensures PieceText(Piece(ByteMode, |text|, Stream(TextBytes(text)))) == Some(text)
  {
    hide Stream, Bytes;
    BytesOfStream(TextBytes(text));
    forall i | 0 <= i < |text| ensures ByteText(TextBytes(text))[i] == text[i] {
      ByteChar(text[i]);
    }
    assert ByteText(TextBytes(text)) == text;
  }

  lemma ByteChar(c: char)
    requires c as int < 256
    ensures (c as int as Byte) as int as char == c
  {
    if c as int < 128 {} else {}
  }
}
