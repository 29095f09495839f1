/** The high-level entry points: text and binary data to a symbol and back. */
module TextEncoder {
  import opened Wrappers
  import opened Bits
  import opened Versions
  import opened Segments
  import opened TextSegments
  import opened StreamLayout
  import opened DataStream
  import opened Modules
  import opened FunctionModules
  import opened FormatBits
  import opened Symbol
  import opened Encoder

  // NUL-terminated text: every character is a non-zero byte.
  predicate IsText(text: string) {
    forall i | 0 <= i < |text| :: 0 < text[i] as int < 256
  }

  // The one segment a text becomes: the densest of numeric, alphanumeric and byte mode.
  function TextPiece(text: string): Piece
    requires IsText(text)
  {
    if IsNumeric(text) then Piece(Numeric, |text|, NumericBits(DigitValues(text)))
    else if IsAlphanumeric(text) then Piece(Alphanumeric, |text|, AlphanumericBits(CharValues(text)))
    else Piece(ByteMode, |text|, Stream(TextBytes(text)))
  }

  function TextPieces(text: string): seq<Piece>
    requires IsText(text)
  {
    if text == "" then [] else [TextPiece(text)]
  }

  // The text of a list of segments.
  function PiecesText(ps: seq<Piece>): Option<string> {
    if ps == [] then Some("")
    else match PieceText(ps[0])
      case None => None
      case Some(t) =>
        match PiecesText(ps[1..])
        case None => None
        case Some(rest) => Some(t + rest)
  }

  // Digits alone make a numeric segment; digits, capital letters and nine signs an alphanumeric one; anything else
  // bytes.
  lemma ModeOfText(text: string)
    requires IsText(text)
    ensures TextPiece(text).mode == Numeric <==> forall i | 0 <= i < |text| :: '0' <= text[i] <= '9'
    ensures TextPiece(text).mode != ByteMode <==>
      forall i | 0 <= i < |text| :: '0' <= text[i] <= '9' || 'A' <= text[i] <= 'Z' || text[i] in " $%*+-./:"
  {
    hide NumericBits, AlphanumericBits, IsAlphanumericChar, Stream;
    forall c: char
      ensures IsDigit(c) <==> '0' <= c <= '9'
      ensures IsAlphanumericChar(c) <==> '0' <= c <= '9' || 'A' <= c <= 'Z' || c in " $%*+-./:"
    {
      CharacterValues(c);
      if c in " $%*+-./:" {
        var i :| 0 <= i < 9 && " $%*+-./:"[i] == c;
        SignValues(i);
      }
    }
  }

  lemma TextPieceLength(text: string)
    requires IsText(text)
    ensures var p := TextPiece(text);
      p.mode != Eci && PayloadLen(p.mode, p.numChars, []) == Some(|p.bits|) && p.numChars == |text|
    ensures WellFormed(TextPiece(text))
  {
    hide NumericBits, AlphanumericBits, DigitValue, CharValue, IsAlphanumericChar, IsDigit;
    if IsNumeric(text) {
      NumericLen(DigitValues(text));
    } else if IsAlphanumeric(text) {
      AlphanumericLen(CharValues(text));
    }
  }

  // The segment chosen for a text says that text.
  lemma TextReadsBack(text: string)
    requires IsText(text)
    ensures PiecesText(TextPieces(text)) == Some(text)
    ensures forall i | 0 <= i < |TextPieces(text)| :: WellFormed(TextPieces(text)[i])
  {
    hide PieceText, NumericBits, AlphanumericBits, IsNumeric, IsAlphanumeric;
    if text != "" {
      TextPieceLength(text);
      if IsNumeric(text) {
        NumericTextRoundTrip(text);
      } else if IsAlphanumeric(text) {
        AlphanumericTextRoundTrip(text);
      } else {
        ByteTextRoundTrip(text);
      }
      assert TextPieces(text)[1..] == [];
      assert text + "" == text;
    }
  }

  // ---------- buffer sizes ----------

  const SIZE_MAX := 0xFFFF_FFFF

  function CalcSegmentBufferSize(mode: Mode, numChars: nat): nat
    requires mode == Eci ==> numChars == 0
  {
    var temp := CalcSegmentBitLength(mode, numChars);
    if temp == LENGTH_OVERFLOW then SIZE_MAX else (temp + 7) / 8
  }

  // A payload longer than the buffer, or than 32767 bits, fits no version up to the largest.
  lemma TooLong(p: Piece, maxVersion: Version, e: Level)
    requires |p.bits| > 8 * BufferLen(Side(maxVersion)) || |p.bits| > INT16_MAX
    ensures forall u: Version | u <= maxVersion :: !Fits([p], u, e)
  {
    hide BufferLen, NumDataCodewords;
    forall u: Version | u <= maxVersion ensures !Fits([p], u, e) {
      CodewordsFitBuffer(u, e);
      BufferSuffices(u, maxVersion);
      CapacityRange(u, e);
      assert [p][..0] == [];
      assert AllBits([p], u) == [] + PieceBits(p, u);
    }
  }

  lemma NoneFits(ps: seq<Piece>, e: Level, minVersion: Version, maxVersion: Version)
    requires forall u: Version | u <= maxVersion :: !Fits(ps, u, e)
    ensures !SomeFits(ps, e, minVersion, maxVersion)
  {
    hide Fits;
  }

  lemma BufferBound(v: Version)
    ensures 1 <= BufferLen(Side(v)) <= 3918
  {
    BufferSuffices(v, 40);
    assert Side(40) == 177;
  }

  // Modes other than byte never take more bytes than characters plus one, and a payload that misses the buffer is too
  // long.
  lemma NoRoom(p: Piece, maxVersion: Version, e: Level)
    requires p.mode != Eci && PayloadLen(p.mode, p.numChars, []) == Some(|p.bits|)
    requires CalcSegmentBufferSize(p.mode, p.numChars) > BufferLen(Side(maxVersion))
    ensures forall u: Version | u <= maxVersion :: !Fits([p], u, e)
  {
    hide BufferLen;
    CalcIsPayloadLen(p.mode, p.numChars);
    TooLong(p, maxVersion, e);
  }

  // ---------- text ----------

  method EncodeText(text: string, tempBuffer: array<Byte>, qrcode: array<Byte>, ecl: Level, minVersion: Version,
                    maxVersion: Version, mask: int, boostEcl: bool)
    returns (ok: bool, ghost v: Version, ghost e: Level, ghost m: Mask)
    requires IsText(text) && minVersion <= maxVersion && -1 <= mask <= 7 && tempBuffer != qrcode
    requires BufferLen(Side(maxVersion)) <= tempBuffer.Length && BufferLen(Side(maxVersion)) <= qrcode.Length
    modifies tempBuffer, qrcode
    ensures ok <==> SomeFits(TextPieces(text), ecl, minVersion, maxVersion)
    ensures !ok ==> qrcode.Length > 0 && qrcode[0] == 0
    ensures ok ==> Sized(qrcode[..], Side(v))
    ensures ok ==> Encoded(GridOf(qrcode[..], Side(v)), TextPieces(text), ecl, minVersion, maxVersion, mask, boostEcl,
      v, e, m)
  {
    hide *;
    BufferBound(maxVersion);
    var textLen := |text|;
    TextPiecesOf(text);
    if textLen == 0 {
      PiecesOfNothing();
      ok, v, e, m := EncodeSegmentsAdvanced([], ecl, minVersion, maxVersion, mask, boostEcl, tempBuffer, qrcode);
      return;
    }
    ghost var p := TextPiece(text);
    TextPieceLength(text);
    var fits, seg := MakeText(text, tempBuffer, ecl, maxVersion);
    if !fits {
      NoneFits([p], ecl, minVersion, maxVersion);
      qrcode[0] := 0;
      ok, v, e, m := false, minVersion, ecl, 0;
      return;
    }
    OneSegment(seg, p);
    ok, v, e, m := EncodeSegmentsAdvanced([seg], ecl, minVersion, maxVersion, mask, boostEcl, tempBuffer, qrcode);
  }

  lemma TextPiecesOf(text: string)
    requires IsText(text)
    ensures TextPieces(text) == if |text| == 0 then [] else [TextPiece(text)]
  {}

  lemma PiecesOfNothing()
    ensures AllInBounds([]) && Pieces([]) == []
  {}

  lemma OneSegment(seg: Segment, p: Piece)
    requires InBounds(seg) && PieceOf(seg) == p
    ensures AllInBounds([seg]) && Pieces([seg]) == [p]
  {}

  // Makes the segment in tempBuffer, unless it cannot fit any allowed version.
  method MakeText(text: string, tempBuffer: array<Byte>, ghost ecl: Level, maxVersion: Version)
    returns (fits: bool, seg: Segment)
    requires IsText(text) && text != "" && BufferLen(Side(maxVersion)) <= tempBuffer.Length
    modifies tempBuffer
    ensures fits ==> InBounds(seg) && seg.data == tempBuffer && PieceOf(seg) == TextPiece(text)
    ensures !fits ==> forall u: Version | u <= maxVersion :: !Fits([TextPiece(text)], u, ecl)
  {
    hide *;
    BufferBound(maxVersion);
    TextPieceLength(text);
    var textLen, bufLen := |text|, BufferLen(Side(maxVersion));
    seg := Segment(ByteMode, 0, tempBuffer, 0);
    TextPieceIs(text);
    if IsNumeric(text) {
      BufferSizeMeans(Numeric, textLen);
      if CalcSegmentBufferSize(Numeric, textLen) > bufLen {
        NoRoom(TextPiece(text), maxVersion, ecl);
        fits := false;
        return;
      }
      seg := MakeNumeric(text, tempBuffer);
    } else if IsAlphanumeric(text) {
      BufferSizeMeans(Alphanumeric, textLen);
      if CalcSegmentBufferSize(Alphanumeric, textLen) > bufLen {
        NoRoom(TextPiece(text), maxVersion, ecl);
        fits := false;
        return;
      }
      seg := MakeAlphanumeric(text, tempBuffer);
    } else {
      ByteLength(textLen);
      if textLen > bufLen {
        TooLong(TextPiece(text), maxVersion, ecl);
        fits := false;
        return;
      }
      CopyText(text, tempBuffer);
      var bitLength := CalcSegmentBitLength(ByteMode, textLen);
      if bitLength == LENGTH_OVERFLOW {
        assert false;  // the largest buffer, 3918 bytes, holds 31344 bits
      }
      seg := Segment(ByteMode, textLen, tempBuffer, bitLength);
      BytesPiece(seg, TextBytes(text));
    }
    fits := true;
  }

  lemma TextPieceIs(text: string)
    requires IsText(text)
    ensures IsNumeric(text) ==> TextPiece(text) == Piece(Numeric, |text|, NumericBits(DigitValues(text)))
    ensures !IsNumeric(text) && IsAlphanumeric(text) ==>
      TextPiece(text) == Piece(Alphanumeric, |text|, AlphanumericBits(CharValues(text)))
    ensures !IsNumeric(text) && !IsAlphanumeric(text) ==>
      (forall i | 0 <= i < |text| :: text[i] as int < 256)
        && TextPiece(text) == Piece(ByteMode, |text|, Stream(TextBytes(text)))
  {}

  lemma BufferSizeMeans(mode: Mode, n: nat)
    requires mode != Eci
    ensures CalcSegmentBufferSize(mode, n) <= 3918 ==>
      CalcSegmentBitLength(mode, n) != LENGTH_OVERFLOW
        && CalcSegmentBufferSize(mode, n) == (CalcSegmentBitLength(mode, n) + 7) / 8
  {}

  lemma ByteLength(n: nat)
    ensures var r := CalcSegmentBitLength(ByteMode, n);
      r == (if 8 * n <= INT16_MAX then 8 * n else LENGTH_OVERFLOW) && INT16_MAX == 32767 && LENGTH_OVERFLOW == -1
  {}

  lemma BytesPiece(seg: Segment, bytes: seq<Byte>)
    requires seg.mode == ByteMode && |bytes| == seg.numChars && seg.bitLength == 8 * |bytes| <= INT16_MAX
    requires |bytes| <= seg.data.Length && seg.data[..|bytes|] == bytes
    ensures InBounds(seg) && PieceOf(seg) == Piece(ByteMode, |bytes|, Stream(bytes))
  {
    StreamPrefix(seg.data[..], |bytes|);
    assert seg.data[..][..|bytes|] == bytes;
  }

  method CopyText(text: string, buffer: array<Byte>)
    requires IsText(text) && |text| <= buffer.Length
    modifies buffer
    ensures forall i | 0 <= i < |text| :: text[i] as int < 256
    ensures buffer[..|text|] == TextBytes(text)
  {
    for i := 0 to |text|
      invariant forall k | 0 <= k < i :: buffer[k] == text[k] as int as Byte
    {
      buffer[i] := text[i] as int as Byte;
    }
  }

  // The whole journey: a text that fits is encoded, and reading the symbol gives exactly that text.
  lemma TextRoundTrip(text: string, g: Grid, requested: Level, minVersion: Version, maxVersion: Version, mask: int,
                      boost: bool, v: Version, e: Level, m: Mask)
    requires IsText(text)
    requires Encoded(g, TextPieces(text), requested, minVersion, maxVersion, mask, boost, v, e, m)
    ensures Square(g, |g|) && Decode(g).Some? && PiecesText(Decode(g).value) == Some(text)
  {
    hide *;
    TextReadsBack(text);
    DecodeEncoded(g, TextPieces(text), requested, minVersion, maxVersion, mask, boost, v, e, m);
  }

  // ---------- binary data ----------

  method EncodeBinary(dataAndTemp: array<Byte>, dataLen: nat, qrcode: array<Byte>, ecl: Level, minVersion: Version,
                      maxVersion: Version, mask: int, boostEcl: bool)
    returns (ok: bool, ghost v: Version, ghost e: Level, ghost m: Mask)
    requires dataLen <= dataAndTemp.Length && minVersion <= maxVersion && -1 <= mask <= 7 && dataAndTemp != qrcode
    requires BufferLen(Side(maxVersion)) <= dataAndTemp.Length && BufferLen(Side(maxVersion)) <= qrcode.Length
    modifies dataAndTemp, qrcode
    ensures ok <==> SomeFits([BinaryPiece(old(dataAndTemp[..dataLen]))], ecl, minVersion, maxVersion)
    ensures !ok ==> qrcode.Length > 0 && qrcode[0] == 0
    ensures ok ==> Sized(qrcode[..], Side(v))
    ensures ok ==> Encoded(GridOf(qrcode[..], Side(v)), [BinaryPiece(old(dataAndTemp[..dataLen]))],
                           ecl, minVersion, maxVersion, mask, boostEcl, v, e, m)
  {
    hide *;
    BufferBound(maxVersion);
    ghost var data := dataAndTemp[..dataLen];
    BinaryPieceIs(data);
    ByteLength(dataLen);
    var bitLength := CalcSegmentBitLength(ByteMode, dataLen);
    if bitLength == LENGTH_OVERFLOW {
      TooLong(BinaryPiece(data), maxVersion, ecl);
      NoneFits([BinaryPiece(data)], ecl, minVersion, maxVersion);
      qrcode[0] := 0;
      ok, v, e, m := false, minVersion, ecl, 0;
      return;
    }
    var seg := Segment(ByteMode, dataLen, dataAndTemp, bitLength);
    BytesPiece(seg, data);
    OneSegment(seg, BinaryPiece(data));
    ok, v, e, m := EncodeSegmentsAdvanced([seg], ecl, minVersion, maxVersion, mask, boostEcl, dataAndTemp, qrcode);
  }

  function BinaryPiece(data: seq<Byte>): Piece {
    Piece(ByteMode, |data|, Stream(data))
  }

  lemma BinaryPieceIs(data: seq<Byte>)
    ensures BinaryPiece(data) == Piece(ByteMode, |data|, Stream(data)) && |BinaryPiece(data).bits| == 8 * |data|
  {}

  // Any byte string that fits is read back exactly.
  lemma BinaryRoundTrip(data: seq<Byte>, g: Grid, requested: Level, minVersion: Version, maxVersion: Version, mask: int,
                        boost: bool, v: Version, e: Level, m: Mask)
    requires Encoded(g, [BinaryPiece(data)], requested, minVersion, maxVersion, mask, boost, v, e, m)
    ensures Square(g, |g|) && Decode(g) == Some([BinaryPiece(data)])
    ensures Bytes(BinaryPiece(data).bits) == data
  {
    hide Encoded, Decode, Stream;
    BytesOfStream(data);
    DecodeEncoded(g, [BinaryPiece(data)], requested, minVersion, maxVersion, mask, boost, v, e, m);
  }
}
