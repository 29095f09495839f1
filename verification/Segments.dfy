/** Segments of text, their bit encodings and the data bit stream (section 7.4 of ISO/IEC 18004:2015). */
module Segments {
  import opened Arithmetic
  import opened Wrappers
  import opened Bits
  import opened Versions

  datatype Mode = Numeric | Alphanumeric | ByteMode | Kanji | Eci

  const INT16_MAX := 32767

  function ModeBits(mode: Mode): (n: nat)
    ensures 1 <= n < 16
  {
    match mode
    case Numeric => 1
    case Alphanumeric => 2
    case ByteMode => 4
    case Kanji => 8
    case Eci => 7
  }

  function ModeOf(n: nat): Option<Mode> {
    if n == 1 then Some(Numeric) else if n == 2 then Some(Alphanumeric) else if n == 4 then Some(ByteMode)
    else if n == 8 then Some(Kanji) else if n == 7 then Some(Eci) else None
  }

  // Width of the character count field.
  function NumCharCountBits(mode: Mode, v: Version): (n: nat)
    ensures n <= 16
  {
    var i := (v + 7) / 17;
    match mode
    case Numeric => [10, 12, 14][i]
    case Alphanumeric => [9, 11, 13][i]
    case ByteMode => [8, 16, 16][i]
    case Kanji => [8, 10, 12][i]
    case Eci => 0
  }

  // The segment as a value: `bits` is the payload the data buffer holds.
  datatype Piece = Piece(mode: Mode, numChars: nat, bits: seq<bool>)

  // Payload length implied by mode and character count. An ECI designator announces its length in its leading bits.
  function PayloadLen(mode: Mode, n: nat, bits: seq<bool>): Option<nat> {
    match mode
    case Numeric => Some((10 * n + 2) / 3)
    case Alphanumeric => Some((11 * n + 1) / 2)
    case ByteMode => Some(8 * n)
    case Kanji => Some(13 * n)
    case Eci =>
      if |bits| >= 1 && !bits[0] then Some(8)
      else if |bits| >= 2 && !bits[1] then Some(16)
      else if |bits| >= 3 && !bits[2] then Some(24)
      else None
  }

  // The character count agrees with the mode and the payload, as the segment structure demands.
  predicate WellFormed(p: Piece) {
    && PayloadLen(p.mode, p.numChars, p.bits) == Some(|p.bits|)
    && (p.mode == Eci ==> p.numChars == 0)
  }

  lemma {:induction false} ShrZero(v: nat, n: nat)
    ensures Shr(v, n) == 0 <==> v < TwoTo(n)
  {
    if n > 0 {
      ShrHalf(v, n - 1);
      ShrZero(v / 2, n - 1);
    }
  }

  // ---------- encoding a list of segments ----------

  function PieceBits(p: Piece, v: Version): seq<bool> {
    NatBits(ModeBits(p.mode), 4) + NatBits(p.numChars, NumCharCountBits(p.mode, v)) + p.bits
  }

  function AllBits(ps: seq<Piece>, v: Version): seq<bool> {
    if ps == [] then [] else AllBits(ps[..|ps| - 1], v) + PieceBits(ps[|ps| - 1], v)
  }

  // Every count fits its field.
  predicate CountsFit(ps: seq<Piece>, v: Version) {
    forall i | 0 <= i < |ps| :: ps[i].numChars < TwoTo(NumCharCountBits(ps[i].mode, v))
  }

  // Alternating pad bytes 0xEC, 0x11.
  function PadBits(n: nat): (s: seq<bool>)
    ensures |s| == 8 * n
  {
    if n == 0 then [] else PadBits(n - 1) + NatBits(if n % 2 == 1 then 0xEC else 0x11, 8)
  }

  function Falses(n: nat): (s: seq<bool>)
    ensures |s| == n
  {
    seq(n, _ => false)
  }

  // Terminator, alignment to a byte and pad bytes, up to the capacity.
  function Filler(used: nat, capacity: nat): (s: seq<bool>)
    requires used <= capacity && capacity % 8 == 0
    ensures |s| == capacity - used
  {
    var terminated := used + Min(4, capacity - used);
    var aligned := (terminated + 7) / 8 * 8;
    Falses(aligned - used) + PadBits((capacity - aligned) / 8)
  }

  // ---------- parsing ----------

  function Parse(bits: seq<bool>, v: Version): Option<seq<Piece>>
    decreases |bits|
  {
    if |bits| < 4 then Some([])
    else
      var indicator := BitsNat(bits[..4]);
      if indicator == 0 then Some([])
      else match ModeOf(indicator)
        case None => None
        case Some(mode) =>
          var cc := NumCharCountBits(mode, v);
          if |bits| < 4 + cc then None
          else
            var n := BitsNat(bits[4..4 + cc]);
            var rest := bits[4 + cc..];
            match PayloadLen(mode, n, rest)
            case None => None
            case Some(len) =>
              if |rest| < len then None
              else match Parse(rest[len..], v)
                case None => None
                case Some(more) => Some([Piece(mode, n, rest[..len])] + more)
  }

  lemma FourFalses()
    ensures BitsNat(Falses(4)) == 0
  {
    var s := Falses(4);
    assert s[..3] == Falses(3) && Falses(3)[..2] == Falses(2) && Falses(2)[..1] == Falses(1) && Falses(1)[..0] == [];
  }

  // The filler parses as the end of the data.
  lemma ParseFiller(used: nat, capacity: nat, v: Version)
    requires used <= capacity && capacity % 8 == 0
    ensures Parse(Filler(used, capacity), v) == Some([])
  {
    var s := Filler(used, capacity);
    if |s| >= 4 {
      assert s[..4] == Falses(4);
      FourFalses();
    }
  }

  lemma HeaderReadsBack(p: Piece, rest: seq<bool>, v: Version)
    requires p.numChars < TwoTo(NumCharCountBits(p.mode, v))
    ensures var cc, bits := NumCharCountBits(p.mode, v), PieceBits(p, v) + rest;
      && |bits| >= 4 + cc && BitsNat(bits[..4]) == ModeBits(p.mode) && BitsNat(bits[4..4 + cc]) == p.numChars
      && bits[4 + cc..] == p.bits + rest
  {
    hide NatBits, BitsNat, NumCharCountBits, ModeBits;
    var cc := NumCharCountBits(p.mode, v);
    NumberReadsBack(p.numChars, cc);
    NumberReadsBack(ModeBits(p.mode), 4);
    ThreeParts(NatBits(ModeBits(p.mode), 4), NatBits(p.numChars, cc), p.bits, rest);
  }

  lemma NumberReadsBack(k: nat, n: nat)
    requires k < TwoTo(n) || (n == 4 && k < 16)
    ensures BitsNat(NatBits(k, n)) == k
  {
    assert TwoTo(4) == 16;
    ShrZero(k, n);
    NatBitsRoundTrip(k, n);
  }

  lemma ThreeParts(a: seq<bool>, b: seq<bool>, c: seq<bool>, d: seq<bool>)
    ensures var s := a + b + c + d; s[..|a|] == a && s[|a|..|a| + |b|] == b && s[|a| + |b|..] == c + d
  {}

  // Parsing one encoded segment followed by anything.
  lemma ParsePiece(p: Piece, rest: seq<bool>, v: Version)
    requires WellFormed(p) && p.numChars < TwoTo(NumCharCountBits(p.mode, v))
    ensures Parse(PieceBits(p, v) + rest, v)
         == match Parse(rest, v) case None => None case Some(more) => Some([p] + more)
  {
    hide *;
    HeaderReadsBack(p, rest, v);
    PayloadReadsBack(p, rest);
    assert (p.bits + rest)[..|p.bits|] == p.bits;
    assert (p.bits + rest)[|p.bits|..] == rest;
    ParseUnfolds(PieceBits(p, v) + rest, v, p.mode, p.numChars, |p.bits|);
  }

  lemma PayloadReadsBack(p: Piece, rest: seq<bool>)
    requires WellFormed(p)
    ensures PayloadLen(p.mode, p.numChars, p.bits + rest) == Some(|p.bits|)
  {}

  // Parsing unfolded once behind a header that reads as mode and n.
  lemma ParseUnfolds(bits: seq<bool>, v: Version, mode: Mode, n: nat, len: nat)
    requires var cc := NumCharCountBits(mode, v);
      && |bits| >= 4 + cc && BitsNat(bits[..4]) == ModeBits(mode) && BitsNat(bits[4..4 + cc]) == n
      && PayloadLen(mode, n, bits[4 + cc..]) == Some(len) && |bits[4 + cc..]| >= len
    ensures var rest := bits[4 + NumCharCountBits(mode, v)..];
      Parse(bits, v) == match Parse(rest[len..], v)
                        case None => None
                        case Some(more) => Some([Piece(mode, n, rest[..len])] + more)
  {
    hide BitsNat, NumCharCountBits, PayloadLen;
    assert ModeOf(ModeBits(mode)) == Some(mode);
  }

  lemma {:induction false} ParseAll(ps: seq<Piece>, rest: seq<bool>, v: Version)
    requires forall i | 0 <= i < |ps| :: WellFormed(ps[i])
    requires CountsFit(ps, v)
    ensures Parse(AllBits(ps, v) + rest, v)
         == match Parse(rest, v) case None => None case Some(more) => Some(ps + more)
  {
    hide Parse, PieceBits;
    if ps == [] {
      assert AllBits(ps, v) + rest == rest;
      if Parse(rest, v).Some? { assert ps + Parse(rest, v).value == Parse(rest, v).value; }
    } else {
      var init, last := ps[..|ps| - 1], ps[|ps| - 1];
      assert AllBits(ps, v) + rest == AllBits(init, v) + (PieceBits(last, v) + rest);
      ParseAll(init, PieceBits(last, v) + rest, v);
      ParsePiece(last, rest, v);
      if Parse(rest, v).Some? { assert init + ([last] + Parse(rest, v).value) == ps + Parse(rest, v).value; }
    }
  }

  // The data bit stream of sections 7.4.9 and 7.4.10, exactly `capacity` bits long.
  function DataBits(ps: seq<Piece>, v: Version, capacity: nat): (s: seq<bool>)
    requires |AllBits(ps, v)| <= capacity && capacity % 8 == 0
    ensures |s| == capacity
  {
    AllBits(ps, v) + Filler(|AllBits(ps, v)|, capacity)
  }

  // Parsing the data bit stream returns the segments.
  lemma ParseDataBits(ps: seq<Piece>, v: Version, capacity: nat)
    requires |AllBits(ps, v)| <= capacity && capacity % 8 == 0
    requires forall i | 0 <= i < |ps| :: WellFormed(ps[i])
    requires CountsFit(ps, v)
    ensures Parse(DataBits(ps, v, capacity), v) == Some(ps)
  {
    hide Parse;
    ParseAll(ps, Filler(|AllBits(ps, v)|, capacity), v);
    ParseFiller(|AllBits(ps, v)|, capacity, v);
    assert ps + [] == ps;
  }
}
