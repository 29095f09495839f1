/**
 * Tables of ISO/IEC 18004:2015 that the source computes or combines from others: alignment patterns (annex E),
   data codewords
 * (table 7) and format words (annex C).
 */
module StandardTables {
  import opened Versions
  import opened FunctionModules
  import opened FormatBits

  // ---------- rows and columns of alignment patterns ----------

  function AnnexE(v: Version): seq<int> {
    match v
    case 1 => [] case 2 => [6, 18] case 3 => [6, 22] case 4 => [6, 26] case 5 => [6, 30] case 6 => [6, 34]
    case 7 => [6, 22, 38] case 8 => [6, 24, 42] case 9 => [6, 26, 46] case 10 => [6, 28, 50] case 11 => [6, 30, 54]
    case 12 => [6, 32, 58] case 13 => [6, 34, 62] case 14 => [6, 26, 46, 66] case 15 => [6, 26, 48, 70]
    case 16 => [6, 26, 50, 74] case 17 => [6, 30, 54, 78] case 18 => [6, 30, 56, 82] case 19 => [6, 30, 58, 86]
    case 20 => [6, 34, 62, 90] case 21 => [6, 28, 50, 72, 94] case 22 => [6, 26, 50, 74, 98]
    case 23 => [6, 30, 54, 78, 102] case 24 => [6, 28, 54, 80, 106] case 25 => [6, 32, 58, 84, 110]
    case 26 => [6, 30, 58, 86, 114] case 27 => [6, 34, 62, 90, 118] case 28 => [6, 26, 50, 74, 98, 122]
    case 29 => [6, 30, 54, 78, 102, 126] case 30 => [6, 26, 52, 78, 104, 130] case 31 => [6, 30, 56, 82, 108, 134]
    case 32 => [6, 34, 60, 86, 112, 138] case 33 => [6, 30, 58, 86, 114, 142] case 34 => [6, 34, 62, 90, 118, 146]
    case 35 => [6, 30, 54, 78, 102, 126, 150] case 36 => [6, 24, 50, 76, 102, 128, 154]
    case 37 => [6, 28, 54, 80, 106, 132, 158] case 38 => [6, 32, 58, 84, 110, 136, 162]
    case 39 => [6, 26, 54, 82, 110, 138, 166] case _ => [6, 30, 58, 86, 114, 142, 170]
  }

  lemma {:induction false} EqualSteps(v: Version, i: nat)
    requires 0 < i < NumAlign(v)
    ensures AlignPos(v, i) == v * 4 + 10 - (NumAlign(v) - 1 - i) * AlignStep(v)
    decreases NumAlign(v) - i
  {
    hide AlignStep;
    if i < NumAlign(v) - 1 { EqualSteps(v, i + 1); }
  }

  // Position i, counted down from the last.
  predicate Stepped(ps: seq<int>, n: nat, last: int, step: int, i: nat)
    requires i < n
  {
    |ps| == n && ps[i] == if i == 0 then 6 else last - (n - 1 - i) * step
  }

  lemma AnnexFrom2(v: Version, i: nat)
    requires 2 <= v <= 6 && i < NumAlign(v)
    ensures Stepped(AnnexE(v), NumAlign(v), v * 4 + 10, AlignStep(v), i)
  {
    if v == 2 {} else if v == 3 {} else if v == 4 {} else if v == 5 {} else {}
  }

  lemma AnnexFrom7(v: Version, i: nat)
    requires 7 <= v <= 13 && i < NumAlign(v)
    ensures Stepped(AnnexE(v), NumAlign(v), v * 4 + 10, AlignStep(v), i)
  {
    if v == 7 {} else if v == 8 {} else if v == 9 {} else if v == 10 {} else if v == 11 {} else if v == 12 {} else {}
  }

  lemma AnnexFrom14(v: Version, i: nat)
    requires 14 <= v <= 20 && i < NumAlign(v)
    ensures Stepped(AnnexE(v), NumAlign(v), v * 4 + 10, AlignStep(v), i)
  {
    if v == 14 {} else if v == 15 {} else if v == 16 {} else if v == 17 {} else if v == 18 {} else if v == 19 {}
    else {}
  }

  lemma AnnexFrom21(v: Version, i: nat)
    requires 21 <= v <= 24 && i < NumAlign(v)
    ensures Stepped(AnnexE(v), NumAlign(v), v * 4 + 10, AlignStep(v), i)
  {
    if v == 21 {} else if v == 22 {} else if v == 23 {} else {}
  }

  lemma AnnexFrom25(v: Version, i: nat)
    requires 25 <= v <= 27 && i < NumAlign(v)
    ensures Stepped(AnnexE(v), NumAlign(v), v * 4 + 10, AlignStep(v), i)
  {
    if v == 25 {} else if v == 26 {} else {}
  }

  lemma AnnexFrom28(v: Version, i: nat)
    requires 28 <= v <= 31 && i < NumAlign(v)
    ensures Stepped(AnnexE(v), NumAlign(v), v * 4 + 10, AlignStep(v), i)
  {
    if v == 28 {} else if v == 29 {} else if v == 30 {} else {}
  }

  lemma AnnexFrom32(v: Version, i: nat)
    requires 32 <= v <= 34 && i < NumAlign(v)
    ensures Stepped(AnnexE(v), NumAlign(v), v * 4 + 10, AlignStep(v), i)
  {
    if v == 32 {} else if v == 33 {} else {}
  }

  lemma AnnexFrom35(v: Version, i: nat)
    requires 35 <= v <= 37 && i < NumAlign(v)
    ensures Stepped(AnnexE(v), NumAlign(v), v * 4 + 10, AlignStep(v), i)
  {
    if v == 35 {} else if v == 36 {} else {}
  }

  lemma AnnexFrom38(v: Version, i: nat)
    requires 38 <= v <= 40 && i < NumAlign(v)
    ensures Stepped(AnnexE(v), NumAlign(v), v * 4 + 10, AlignStep(v), i)
  {
    if v == 38 {} else if v == 39 {} else {}
  }

  lemma AnnexIsStepped(v: Version, i: nat)
    requires v >= 2 && i < NumAlign(v)
    ensures Stepped(AnnexE(v), NumAlign(v), v * 4 + 10, AlignStep(v), i)
  {
    hide AnnexE, AlignStep, Stepped, NumAlign;
    if v <= 6 { AnnexFrom2(v, i); } else if v <= 13 { AnnexFrom7(v, i); } else if v <= 20 { AnnexFrom14(v, i); } else
    if v <= 24 { AnnexFrom21(v, i); } else if v <= 27 { AnnexFrom25(v, i); } else
    if v <= 31 { AnnexFrom28(v, i); } else if v <= 34 { AnnexFrom32(v, i); } else
    if v <= 37 { AnnexFrom35(v, i); } else { AnnexFrom38(v, i); }
  }

  // The positions of annex E.
  lemma AlignmentsAre(v: Version)
    ensures |AnnexE(v)| == NumAlign(v) && forall i: nat | i < NumAlign(v) :: AlignPos(v, i) == AnnexE(v)[i]
  {
    if v >= 2 {
      hide AnnexE, AlignStep;
      AnnexIsStepped(v, 0);
      forall i: nat | i < NumAlign(v) ensures AlignPos(v, i) == AnnexE(v)[i] {
        AnnexIsStepped(v, i);
        if i == 0 { AlignRange(v, 0); } else { EqualSteps(v, i); }
      }
    }
  }

  // ---------- data codewords ----------

  function LowCapacity(v: Version): int {
    match v
    case 1 => 19 case 2 => 34 case 3 => 55 case 4 => 80 case 5 => 108 case 6 => 136 case 7 => 156 case 8 => 194
    case 9 => 232 case 10 => 274 case 11 => 324 case 12 => 370 case 13 => 428 case 14 => 461 case 15 => 523
    case 16 => 589 case 17 => 647 case 18 => 721 case 19 => 795 case 20 => 861 case 21 => 932 case 22 => 1006
    case 23 => 1094 case 24 => 1174 case 25 => 1276 case 26 => 1370 case 27 => 1468 case 28 => 1531 case 29 => 1631
    case 30 => 1735 case 31 => 1843 case 32 => 1955 case 33 => 2071 case 34 => 2191 case 35 => 2306 case 36 => 2434
    case 37 => 2566 case 38 => 2702 case 39 => 2812 case _ => 2956
  }

  function MediumCapacity(v: Version): int {
    match v
    case 1 => 16 case 2 => 28 case 3 => 44 case 4 => 64 case 5 => 86 case 6 => 108 case 7 => 124 case 8 => 154
    case 9 => 182 case 10 => 216 case 11 => 254 case 12 => 290 case 13 => 334 case 14 => 365 case 15 => 415
    case 16 => 453 case 17 => 507 case 18 => 563 case 19 => 627 case 20 => 669 case 21 => 714 case 22 => 782
    case 23 => 860 case 24 => 914 case 25 => 1000 case 26 => 1062 case 27 => 1128 case 28 => 1193 case 29 => 1267
    case 30 => 1373 case 31 => 1455 case 32 => 1541 case 33 => 1631 case 34 => 1725 case 35 => 1812 case 36 => 1914
    case 37 => 1992 case 38 => 2102 case 39 => 2216 case _ => 2334
  }

  function QuartileCapacity(v: Version): int {
    match v
    case 1 => 13 case 2 => 22 case 3 => 34 case 4 => 48 case 5 => 62 case 6 => 76 case 7 => 88 case 8 => 110
    case 9 => 132 case 10 => 154 case 11 => 180 case 12 => 206 case 13 => 244 case 14 => 261 case 15 => 295
    case 16 => 325 case 17 => 367 case 18 => 397 case 19 => 445 case 20 => 485 case 21 => 512 case 22 => 568
    case 23 => 614 case 24 => 664 case 25 => 718 case 26 => 754 case 27 => 808 case 28 => 871 case 29 => 911
    case 30 => 985 case 31 => 1033 case 32 => 1115 case 33 => 1171 case 34 => 1231 case 35 => 1286 case 36 => 1354
    case 37 => 1426 case 38 => 1502 case 39 => 1582 case _ => 1666
  }

  function HighCapacity(v: Version): int {
    match v
    case 1 => 9 case 2 => 16 case 3 => 26 case 4 => 36 case 5 => 46 case 6 => 60 case 7 => 66 case 8 => 86
    case 9 => 100 case 10 => 122 case 11 => 140 case 12 => 158 case 13 => 180 case 14 => 197 case 15 => 223
    case 16 => 253 case 17 => 283 case 18 => 313 case 19 => 341 case 20 => 385 case 21 => 406 case 22 => 442
    case 23 => 464 case 24 => 514 case 25 => 538 case 26 => 596 case 27 => 628 case 28 => 661 case 29 => 701
    case 30 => 745 case 31 => 793 case 32 => 845 case 33 => 901 case 34 => 961 case 35 => 986 case 36 => 1054
    case 37 => 1096 case 38 => 1142 case 39 => 1222 case _ => 1276
  }

  lemma LowFrom1(v: Version)
    requires 1 <= v <= 13
    ensures NumDataCodewords(v, 0) == LowCapacity(v)
  {
    if v == 1 {} else if v == 2 {} else if v == 3 {} else if v == 4 {} else if v == 5 {} else if v == 6 {}
    else if v == 7 {} else if v == 8 {} else if v == 9 {} else if v == 10 {} else if v == 11 {} else if v == 12 {}
    else {}
  }

  lemma LowFrom14(v: Version)
    requires 14 <= v <= 27
    ensures NumDataCodewords(v, 0) == LowCapacity(v)
  {
    if v == 14 {} else if v == 15 {} else if v == 16 {} else if v == 17 {} else if v == 18 {} else if v == 19 {}
    else if v == 20 {} else if v == 21 {} else if v == 22 {} else if v == 23 {} else if v == 24 {} else if v == 25 {}
    else if v == 26 {} else {}
  }

  lemma LowFrom28(v: Version)
    requires 28 <= v <= 40
    ensures NumDataCodewords(v, 0) == LowCapacity(v)
  {
    if v == 28 {} else if v == 29 {} else if v == 30 {} else if v == 31 {} else if v == 32 {} else if v == 33 {}
    else if v == 34 {} else if v == 35 {} else if v == 36 {} else if v == 37 {} else if v == 38 {} else if v == 39 {}
    else {}
  }

  lemma MediumFrom1(v: Version)
    requires 1 <= v <= 13
    ensures NumDataCodewords(v, 1) == MediumCapacity(v)
  {
    if v == 1 {} else if v == 2 {} else if v == 3 {} else if v == 4 {} else if v == 5 {} else if v == 6 {}
    else if v == 7 {} else if v == 8 {} else if v == 9 {} else if v == 10 {} else if v == 11 {} else if v == 12 {}
    else {}
  }

  lemma MediumFrom14(v: Version)
    requires 14 <= v <= 27
    ensures NumDataCodewords(v, 1) == MediumCapacity(v)
  {
    if v == 14 {} else if v == 15 {} else if v == 16 {} else if v == 17 {} else if v == 18 {} else if v == 19 {}
    else if v == 20 {} else if v == 21 {} else if v == 22 {} else if v == 23 {} else if v == 24 {} else if v == 25 {}
    else if v == 26 {} else {}
  }

  lemma MediumFrom28(v: Version)
    requires 28 <= v <= 40
    ensures NumDataCodewords(v, 1) == MediumCapacity(v)
  {
    if v == 28 {} else if v == 29 {} else if v == 30 {} else if v == 31 {} else if v == 32 {} else if v == 33 {}
    else if v == 34 {} else if v == 35 {} else if v == 36 {} else if v == 37 {} else if v == 38 {} else if v == 39 {}
    else {}
  }

  lemma QuartileFrom1(v: Version)
    requires 1 <= v <= 13
    ensures NumDataCodewords(v, 2) == QuartileCapacity(v)
  {
    if v == 1 {} else if v == 2 {} else if v == 3 {} else if v == 4 {} else if v == 5 {} else if v == 6 {}
    else if v == 7 {} else if v == 8 {} else if v == 9 {} else if v == 10 {} else if v == 11 {} else if v == 12 {}
    else {}
  }

  lemma QuartileFrom14(v: Version)
    requires 14 <= v <= 27
    ensures NumDataCodewords(v, 2) == QuartileCapacity(v)
  {
    if v == 14 {} else if v == 15 {} else if v == 16 {} else if v == 17 {} else if v == 18 {} else if v == 19 {}
    else if v == 20 {} else if v == 21 {} else if v == 22 {} else if v == 23 {} else if v == 24 {} else if v == 25 {}
    else if v == 26 {} else {}
  }

  lemma QuartileFrom28(v: Version)
    requires 28 <= v <= 40
    ensures NumDataCodewords(v, 2) == QuartileCapacity(v)
  {
    if v == 28 {} else if v == 29 {} else if v == 30 {} else if v == 31 {} else if v == 32 {} else if v == 33 {}
    else if v == 34 {} else if v == 35 {} else if v == 36 {} else if v == 37 {} else if v == 38 {} else if v == 39 {}
    else {}
  }

  lemma HighFrom1(v: Version)
    requires 1 <= v <= 13
    ensures NumDataCodewords(v, 3) == HighCapacity(v)
  {
    if v == 1 {} else if v == 2 {} else if v == 3 {} else if v == 4 {} else if v == 5 {} else if v == 6 {}
    else if v == 7 {} else if v == 8 {} else if v == 9 {} else if v == 10 {} else if v == 11 {} else if v == 12 {}
    else {}
  }

  lemma HighFrom14(v: Version)
    requires 14 <= v <= 27
    ensures NumDataCodewords(v, 3) == HighCapacity(v)
  {
    if v == 14 {} else if v == 15 {} else if v == 16 {} else if v == 17 {} else if v == 18 {} else if v == 19 {}
    else if v == 20 {} else if v == 21 {} else if v == 22 {} else if v == 23 {} else if v == 24 {} else if v == 25 {}
    else if v == 26 {} else {}
  }

  lemma HighFrom28(v: Version)
    requires 28 <= v <= 40
    ensures NumDataCodewords(v, 3) == HighCapacity(v)
  {
    if v == 28 {} else if v == 29 {} else if v == 30 {} else if v == 31 {} else if v == 32 {} else if v == 33 {}
    else if v == 34 {} else if v == 35 {} else if v == 36 {} else if v == 37 {} else if v == 38 {} else if v == 39 {}
    else {}
  }

  // The numbers of table 7, for the four levels.
  lemma DataCodewordsAre(v: Version)
    ensures NumDataCodewords(v, 0) == LowCapacity(v) && NumDataCodewords(v, 1) == MediumCapacity(v)
    ensures NumDataCodewords(v, 2) == QuartileCapacity(v) && NumDataCodewords(v, 3) == HighCapacity(v)
  {
    hide *;
    if v <= 13 {
      LowFrom1(v);
      MediumFrom1(v);
      QuartileFrom1(v);
      HighFrom1(v);
    } else if v <= 27 {
      LowFrom14(v);
      MediumFrom14(v);
      QuartileFrom14(v);
      HighFrom14(v);
    } else {
      LowFrom28(v);
      MediumFrom28(v);
      QuartileFrom28(v);
      HighFrom28(v);
    }
  }

  // ---------- format words ----------

  function LowFormat(m: Mask): bv16 {
    match m
    case 0 => 0x77C4 case 1 => 0x72F3 case 2 => 0x7DAA case 3 => 0x789D case 4 => 0x662F case 5 => 0x6318
    case 6 => 0x6C41 case _ => 0x6976
  }

  function MediumFormat(m: Mask): bv16 {
    match m
    case 0 => 0x5412 case 1 => 0x5125 case 2 => 0x5E7C case 3 => 0x5B4B case 4 => 0x45F9 case 5 => 0x40CE
    case 6 => 0x4F97 case _ => 0x4AA0
  }

  function QuartileFormat(m: Mask): bv16 {
    match m
    case 0 => 0x355F case 1 => 0x3068 case 2 => 0x3F31 case 3 => 0x3A06 case 4 => 0x24B4 case 5 => 0x2183
    case 6 => 0x2EDA case _ => 0x2BED
  }

  function HighFormat(m: Mask): bv16 {
    match m
    case 0 => 0x1689 case 1 => 0x13BE case 2 => 0x1CE7 case 3 => 0x19D0 case 4 => 0x0762 case 5 => 0x0255
    case 6 => 0x0D0C case _ => 0x083B
  }

  // The words of annex C, for the four levels.
  lemma FormatWordsAre(m: Mask)
    ensures FormatWord(0, m) == LowFormat(m) && FormatWord(1, m) == MediumFormat(m)
    ensures FormatWord(2, m) == QuartileFormat(m) && FormatWord(3, m) == HighFormat(m)
  {
    hide FormatWord;
    LowWords(m);
    MediumWords(m);
    QuartileWords(m);
    HighWords(m);
  }

  lemma LowWords(m: Mask)
    ensures FormatWord(0, m) == LowFormat(m)
  {
    TenFormatRounds(FormatData(0, m));
    hide FormatRemainder;
    if m == 0 {} else if m == 1 {} else if m == 2 {} else if m == 3 {} else if m == 4 {} else if m == 5 {}
    else if m == 6 {} else {}
  }

  lemma MediumWords(m: Mask)
    ensures FormatWord(1, m) == MediumFormat(m)
  {
    TenFormatRounds(FormatData(1, m));
    hide FormatRemainder;
    if m == 0 {} else if m == 1 {} else if m == 2 {} else if m == 3 {} else if m == 4 {} else if m == 5 {}
    else if m == 6 {} else {}
  }

  lemma QuartileWords(m: Mask)
    ensures FormatWord(2, m) == QuartileFormat(m)
  {
    TenFormatRounds(FormatData(2, m));
    hide FormatRemainder;
    if m == 0 {} else if m == 1 {} else if m == 2 {} else if m == 3 {} else if m == 4 {} else if m == 5 {}
    else if m == 6 {} else {}
  }

  lemma HighWords(m: Mask)
    ensures FormatWord(3, m) == HighFormat(m)
  {
    TenFormatRounds(FormatData(3, m));
    hide FormatRemainder;
    if m == 0 {} else if m == 1 {} else if m == 2 {} else if m == 3 {} else if m == 4 {} else if m == 5 {}
    else if m == 6 {} else {}
  }

  function FiveFormatRounds(r: bv16): bv16 {
    FormatRound(FormatRound(FormatRound(FormatRound(FormatRound(r)))))
  }

  lemma FormatStep(d: bv16, k: nat)
    ensures FormatRemainder(d, k + 1) == FormatRound(FormatRemainder(d, k)) && FormatRemainder(d, 0) == d
  {}

  lemma FiveMore(d: bv16, k: nat)
    ensures FormatRemainder(d, k + 5) == FiveFormatRounds(FormatRemainder(d, k))
  {
    hide FormatRound, FormatRemainder;
    FormatStep(d, k);
    FormatStep(d, k + 1);
    FormatStep(d, k + 2);
    FormatStep(d, k + 3);
    FormatStep(d, k + 4);
  }

  lemma TenFormatRounds(d: bv16)
    ensures FormatRemainder(d, 10) == FiveFormatRounds(FiveFormatRounds(d))
  {
    hide FormatRound, FormatRemainder, FiveFormatRounds;
    FormatStep(d, 0);
    FiveMore(d, 0);
    FiveMore(d, 5);
  }
}
