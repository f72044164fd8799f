/**
 Coupon codes. A four-bit fresh value and a 32-bit serial number form a 36-bit
 payload; a weighted sum of the payload's nibbles, with weights from a key row
 the fresh value selects, is the check code; the payload is XOR-ed with a table
 entry the check code's low nibble selects; check code and obfuscated payload are
 packed into one long, the check code from bit 36 up, and written in the Base32
 alphabet. Parsing undoes every step and recomputes the check code.

 The source masks the check code to 32 bits although its constants, comments and
 field extraction all speak of 14; `Revision` selects that mask, so that both the
 code as written and the evidently intended code are modelled.
 */
module CodeUtil {
  import opened JavaLong
  import Base32
  import RegexConstants

  /** `XOR_TABLE`: sixteen 36-bit values that hide the payload. */
  const XorTable: seq<Long> := [
    61261925471, 61261925523, 58169127203, 64169927267,
    64169927199, 61261925629, 58169127227, 64169927363,
    59169127063, 64169927359, 58169127291, 61261925739,
    59169127133, 55139281911, 56169127077, 59169127167
  ]

  /** `PRIME_TABLE`: one row of ten weights per fresh value. */
  const PrimeTable: seq<seq<int>> := [
    [23, 59, 241, 61, 607, 67, 977, 1217, 1289, 1601],
    [79, 83, 107, 439, 313, 619, 911, 1049, 1237, 1368],
    [173, 211, 499, 673, 823, 941, 1039, 1213, 1429, 1259],
    [31, 293, 311, 349, 431, 577, 757, 883, 1009, 1657],
    [353, 23, 367, 499, 599, 661, 719, 929, 1301, 1511],
    [103, 179, 353, 467, 577, 691, 811, 947, 1153, 1453],
    [213, 439, 257, 313, 571, 619, 743, 829, 983, 1103],
    [31, 151, 241, 349, 607, 677, 769, 823, 967, 1049],
    [61, 83, 109, 137, 151, 521, 701, 827, 1123, 1253],
    [23, 61, 199, 223, 479, 647, 739, 811, 947, 1019],
    [31, 109, 311, 467, 613, 743, 821, 881, 1031, 1171],
    [41, 173, 367, 401, 569, 683, 761, 883, 1009, 1181],
    [127, 283, 467, 577, 661, 773, 881, 967, 1097, 1289],
    [59, 137, 257, 347, 439, 547, 641, 839, 977, 1009],
    [61, 199, 313, 421, 613, 739, 827, 941, 1087, 1307],
    [19, 127, 241, 353, 499, 607, 811, 919, 1031, 1301]
  ]

  const FourBitMask: Long := 0xF
  const FourteenBitMask: Long := 0x3FFF
  const ThirtyTwoBitMask: Long := 0xFFFF_FFFF
  const ThirtySixBitMask: Long := 0xF_FFFF_FFFF
  /** Bits of payload (serial and fresh value): the check code starts here. */
  const SourceNumBits: Long := 36
  /** Bits of serial number: the fresh value starts here. */
  const SerialNumBits: Long := 32

  /** Every XOR entry is a 36-bit value with bit 35 set. */
  lemma XorTableBounds()
    ensures |XorTable| == 16
    ensures forall k :: 0 <= k < |XorTable| ==> 0x8_0000_0000 <= XorTable[k] <= ThirtySixBitMask
  {
  }

  /** Every key row has ten positive weights, none above 1657. */
  predicate KeyInRange(key: seq<int>) {
    |key| == 10 && forall j :: 0 <= j < 10 ==> 1 <= key[j] <= 1657
  }

  lemma PrimeTableBounds()
    ensures |PrimeTable| == 16
    ensures forall r :: 0 <= r < |PrimeTable| ==> KeyInRange(PrimeTable[r])
  {
  }

  /** `XOR_TABLE[(int) k]` for a four-bit index. */
  function XorEntry(k: Long): (x: Long)
    requires k < 16
    ensures 0x8_0000_0000 <= x <= ThirtySixBitMask
  {
    XorTableBounds();
    XorTable[(k as bv8) as int]
  }

  /** `PRIME_TABLE[fresh]` for a four-bit fresh value. */
  function KeyRow(freshValue: Long): (key: seq<int>)
    requires freshValue < 16
    ensures KeyInRange(key)
  {
    PrimeTableBounds();
    PrimeTable[(freshValue as bv8) as int]
  }

  /** The integer value of the low nibble, the factor `payload & 0xF` of one term. */
  function Nibble(p: Long): (n: int)
    ensures 0 <= n < 16
    ensures n == 0 <==> p & FourBitMask == 0
  {
    ((p & FourBitMask) as bv8) as int
  }

  /** `16^k`: the first value with more than `k` nibbles. */
  function NibbleBound(k: nat): (b: Long)
    requires k <= 10
  {
    if k == 0 then 1 else if k == 1 then 0x10 else if k == 2 then 0x100 else if k == 3 then 0x1000
    else if k == 4 then 0x1_0000 else if k == 5 then 0x10_0000 else if k == 6 then 0x100_0000
    else if k == 7 then 0x1000_0000 else if k == 8 then 0x1_0000_0000
    else if k == 9 then 0x10_0000_0000 else 0x100_0000_0000
  }

  /** `p` has at most `k` nibbles. */
  predicate Fits(p: Long, k: nat)
    requires k <= 10
  {
    p < NibbleBound(k)
  }

  lemma {:induction false} FitsShift(p: Long, k: nat)
    requires 1 <= k <= 10 && Fits(p, k)
    ensures Fits(p >> 4, k - 1)
  {
  }

  /** Ten nibbles at most leave the sign bit clear, so Java's `payload > 0` is `payload != 0`. */
  lemma {:induction false} FitsIsPositive(p: Long, k: nat)
    requires k <= 10 && Fits(p, k)
    ensures IsPositive(p) <==> p != 0
  {
  }

  /** A non-zero value whose low nibble is zero has a non-zero rest. */
  lemma NibbleZeroRest(p: Long)
    requires p != 0 && p & FourBitMask == 0
    ensures p >> 4 != 0
  {
  }

  /**
   The weighted nibble sum from key position `i` on: nibble `j` of `p` times
   `key[i + j]`, as long as `p` has nibbles left. `Fits` keeps the key index
   inside the row, which is what saves the source from an out-of-bounds index.
   */
  function WeightedSum(p: Long, key: seq<int>, i: nat): int
    requires |key| == 10 && i <= 10 && Fits(p, 10 - i)
    decreases 10 - i
  {
    if p == 0 then 0
    else
      FitsShift(p, 10 - i);
      Nibble(p) * key[i] + WeightedSum(p >> 4, key, i + 1)
  }

  lemma TermBound(n: int, w: int)
    requires 0 <= n < 16 && 1 <= w <= 1657
    ensures n <= n * w <= 24855
  {
  }

  /** The sum is below `24855` per remaining key position. */
  lemma {:induction false} WeightedSumBound(p: Long, key: seq<int>, i: nat)
    requires i <= 10 && Fits(p, 10 - i) && KeyInRange(key)
    ensures 0 <= WeightedSum(p, key, i) <= 24855 * (10 - i)
    decreases 10 - i
  {
    if p != 0 {
      WeightedSumStep(p, key, i);
      WeightedSumBound(p >> 4, key, i + 1);
      TermBound(Nibble(p), key[i]);
    }
  }

  /** One step of the sum: the low nibble's term, then the rest from the next key on. */
  lemma {:induction false} WeightedSumStep(p: Long, key: seq<int>, i: nat)
    requires |key| == 10 && i < 10 && Fits(p, 10 - i) && p != 0
    ensures Fits(p >> 4, 10 - (i + 1))
    ensures WeightedSum(p, key, i) == Nibble(p) * key[i] + WeightedSum(p >> 4, key, i + 1)
  {
    FitsShift(p, 10 - i);
  }

  /** Every weight is positive, so a non-zero payload has a positive sum. */
  lemma {:induction false} WeightedSumPositive(p: Long, key: seq<int>, i: nat)
    requires i <= 10 && Fits(p, 10 - i) && KeyInRange(key)
    ensures p != 0 ==> WeightedSum(p, key, i) > 0
    decreases 10 - i
  {
    if p != 0 {
      assert i < 10;
      WeightedSumStep(p, key, i);
      WeightedSumBound(p >> 4, key, i + 1);
      TermBound(Nibble(p), key[i]);
      if Nibble(p) == 0 {
        NibbleZeroRest(p);
        WeightedSumPositive(p >> 4, key, i + 1);
      }
    }
  }

  /** The weighted sum `calcCheckCode` computes before masking: at most ten nibbles, hence below `2^18`. */
  function CheckSum(payload: Long, freshValue: Long): (sum: int)
    requires Fits(payload, 10) && freshValue < 16
    ensures 0 <= sum < 0x4_0000
    ensures sum == 0 <==> payload == 0
  {
    WeightedSumBound(payload, KeyRow(freshValue), 0);
    WeightedSumPositive(payload, KeyRow(freshValue), 0);
    WeightedSum(payload, KeyRow(freshValue), 0)
  }

  /** A non-negative Java `long` holding an integer value. */
  function LongOf(n: int): (x: Long)
    requires 0 <= n < 0x4_0000
    ensures x < 0x4_0000
    ensures n != 0 ==> x != 0
  {
    (n as bv18) as Long
  }

  /**
   `calcCheckCode` as written: the sum masked to 32 bits. The sum never reaches
   `2^32`, so the mask keeps all of it, up to 18 bits, not the 14 the
   field layout has room for.
   */
  function CheckCodeAsWritten(payload: Long, freshValue: Long): (c: Long)
    requires Fits(payload, 10) && freshValue < 16
    ensures c < 0x4_0000
    ensures c == 0 <==> payload == 0
  {
    LongOf(CheckSum(payload, freshValue)) & ThirtyTwoBitMask
  }

  /** `calcCheckCode` as its comments describe it: the low 14 bits of the sum. */
  function CheckCode(payload: Long, freshValue: Long): (c: Long)
    requires Fits(payload, 10) && freshValue < 16
    ensures c < 0x4000
    ensures c == CheckCodeAsWritten(payload, freshValue) & FourteenBitMask
  {
    LongOf(CheckSum(payload, freshValue)) & FourteenBitMask
  }

  /**
   What `calcCheckCode`'s loop keeps: `p` is the payload with `index` nibbles
   shifted out, and `sum` plus the weighted sum still to come is the whole sum.
   */
  predicate SumSoFar(payload: Long, key: seq<int>, p: Long, index: int, sum: int)
    requires |key| == 10
  {
    0 <= index <= 10 && Fits(p, 10 - index) && Fits(payload, 10)
    && sum + WeightedSum(p, key, index) == WeightedSum(payload, key, 0)
  }

  /** One turn of the loop keeps `SumSoFar`. */
  lemma SumSoFarStep(payload: Long, key: seq<int>, p: Long, index: int, sum: int)
    requires |key| == 10 && SumSoFar(payload, key, p, index, sum) && p != 0
    ensures index < 10 && SumSoFar(payload, key, p >> 4, index + 1, sum + Nibble(p) * key[index])
  {
    WeightedSumStep(p, key, index);
  }

  /**
   `calcCheckCode`'s loop as the source writes it: while the payload is positive,
   add its low nibble times the next key, then shift the payload right by four.
   On at most ten nibbles `payload > 0` is `payload != 0` (`FitsIsPositive`).
   */
  method CalcCheckCodeByLoop(payload: Long, freshValue: Long) returns (c: Long)
    requires Fits(payload, 10) && freshValue < 16
    ensures c == CheckCodeAsWritten(payload, freshValue)
  {
    var key := KeyRow(freshValue);
    var sum := 0;
    var index := 0;
    var p := payload;
    while IsPositive(p)
      invariant SumSoFar(payload, key, p, index, sum)
      decreases 10 - index
    {
      SumSoFarStep(payload, key, p, index, sum);
      sum := sum + Nibble(p) * key[index];
      index := index + 1;
      p := p >> 4;
    }
    FitsIsPositive(p, 10 - index);
    assert sum == CheckSum(payload, freshValue);
    c := LongOf(sum) & ThirtyTwoBitMask;
  }

  /** Which mask `calcCheckCode` applies: the source's 32 bits, or the 14 it evidently means. */
  datatype Revision = AsWritten | Corrected

  function CheckCodeOf(rev: Revision, payload: Long, freshValue: Long): (c: Long)
    requires Fits(payload, 10) && freshValue < 16
    ensures c < 0x4_0000
  {
    match rev
      case AsWritten => CheckCodeAsWritten(payload, freshValue)
      case Corrected => CheckCode(payload, freshValue)
  }

  /** Step 2 of `generateCode`: the fresh value's four bits above the serial's low 32. */
  function Payload(serial: Long, freshValue: Long): (p: Long)
    requires freshValue < 16
    ensures p == freshValue * 0x1_0000_0000 + (serial & ThirtyTwoBitMask)
    ensures p <= ThirtySixBitMask
  {
    (freshValue << SerialNumBits) | (serial & ThirtyTwoBitMask)
  }

  /** The serial's low 32 bits and the fresh value come back out of the payload. */
  lemma PayloadFields(serial: Long, freshValue: Long)
    requires freshValue < 16
    ensures Payload(serial, freshValue) & ThirtyTwoBitMask == serial & ThirtyTwoBitMask
    ensures Shr(Payload(serial, freshValue), SerialNumBits) & FourBitMask == freshValue
  {
    var p := Payload(serial, freshValue);
    ShrLowBitsAreUshr(p);
  }

  /** Step 4 of both `generateCode` and `parseCode`: XOR with the entry the check code's low nibble selects. */
  function Obfuscate(payload: Long, check: Long): (r: Long)
    requires payload <= ThirtySixBitMask
    ensures r <= ThirtySixBitMask
    ensures r ^ XorEntry(check & FourBitMask) == payload
  {
    payload ^ XorEntry(check & FourBitMask)
  }

  /** Step 5 of `generateCode`: the check code from bit 36 up, the obfuscated payload below. */
  function Pack(check: Long, obfuscated: Long): (code: Long)
    requires check < 0x4_0000 && obfuscated <= ThirtySixBitMask
    ensures code >> SourceNumBits == check
    ensures code & ThirtySixBitMask == obfuscated
  {
    (check << SourceNumBits) | obfuscated
  }

  /** The packed code needs more than ten characters exactly when the check code has more than 14 bits. */
  lemma PackFitsTenChars(check: Long, obfuscated: Long)
    requires check < 0x4_0000 && obfuscated <= ThirtySixBitMask
    ensures Base32.Below(Pack(check, obfuscated), 10) <==> check < 0x4000
  {
  }

  /** With a non-zero check code the packed code needs more than seven characters. */
  lemma PackAboveSevenChars(check: Long, obfuscated: Long)
    requires 0 < check < 0x4_0000 && obfuscated <= ThirtySixBitMask
    ensures !Base32.Below(Pack(check, obfuscated), 7)
  {
  }

  /** With a zero check code the packed code is the obfuscated payload itself. */
  lemma PackZero(obfuscated: Long)
    requires obfuscated <= ThirtySixBitMask
    ensures Pack(0, obfuscated) == obfuscated
  {
  }

  /** The check code `generateCode(serialNum, fresh)` computes. */
  function GeneratedCheck(rev: Revision, serial: Long, freshValue: Long): (c: Long)
    ensures c < 0x4_0000
  {
    CheckCodeOf(rev, Payload(serial, freshValue & FourBitMask), freshValue & FourBitMask)
  }

  /** The long `generateCode(serialNum, fresh)` hands to `encode`. */
  function GeneratedLong(rev: Revision, serial: Long, freshValue: Long): Long {
    var fr := freshValue & FourBitMask;
    var payload := Payload(serial, fr);
    var check := CheckCodeOf(rev, payload, fr);
    Pack(check, Obfuscate(payload, check))
  }

  /** `generateCode(serialNum, fresh)`: a code of alphabet characters, at most eleven of them. */
  function GenerateCode(rev: Revision, serial: Long, freshValue: Long): (code: string)
    ensures |code| <= 11
    ensures forall i :: 0 <= i < |code| ==> code[i] in Base32.BaseChars
  {
    var n := GeneratedLong(rev, serial, freshValue);
    Base32.EncodeUsesAlphabet(n);
    Base32.EncodeLengthBelow(n, 11);
    Base32.Encode(n)
  }

  /** The fields `parseCode` reads out of a code: check code, de-obfuscated payload, fresh value. */
  datatype Fields = Fields(check: Long, payload: Long, freshValue: Long)

  /** Step 2 of `parseCode`: the 14 bits from bit 36 up, read with Java's arithmetic shift. */
  function ReadCheck(decoded: Long): (check: Long)
    ensures check < 0x4000
  {
    Shr(decoded, SourceNumBits) & FourteenBitMask
  }

  /** Step 5 of `parseCode`: the four bits from bit 32 up. */
  function ReadFresh(payload: Long): (f: Long)
    ensures f < 16
  {
    Shr(payload, SerialNumBits) & FourBitMask
  }

  /** Steps 2 to 5 of `parseCode` on the decoded long. */
  function UnpackFields(decoded: Long): (f: Fields)
    ensures f.check < 0x4000 && f.payload <= ThirtySixBitMask && f.freshValue < 16
  {
    var check := ReadCheck(decoded);
    var payload := Obfuscate(decoded & ThirtySixBitMask, check);
    Fields(check, payload, ReadFresh(payload))
  }

  function ParseFields(code: string): (f: Fields)
    ensures f.check < 0x4000 && f.payload <= ThirtySixBitMask && f.freshValue < 16
  {
    UnpackFields(Base32.Decode(code))
  }

  /** Reading the check field of a packed code gives the check code cut to 14 bits. */
  lemma ReadCheckOfPack(check: Long, obfuscated: Long)
    requires check < 0x4_0000 && obfuscated <= ThirtySixBitMask
    ensures ReadCheck(Pack(check, obfuscated)) == check & FourteenBitMask
  {
    ShrLowBitsAreUshr(Pack(check, obfuscated));
  }

  /** Reading the fresh field of a payload gives the fresh value. */
  lemma ReadFreshOfPayload(serial: Long, freshValue: Long)
    requires freshValue < 16
    ensures ReadFresh(Payload(serial, freshValue)) == freshValue
  {
    PayloadFields(serial, freshValue);
  }

  /** Cutting the check code to 14 bits keeps its low nibble, so the same XOR entry is chosen. */
  lemma {:induction false} Deobfuscate(payload: Long, check: Long)
    requires payload <= ThirtySixBitMask
    ensures Obfuscate(Obfuscate(payload, check), check & FourteenBitMask) == payload
  {
    assert (check & FourteenBitMask) & FourBitMask == check & FourBitMask;
  }

  /** Unpacking a packed code recovers the cut check code and the payload. */
  lemma {:induction false} UnpackPacked(payload: Long, check: Long)
    requires payload <= ThirtySixBitMask && check < 0x4_0000
    ensures UnpackFields(Pack(check, Obfuscate(payload, check))).check == check & FourteenBitMask
    ensures UnpackFields(Pack(check, Obfuscate(payload, check))).payload == payload
  {
    var x := Obfuscate(payload, check);
    ReadCheckOfPack(check, x);
    Deobfuscate(payload, check);
  }

  /**
   `parseCode` reads back exactly what `generateCode` packed: the check code cut
   to its 14-bit field, the payload, and the fresh value.
   */
  lemma {:induction false} ParseGenerated(rev: Revision, serial: Long, freshValue: Long)
    ensures ParseFields(GenerateCode(rev, serial, freshValue))
         == Fields(GeneratedCheck(rev, serial, freshValue) & FourteenBitMask,
                   Payload(serial, freshValue & FourBitMask), freshValue & FourBitMask)
  {
    var fr := freshValue & FourBitMask;
    var p := Payload(serial, fr);
    var c := CheckCodeOf(rev, p, fr);
    var n := Pack(c, Obfuscate(p, c));
    assert GenerateCode(rev, serial, freshValue) == Base32.Encode(n);
    Base32.DecodeEncode(n);
    UnpackPacked(p, c);
    ReadFreshOfPayload(serial, fr);
  }

  /**
   What `parseCode` reports: the serial it returns, and whether each of its two
   checks passed. A failed check only prints a message in the source; parsing
   goes on, so the serial is there either way.
   */
  datatype Parsed = Parsed(serial: Long, wellFormed: bool, untampered: bool)

  /** `parseCode(code)` for a non-null code: its serial is always below `2^32`. */
  function ParseCode(rev: Revision, code: string): (r: Parsed)
    ensures r.serial <= ThirtyTwoBitMask
    ensures r.wellFormed <==> 8 <= |code| <= 10 && forall i :: 0 <= i < |code| ==> code[i] in Base32.BaseChars
  {
    var f := ParseFields(code);
    var wellFormed := |code| != 0 && RegexConstants.MatchesCouponCode(code);
    RegexConstants.ClassIsAlphabetEverywhere(code);
    Parsed(f.payload & ThirtyTwoBitMask, wellFormed, Untampered(rev, f))
  }

  /** Step 6 of `parseCode`: the recomputed check code equals the one read. */
  predicate Untampered(rev: Revision, f: Fields)
    requires f.payload <= ThirtySixBitMask && f.freshValue < 16
  {
    CheckCodeOf(rev, f.payload, f.freshValue) == f.check
  }

  /**
   For either mask, parsing a generated code returns the serial's low 32 bits,
   and the tamper check passes exactly when the check code fits in 14 bits.
   */
  lemma {:induction false} GenerateThenParse(rev: Revision, serial: Long, freshValue: Long)
    ensures ParseCode(rev, GenerateCode(rev, serial, freshValue)).serial == serial & ThirtyTwoBitMask
    ensures ParseCode(rev, GenerateCode(rev, serial, freshValue)).untampered <==> GeneratedCheck(rev, serial, freshValue) < 0x4000
  {
    GeneratedSerial(rev, serial, freshValue);
    GeneratedUntampered(rev, serial, freshValue);
  }

  lemma {:induction false} GeneratedSerial(rev: Revision, serial: Long, freshValue: Long)
    ensures ParseCode(rev, GenerateCode(rev, serial, freshValue)).serial == serial & ThirtyTwoBitMask
  {
    var fr := freshValue & FourBitMask;
    var p := Payload(serial, fr);
    ParseGenerated(rev, serial, freshValue);
    assert ParseFields(GenerateCode(rev, serial, freshValue)).payload == p;
    PayloadFields(serial, fr);
  }

  lemma {:induction false} GeneratedUntampered(rev: Revision, serial: Long, freshValue: Long)
    ensures ParseCode(rev, GenerateCode(rev, serial, freshValue)).untampered <==> GeneratedCheck(rev, serial, freshValue) < 0x4000
  {
    var fr := freshValue & FourBitMask;
    var p := Payload(serial, fr);
    var c := GeneratedCheck(rev, serial, freshValue);
    ParseGenerated(rev, serial, freshValue);
    UntamperedCut(rev, p, fr, c);
  }

  /** The tamper check on a cut check code passes exactly when the cut lost nothing. */
  lemma UntamperedCut(rev: Revision, payload: Long, freshValue: Long, check: Long)
    requires payload <= ThirtySixBitMask && freshValue < 16 && check == CheckCodeOf(rev, payload, freshValue)
    ensures Untampered(rev, Fields(check & FourteenBitMask, payload, freshValue)) <==> check < 0x4000
  {
    CutKeepsFourteenBits(check);
  }

  /** Cutting to 14 bits changes nothing exactly on values below `2^14`. */
  lemma CutKeepsFourteenBits(c: Long)
    ensures c & FourteenBitMask == c <==> c < 0x4000
  {
  }

  /** Round trip with the 14-bit mask: the serial comes back and the tamper check passes. */
  lemma RoundTrip(serial: Long, freshValue: Long)
    ensures ParseCode(Corrected, GenerateCode(Corrected, serial, freshValue)) == Parsed(serial & ThirtyTwoBitMask, ParseCode(Corrected, GenerateCode(Corrected, serial, freshValue)).wellFormed, true)
  {
    GenerateThenParse(Corrected, serial, freshValue);
  }

  /**
   With the mask as written, a generated code matches the coupon pattern exactly
   when its check code fits in 14 bits: a larger one pushes the code to eleven
   characters.
   */
  lemma {:induction false} WellFormedAsWritten(serial: Long, freshValue: Long)
    ensures RegexConstants.MatchesCouponCode(GenerateCode(AsWritten, serial, freshValue)) <==> GeneratedCheck(AsWritten, serial, freshValue) < 0x4000
  {
    var fr := freshValue & FourBitMask;
    var p := Payload(serial, fr);
    var c := CheckCodeOf(AsWritten, p, fr);
    var x := Obfuscate(p, c);
    var n := Pack(c, x);
    PackFitsTenChars(c, x);
    if c < 0x4000 {
      Base32.EncodeLengthBelow(n, 10);
    } else {
      Base32.EncodeLengthAbove(n, 10);
    }
    if p != 0 {
      PackAboveSevenChars(c, x);
    } else {
      assert c == 0;
      PackZero(x);
      assert x == XorEntry(0);
    }
    Base32.EncodeLengthAbove(n, 7);
    RegexConstants.ClassIsAlphabetEverywhere(Base32.Encode(n));
  }

  /**
   With the mask as written, serial `0xFFFFFFFF` and fresh value 0 give the
   check code 48780, which does not fit in 14 bits.
   */
  lemma CheckOverflowsAsWritten()
    ensures GeneratedCheck(AsWritten, 0xFFFF_FFFF, 0) == 48780
  {
    var key := KeyRow(0);
    assert key == [23, 59, 241, 61, 607, 67, 977, 1217, 1289, 1601];
    assert WeightedSum(0, key, 8) == 0;
    WeightedSumStep(0xF, key, 7);
    assert WeightedSum(0xF, key, 7) == 18255;
    WeightedSumStep(0xFF, key, 6);
    assert WeightedSum(0xFF, key, 6) == 32910;
    WeightedSumStep(0xFFF, key, 5);
    assert WeightedSum(0xFFF, key, 5) == 33915;
    WeightedSumStep(0xFFFF, key, 4);
    assert WeightedSum(0xFFFF, key, 4) == 43020;
    WeightedSumStep(0xF_FFFF, key, 3);
    assert WeightedSum(0xF_FFFF, key, 3) == 43935;
    WeightedSumStep(0xFF_FFFF, key, 2);
    assert WeightedSum(0xFF_FFFF, key, 2) == 47550;
    WeightedSumStep(0xFFF_FFFF, key, 1);
    assert WeightedSum(0xFFF_FFFF, key, 1) == 48435;
    WeightedSumStep(0xFFFF_FFFF, key, 0);
    assert WeightedSum(0xFFFF_FFFF, key, 0) == 48780;
    assert CheckSum(0xFFFF_FFFF, 0) == 48780;
    assert LongOf(48780) == 48780;
    assert CheckCodeAsWritten(0xFFFF_FFFF, 0) == 48780;
    assert Payload(0xFFFF_FFFF, 0) == 0xFFFF_FFFF;
  }

  /**
   So `parseCode(generateCode(0xFFFFFFFF, 0))` as written gets the serial back
   but reports both a malformed and a tampered code.
   */
  lemma ParseOverflowAsWritten()
    ensures ParseCode(AsWritten, GenerateCode(AsWritten, 0xFFFF_FFFF, 0)) == Parsed(0xFFFF_FFFF, false, false)
  {
    CheckOverflowsAsWritten();
    GenerateThenParse(AsWritten, 0xFFFF_FFFF, 0);
    WellFormedAsWritten(0xFFFF_FFFF, 0);
    assert 0xFFFF_FFFF & ThirtyTwoBitMask == 0xFFFF_FFFF;
  }

  /**
   With the 14-bit mask a generated code matches the coupon pattern unless its
   check code is 0 and the fresh value is 8 or more: then the XOR clears bit 35
   and the code is at most seven characters.
   */
  lemma {:induction false} WellFormedCorrected(serial: Long, freshValue: Long)
    ensures RegexConstants.MatchesCouponCode(GenerateCode(Corrected, serial, freshValue))
        <==> GeneratedCheck(Corrected, serial, freshValue) != 0 || freshValue & FourBitMask < 8
  {
    var fr := freshValue & FourBitMask;
    var p := Payload(serial, fr);
    var c := CheckCodeOf(Corrected, p, fr);
    var x := Obfuscate(p, c);
    var n := Pack(c, x);
    PackFitsTenChars(c, x);
    Base32.EncodeLengthBelow(n, 10);
    if c != 0 {
      PackAboveSevenChars(c, x);
      Base32.EncodeLengthAbove(n, 7);
    } else {
      PackZero(x);
      HighBitAfterXor(serial, fr);
      if fr < 8 {
        Base32.EncodeLengthAbove(n, 7);
      } else {
        Base32.EncodeLengthBelow(n, 7);
      }
    }
    RegexConstants.ClassIsAlphabetEverywhere(Base32.Encode(n));
  }

  /** Entry 0 has bit 35 set, so the obfuscated payload keeps bit 35 exactly when the fresh value lacks bit 3. */
  lemma HighBitAfterXor(serial: Long, freshValue: Long)
    requires freshValue < 16
    ensures !Base32.Below(Obfuscate(Payload(serial, freshValue), 0), 7) <==> freshValue < 8
  {
  }

  /**
   An instance: serial `0x81000010` with fresh value 8 has the weighted sum
   16384, so the 14-bit check code is 0 and the code is too short for the pattern.
   */
  lemma ShortCodeCorrected()
    ensures GeneratedCheck(Corrected, 0x8100_0010, 8) == 0
    ensures !RegexConstants.MatchesCouponCode(GenerateCode(Corrected, 0x8100_0010, 8))
  {
    var key := KeyRow(8);
    assert key == [61, 83, 109, 137, 151, 521, 701, 827, 1123, 1253];
    assert WeightedSum(0, key, 9) == 0;
    WeightedSumStep(0x8, key, 8);
    assert WeightedSum(0x8, key, 8) == 8984;
    WeightedSumStep(0x88, key, 7);
    assert WeightedSum(0x88, key, 7) == 15600;
    WeightedSumStep(0x881, key, 6);
    assert WeightedSum(0x881, key, 6) == 16301;
    WeightedSumStep(0x8810, key, 5);
    assert WeightedSum(0x8810, key, 5) == 16301;
    WeightedSumStep(0x8_8100, key, 4);
    assert WeightedSum(0x8_8100, key, 4) == 16301;
    WeightedSumStep(0x88_1000, key, 3);
    assert WeightedSum(0x88_1000, key, 3) == 16301;
    WeightedSumStep(0x881_0000, key, 2);
    assert WeightedSum(0x881_0000, key, 2) == 16301;
    WeightedSumStep(0x8810_0001, key, 1);
    assert WeightedSum(0x8810_0001, key, 1) == 16384;
    WeightedSumStep(0x8_8100_0010, key, 0);
    assert WeightedSum(0x8_8100_0010, key, 0) == 16384;
    assert Payload(0x8100_0010, 8) == 0x8_8100_0010;
    assert CheckSum(0x8_8100_0010, 8) == 16384;
    assert LongOf(16384) == 0x4000;
    assert CheckCode(0x8_8100_0010, 8) == 0;
    WellFormedCorrected(0x8100_0010, 8);
  }
}
