/**
 The coupon alphabet codec: a long is written five bits at a time, lowest group
 first, each group as one character of a 32-character alphabet; decoding puts
 every character's index back at five times its position.
 */
module Base32 {
  import opened JavaLong

  /** `BASE_CHARS`: digits 2-9 and the letters without I and O, in a scrambled order. */
  const BaseChars: string := "6CSB7H8DAKXZF3N95RTMVUQG2YE4JWPL"

  lemma BaseCharsDistinct()
    ensures |BaseChars| == 32
    ensures forall i, j :: 0 <= i < j < |BaseChars| ==> BaseChars[i] != BaseChars[j]
  {
  }

  /** `BASE_CHARS.indexOf(c)` searching from position `from`. */
  function IndexOfFrom(c: char, from: nat): (r: int)
    requires from <= |BaseChars|
    ensures r == -1 || from <= r < |BaseChars|
    ensures r >= 0 ==> BaseChars[r] == c && forall k :: from <= k < r ==> BaseChars[k] != c
    ensures r == -1 ==> forall k :: from <= k < |BaseChars| ==> BaseChars[k] != c
    decreases |BaseChars| - from
  {
    if from == |BaseChars| then -1
    else if BaseChars[from] == c then from
    else IndexOfFrom(c, from + 1)
  }

  /** `BASE_CHARS.indexOf(c)`: the position of `c` in the alphabet, or -1. */
  function IndexOf(c: char): (r: int)
    ensures -1 <= r < |BaseChars|
    ensures r >= 0 ==> BaseChars[r] == c
    ensures r == -1 <==> c !in BaseChars
  {
    IndexOfFrom(c, 0)
  }

  /** `indexOf` is a left inverse of `charAt` on the alphabet's positions. */
  lemma {:induction false} IndexOfCharAt(k: int)
    requires 0 <= k < |BaseChars|
    ensures IndexOf(BaseChars[k]) == k
  {
    BaseCharsDistinct();
  }

  /**
   `BASE_CHARS.charAt(g)` for a five-bit group, tabulated so that the solver
   never has to turn a long into a string index; `BaseCharIsCharAt` shows the
   table is the alphabet.
   */
  function BaseChar(g: Long): char
    requires g < 32
  {
    match g
      case 0 => '6'
      case 1 => 'C'
      case 2 => 'S'
      case 3 => 'B'
      case 4 => '7'
      case 5 => 'H'
      case 6 => '8'
      case 7 => 'D'
      case 8 => 'A'
      case 9 => 'K'
      case 10 => 'X'
      case 11 => 'Z'
      case 12 => 'F'
      case 13 => '3'
      case 14 => 'N'
      case 15 => '9'
      case 16 => '5'
      case 17 => 'R'
      case 18 => 'T'
      case 19 => 'M'
      case 20 => 'V'
      case 21 => 'U'
      case 22 => 'Q'
      case 23 => 'G'
      case 24 => '2'
      case 25 => 'Y'
      case 26 => 'E'
      case 27 => '4'
      case 28 => 'J'
      case 29 => 'W'
      case 30 => 'P'
      case 31 => 'L'
  }

  lemma BaseCharIsCharAt(g: Long)
    requires g < 32
    ensures BaseChar(g) == BaseChars[(g as bv8) as int]
  {
    if g < 8 { TableRow0(g); } else if g < 16 { TableRow1(g); }
    else if g < 24 { TableRow2(g); } else { TableRow3(g); }
  }

  /** The two tables against the alphabet, eight groups at a time. */
  lemma TableRow0(g: Long)
    requires g < 8
    ensures BaseChar(g) == BaseChars[(g as bv8) as int] && Digit(BaseChar(g)) == g
  {
    match g
      case 0 => assert BaseChar(g) == '6';
      case 1 => assert BaseChar(g) == 'C';
      case 2 => assert BaseChar(g) == 'S';
      case 3 => assert BaseChar(g) == 'B';
      case 4 => assert BaseChar(g) == '7';
      case 5 => assert BaseChar(g) == 'H';
      case 6 => assert BaseChar(g) == '8';
      case 7 => assert BaseChar(g) == 'D';
      case _ => assert false;
  }

  lemma TableRow1(g: Long)
    requires 8 <= g < 16
    ensures BaseChar(g) == BaseChars[(g as bv8) as int] && Digit(BaseChar(g)) == g
  {
    match g
      case 8 => assert BaseChar(g) == 'A';
      case 9 => assert BaseChar(g) == 'K';
      case 10 => assert BaseChar(g) == 'X';
      case 11 => assert BaseChar(g) == 'Z';
      case 12 => assert BaseChar(g) == 'F';
      case 13 => assert BaseChar(g) == '3';
      case 14 => assert BaseChar(g) == 'N';
      case 15 => assert BaseChar(g) == '9';
      case _ => assert false;
  }

  lemma TableRow2(g: Long)
    requires 16 <= g < 24
    ensures BaseChar(g) == BaseChars[(g as bv8) as int] && Digit(BaseChar(g)) == g
  {
    match g
      case 16 => assert BaseChar(g) == '5';
      case 17 => assert BaseChar(g) == 'R';
      case 18 => assert BaseChar(g) == 'T';
      case 19 => assert BaseChar(g) == 'M';
      case 20 => assert BaseChar(g) == 'V';
      case 21 => assert BaseChar(g) == 'U';
      case 22 => assert BaseChar(g) == 'Q';
      case 23 => assert BaseChar(g) == 'G';
      case _ => assert false;
  }

  lemma TableRow3(g: Long)
    requires 24 <= g < 32
    ensures BaseChar(g) == BaseChars[(g as bv8) as int] && Digit(BaseChar(g)) == g
  {
    match g
      case 24 => assert BaseChar(g) == '2';
      case 25 => assert BaseChar(g) == 'Y';
      case 26 => assert BaseChar(g) == 'E';
      case 27 => assert BaseChar(g) == '4';
      case 28 => assert BaseChar(g) == 'J';
      case 29 => assert BaseChar(g) == 'W';
      case 30 => assert BaseChar(g) == 'P';
      case 31 => assert BaseChar(g) == 'L';
      case _ => assert false;
  }

  /**
   The value `(long) BASE_CHARS.indexOf(c)` that a character contributes to
   `decode`, tabulated; `DigitIsIndexOf` shows the table is that expression.
   */
  function Digit(c: char): Long {
    match c
      case '6' => 0
      case 'C' => 1
      case 'S' => 2
      case 'B' => 3
      case '7' => 4
      case 'H' => 5
      case '8' => 6
      case 'D' => 7
      case 'A' => 8
      case 'K' => 9
      case 'X' => 10
      case 'Z' => 11
      case 'F' => 12
      case '3' => 13
      case 'N' => 14
      case '9' => 15
      case '5' => 16
      case 'R' => 17
      case 'T' => 18
      case 'M' => 19
      case 'V' => 20
      case 'U' => 21
      case 'Q' => 22
      case 'G' => 23
      case '2' => 24
      case 'Y' => 25
      case 'E' => 26
      case '4' => 27
      case 'J' => 28
      case 'W' => 29
      case 'P' => 30
      case 'L' => 31
      case _ => 0xFFFF_FFFF_FFFF_FFFF
  }

  /** Java's widening of an `indexOf` result to a long: -1 becomes all ones. */
  function WidenIndex(i: int): (n: Long)
    requires -1 <= i < 32
    ensures i >= 0 ==> n < 32 && (n as bv8) as int == i
    ensures i < 0 ==> n == 0xFFFF_FFFF_FFFF_FFFF
  {
    if i < 0 then 0xFFFF_FFFF_FFFF_FFFF else (i as bv8) as Long
  }

  /** Every group's character decodes back to the group. */
  lemma DigitOfBaseChar(g: Long)
    requires g < 32
    ensures Digit(BaseChar(g)) == g
  {
    if g < 8 { TableRow0(g); } else if g < 16 { TableRow1(g); }
    else if g < 24 { TableRow2(g); } else { TableRow3(g); }
  }

  /** An alphabet character has a digit below 32. */
  lemma DigitOfAlphabet(c: char)
    ensures c in BaseChars ==> Digit(c) < 32
  {
    var k := IndexOf(c);
    if k >= 0 {
      var g := WidenIndex(k);
      BaseCharIsCharAt(g);
      DigitOfBaseChar(g);
    }
  }

  /** Any other character decodes to all ones, Java's `(long) -1`. */
  lemma DigitOutsideAlphabet(c: char)
    ensures c !in BaseChars ==> Digit(c) == 0xFFFF_FFFF_FFFF_FFFF
  {
  }

  /** The alphabet is exactly the characters with a digit below 32; every other one decodes to all ones. */
  lemma DigitInAlphabet(c: char)
    ensures c in BaseChars <==> Digit(c) < 32
    ensures c !in BaseChars ==> Digit(c) == 0xFFFF_FFFF_FFFF_FFFF
  {
    DigitOfAlphabet(c);
    DigitOutsideAlphabet(c);
  }

  /** The table is `(long) BASE_CHARS.indexOf(c)` for every character. */
  lemma DigitIsIndexOf(c: char)
    ensures Digit(c) == WidenIndex(IndexOf(c))
  {
    DigitInAlphabet(c);
    var k := IndexOf(c);
    if k >= 0 {
      var g := WidenIndex(k);
      BaseCharIsCharAt(g);
      DigitOfBaseChar(g);
    }
  }

  /** `32^k`: the first value whose encoding needs more than `k` characters. */
  function GroupBound(k: nat): (b: Long)
    requires k <= 12
    ensures b != 0
  {
    if k == 0 then 1 else if k == 1 then 0x20 else if k == 2 then 0x400 else if k == 3 then 0x8000
    else if k == 4 then 0x10_0000 else if k == 5 then 0x200_0000 else if k == 6 then 0x4000_0000
    else if k == 7 then 0x8_0000_0000 else if k == 8 then 0x100_0000_0000
    else if k == 9 then 0x2000_0000_0000 else if k == 10 then 0x4_0000_0000_0000
    else if k == 11 then 0x80_0000_0000_0000 else 0x1000_0000_0000_0000
  }

  /** `x < 32^k`: the value needs at most `k` characters. */
  predicate Below(x: Long, k: nat)
    requires k <= 12
  {
    x < GroupBound(k)
  }

  /** Dropping the low group of a value below `32^k` leaves a value below `32^(k-1)`. */
  lemma {:induction false} GroupBoundShift(x: Long, k: nat)
    requires 1 <= k <= 12 && Below(x, k)
    ensures Below(x >> 5, k - 1)
  {
  }

  /** `encode(raw)`: one character per five-bit group, lowest group first, until nothing is left. */
  function Encode(raw: Long): (code: string)
    ensures |code| == 0 <==> raw == 0
    decreases raw
  {
    if raw == 0 then "" else [BaseChar(raw & 31)] + Encode(raw >> 5)
  }

  /** `encode` as the source writes it: append the low group's character, then shift right by five. */
  method EncodeByLoop(raw: Long) returns (code: string)
    ensures code == Encode(raw)
  {
    code := "";
    var rest := raw;
    while rest != 0
      invariant code + Encode(rest) == Encode(raw)
      decreases rest
    {
      code := code + [BaseChar(rest & 31)];
      rest := rest >> 5;
    }
  }

  /** Every character `encode` produces is in the alphabet. */
  lemma {:induction false} EncodeUsesAlphabet(raw: Long)
    ensures forall j :: 0 <= j < |Encode(raw)| ==> Encode(raw)[j] in BaseChars
    decreases raw
  {
    if raw != 0 {
      EncodeUsesAlphabet(raw >> 5);
      assert Encode(raw) == [BaseChar(raw & 31)] + Encode(raw >> 5);
      DigitOfBaseChar(raw & 31);
      DigitInAlphabet(BaseChar(raw & 31));
    }
  }

  /**
   `encode` writes no trailing zero digit: the last character, when there is one,
   is not `BASE_CHARS[0]`.
   */
  lemma {:induction false} EncodeCanonical(raw: Long)
    ensures |Encode(raw)| > 0 ==> Encode(raw)[|Encode(raw)| - 1] != BaseChars[0]
    decreases raw
  {
    if raw != 0 {
      EncodeCanonical(raw >> 5);
      assert Encode(raw) == [BaseChar(raw & 31)] + Encode(raw >> 5);
      if raw >> 5 == 0 {
        DigitOfBaseChar(raw & 31);
      }
    }
  }

  /** The number of characters is governed by the magnitude: below `32^k` means at most `k` characters. */
  lemma {:induction false} EncodeLengthBelow(raw: Long, k: nat)
    requires k <= 12 && Below(raw, k)
    ensures |Encode(raw)| <= k
    decreases raw
  {
    if raw != 0 {
      assert k != 0;
      GroupBoundShift(raw, k);
      EncodeLengthBelow(raw >> 5, k - 1);
      assert |Encode(raw)| == 1 + |Encode(raw >> 5)|;
    }
  }

  /** Any long, negative ones included, takes at most 13 characters. */
  lemma EncodeLength(raw: Long)
    ensures |Encode(raw)| <= 13
  {
    if raw != 0 {
      EncodeLengthBelow(raw >> 5, 12);
    }
  }

  /** A value of at least `32^k` keeps one at least `32^(k-1)` once its low group is dropped. */
  lemma {:induction false} GroupBoundShiftUp(x: Long, k: nat)
    requires 1 <= k <= 12 && !Below(x, k)
    ensures !Below(x >> 5, k - 1)
  {
  }

  /** The other direction: a value of at least `32^k` needs more than `k` characters. */
  lemma {:induction false} EncodeLengthAbove(raw: Long, k: nat)
    requires k <= 12 && !Below(raw, k)
    ensures |Encode(raw)| > k
    decreases k
  {
    assert raw != 0;
    if k != 0 {
      GroupBoundShiftUp(raw, k);
      EncodeLengthAbove(raw >> 5, k - 1);
      assert |Encode(raw)| == 1 + |Encode(raw >> 5)|;
    }
  }

  /** `raw` with its lowest `i` groups dropped: `raw >>> 5i`. */
  function DropGroups(raw: Long, i: nat): Long
    decreases i
  {
    if i == 0 then raw else DropGroups(raw >> 5, i - 1)
  }

  /** Position `i` of `encode(raw)` holds the character of group `i`, `(raw >>> 5i) & 31`. */
  lemma {:induction false} EncodeGroupAt(raw: Long, i: nat)
    requires i < |Encode(raw)|
    ensures Encode(raw)[i] == BaseChar(DropGroups(raw, i) & 31)
    decreases i
  {
    EncodeStep(raw);
    if i != 0 {
      EncodeGroupAt(raw >> 5, i - 1);
    }
  }

  /** A value below `2^50`, the range the doc comments name, takes at most ten characters. */
  lemma EncodeFiftyBits(raw: Long)
    requires raw < 0x4_0000_0000_0000
    ensures |Encode(raw)| <= 10
  {
    EncodeLengthBelow(raw, 10);
  }

  /**
   The digits of `t` with the first one at shift distance `d`, each next one five
   bits higher. Java reduces a long shift's distance to its low six bits, so a
   string longer than 13 characters wraps its digits around.
   */
  function DecodeAt(t: string, d: Distance): Long
    decreases |t|
  {
    if t == [] then 0
    else (Digit(t[0]) << (d & 63)) | DecodeAt(t[1..], d + 5)
  }

  /** `decode(code)`: the OR of every character's index shifted by five times its position. */
  function Decode(code: string): Long {
    DecodeAt(code, 0)
  }

  /** Taking the first character out of the OR still to be done. */
  lemma {:induction false} DecodeAtStep(r: Long, t: string, d: Distance)
    requires t != []
    ensures r | DecodeAt(t, d) == (r | (Digit(t[0]) << (d & 63))) | DecodeAt(t[1..], d + 5)
  {
    OrRegroup(r, Digit(t[0]) << (d & 63), DecodeAt(t[1..], d + 5));
  }

  /**
   `5 * i` as a shift distance, counted in seven bits. Java masks a long's
   shift distance to its low six bits, so `DistanceAt(i) & 63` is the distance
   `decode` shifts character `i` by; the extra bit is what `DecodeAt` carries
   from one position to the next.
   */
  function DistanceAt(i: nat): (d: Distance)
    ensures i <= 12 ==> d as int == 5 * i
  {
    if i == 0 then 0 else DistanceAt(i - 1) + 5
  }

  /** `decode`'s loop: from the last character down to the first, OR in the character's index shifted by `5 * i`. */
  method DecodeByLoop(code: string) returns (r: Long)
    ensures r == Decode(code)
  {
    r := 0;
    var i := |code|;
    while i > 0
      invariant 0 <= i <= |code|
      invariant r == DecodeAt(code[i..], DistanceAt(i))
    {
      i := i - 1;
      // `t` is the code from position `i` on, so `t[0]` is character `i`.
      var t, d := code[i..], DistanceAt(i);
      assert t[1..] == code[i + 1..] && d + 5 == DistanceAt(i + 1);
      DecodeStepDown(t, d, r);
      r := r | (Digit(t[0]) << (d & 63));
    }
    assert code[i..] == code;
  }

  /** One step down: OR-ing the first character into the rest's value gives the whole string's value. */
  lemma {:induction false} DecodeStepDown(t: string, d: Distance, r: Long)
    requires t != [] && r == DecodeAt(t[1..], d + 5)
    ensures r | (Digit(t[0]) << (d & 63)) == DecodeAt(t, d)
  {
    OrCommutes(r, Digit(t[0]) << (d & 63));
  }

  /**
   The value a string spells in base 32, written the way `encode` reads it: the
   first character's digit in the low five bits, the rest five bits higher.
   */
  function Spelled(t: string): Long
    decreases |t|
  {
    if t == [] then 0 else Digit(t[0]) | (Spelled(t[1..]) << 5)
  }

  /** Decoding from distance `d` places the spelled value at `d`, as long as no digit wraps around. */
  lemma {:induction false} DecodeAtSpelled(t: string, d: Distance)
    requires d % 5 == 0 && d <= 60
    requires d as int + 5 * |t| <= 65
    ensures DecodeAt(t, d) == Spelled(t) << d
    decreases |t|
  {
    if t != [] {
      if d == 60 {
        assert t[1..] == [];
      } else {
        assert (d + 5) as int == d as int + 5;
        DecodeAtSpelled(t[1..], d + 5);
      }
    }
  }

  /** On up to 13 characters, which is as many as a long holds, `decode` is the spelled value. */
  lemma {:induction false} DecodeIsSpelled(code: string)
    requires |code| <= 13
    ensures Decode(code) == Spelled(code)
  {
    DecodeAtSpelled(code, 0);
  }

  /** One step of `Spelled`, stated on its own so that callers need not unfold it. */
  lemma {:induction false} SpelledStep(t: string)
    requires t != []
    ensures Spelled(t) == Digit(t[0]) | (Spelled(t[1..]) << 5)
  {
  }

  /** One step of `encode`: the low group's character, then the encoding of the rest. */
  lemma EncodeStep(y: Long)
    requires y != 0
    ensures Encode(y) != [] && Encode(y)[0] == BaseChar(y & 31) && Encode(y)[1..] == Encode(y >> 5)
  {
  }

  /** A string whose first digit is the low group of `y` and whose rest spells the other groups spells `y`. */
  lemma {:induction false} SpellsStep(t: string, y: Long)
    requires t != [] && Digit(t[0]) == y & 31 && Spelled(t[1..]) == y >> 5
    ensures Spelled(t) == y
  {
    LowGroupAndRest(y);
  }

  /** `encode(y)` spells `y`. */
  lemma {:induction false} EncodeSpells(y: Long)
    ensures Spelled(Encode(y)) == y
    decreases y
  {
    if y != 0 {
      EncodeStep(y);
      DigitOfBaseChar(y & 31);
      EncodeSpells(y >> 5);
      SpellsStep(Encode(y), y);
    }
  }

  /** Round trip: `decode(encode(raw)) == raw` for every long, negative ones included. */
  lemma DecodeEncode(raw: Long)
    ensures Decode(Encode(raw)) == raw
  {
    EncodeLength(raw);
    DecodeIsSpelled(Encode(raw));
    EncodeSpells(raw);
  }

  /** A code `encode` could have produced: alphabet characters only, and no trailing zero digit. */
  predicate Canonical(code: string) {
    (forall i :: 0 <= i < |code| ==> code[i] in BaseChars)
    && (|code| > 0 ==> code[|code| - 1] != BaseChars[0])
  }

  /** Spelling one more digit in front of a value below `32^(k-1)` gives a value below `32^k`. */
  lemma {:induction false} SpelledConsBound(t: string)
    requires 1 <= |t| <= 12 && Digit(t[0]) < 32 && Below(Spelled(t[1..]), |t| - 1)
    ensures Below(Spelled(t), |t|)
  {
    SpelledStep(t);
  }

  /** The first digit and the rest split back out of a spelled value that fits. */
  lemma {:induction false} SpelledConsSplit(t: string)
    requires 1 <= |t| <= 12 && Digit(t[0]) < 32 && Below(Spelled(t[1..]), |t| - 1)
    ensures Spelled(t) & 31 == Digit(t[0]) && Spelled(t) >> 5 == Spelled(t[1..])
  {
    SpelledStep(t);
  }

  /** A spelled value that fits is zero exactly when all of its digits are. */
  lemma {:induction false} SpelledConsZero(t: string)
    requires 1 <= |t| <= 12 && Digit(t[0]) < 32 && Below(Spelled(t[1..]), |t| - 1)
    ensures Spelled(t) == 0 <==> Digit(t[0]) == 0 && Spelled(t[1..]) == 0
  {
    SpelledStep(t);
  }

  /** Dropping the first character of a canonical code leaves a canonical code. */
  lemma {:induction false} CanonicalRest(t: string)
    requires t != [] && Canonical(t)
    ensures Canonical(t[1..])
  {
    assert forall i :: 0 <= i < |t[1..]| ==> t[1..][i] == t[i + 1];
  }

  /** An alphabet string of `k` characters spells a value below `32^k`. */
  lemma {:induction false} SpelledBound(t: string)
    requires |t| <= 12
    requires forall i :: 0 <= i < |t| ==> t[i] in BaseChars
    ensures Below(Spelled(t), |t|)
    decreases |t|
  {
    if t != [] {
      assert forall i :: 0 <= i < |t[1..]| ==> t[1..][i] == t[i + 1];
      SpelledBound(t[1..]);
      DigitOfAlphabet(t[0]);
      SpelledConsBound(t);
    }
  }

  /** An alphabet character is the character of its own digit. */
  lemma BaseCharOfDigit(c: char)
    requires c in BaseChars
    ensures Digit(c) < 32 && BaseChar(Digit(c)) == c
  {
    DigitIsIndexOf(c);
    var k := IndexOf(c);
    BaseCharIsCharAt(WidenIndex(k));
  }

  /** Two non-empty sequences with the same head and the same tail are equal. */
  lemma {:induction false} HeadTail(s: string, t: string)
    requires s != [] && t != [] && s[0] == t[0] && s[1..] == t[1..]
    ensures s == t
  {
    assert s == [s[0]] + s[1..];
    assert t == [t[0]] + t[1..];
  }

  /** `encode` of a non-zero value whose low group is the digit of `c`: `c`, then the encoding of the rest. */
  lemma {:induction false} EncodeCons(x: Long, c: char, rest: string)
    requires x != 0 && c in BaseChars && x & 31 == Digit(c) && Encode(x >> 5) == rest
    ensures Encode(x) == [c] + rest
  {
    BaseCharOfDigit(c);
    EncodeStep(x);
    HeadTail(Encode(x), [c] + rest);
  }

  /** `encode` of a spelled value that fits: the first character, then the encoding of what the rest spells. */
  lemma {:induction false} EncodeSpelledStep(t: string)
    requires 1 <= |t| <= 12 && t[0] in BaseChars && Below(Spelled(t[1..]), |t| - 1) && Spelled(t) != 0
    ensures Encode(Spelled(t)) == [t[0]] + Encode(Spelled(t[1..]))
  {
    DigitOfAlphabet(t[0]);
    SpelledConsSplit(t);
    EncodeCons(Spelled(t), t[0], Encode(Spelled(t[1..])));
  }

  /** A canonical code of up to 12 characters is what `encode` writes for the value it spells. */
  lemma {:induction false} EncodeSpelled(t: string)
    requires |t| <= 12 && Canonical(t)
    ensures Encode(Spelled(t)) == t
    decreases |t|
  {
    if t != [] {
      CanonicalRest(t);
      SpelledBound(t[1..]);
      SpelledNonZero(t);
      EncodeSpelledStep(t);
      EncodeSpelled(t[1..]);
      assert [t[0]] + t[1..] == t;
    }
  }

  /** A non-empty canonical code spells a non-zero value. */
  lemma {:induction false} SpelledNonZero(t: string)
    requires |t| <= 12 && t != [] && Canonical(t)
    ensures Spelled(t) != 0
    decreases |t|
  {
    CanonicalRest(t);
    SpelledBound(t[1..]);
    BaseCharOfDigit(t[0]);
    SpelledConsZero(t);
    if |t| == 1 {
      BaseCharsDistinct();
      assert Digit(t[0]) != 0;
    } else {
      SpelledNonZero(t[1..]);
    }
  }

  /**
   The other round trip: for codes of up to 12 characters, `encode(decode(code))`
   gives `code` back exactly when `code` is canonical.
   */
  lemma {:induction false} EncodeDecode(code: string)
    requires |code| <= 12
    ensures Encode(Decode(code)) == code <==> Canonical(code)
  {
    DecodeIsSpelled(code);
    if Canonical(code) {
      EncodeSpelled(code);
    }
    EncodeUsesAlphabet(Decode(code));
    EncodeCanonical(Decode(code));
  }
}
