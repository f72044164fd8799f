/**
 The coupon-code pattern: eight to ten characters from a fixed class of digits
 and capital letters.
 */
module RegexConstants {
  import Base32

  /** The character class of `COUPON_CODE_PATTERN`: digits 2-9 and the letters A-Z without I and O. */
  const CouponCodeClass: string := "23456789ABCDEFGHJKLMNPQRSTUVWXYZ"

  /** `code.matches(COUPON_CODE_PATTERN)`: the whole string is 8 to 10 characters of the class. */
  predicate MatchesCouponCode(code: string) {
    8 <= |code| <= 10 && forall i :: 0 <= i < |code| ==> code[i] in CouponCodeClass
  }

  /** The pattern's character class is exactly the codec alphabet, only in another order. */
  lemma ClassIsAlphabet(c: char)
    ensures c in CouponCodeClass <==> c in Base32.BaseChars
  {
  }

  /** So a code matches the pattern exactly when it is 8 to 10 alphabet characters. */
  lemma ClassIsAlphabetEverywhere(code: string)
    ensures MatchesCouponCode(code) <==> 8 <= |code| <= 10 && forall i :: 0 <= i < |code| ==> code[i] in Base32.BaseChars
  {
    forall i | 0 <= i < |code| {
      ClassIsAlphabet(code[i]);
    }
  }
}
