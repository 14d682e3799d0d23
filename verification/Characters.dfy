/**
 The characters of the text formats, written out, and the bytes that stand for them.
 */
module Characters {
  import opened Flat

  const LOWER_DIGITS := "0123456789abcdef"
  const UPPER_DIGITS := "0123456789ABCDEF"
  const LOWER_LETTERS := "abcdefghijklmnopqrstuvwxyz"
  const UPPER_LETTERS := "ABCDEFGHIJKLMNOPQRSTUVWXYZ"
  const DIGITS := "0123456789"
  const BASE64_LETTERS := UPPER_LETTERS + LOWER_LETTERS + DIGITS + "+/"
  const URL_LETTERS := UPPER_LETTERS + LOWER_LETTERS + DIGITS + "-._~="

  /** `b` is character `i` of `s`. */
  predicate IsAt(b: Byte, s: string, i: nat) {
    i < |s| && b as int == s[i] as int
  }

  /** `b` is a character of `s`. */
  ghost predicate IsIn(b: Byte, s: string) {
    exists i: nat :: IsAt(b, s, i)
  }

  /** `b` is the hexadecimal digit for `d`, in either case. */
  predicate IsDigitFor(b: Byte, d: nat) {
    IsAt(b, LOWER_DIGITS, d) || IsAt(b, UPPER_DIGITS, d)
  }

  /** `a` and `b` are the same letter in the two cases. */
  ghost predicate DifferInCase(a: Byte, b: Byte) {
    exists i: nat :: (IsAt(a, LOWER_LETTERS, i) && IsAt(b, UPPER_LETTERS, i))
                  || (IsAt(a, UPPER_LETTERS, i) && IsAt(b, LOWER_LETTERS, i))
  }

  lemma UpperCode(i: nat)
    requires i < 26
    ensures UPPER_LETTERS[i] as int == 65 + i
  {
  }

  lemma LowerCode(i: nat)
    requires i < 26
    ensures LOWER_LETTERS[i] as int == 97 + i
  {
  }

  lemma DigitCode(i: nat)
    requires i < 10
    ensures DIGITS[i] as int == 48 + i
  {
  }

  lemma HexCodes(i: nat)
    requires i < 16
    ensures UPPER_DIGITS[i] as int == (if i < 10 then 48 + i else 55 + i)
    ensures LOWER_DIGITS[i] as int == (if i < 10 then 48 + i else 87 + i)
  {
  }
}
