/** Character classes the validation engine relies on: the whitespace that
    `String.prototype.trim` strips and the regular-expression class `\s`
    matches, ASCII digits (`\d`), and the Hebrew letters of the range
    `[א-ת]`. */
module Text {

  /** ECMAScript WhiteSpace and LineTerminator code points. `trim()` and the
      regular-expression class `\s` use the same set. */
  predicate IsWs(c: char)
  {
    c == '\t' || c == '\n' || c == '\U{000B}' || c == '\U{000C}' || c == '\r'
    || c == ' ' || c == '\U{00A0}' || c == '\U{1680}'
    || ('\U{2000}' <= c <= '\U{200A}')
    || c == '\U{2028}' || c == '\U{2029}' || c == '\U{202F}' || c == '\U{205F}'
    || c == '\U{3000}' || c == '\U{FEFF}'
  }

  /** `!value || value.trim() === ''`: the value is empty or made of
      whitespace only. */
  predicate Blank(s: string)
  {
    forall i :: 0 <= i < |s| ==> IsWs(s[i])
  }

  /** `\d` without the `u` flag: the ASCII digits only. */
  predicate IsDigit(c: char)
  {
    '0' <= c <= '9'
  }

  predicate AllDigits(s: string)
  {
    forall i :: 0 <= i < |s| ==> IsDigit(s[i])
  }

  /** The character range `[א-ת]`: alef (U+05D0) to tav (U+05EA). */
  predicate IsHebrewLetter(c: char)
  {
    '\U{05D0}' <= c <= '\U{05EA}'
  }
}
