/** Character classes as the regular expressions and `String.prototype.trim` of
    app.js see them (ECMAScript, non-Unicode regex mode). */
module Chars {

  /** The no-break space, U+00A0. */
  const Nbsp: char := '\U{00A0}'

  /** ECMAScript WhiteSpace or LineTerminator: the set matched by `\s` and removed by `trim`. */
  predicate IsSpace(c: char) {
    || c == '\t' || c == '\n' || c == '\U{000B}' || c == '\U{000C}' || c == '\r' || c == ' '
    || c == '\U{00A0}' || c == '\U{1680}' || ('\U{2000}' <= c <= '\U{200A}')
    || c == '\U{2028}' || c == '\U{2029}' || c == '\U{202F}' || c == '\U{205F}'
    || c == '\U{3000}' || c == '\U{FEFF}'
  }

  predicate IsLineBreak(c: char) {
    c == '\r' || c == '\n'
  }

  /** `[^\S\r\n]`: whitespace other than carriage return and line feed. */
  predicate IsHSpace(c: char) {
    IsSpace(c) && !IsLineBreak(c)
  }

  predicate IsDigit(c: char) {
    '0' <= c <= '9'
  }

  predicate IsUpper(c: char) {
    'A' <= c <= 'Z'
  }

  predicate IsLower(c: char) {
    'a' <= c <= 'z'
  }

  /** `\w` without the `u` flag: `[A-Za-z0-9_]`. */
  predicate IsWordChar(c: char) {
    IsUpper(c) || IsLower(c) || IsDigit(c) || c == '_'
  }

  function ToUpper(c: char): (u: char)
    ensures IsLower(c) ==> IsUpper(u)
    ensures !IsLower(c) ==> u == c
  {
    if IsLower(c) then (c as int - 32) as char else c
  }

  /** Case-insensitive comparison with a pattern letter under the `i` flag without `u`:
      characters are canonicalised by upper-casing, and a non-ASCII character never
      canonicalises to an ASCII one, so only the ASCII pair of a letter matches it. */
  predicate CiEq(c: char, lit: char) {
    c == lit || c == ToUpper(lit)
  }

  /** The character classes the patterns quantify over. */
  datatype CharClass = Space | HSpace | Digit | Upper

  predicate InClass(c: char, k: CharClass) {
    match k
    case Space => IsSpace(c)
    case HSpace => IsHSpace(c)
    case Digit => IsDigit(c)
    case Upper => IsUpper(c)
  }
}
