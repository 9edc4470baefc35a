/**
 * Character classes of ECMAScript regular expressions, as the YouTube URL
 * pattern uses them. A `char` here is a Unicode scalar value; on text
 * inside the Basic Multilingual Plane that is one JavaScript code unit.
 */
module Text {

  /** ECMAScript LineTerminator: the characters that `.` does not match. */
  predicate IsLineTerminator(c: char) {
    c == '\n' || c == '\r' || c == '\U{2028}' || c == '\U{2029}'
  }

  /** ECMAScript `\s`: WhiteSpace (TAB, VT, FF, ZWNBSP and the Zs category) or LineTerminator. */
  predicate IsWhitespace(c: char) {
    || IsLineTerminator(c)
    || c == '\t' || c == '\U{000B}' || c == '\U{000C}' || c == '\U{FEFF}'
    || c == ' ' || c == '\U{00A0}' || c == '\U{1680}'
    || ('\U{2000}' <= c <= '\U{200A}')
    || c == '\U{202F}' || c == '\U{205F}' || c == '\U{3000}'
  }

  /**
   * The comparison key of the `i` flag (without `u`), restricted to what
   * matters here: ASCII letters compare without case, and no non-ASCII
   * character is ever folded onto an ASCII one.
   */
  function Fold(c: char): (f: char)
    ensures 'A' <= c <= 'Z' ==> f as int == c as int + 32
    ensures !('A' <= c <= 'Z') ==> f == c
  {
    if 'A' <= c <= 'Z' then (c as int + 32) as char else c
  }

  /** Folding never produces an upper-case letter, and only letters change. */
  lemma FoldOnto(c: char, l: char)
    requires Fold(c) == l
    ensures !('a' <= l <= 'z') ==> c == l
    ensures 'a' <= l <= 'z' ==> c == l || c as int == l as int - 32
  {
  }
}
