/**
 Character classes used by the extraction and review stages.

 Whitespace is Python's full notion of whitespace (the set `str.isspace()`,
 `str.strip()` and the `\s` class of `re` agree on for `str` data).  The
 classes behind `\w`, `str.isalpha()`, `str.isdigit()` and `str.isalnum()`
 are restricted to their ASCII members.
 */
module Chars {

  /** Python whitespace: the code points for which `str.isspace()` holds. */
  predicate IsSpace(c: char) {
    var n := c as int;
    || 0x09 <= n <= 0x0D
    || 0x1C <= n <= 0x20
    || n == 0x85 || n == 0xA0 || n == 0x1680
    || 0x2000 <= n <= 0x200A
    || n == 0x2028 || n == 0x2029 || n == 0x202F || n == 0x205F || n == 0x3000
  }

  predicate NotSpace(c: char) {
    !IsSpace(c)
  }

  predicate IsAsciiLetter(c: char) {
    'a' <= c <= 'z' || 'A' <= c <= 'Z'
  }

  predicate IsAsciiDigit(c: char) {
    '0' <= c <= '9'
  }

  predicate IsAsciiAlnum(c: char) {
    IsAsciiLetter(c) || IsAsciiDigit(c)
  }

  /** A member of the regular-expression class `\w`. */
  predicate IsWordChar(c: char) {
    IsAsciiAlnum(c) || c == '_'
  }

  /** A member of the sentence-boundary class `[.!?]`. */
  predicate IsTerminator(c: char) {
    c == '.' || c == '!' || c == '?'
  }

  predicate NotTerminator(c: char) {
    !IsTerminator(c)
  }

  /** A character that survives into some sentence: neither whitespace nor a terminator. */
  predicate IsSentenceChar(c: char) {
    !IsSpace(c) && !IsTerminator(c)
  }

  /** A member of the class `[^a-zA-Z0-9\s]` that `has_special_chars` searches for. */
  predicate IsSpecial(c: char) {
    !IsAsciiAlnum(c) && !IsSpace(c)
  }

  /** `str.lower()` on one character, restricted to ASCII upper-case letters. */
  function ToLower(c: char): (r: char)
    ensures IsAsciiLetter(c) <==> IsAsciiLetter(r)
    ensures !('A' <= r <= 'Z')
    ensures 'a' <= c <= 'z' || !IsAsciiLetter(c) ==> r == c
  {
    if 'A' <= c <= 'Z' then (c as int + 32) as char else c
  }

  predicate IsAscii(c: char) {
    c as int < 0x80
  }

  /** Number of bytes the UTF-8 encoding of one Unicode scalar value takes. */
  function Utf8Length(c: char): (n: nat)
    ensures 1 <= n <= 4
    ensures n == 1 <==> IsAscii(c)
  {
    var v := c as int;
    if v < 0x80 then 1
    else if v < 0x800 then 2
    else if v < 0x1_0000 then 3
    else 4
  }

  /** Every class that can occur in a word, a field or a sentence excludes whitespace. */
  ghost predicate SpaceFree(p: char -> bool) {
    forall c :: p(c) ==> !IsSpace(c)
  }

  lemma ClassesAreSpaceFree()
    ensures SpaceFree(NotSpace)
    ensures SpaceFree(IsWordChar)
    ensures SpaceFree(IsSentenceChar)
  {
  }
}
