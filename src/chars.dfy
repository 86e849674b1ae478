/** Character classes used by the regular expressions of the source. */
module Chars {

  /** Python's `\s` on str patterns: exactly the characters for which `str.isspace()` holds. */
  predicate IsSpace(c: char)
  {
    || c == ' '
    || '\t' <= c <= '\r'                 // \t \n \v \f \r
    || '\U{1C}' <= c <= '\U{1F}'         // file, group, record and unit separators
    || c == '\U{85}' || c == '\U{A0}'
    || c == '\U{1680}'
    || '\U{2000}' <= c <= '\U{200A}'
    || c == '\U{2028}' || c == '\U{2029}' || c == '\U{202F}' || c == '\U{205F}' || c == '\U{3000}'
  }

  predicate IsAsciiLetter(c: char)
  {
    'a' <= c <= 'z' || 'A' <= c <= 'Z'
  }

  predicate IsAsciiDigit(c: char)
  {
    '0' <= c <= '9'
  }

  /** `[a-zA-Z_]`: the first character of a template name. */
  predicate IsNameStart(c: char)
  {
    IsAsciiLetter(c) || c == '_'
  }

  /** `[a-zA-Z0-9_]`: the later characters of a template name. */
  predicate IsNameChar(c: char)
  {
    IsNameStart(c) || IsAsciiDigit(c)
  }

  /**
   * Python's Unicode `\w`, restricted to ASCII word characters and the letters of the Cyrillic
   * block: U+0482 (a symbol) and U+0483-U+0489 (combining marks) are not word characters.
   */
  predicate IsWordChar(c: char)
  {
    IsNameChar(c) || '\U{400}' <= c <= '\U{481}' || '\U{48A}' <= c <= '\U{4FF}'
  }

  /** The set of characters of a string. */
  function Elems<T>(s: seq<T>): (r: set<T>)
    ensures forall i :: 0 <= i < |s| ==> s[i] in r
    ensures forall x :: x in r ==> x in s
  {
    set x | x in s
  }

  /** Appending an element adds it to the set of elements. */
  lemma ElemsSnoc<T>(s: seq<T>, x: T)
    ensures Elems(s + [x]) == Elems(s) + {x}
  {
  }

  /** Pairwise distinct elements (the elements of a Python set listed once each). */
  predicate Distinct<T(==)>(s: seq<T>)
  {
    forall i, j :: 0 <= i < j < |s| ==> s[i] != s[j]
  }
}
