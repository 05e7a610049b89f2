/**
 * Character classes the SRL lexer relies on (the `SrlChar` extension of `char`),
 * together with the ASCII letter/digit tests and the ASCII lower-casing the lexer
 * takes from the host language.
 */
module SrlChar {

  /** Separators: space, comma, newline and tab. */
  predicate IsSrlWhitespace(c: char) {
    c == ' ' || c == ',' || c == '\n' || c == '\t'
  }

  predicate IsGroupStart(c: char) {
    c == '('
  }

  predicate IsGroupEnd(c: char) {
    c == ')'
  }

  predicate IsGroupChar(c: char) {
    IsGroupStart(c) || IsGroupEnd(c)
  }

  predicate IsSpace(c: char) {
    c == ' '
  }

  predicate IsQuote(c: char) {
    c == '\'' || c == '"'
  }

  predicate IsBackslash(c: char) {
    c == '\\'
  }

  /** `ch.is_ascii() && ch.is_alphabetic()` */
  predicate IsAsciiLetter(c: char) {
    'a' <= c <= 'z' || 'A' <= c <= 'Z'
  }

  /** `ch.is_digit(10)`, which only accepts the ASCII digits */
  predicate IsAsciiDigit(c: char) {
    '0' <= c <= '9'
  }

  /** A string made of separators only. */
  predicate AllSeparators(s: string) {
    forall i | 0 <= i < |s| :: IsSrlWhitespace(s[i])
  }

  /** `ch.to_ascii_lowercase()` */
  function ToAsciiLower(c: char): (r: char)
    ensures IsAsciiLetter(c) ==> 'a' <= r <= 'z'
    ensures 'A' <= c <= 'Z' ==> r as int == c as int + 32
    ensures !('A' <= c <= 'Z') ==> r == c
  {
    if 'A' <= c <= 'Z' then (c as int + 32) as char else c
  }

  /** The members of each class, written out. */
  lemma ClassMembers(c: char)
    ensures IsSrlWhitespace(c) <==> c in {' ', ',', '\n', '\t'}
    ensures IsQuote(c) <==> c in {'\'', '"'}
    ensures IsBackslash(c) <==> c == '\\'
    ensures IsSpace(c) <==> c == ' '
  {
  }

  /** A space is one of the separators. */
  lemma SpaceIsSeparator(c: char)
    ensures IsSpace(c) ==> IsSrlWhitespace(c)
  {
  }

  /** The group characters are exactly the two parentheses, start or end. */
  lemma GroupCharIsStartOrEnd(c: char)
    ensures IsGroupChar(c) <==> (c == '(' || c == ')')
    ensures IsGroupChar(c) <==> (IsGroupStart(c) || IsGroupEnd(c))
    ensures !(IsGroupStart(c) && IsGroupEnd(c))
  {
  }

  /**
   * Separators, group characters, quotes and the backslash are pairwise
   * disjoint, and none of them is an ASCII letter or digit.
   */
  lemma ClassesDisjoint(c: char)
    ensures !(IsSrlWhitespace(c) && IsGroupChar(c))
    ensures !(IsSrlWhitespace(c) && IsQuote(c))
    ensures !(IsSrlWhitespace(c) && IsBackslash(c))
    ensures !(IsGroupChar(c) && IsQuote(c))
    ensures !(IsGroupChar(c) && IsBackslash(c))
    ensures !(IsQuote(c) && IsBackslash(c))
    ensures (IsSrlWhitespace(c) || IsGroupChar(c) || IsQuote(c) || IsBackslash(c)) ==>
              !IsAsciiLetter(c) && !IsAsciiDigit(c)
    ensures !(IsAsciiLetter(c) && IsAsciiDigit(c))
  {
  }
}
