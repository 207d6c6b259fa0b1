/** Blank strings, as Python's `str.strip` sees them. */
module Text {

  /** The characters that `str.strip` removes. */
  predicate IsWhitespace(c: char) {
    || '\t' <= c <= '\r' || '\U{1C}' <= c <= ' ' || c == '\U{85}' || c == '\U{A0}' || c == '\U{1680}'
    || '\U{2000}' <= c <= '\U{200A}' || c == '\U{2028}' || c == '\U{2029}' || c == '\U{202F}'
    || c == '\U{205F}' || c == '\U{3000}'
  }

  /** There are twenty-nine of them. */
  lemma WhitespaceIsListed(c: char)
    ensures IsWhitespace(c)
            <==> c in {
              '\t', '\n', '\U{B}', '\U{C}', '\r', '\U{1C}', '\U{1D}', '\U{1E}', '\U{1F}',
              ' ', '\U{85}', '\U{A0}', '\U{1680}', '\U{2000}', '\U{2001}', '\U{2002}', '\U{2003}', '\U{2004}',
              '\U{2005}', '\U{2006}', '\U{2007}', '\U{2008}', '\U{2009}', '\U{200A}', '\U{2028}', '\U{2029}', '\U{202F}',
              '\U{205F}', '\U{3000}'}
  {
  }

  predicate Blank(s: string) {
    s == "" || (IsWhitespace(s[0]) && Blank(s[1..]))
  }

  /** A string is blank exactly when all of its characters are whitespace. */
  lemma {:induction false} BlankMeansAllWhitespace(s: string)
    ensures Blank(s) <==> forall i | 0 <= i < |s| :: IsWhitespace(s[i])
    decreases |s|
  {
    if s != "" {
      BlankMeansAllWhitespace(s[1..]);
      assert forall i | 0 < i < |s| :: s[i] == s[1..][i - 1];
    }
  }
}
