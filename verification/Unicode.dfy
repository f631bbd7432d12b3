/** What the program needs to know about Unicode: any tables that are right about ASCII. */
module Unicode {

  /** Character classes of the Unicode tables. */
  datatype Alphabet = Alphabet(
    isSpace: char -> bool,
    isLetter: char -> bool,
    isDigit: char -> bool,
    upper: char -> char)

  function AsciiUpper(c: char): char {
    if 'a' <= c <= 'z' then c - 'a' + 'A' else c
  }

  predicate AsciiLetter(c: char) {
    'A' <= AsciiUpper(c) <= 'Z'
  }

  predicate AsciiSpace(c: char) {
    c == ' ' || '\t' <= c <= '\r'
  }

  /** Any tables will do as long as they are right about ASCII. */
  ghost predicate ValidAlphabet(u: Alphabet) {
    && (forall c | c < '\U{80}' :: u.isSpace(c) == AsciiSpace(c))
    && (forall c | c < '\U{80}' :: u.isLetter(c) == AsciiLetter(c))
    && (forall c | c < '\U{80}' :: u.isDigit(c) == ('0' <= c <= '9'))
    && (forall c | c < '\U{80}' :: u.upper(c) == AsciiUpper(c))
  }

  function Upper(u: Alphabet, s: string): (r: string)
    ensures |r| == |s|
  {
    seq(|s|, k requires 0 <= k < |s| => u.upper(s[k]))
  }

  /** Upper-casing twice is upper-casing once. */
  ghost predicate Stable(u: Alphabet) {
    forall c :: u.upper(u.upper(c)) == u.upper(c)
  }

  lemma UpperTwice(u: Alphabet, s: string)
    requires Stable(u)
    ensures Upper(u, Upper(u, s)) == Upper(u, s)
  {
  }
}
