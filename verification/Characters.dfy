/** Character classes of Go's unicode package, and trimming by a class as strings.TrimFunc does. */
module Characters {
  /** unicode.IsSpace. */
  predicate IsUnicodeSpace(c: char) {
    '\t' <= c <= '\r' || c == ' ' || c == '\U{85}' || c == '\U{A0}' || c == '\U{1680}' || '\U{2000}' <= c <= '\U{200A}'
    || c == '\U{2028}' || c == '\U{2029}' || c == '\U{202F}' || c == '\U{205F}' || c == '\U{3000}'
  }

  /** The twenty-five characters with the Unicode property White_Space. */
  lemma UnicodeSpaces(c: char)
    ensures IsUnicodeSpace(c) <==> (
      c in "\t\n\U{0B}\U{0C}\r \U{85}\U{A0}\U{1680}\U{2000}\U{2001}\U{2002}\U{2003}\U{2004}\U{2005}\U{2006}\U{2007}"
      + "\U{2008}\U{2009}\U{200A}\U{2028}\U{2029}\U{202F}\U{205F}\U{3000}")
  {
  }

  function TrimLeft(s: string, cut: char -> bool): (r: string)
    ensures |r| <= |s| && (r == "" || !cut(r[0]))
    ensures s == "" || !cut(s[0]) ==> r == s
    ensures forall c <- r :: c in s
  {
    if s != "" && cut(s[0]) then TrimLeft(s[1..], cut) else s
  }

  function TrimRight(s: string, cut: char -> bool): (r: string)
    ensures r <= s && (r == "" || !cut(r[|r| - 1]))
    ensures s == "" || !cut(s[|s| - 1]) ==> r == s
  {
    if s != "" && cut(s[|s| - 1]) then TrimRight(s[..|s| - 1], cut) else s
  }
}
