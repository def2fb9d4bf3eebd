/** Blank space as Python's `str.strip`, `str.isspace` and `\s` know it. */
module Text {

  predicate IsSpace(c: char) {
    || c == ' ' || '\t' <= c <= '\r' || '\U{001C}' <= c <= '\U{001F}' || c == '\U{0085}' || c == '\U{00A0}'
    || c == '\U{1680}' || '\U{2000}' <= c <= '\U{200A}' || c == '\U{2028}' || c == '\U{2029}'
    || c == '\U{202F}' || c == '\U{205F}' || c == '\U{3000}'
  }

  const SPACES :=
    " \t\n\U{000B}\U{000C}\r\U{001C}\U{001D}\U{001E}\U{001F}\U{0085}\U{00A0}\U{1680}\U{2000}\U{2001}\U{2002}\U{2003}\U{2004}"
    + "\U{2005}\U{2006}\U{2007}\U{2008}\U{2009}\U{200A}\U{2028}\U{2029}\U{202F}\U{205F}\U{3000}"

  /** The characters, one by one. */
  lemma SpaceIs(c: char)
    ensures IsSpace(c) <==> c in SPACES
  {
  }

  function StripLeft(s: string): string { if s != "" && IsSpace(s[0]) then StripLeft(s[1..]) else s }

  function StripRight(s: string): string { if s != "" && IsSpace(s[|s| - 1]) then StripRight(s[..|s| - 1]) else s }

  function Strip(s: string): string { StripRight(StripLeft(s)) }

  lemma StripSpace(s: string)
    ensures StripLeft([' '] + s) == StripLeft(s)
  {
    assert ([' '] + s)[1..] == s;
  }
}
