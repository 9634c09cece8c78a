/** Character classes that several scanners share. */
module Characters {
  predicate IsDigit(c: char) { '0' <= c <= '9' }

  /** White space and line ends: what `trim` removes (section 22.1.3.32 of ECMA-262) and `\s` matches. */
  predicate IsSpace(c: char) {
    || '\t' <= c <= '\r' || c == ' ' || c == '\U{00A0}' || c == '\U{1680}'
    || '\U{2000}' <= c <= '\U{200A}' || c == '\U{2028}' || c == '\U{2029}'
    || c == '\U{202F}' || c == '\U{205F}' || c == '\U{3000}' || c == '\U{FEFF}'
  }

  const SPACES: set<int> := {
    0x9, 0xA, 0xB, 0xC, 0xD, 0x20, 0xA0, 0x1680, 0x2000, 0x2001, 0x2002, 0x2003, 0x2004, 0x2005, 0x2006,
    0x2007, 0x2008, 0x2009, 0x200A, 0x2028, 0x2029, 0x202F, 0x205F, 0x3000, 0xFEFF }

  /** White space and line terminators, one by one (sections 12.2 and 12.3 of ECMA-262). */
  lemma SpacesListed(c: char)
    ensures IsSpace(c) <==> c as int in SPACES
  {
  }

  /** The `length` of a text: characters beyond the basic plane count twice. */
  function Utf16Length(t: string): nat {
    if t == "" then 0 else (if t[0] <= '\U{FFFF}' then 1 else 2) + Utf16Length(t[1..])
  }
}
