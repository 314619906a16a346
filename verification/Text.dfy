/** White space as strings.TrimSpace understands it. */
module Text {

  /** The characters with the Unicode property White_Space. */
  predicate Space(c: char) {
    || '\t' <= c <= '\r' || c == ' ' || c == '\U{85}' || c == '\U{A0}' || c == '\U{1680}' || '\U{2000}' <= c <= '\U{200A}'
    || c == '\U{2028}' || c == '\U{2029}' || c == '\U{202F}' || c == '\U{205F}' || c == '\U{3000}'
  }

  /** What strings.TrimSpace reduces to nothing. */
  predicate Blank(s: string) {
    forall c :: c in s ==> Space(c)
  }
}
