/** The characters that several of the formats share. */
module Characters {

  const NEWLINE: char := '\n'

  /** The white space that both Go and JavaScript trim. */
  predicate IsCommonSpace(c: char) {
    || c in " \t\n\r"
    || c in {'\U{0B}', '\U{0C}', '\U{A0}', '\U{1680}', '\U{2028}', '\U{2029}', '\U{202F}', '\U{205F}', '\U{3000}'}
    || '\U{2000}' <= c <= '\U{200A}'
  }
}
