/** A value that may be absent, and a test shared by the regular expressions of the script. */
module Wrappers {
  datatype Option<+T> = None | Some(value: T)

  /** What the period of a regular expression of the script does not match. */
  predicate IsLineBreak(c: char) {
    c == '\n' || c == '\r' || c == '\U{2028}' || c == '\U{2029}'
  }
}
