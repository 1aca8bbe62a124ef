/** What several components share. */
module Basics {

  datatype Option<+T> = None | Some(value: T)

  /** White space between the tokens of a header. */
  predicate IsSpace(c: char): (r: bool)
    ensures r <==> c in " \t\r\n"
  {
    c == ' ' || c == '\t' || c == '\r' || c == '\n'
  }
}
