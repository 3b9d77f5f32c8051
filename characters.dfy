/** Character classes shared by the dimension splitter and the number
    conversion. */
module Characters {
  /** An ASCII decimal digit: `\d` of the dimension pattern, and the digits
      `float()` accepts in the modelled grammar. */
  predicate IsDigit(c: char) {
    '0' <= c <= '9'
  }
}
