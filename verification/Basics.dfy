/** What several modules share: results, options, and white space as the C library sees it. */
module Basics {

  datatype Option<+T> = None | Some(value: T)

  /** `Err` stands for an exception. */
  datatype Result<+T> = Ok(value: T) | Err

  /** `std::isspace` in the C locale. */
  predicate IsSpace(c: char) {
    c == ' ' || '\t' <= c <= '\r'
  }

  predicate AllSpace(s: string) {
    forall c | c in s :: IsSpace(c)
  }
}
