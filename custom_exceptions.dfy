/** The project's own exception classes, as the variants of one error type. */
module CustomExceptions {

  /** `OutdatedError`: an element the scraper relies on is no longer on the page.
      `UnexpectedResultError`: an element expected to be unique is not. */
  datatype Error = OutdatedError | UnexpectedResultError
}
