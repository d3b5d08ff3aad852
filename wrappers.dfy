/** Option, Result and Outcome values, and the failures the schema inference can end in. */
module Wrappers {

  /** A value that may be absent (Python's `None`). */
  datatype Option<+T> = None | Some(value: T)

  /** Either a value or the failure that aborted the computation (a raised exception). */
  datatype Result<+T, +E> = Ok(value: T) | Err(error: E)

  /** Success without a value, or a failure. */
  datatype Outcome<+E> = Pass | Fail(error: E)

  /** The conditions under which the documentation scraper stops with an exception. */
  datatype Error =
    /** An `Array[ Object ]` type cell whose link (or its `href`) is missing. */
    | MissingArrayLink
    /** A non-empty group heading with no word in it: `s[0]` of an empty word list. */
    | GroupNameWithoutWords
    /** A schema name that is already in the registry: the merge assertion fails. */
    | NameCollision
}
