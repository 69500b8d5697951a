/** Values shared by the shortener's components: the row type of the store
    and the outcome types that stand for C#'s null results and exceptions. */
module Models {

  /** A reference that may be null (`FirstOrDefault` returning null, a null argument). */
  datatype Option<T> = None | Some(value: T)

  /** The exceptions the core can raise, by kind. */
  datatype Failure =
    | ArgumentException(message: string)
    /** `String.Substring` with a start and length that run past the end of the string. */
    | ArgumentOutOfRangeException
    /** The path generator produced no unused path among the draws the model was given. */
    | CandidatesExhausted

  /** Either the value an operation returns or the exception it throws. */
  datatype Result<T> = Ok(value: T) | Err(failure: Failure)

  /** The identifier the store assigns to a row on insert. */
  type Id = int

  /** One row of the store: an original URL, the short path minted for it and the
      full shortened URL (base URL + path) recorded when the row was created. */
  datatype UrlData = UrlData(id: Id, url: string, shortenedUrl: string, shortUrlPath: string)

  /** An ASCII letter or digit, `[A-Za-z0-9]`. */
  predicate IsAsciiLetterOrDigit(c: char) {
    'A' <= c <= 'Z' || 'a' <= c <= 'z' || '0' <= c <= '9'
  }

  const EmptyUrlMessage: string := "Url to shorten cannot be empty"
  const InvalidUrlMessage: string := "This is not a valid Url"
  const UrlNotFoundMessage: string := "Url Not Found"
}
