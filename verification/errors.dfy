/** The library's exception hierarchy as one error datatype. Each constructor
    stands for the exception class raised and the facts its message reports. */
module Errors {
  import opened Common

  /** Why a station lookup failed (`StationLookupError`). */
  datatype LookupFailure =
    | EmptyPattern
    | NotFound(pattern: string)
      /** More than one match: the match count and the names of at most the
          first five matches, in order. */
    | Ambiguous(pattern: string, count: nat, names: seq<Option<string>>)
    | MissingEva

  /** Why a departure query was rejected before any fetch (`ValueError`). */
  datatype ValidationFailure = EmptyStationId | InvertedInterval

  datatype Error =
      /** `AuthenticationError`: credentials missing at construction, or the
          server answered 401 / 403. */
    | Authentication(rejectedWith: Option<int>)
      /** `RateLimitError`: the server answered 429. */
    | RateLimit
      /** `BahnAPIError` for any other 4xx / 5xx status, with the first 200
          characters of the body. */
    | Upstream(status: int, snippet: string)
    | StationLookup(failure: LookupFailure)
    | Validation(invalid: ValidationFailure)
      /** The XML reader rejected a non-empty payload. */
    | MalformedPayload
      /** A Python `TypeError` escaping from the library. */
    | TypeMismatch
}
