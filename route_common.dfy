/** What the three Next.js fallback routes share: request fields and responses. */
module RouteCommon {
  /** A JSON request field as the routes see it after destructuring. */
  datatype Field = Missing | Str(s: string) | NonString

  /** `!x || typeof x !== "string"` fails: a string that is not empty. */
  predicate IsGiven(f: Field) {
    f.Str? && f.s != ""
  }

  /**
   * A route's answer: an error status, the backend's data passed on unchanged, or a
   * locally generated result marked `source: "fallback"`.
   */
  datatype Response<D> =
    | Failure(status: nat, error: string)
    | Forwarded(data: D)
    | Fallback(result: string, source: string, message: string)

  const InternalError := "Internal server error"
  const FallbackSource := "fallback"

  /**
   * A body that is not JSON makes `request.json()` throw, and a `null` body makes its
   * destructuring throw.
   */
  function BadBody<D>(): (r: Response<D>)
    ensures r.Failure? && r.status == 500
  {
    Failure(500, InternalError)
  }
}
