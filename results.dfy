/** Result shapes shared by the backend handlers and the front end. */
module Results {

  /** A possibly-absent value: stands for a C# nullable reference or `T?`. */
  datatype Option<+T> = None | Some(value: T)

  /** What a minimal-API handler hands back: `Results.Ok(value)` (HTTP 200 with a
      JSON body) or `Results.NotFound()` (HTTP 404 with an empty body). */
  datatype HttpResult<+T> = Ok(value: T) | NotFound

  /** `string.IsNullOrEmpty` on a nullable string. */
  predicate IsNullOrEmpty(s: Option<string>)
  {
    s.None? || s.value == ""
  }
}
