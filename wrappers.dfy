/** A Java reference that may be null, and the reply a REST endpoint sends back. */
module Wrappers {

  /** `None` stands for a Java `null`. */
  datatype Option<+T> = None | Some(value: T)

  /**
   * What a controller method hands back to the web layer:
   * - `Ok`: a success status (200, 201 or 204) with its body;
   * - `Fail`: an error status with the map that `IssuesServerError` builds;
   * - `Plain`: an error status with a plain-text (possibly empty) body.
   */
  datatype Reply<+T> =
    | Ok(status: int, value: T)
    | Fail(status: int, body: map<string, string>)
    | Plain(status: int, text: string)

  const OK := 200
  const CREATED := 201
  const NO_CONTENT := 204
  const BAD_REQUEST := 400
  const NOT_FOUND := 404
  const CONFLICT := 409
}
