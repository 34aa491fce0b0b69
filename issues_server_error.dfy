/**
 * `IssuesServerError`: the checked exception the controllers throw for a
 * client error, and the JSON body (a string-to-string map) built from it.
 */
module IssuesServerErrors {
  import opened Wrappers
  import opened Text

  /** The body for an error with `code` and `message`; `trace` is the stack
      trace of the cause, present only when a cause was supplied. */
  function ErrorBody(code: int, message: string, trace: Option<string>): map<string, string>
  {
    var m := map["code" := DecimalString(code), "message" := message];
    if trace.Some? then m["exception" := trace.value] else m
  }

  /** The body has the keys "code" and "message", plus "exception" exactly
      when there is a cause; "code" reads back as the numeric code. */
  lemma ErrorBodyShape(code: int, message: string, trace: Option<string>)
    ensures ErrorBody(code, message, trace).Keys ==
            {"code", "message"} + (if trace.Some? then {"exception"} else {})
    ensures ErrorBody(code, message, trace)["message"] == message
    ensures ParseDecimal(ErrorBody(code, message, trace)["code"]) == Some(code)
    ensures "exception" in ErrorBody(code, message, trace) <==> trace.Some?
    ensures trace.Some? ==> ErrorBody(code, message, trace)["exception"] == trace.value
  {
    DecimalRoundTrip(code);
  }

  /** Two bodies are equal only if they carry the same code and message:
      a client can tell the errors apart by the body alone. */
  lemma ErrorBodyDetermines(c1: int, m1: string, t1: Option<string>, c2: int, m2: string, t2: Option<string>)
    requires ErrorBody(c1, m1, t1) == ErrorBody(c2, m2, t2)
    ensures c1 == c2 && m1 == m2 && t1 == t2
  {
    var b := ErrorBody(c1, m1, t1);
    assert b["code"] == DecimalString(c1) == DecimalString(c2);
    DecimalStringInjective(c1, c2);
    ErrorBodyShape(c1, m1, t1);
    ErrorBodyShape(c2, m2, t2);
    if t1.Some? {
      assert b["exception"] == t1.value == t2.value;
    }
  }

  class IssuesServerError {
    const code: int
    const message: string
    /** `ExceptionUtils.getStackTrace(getCause())` when the cause is not null;
        the text itself is left opaque. */
    const cause: Option<string>

    /** `IssuesServerError(int code, String message)` */
    constructor (code: int, message: string)
      ensures this.code == code && this.message == message && this.cause == None
    {
      this.code := code;
      this.message := message;
      this.cause := None;
    }

    /** `IssuesServerError(int code, String message, Exception exception)`;
        a null exception leaves the cause null. */
    constructor WithCause(code: int, message: string, cause: Option<string>)
      ensures this.code == code && this.message == message && this.cause == cause
    {
      this.code := code;
      this.message := message;
      this.cause := cause;
    }

    /** `getBodyErrorMessage()`: fills the map one entry at a time. */
    method GetBodyErrorMessage() returns (body: map<string, string>)
      ensures body == ErrorBody(code, message, cause)
      ensures "code" in body && ParseDecimal(body["code"]) == Some(code)
      ensures "message" in body && body["message"] == message
      ensures "exception" in body <==> cause.Some?
      ensures body.Keys <= {"code", "message", "exception"}
    {
      body := map[];
      body := body["code" := DecimalString(code)];
      body := body["message" := message];
      if cause.Some? {
        body := body["exception" := cause.value];
      }
      ErrorBodyShape(code, message, cause);
    }
  }

  /** `throw new IssuesServerError(code, message)` caught by the controller's
      `catch (IssuesServerError e)`: status 400 with the error's body. */
  method BadRequest<T>(code: int, message: string) returns (r: Reply<T>)
    ensures r.Fail? && r.status == BAD_REQUEST
    ensures r.body == ErrorBody(code, message, None)
    ensures ParseDecimal(r.body["code"]) == Some(code) && r.body["message"] == message
  {
    var error := new IssuesServerError(code, message);
    var body := error.GetBodyErrorMessage();
    r := Fail(BAD_REQUEST, body);
  }
}
