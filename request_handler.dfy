/** The `/images/download` handler (`routes/images/request_handler.go`):
    query-parameter parsing and the translation of errors to HTTP statuses.
    The controller it calls is a parameter: what it returns for the parsed
    `(amount, threads)` is all the handler depends on. */
module RequestHandler {
  import opened Basics
  import opened Decimal
  import opened Errors

  /** `url.Values`: each parameter name with the values it was given, in order. */
  type Query = map<string, seq<string>>

  const DefaultAmount: nat := 10
  const DefaultThreads: nat := 1

  const StatusOK := 200
  const StatusBadRequest := 400
  const StatusNotFound := 404
  const StatusInternalServerError := 500

  /** `Request.URL.Query()` only lists a name that occurs at least once, which
      is what makes `parameters[name][0]` safe. */
  predicate WellFormed(q: Query) {
    forall k :: k in q ==> |q[k]| > 0
  }

  /** A parameter is acceptable when it is absent or its first value parses. */
  predicate ValidParameter(q: Query, name: string)
    requires WellFormed(q)
  {
    name !in q || IsUint32(q[name][0])
  }

  /** The number a valid parameter stands for, or its default when absent. */
  function ParameterValue(q: Query, name: string, default: nat): nat
    requires WellFormed(q) && ValidParameter(q, name)
  {
    if name in q then Value(q[name][0]) else default
  }

  function ReadErrorPrefix(name: string): string {
    "Error reading '" + name + "' parameter: "
  }

  /** One `if ok { ParseUint(param[0], 10, 32) ... }` block of `getImagesParameters`. */
  function ReadParameter(q: Query, name: string, default: nat): (r: Result<nat, AppError>)
    requires WellFormed(q)
    ensures r.Ok? <==> ValidParameter(q, name)
    ensures r.Ok? ==> r.value == ParameterValue(q, name, default)
    ensures r.Fail? ==> r.error.InvalidParameters? && ReadErrorPrefix(name) <= r.error.err
  {
    if name !in q then Ok(default)
    else match ParseUint32(q[name][0])
      case Ok(v) => Ok(v)
      case Fail(e) => Fail(InvalidParameters(ReadErrorPrefix(name) + e.Message()))
  }

  /** `getImagesParameters`: `amount` (default 10) is read before `threads`
      (default 1); there is no range check, so 0 is accepted for both. */
  function GetImagesParameters(q: Query): (r: Result<(nat, nat), AppError>)
    requires WellFormed(q)
    ensures r.Ok? <==> ValidParameter(q, "amount") && ValidParameter(q, "threads")
    ensures r.Ok? ==> r.value == (ParameterValue(q, "amount", DefaultAmount), ParameterValue(q, "threads", DefaultThreads))
    ensures r.Ok? ==> r.value.0 <= MaxUint32 && r.value.1 <= MaxUint32
    ensures !ValidParameter(q, "amount") ==>
              r.Fail? && r.error.InvalidParameters? && ReadErrorPrefix("amount") <= r.error.err
    ensures ValidParameter(q, "amount") && !ValidParameter(q, "threads") ==>
              r.Fail? && r.error.InvalidParameters? && ReadErrorPrefix("threads") <= r.error.err
  {
    match ReadParameter(q, "amount", DefaultAmount)
    case Fail(e) => Fail(e)
    case Ok(amount) =>
      match ReadParameter(q, "threads", DefaultThreads)
      case Fail(e) => Fail(e)
      case Ok(threads) => Ok((amount, threads))
  }

  /** The switch applied to a parameter error: 400 for invalid parameters, 500 otherwise. */
  function ParameterErrorStatus(e: AppError): (status: int)
    ensures status == StatusBadRequest <==> e.InvalidParameters?
    ensures status == StatusInternalServerError <==> !e.InvalidParameters?
  {
    match e
    case InvalidParameters(_) => StatusBadRequest
    case _ => StatusInternalServerError
  }

  /** The switch applied to a controller error: 400, 404, or 500 for everything else. */
  function ControllerErrorStatus(e: AppError): (status: int)
    ensures status == StatusBadRequest <==> e.InvalidParameters?
    ensures status == StatusNotFound <==> e.NotFound?
    ensures status == StatusInternalServerError <==> !e.InvalidParameters? && !e.NotFound?
  {
    match e
    case InvalidParameters(_) => StatusBadRequest
    case NotFound(_, _) => StatusNotFound
    case _ => StatusInternalServerError
  }

  /** What the handler answers: an error with its status, or the URL list (200). */
  datatype Response =
    | ErrorResponse(status: int, error: AppError)
    | UrlsResponse(urls: seq<string>)
  {
    function Status(): int {
      if ErrorResponse? then status else StatusOK
    }
  }

  /** `GetImages` (the handler) with the controller's answer given as a function
      of the parsed parameters. */
  function HandleGetImages(q: Query, controller: (nat, nat) -> Result<seq<string>, AppError>): (resp: Response)
    requires WellFormed(q)
    ensures resp.UrlsResponse? <==>
              GetImagesParameters(q).Ok? && controller(GetImagesParameters(q).value.0, GetImagesParameters(q).value.1).Ok?
    ensures resp.UrlsResponse? ==>
              resp.urls == controller(GetImagesParameters(q).value.0, GetImagesParameters(q).value.1).value
    ensures resp.Status() in {StatusOK, StatusBadRequest, StatusNotFound, StatusInternalServerError}
  {
    match GetImagesParameters(q)
    case Fail(e) => ErrorResponse(ParameterErrorStatus(e), e)
    case Ok((amount, threads)) =>
      match controller(amount, threads)
      case Fail(e) => ErrorResponse(ControllerErrorStatus(e), e)
      case Ok(urls) => UrlsResponse(urls)
  }

  /** When parsing fails the controller is never consulted, and since parsing
      only produces invalid-parameter errors the answer is always 400. */
  lemma BadParametersSkipController(q: Query, c1: (nat, nat) -> Result<seq<string>, AppError>,
                                    c2: (nat, nat) -> Result<seq<string>, AppError>)
    requires WellFormed(q)
    requires !ValidParameter(q, "amount") || !ValidParameter(q, "threads")
    ensures HandleGetImages(q, c1) == HandleGetImages(q, c2)
    ensures HandleGetImages(q, c1).Status() == StatusBadRequest
    ensures HandleGetImages(q, c1).error.Message() == InvalidParameterPrefix + GetImagesParameters(q).error.err
  {
  }

  /** The parsed values reach the controller unchanged, and a controller error
      is answered with the status its kind maps to. */
  lemma ControllerErrorAnswered(q: Query, controller: (nat, nat) -> Result<seq<string>, AppError>, e: AppError)
    requires WellFormed(q) && ValidParameter(q, "amount") && ValidParameter(q, "threads")
    requires controller(ParameterValue(q, "amount", DefaultAmount), ParameterValue(q, "threads", DefaultThreads)) == Fail(e)
    ensures HandleGetImages(q, controller) == ErrorResponse(ControllerErrorStatus(e), e)
  {
  }
}
