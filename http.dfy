/** The request side of the scraper: how `get` settles on a response
    (main.js lines 46-63), how `etherscan` turns a page into a login or busy
    error (lines 66-74) and which errors `retriableHTTP` retries (line 90). */
module Http {
  import opened Outcomes

  /** The `code` property of a value a promise rejects with: missing or
      null, an HTTP status number, or a Node.js error code name such as
      ECONNRESET (never a numeric string). */
  datatype Code = NoCode | Status(status: int) | Symbolic(name: string)

  /** A value a promise rejects with: null, or an object with a code and a
      message. */
  datatype Thrown = Null | Error(code: Code, message: string)

  /** How one GET ended: a complete response with its status code and
      body, or a transport fault (a connection error, or the error that
      destroying the request on timeout emits). */
  datatype Response = Response(status: int, body: string) | Fault(name: string, message: string)

  /** A parsed page, reduced to what the scraper reads from it: its
      serialised HTML and whether it holds an anchor to /login or /busy. */
  datatype Document = Document(html: string, hasLoginLink: bool, hasBusyLink: bool)

  /** The first status code `get` treats as an error. */
  const ErrorStatus: int := 400

  const NotSignedIn: Thrown := Error(Status(401), "Not signed in to etherscan. Check the session id.")
  const Busy: Thrown := Error(Status(503), "Etherscan is busy. Try again later.")

  /** retriableHTTP: `e?.code >= 500`. A null error, a missing code and a
      non-numeric code all compare false. */
  predicate RetriableHTTP(e: Thrown)
  {
    e.Error? && e.code.Status? && e.code.status >= 500
  }

  /** The promise `get` returns: the body below status 400, otherwise an
      error carrying the status and the body; a transport fault rejects
      with Node's error. */
  function Get(r: Response): (result: Result<string, Thrown>)
    ensures result.Success? <==> r.Response? && r.status < ErrorStatus
    ensures result.Success? ==> result.value == r.body
    ensures r.Response? && result.Failure? ==> result.error == Error(Status(r.status), r.body)
    ensures r.Fault? ==> !RetriableHTTP(result.error)
  {
    match r
    case Response(status, body) =>
      if status < ErrorStatus then Success(body) else Failure(Error(Status(status), body))
    case Fault(name, message) => Failure(Error(Symbolic(name), message))
  }

  /** `etherscan(path)`: GET the page, parse it, then reject with 401 if it
      links to the login page, else with 503 if it links to the busy page,
      else resolve with the document. The parser is a parameter. */
  function Etherscan(r: Response, parse: string -> Document): (result: Result<Document, Thrown>)
    ensures result.Success? <==>
      Get(r).Success? && !parse(r.body).hasLoginLink && !parse(r.body).hasBusyLink
    ensures result.Success? ==> result.value == parse(r.body)
    ensures Get(r).Success? && parse(r.body).hasLoginLink ==> result == Failure(NotSignedIn)
    ensures Get(r).Success? && !parse(r.body).hasLoginLink && parse(r.body).hasBusyLink ==>
      result == Failure(Busy)
    ensures Get(r).Failure? ==> result == Failure(Get(r).error)
  {
    match Get(r)
    case Failure(e) => Failure(e)
    case Success(body) =>
      var dom := parse(body);
      if dom.hasLoginLink then Failure(NotSignedIn)
      else if dom.hasBusyLink then Failure(Busy)
      else Success(dom)
  }

  /** A failed status is retried exactly when it is a server fault: 4xx
      responses never are, 5xx responses always are. */
  lemma GetRetriedOnlyOnServerFault(r: Response)
    requires Get(r).Failure?
    ensures RetriableHTTP(Get(r).error) <==> r.Response? && r.status >= 500
  {
  }

  /** Which failures of `etherscan` the scraper retries: server faults and
      the busy page, never the login page, even when the busy anchor is
      present as well. */
  lemma EtherscanRetriable(r: Response, parse: string -> Document)
    requires Etherscan(r, parse).Failure?
    ensures RetriableHTTP(Etherscan(r, parse).error) <==>
      r.Response? && (r.status >= 500 || (r.status < ErrorStatus && !parse(r.body).hasLoginLink))
  {
  }
}
