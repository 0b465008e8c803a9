/**
 * Resource fetching: the response-type names, the request record, and the
 * dispatch on the URL scheme. URL parsing and file reading belong to code
 * outside this model and are passed in as functions.
 */
module Fetch {
  import opened Parsing

  datatype ResponseType = Basic | Cors | Default | Error

  /** `Display` for `ResponseType`; reading the name back gives the same response type. */
  function ResponseTypeName(t: ResponseType): (s: string)
    ensures ParseResponseType(s) == Ok(t)
  {
    match t
    case Basic => "basic"
    case Cors => "cors"
    case Default => "default"
    case Error => "error"
  }

  /** `FromStr` for `ResponseType`: exactly the four lower-case names are accepted. */
  function ParseResponseType(s: string): (r: Result<ResponseType, string>)
  {
    if s == "basic" then Ok(Basic)
    else if s == "cors" then Ok(Cors)
    else if s == "default" then Ok(Default)
    else if s == "error" then Ok(Error)
    else Err("invalid response type")
  }

  /** A string is accepted exactly when it is the name of some response type, and then it is that name. */
  lemma ParseResponseTypeAccepts(s: string)
    ensures ParseResponseType(s).Ok? ==> ResponseTypeName(ParseResponseType(s).value) == s
    ensures ParseResponseType(s).Err? <==> forall t: ResponseType :: ResponseTypeName(t) != s
    ensures ParseResponseType(s).Err? ==> ParseResponseType(s).error == "invalid response type"
  {
    if ParseResponseType(s).Err? {
      forall t: ResponseType ensures ResponseTypeName(t) != s {
      }
    }
  }

  /** Names differ from each other, so the displayed names identify the variant. */
  lemma ResponseTypeNameInjective(a: ResponseType, b: ResponseType)
    ensures ResponseTypeName(a) == ResponseTypeName(b) ==> a == b
  {
  }

  /** `HTTPStatus`; its one variant stands for code 200. */
  datatype HttpStatus = StatusOk

  datatype Request = Request(url: string)

  /** `Request::new`. */
  function NewRequest(url: string): (r: Request)
    ensures r.url == url
  {
    Request(url)
  }

  /** A parsed URL, as far as `fetch` looks at it: its scheme and its path. */
  datatype Url = Url(scheme: string, path: string)

  type Byte = bv8

  datatype Response = Response(rtype: ResponseType, url: Url, status: HttpStatus,
                               headers: map<string, string>, data: seq<Byte>)

  /** Why URL parsing failed; its details belong to the URL parser. */
  datatype UrlParseFailure = UrlParseFailure(reason: string)

  datatype FetchError =
    | NetworkError(response: Option<Response>)
    | UrlParseError(error: UrlParseFailure, response: Option<Response>)
    | UrlSchemeUnsupportedError(scheme: string, response: Option<Response>)

  /** Why a file could not be read; its details belong to the filesystem. */
  datatype IoFailure = IoFailure(reason: string)

  /**
   * `fetch`: parse the URL; a `file` URL reads the file at its path, `http`
   * and `https` are refused under the single name `http(s)`, any other scheme
   * is refused under its own name.
   */
  function FetchResource(request: Request, parseUrl: string -> Result<Url, UrlParseFailure>,
                         readFile: string -> Result<seq<Byte>, IoFailure>): (r: Result<Response, FetchError>)
    ensures r.Err? ==> r.error.response.None?
    ensures r.Ok? <==> parseUrl(request.url).Ok? && parseUrl(request.url).value.scheme == "file"
                       && readFile(parseUrl(request.url).value.path).Ok?
  {
    match parseUrl(request.url)
    case Err(e) => Err(UrlParseError(e, None))
    case Ok(u) =>
      if u.scheme == "file" then
        match readFile(u.path)
        case Ok(content) => Ok(Response(Basic, u, StatusOk, map[], content))
        case Err(_) => Err(NetworkError(None))
      else if u.scheme == "http" || u.scheme == "https" then
        Err(UrlSchemeUnsupportedError("http(s)", None))
      else
        Err(UrlSchemeUnsupportedError(u.scheme, None))
  }

  /** A file read that succeeds gives a basic 200 response with no headers, the bytes read and the URL. */
  lemma FetchFileRead(request: Request, parseUrl: string -> Result<Url, UrlParseFailure>,
                      readFile: string -> Result<seq<Byte>, IoFailure>)
    requires parseUrl(request.url).Ok? && parseUrl(request.url).value.scheme == "file"
    requires readFile(parseUrl(request.url).value.path).Ok?
    ensures var r := FetchResource(request, parseUrl, readFile);
            var u := parseUrl(request.url).value;
            r.Ok? && r.value.rtype == Basic && r.value.status == StatusOk && r.value.headers == map[]
            && r.value.data == readFile(u.path).value && r.value.url == u
  {
  }

  /** A file read that fails is a network error. */
  lemma FetchFileUnreadable(request: Request, parseUrl: string -> Result<Url, UrlParseFailure>,
                            readFile: string -> Result<seq<Byte>, IoFailure>)
    requires parseUrl(request.url).Ok? && parseUrl(request.url).value.scheme == "file"
    requires readFile(parseUrl(request.url).value.path).Err?
    ensures FetchResource(request, parseUrl, readFile) == Err(NetworkError(None))
  {
  }

  /** A URL that does not parse is reported with the parser's error. */
  lemma FetchBadUrl(request: Request, parseUrl: string -> Result<Url, UrlParseFailure>,
                    readFile: string -> Result<seq<Byte>, IoFailure>)
    requires parseUrl(request.url).Err?
    ensures FetchResource(request, parseUrl, readFile) == Err(UrlParseError(parseUrl(request.url).error, None))
  {
  }

  /**
   * Any scheme but `file` is refused without reading anything: `http` and
   * `https` under the name `http(s)`, others under their own name.
   */
  lemma FetchUnsupportedScheme(request: Request, parseUrl: string -> Result<Url, UrlParseFailure>,
                               readFile: string -> Result<seq<Byte>, IoFailure>,
                               otherRead: string -> Result<seq<Byte>, IoFailure>)
    requires parseUrl(request.url).Ok? && parseUrl(request.url).value.scheme != "file"
    ensures var scheme := parseUrl(request.url).value.scheme;
            FetchResource(request, parseUrl, readFile)
            == Err(UrlSchemeUnsupportedError(if scheme == "http" || scheme == "https" then "http(s)" else scheme, None))
    ensures FetchResource(request, parseUrl, readFile) == FetchResource(request, parseUrl, otherRead)
  {
  }
}
