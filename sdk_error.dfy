/**
 * The SDK's error taxonomy (src/sdk/error.rs). The errors of the libraries
 * it wraps are opaque here: each is represented by the text its own
 * `Display` implementation prints.
 */
module SdkError {
  import opened Wrappers

  /** `reqwest::Error`. */
  datatype ReqwestError = ReqwestError(message: string)
  /** `serde_json::Error`. */
  datatype JsonError = JsonError(message: string)
  /** `url::ParseError`. */
  datatype UrlParseError = UrlParseError(message: string)
  /** `http::header::InvalidHeaderName`. */
  datatype InvalidHeaderName = InvalidHeaderName(message: string)
  /** `http::header::InvalidHeaderValue`. */
  datatype InvalidHeaderValue = InvalidHeaderValue(message: string)

  /** `http::Error`, as built by its `From` conversions from the two header errors. */
  datatype HttpError = HeaderName(name: InvalidHeaderName) | HeaderValue(value: InvalidHeaderValue)
  {
    /** `http::Error` displays the error it wraps. */
    function Message(): (m: string)
      ensures HeaderName? ==> m == name.message
      ensures HeaderValue? ==> m == value.message
    {
      match this
      case HeaderName(e) => e.message
      case HeaderValue(e) => e.message
    }
  }

  datatype Error =
    | Network(network: ReqwestError)
    | Auth
    | Deserialize(json: JsonError)
    | InvalidURL(url: UrlParseError)
    | InvalidHeader(header: HttpError)

  /** The `dyn std::error::Error` that `source` hands out: one of the wrapped library errors. */
  datatype Cause =
    | ReqwestCause(ReqwestError)
    | JsonCause(JsonError)
    | UrlCause(UrlParseError)
    | HttpCause(HttpError)

  const AuthMessage := "Authentication error"
  const NetworkPrefix := "Network error: "
  // The misspelling is the source's own.
  const DeserializePrefix := "Deserialiazation error: "
  const InvalidUrlPrefix := "Invalid URL: "
  const InvalidHeaderPrefix := "Invalid header: "

  /** The prefix `Display` puts before the wrapped error's message; `Auth` has none. */
  function Prefix(e: Error): string
    requires !e.Auth?
  {
    match e
    case Network(_) => NetworkPrefix
    case Deserialize(_) => DeserializePrefix
    case InvalidURL(_) => InvalidUrlPrefix
    case InvalidHeader(_) => InvalidHeaderPrefix
  }

  /** The message of the error a non-`Auth` variant wraps. */
  function InnerMessage(e: Error): string
    requires !e.Auth?
  {
    match e
    case Network(x) => x.message
    case Deserialize(x) => x.message
    case InvalidURL(x) => x.message
    case InvalidHeader(x) => x.Message()
  }

  /** `Display::fmt`. */
  function Display(e: Error): (s: string)
    ensures e.Auth? ==> s == AuthMessage
    ensures !e.Auth? ==> |Prefix(e)| <= |s| && s[..|Prefix(e)|] == Prefix(e) && s[|Prefix(e)|..] == InnerMessage(e)
  {
    match e
    case Auth => AuthMessage
    case Network(x) => NetworkPrefix + x.message
    case Deserialize(x) => DeserializePrefix + x.message
    case InvalidURL(x) => InvalidUrlPrefix + x.message
    case InvalidHeader(x) => InvalidHeaderPrefix + x.Message()
  }

  /** The variant of an error, as a small number, for comparing variants. */
  function Tag(e: Error): nat
  {
    match e
    case Network(_) => 0
    case Auth => 1
    case Deserialize(_) => 2
    case InvalidURL(_) => 3
    case InvalidHeader(_) => 4
  }

  /**
   * The message tells the variants apart: two errors that display the same
   * text are of the same variant and wrap errors with the same message.
   */
  lemma DisplayDeterminesVariant(a: Error, b: Error)
    requires Display(a) == Display(b)
    ensures Tag(a) == Tag(b)
    ensures !a.Auth? ==> InnerMessage(a) == InnerMessage(b)
  {
    var s := Display(a);
    if !a.Auth? && !b.Auth? {
      assert s[0] == Prefix(a)[0] && s[0] == Prefix(b)[0];
      if Prefix(a)[0] == 'I' {
        assert s[8] == Prefix(a)[8] && s[8] == Prefix(b)[8];
      }
    } else {
      // "Authentication error" starts with 'A'; none of the prefixes does.
      assert s[0] == Display(b)[0];
    }
  }

  /** `source`: the wrapped library error; `Auth` wraps none. */
  function Source(e: Error): (c: Option<Cause>)
    ensures c.None? <==> e.Auth?
    ensures e.Network? ==> c == Some(ReqwestCause(e.network))
    ensures e.Deserialize? ==> c == Some(JsonCause(e.json))
    ensures e.InvalidURL? ==> c == Some(UrlCause(e.url))
    ensures e.InvalidHeader? ==> c == Some(HttpCause(e.header))
  {
    match e
    case Auth => None
    case Network(x) => Some(ReqwestCause(x))
    case Deserialize(x) => Some(JsonCause(x))
    case InvalidURL(x) => Some(UrlCause(x))
    case InvalidHeader(x) => Some(HttpCause(x))
  }

  /** `From<reqwest::Error>`. */
  function FromReqwest(x: ReqwestError): (e: Error)
    ensures e.Network? && e.network == x
  {
    Network(x)
  }

  /** `From<serde_json::Error>`. */
  function FromJson(x: JsonError): (e: Error)
    ensures e.Deserialize? && e.json == x
  {
    Deserialize(x)
  }

  /** `From<url::ParseError>`. */
  function FromUrlParse(x: UrlParseError): (e: Error)
    ensures e.InvalidURL? && e.url == x
  {
    InvalidURL(x)
  }

  /** `From<http::header::InvalidHeaderName>`, through `http::Error::from`. */
  function FromInvalidHeaderName(x: InvalidHeaderName): (e: Error)
    ensures e.InvalidHeader? && e.header == HeaderName(x)
  {
    InvalidHeader(HeaderName(x))
  }

  /** `From<http::header::InvalidHeaderValue>`, through `http::Error::from`. */
  function FromInvalidHeaderValue(x: InvalidHeaderValue): (e: Error)
    ensures e.InvalidHeader? && e.header == HeaderValue(x)
  {
    InvalidHeader(HeaderValue(x))
  }

  /**
   * Converting a library error and asking for its `source` hands back the
   * same error; the displayed message is the variant's prefix followed by
   * that error's own message.
   */
  lemma ConversionsKeepTheCause(r: ReqwestError, j: JsonError, u: UrlParseError, n: InvalidHeaderName, v: InvalidHeaderValue)
    ensures Source(FromReqwest(r)) == Some(ReqwestCause(r))
    ensures Source(FromJson(j)) == Some(JsonCause(j))
    ensures Source(FromUrlParse(u)) == Some(UrlCause(u))
    ensures Source(FromInvalidHeaderName(n)) == Some(HttpCause(HeaderName(n)))
    ensures Source(FromInvalidHeaderValue(v)) == Some(HttpCause(HeaderValue(v)))
    ensures Display(FromReqwest(r)) == NetworkPrefix + r.message
    ensures Display(FromJson(j)) == DeserializePrefix + j.message
    ensures Display(FromUrlParse(u)) == InvalidUrlPrefix + u.message
    ensures Display(FromInvalidHeaderName(n)) == InvalidHeaderPrefix + n.message
    ensures Display(FromInvalidHeaderValue(v)) == InvalidHeaderPrefix + v.message
  {
  }
}
