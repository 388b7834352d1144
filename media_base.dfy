/** The shared part of the RapidAPI media downloaders: the media descriptor, the key
    check, the request headers and query, and how a response becomes a result. The HTTP
    exchange itself is a parameter: its outcome is a `Response`. */
module MediaBase {
  import opened Wrappers

  /** A decoded JSON value (numbers restricted to integers). */
  datatype Json =
    | JNull
    | JBool(b: bool)
    | JNum(n: int)
    | JStr(s: string)
    | JArr(items: seq<Json>)
    | JObj(fields: map<string, Json>)

  /** Python truthiness of the decoded value. */
  predicate Truthy(j: Json) {
    match j
    case JNull => false
    case JBool(b) => b
    case JNum(n) => n != 0
    case JStr(s) => s != ""
    case JArr(items) => items != []
    case JObj(fields) => fields != map[]
  }

  /** `obj.get(key, default)` on a dict; `.get` on anything else raises AttributeError. */
  function Get(obj: Json, key: string, default: Json := JNull): (r: Py<Json>)
    ensures r.Raises? <==> !obj.JObj?
    ensures r.Raises? ==> r.exc == AttributeError
    ensures obj.JObj? && key in obj.fields ==> r == Value(obj.fields[key])
    ensures obj.JObj? && key !in obj.fields ==> r == Value(default)
  {
    match obj
    case JObj(fields) => Value(if key in fields then fields[key] else default)
    case _ => Raises(AttributeError)
  }

  /** `x or y`. */
  function Or(x: Json, y: Json): (r: Json)
    ensures Truthy(x) ==> r == x
    ensures !Truthy(x) ==> r == y
  {
    if Truthy(x) then x else y
  }

  /** `MediaInfo(url, extension=".mp4")`. */
  datatype MediaInfo = MediaInfo(url: Json, extension: string := ".mp4")

  /** The fixed endpoint of a provider (its `api_url` and `api_host`) and the key. */
  datatype Downloader = Downloader(apiUrl: string, apiHost: string, apiKey: string)

  /** `MediaDownloader.__init__`: an empty key is refused. */
  function NewDownloader(apiUrl: string, apiHost: string, apiKey: string, className: string): (r: Py<Downloader>)
    ensures r.Raises? <==> apiKey == ""
    ensures r.Raises? ==> r.exc == ValueError(className + " API key is missing")
    ensures r.Value? ==> r.value.apiKey == apiKey && r.value.apiHost == apiHost && r.value.apiUrl == apiUrl
  {
    if apiKey == "" then Raises(ValueError(className + " API key is missing"))
    else Value(Downloader(apiUrl, apiHost, apiKey))
  }

  /** `build_headers`. */
  function BuildHeaders(d: Downloader): (r: map<string, string>)
    ensures r.Keys == {"X-RapidAPI-Key", "X-RapidAPI-Host"}
    ensures r["X-RapidAPI-Key"] == d.apiKey && r["X-RapidAPI-Host"] == d.apiHost
  {
    map["X-RapidAPI-Key" := d.apiKey, "X-RapidAPI-Host" := d.apiHost]
  }

  /** The base `build_query`. */
  function BuildQuery(link: string): (r: map<string, Json>)
    ensures r.Keys == {"url"} && r["url"] == JStr(link)
  {
    map["url" := JStr(link)]
  }

  /** What the HTTP call produced: a transport error (`httpx.HTTPError`), or a status
      code and a body that decodes as JSON or does not. */
  datatype Response = TransportError | Http(status: int, body: Option<Json>)

  /** `download`: transport errors and non-200 statuses give None; an undecodable body
      raises (`response.json()` is outside the `try`); otherwise the provider's extractor
      decides. */
  function Download(response: Response, extract: Json -> Py<Option<MediaInfo>>): (r: Py<Option<MediaInfo>>)
    ensures response.TransportError? ==> r == Value(None)
    ensures response.Http? && response.status != 200 ==> r == Value(None)
    ensures response.Http? && response.status == 200 && response.body.None? ==> r.Raises?
    ensures response.Http? && response.status == 200 && response.body.Some? ==> r == extract(response.body.value)
  {
    match response
    case TransportError => Value(None)
    case Http(status, body) =>
      if status != 200 then Value(None)
      else
        match body
        case None => Raises(ValueError("Expecting value"))
        case Some(payload) =>
          match extract(payload)
          case Raises(e) => Raises(e)
          case Value(None) => Value(None)
          case Value(Some(media)) => Value(Some(media))
  }

  /** A result comes only from a 200 response with a decodable body. */
  lemma DownloadNeedsSuccess(response: Response, extract: Json -> Py<Option<MediaInfo>>)
    requires Download(response, extract).Value? && Download(response, extract).value.Some?
    ensures response.Http? && response.status == 200 && response.body.Some?
    ensures Download(response, extract) == extract(response.body.value)
  {
  }
}
