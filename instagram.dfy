/** The Instagram downloader's payload extractor. */
module Instagram {
  import opened Wrappers
  import opened MediaBase

  const ApiUrl := "https://instagram-post-reels-stories-downloader.p.rapidapi.com/instagram/"
  const ApiHost := "instagram-post-reels-stories-downloader.p.rapidapi.com"

  /** `results[0]` on a truthy value: a list gives its head, a one-character string of a
      text; a dict has no key 0 and a number or `True` is not subscriptable. */
  function FirstOf(results: Json): (r: Py<Json>)
    requires Truthy(results)
    ensures results.JArr? ==> r == Value(results.items[0])
  {
    match results
    case JArr(items) => Value(items[0])
    case JStr(s) => Value(JStr([s[0]]))
    case JObj(_) => Raises(KeyError)
    case _ => Raises(TypeError)
  }

  /** `extract_media`. */
  function ExtractMedia(payload: Json): (r: Py<Option<MediaInfo>>)
    ensures r.Value? && r.value.Some? ==>
      Truthy(r.value.value.url) && (r.value.value.extension == ".jpeg" || r.value.value.extension == ".mp4")
  {
    match Get(payload, "status")
    case Raises(e) => Raises(e)
    case Value(status) =>
      if !Truthy(status) then Value(None)
      else
        match Get(payload, "result")
        case Raises(e) => Raises(e)
        case Value(raw) =>
          var results := Or(raw, JArr([]));
          if !Truthy(results) then Value(None)
          else
            match FirstOf(results)
            case Raises(e) => Raises(e)
            case Value(first) =>
              match Get(first, "type", JStr(""))
              case Raises(e) => Raises(e)
              case Value(mediaType) =>
                var extension := if mediaType == JStr("image/jpeg") then ".jpeg" else ".mp4";
                match Get(first, "url")
                case Raises(e) => Raises(e)
                case Value(url) =>
                  if !Truthy(url) then Value(None) else Value(Some(MediaInfo(url, extension)))
  }

  /** A falsy status, or a missing or empty result list, gives None. */
  lemma NoStatusOrResults(fields: map<string, Json>)
    requires ("status" !in fields || !Truthy(fields["status"])) ||
             ("result" !in fields || !Truthy(fields["result"]))
    ensures ExtractMedia(JObj(fields)) == Value(None)
  {
  }

  /** For a well-formed response only the first result is consulted: its type decides the
      extension (".jpeg" exactly for "image/jpeg", a missing type included in ".mp4"), and
      its url is the media unless it is missing or empty. */
  lemma FirstResultDecides(status: Json, first: map<string, Json>, rest: seq<Json>, others: map<string, Json>)
    requires Truthy(status)
    ensures var payload := JObj(others["status" := status]["result" := JArr([JObj(first)] + rest)]);
      var extension := if "type" in first && first["type"] == JStr("image/jpeg") then ".jpeg" else ".mp4";
      ExtractMedia(payload) ==
        if "url" in first && Truthy(first["url"]) then Value(Some(MediaInfo(first["url"], extension)))
        else Value(None)
  {
    var payload := JObj(others["status" := status]["result" := JArr([JObj(first)] + rest)]);
    assert Get(payload, "status") == Value(status);
    assert Get(payload, "result") == Value(JArr([JObj(first)] + rest));
    assert FirstOf(JArr([JObj(first)] + rest)) == Value(JObj(first));
  }
}
