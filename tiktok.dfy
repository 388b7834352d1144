/** The TikTok downloader: an HD flag on top of the shared downloader, the payload
    extractor, and the quota gate in front of every download. */
module TikTok {
  import opened Wrappers
  import opened MediaBase
  import opened Usage

  const ApiUrl := "https://tiktok-video-no-watermark2.p.rapidapi.com/"
  const ApiHost := "tiktok-video-no-watermark2.p.rapidapi.com"
  const QuotaKey := "tiktok_requests_remaining"
  const QuotaLimit := 150

  datatype TikTokDownloader = TikTokDownloader(base: Downloader, hd: bool)

  /** `TikTokDownloader(api_key, hd=True)`. */
  function NewTikTokDownloader(apiKey: string, hd: bool := true): (r: Py<TikTokDownloader>)
    ensures r.Raises? <==> apiKey == ""
    ensures r.Value? ==> r.value.hd == hd && r.value.base.apiKey == apiKey && r.value.base.apiHost == ApiHost
  {
    match NewDownloader(ApiUrl, ApiHost, apiKey, "TikTokDownloader")
    case Raises(e) => Raises(e)
    case Value(d) => Value(TikTokDownloader(d, hd))
  }

  /** `build_query`: the base query, plus `hd = 1` when HD is on. */
  function BuildTikTokQuery(d: TikTokDownloader, link: string): (r: map<string, Json>)
    ensures "url" in r && r["url"] == JStr(link)
    ensures "hd" in r <==> d.hd
    ensures d.hd ==> r["hd"] == JNum(1)
    ensures r.Keys <= {"url", "hd"}
  {
    var query := BuildQuery(link);
    if d.hd then query["hd" := JNum(1)] else query
  }

  /** `extract_media`. A payload that is not an object, or a truthy "data" that is not an
      object, makes `.get` raise. */
  function ExtractMedia(hd: bool, payload: Json): (r: Py<Option<MediaInfo>>)
    ensures r.Value? && r.value.Some? ==> r.value.value.extension == ".mp4" && Truthy(r.value.value.url)
  {
    match Get(payload, "data")
    case Raises(e) => Raises(e)
    case Value(raw) =>
      var data := Or(raw, JObj(map[]));
      match Get(data, "hdplay")
      case Raises(e) => Raises(e)
      case Value(hdUrl) =>
        if hd && Truthy(hdUrl) then Value(Some(MediaInfo(hdUrl)))
        else
          match Get(data, "play")
          case Raises(e) => Raises(e)
          case Value(playUrl) => if Truthy(playUrl) then Value(Some(MediaInfo(playUrl))) else Value(None)
  }

  /** With HD on, a truthy `data.hdplay` wins. */
  lemma HdPreferred(payload: Json, data: map<string, Json>)
    requires payload.JObj? && "data" in payload.fields && payload.fields["data"] == JObj(data)
    requires "hdplay" in data && Truthy(data["hdplay"])
    ensures ExtractMedia(true, payload) == Value(Some(MediaInfo(data["hdplay"])))
  {
  }

  /** Otherwise `data.play` is used, and with HD off `hdplay` is never consulted. */
  lemma PlayFallback(hd: bool, payload: Json, data: map<string, Json>)
    requires payload.JObj? && "data" in payload.fields && payload.fields["data"] == JObj(data)
    requires !hd || "hdplay" !in data || !Truthy(data["hdplay"])
    ensures ExtractMedia(hd, payload) ==
      if "play" in data && Truthy(data["play"]) then Value(Some(MediaInfo(data["play"]))) else Value(None)
    ensures !hd ==> ExtractMedia(hd, payload) == ExtractMedia(hd, JObj(payload.fields["data" := JObj(data - {"hdplay"})]))
  {
  }

  /** A missing or falsy "data" gives None. */
  lemma NoDataNoMedia(hd: bool, fields: map<string, Json>)
    requires "data" !in fields || !Truthy(fields["data"])
    ensures ExtractMedia(hd, JObj(fields)) == Value(None)
  {
  }

  function DownloadTikTokMedia(d: TikTokDownloader, response: Response): Py<Option<MediaInfo>> {
    Download(response, payload => ExtractMedia(d.hd, payload))
  }

  /** `downloadTikTok`: refuse without calling the API when the quota is used up;
      otherwise use one unit, then download. `called` tells whether the API was called. */
  method DownloadTikTok(tracker: UsageTracker, d: TikTokDownloader, response: Response)
    returns (r: Py<Option<MediaInfo>>, called: bool)
    modifies tracker
    ensures called <==> old(tracker.Remaining()) > 0
    ensures !called ==> r == Value(None) && tracker.data == old(tracker.data)
    ensures called ==> r == DownloadTikTokMedia(d, response) && tracker.Remaining() == old(tracker.Remaining()) - 1
    ensures called ==> tracker.data == ConsumeStep(old(tracker.data), tracker.key, tracker.limit).1
  {
    var ok := tracker.Consume();
    if !ok {
      return Value(None), false;
    }
    return DownloadTikTokMedia(d, response), true;
  }
}
