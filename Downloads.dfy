/** The download link of `useDownloadLink` and the external-player deep
    links of `openInExternalPlayer`. The store reads, `useMemo`, and the
    `window.open` call are left out: the source, the current quality, the
    proxy base the balancer picks and the configured pool are parameters,
    and the result is the string that would be opened. */
module Downloads {
  import opened Wrappers
  import opened Strings
  import opened Headers
  import opened UriComponent
  import opened Proxy
  import opened PlayerSource

  /** The URL to download before any proxying: the current quality's file,
      or the HLS manifest. */
  function Candidate(source: Option<Source>, currentQuality: Option<Quality>): (r: Option<string>)
    ensures r.Some? <==> (source.Some? &&
      (source.value.Hls? || (currentQuality.Some? && currentQuality.value in source.value.qualities)))
    ensures r.Some? && source.value.Hls? ==> r.value == source.value.url
    ensures r.Some? && source.value.File? ==> r.value == source.value.qualities[currentQuality.value]
  {
    match source
    case None => None
    case Some(File(qualities, _, _)) =>
      if currentQuality.Some? && currentQuality.value in qualities then Some(qualities[currentQuality.value])
      else None
    case Some(Hls(url, _, _)) => Some(url)
  }

  /** `{ ...(preferredHeaders || {}), ...(headers || {}) }` */
  function EffectiveHeaders(source: Source): Headers {
    Spread(OrEmpty(source.preferredHeaders), OrEmpty(source.headers))
  }

  /** `useDownloadLink()`: `None` stands for `null`. */
  function DownloadLink(source: Option<Source>, currentQuality: Option<Quality>,
                        chosen: Option<string>, proxyUrls: seq<string>): (r: Option<string>)
    ensures r.None? <==> Candidate(source, currentQuality).None? || Candidate(source, currentQuality).value == ""
    ensures r.Some? && IsUrlAlreadyProxied(Candidate(source, currentQuality).value, proxyUrls)
      ==> r.value == Candidate(source, currentQuality).value
    ensures r.Some? && !HasBase(chosen) ==> r.value == Candidate(source, currentQuality).value
  {
    var candidate := Candidate(source, currentQuality);
    if candidate.None? || candidate.value == "" then None
    else
      var url, src := candidate.value, source.value;
      if !IsUrlAlreadyProxied(url, proxyUrls) then
        var headers := EffectiveHeaders(src);
        Some(if src.Hls? then M3U8ProxyUrl(chosen, url, headers, true) else ProxyUrl(chosen, url, headers, true))
      else Some(url)
  }

  /** `openInExternalPlayer(option)` for a player id: the deep link that
      would be opened, if any. */
  function ExternalPlayerUrl(downloadUrl: Option<string>, playerId: string): (r: Option<string>)
    ensures r.Some? <==> (downloadUrl.Some? && downloadUrl.value != ""
      && (playerId == "vlc" || playerId == "iina" || playerId == "outplayer"))
    ensures r.Some? && playerId == "vlc" ==>
      StartsWith(r.value, "vlc://") && r.value[|"vlc://"|..] == downloadUrl.value
    ensures r.Some? && playerId == "outplayer" ==>
      StartsWith(r.value, "outplayer://") && r.value[|"outplayer://"|..] == downloadUrl.value
    ensures r.Some? && playerId == "iina" ==>
      r.value == "iina://weblink?url=" + Encode(downloadUrl.value)
      && EncodedAlphabet(r.value[|"iina://weblink?url="|..])
      && Decode(r.value[|"iina://weblink?url="|..]) == Some(downloadUrl.value)
  {
    if downloadUrl.None? || downloadUrl.value == "" then None
    else
      var u := downloadUrl.value;
      if playerId == "vlc" then Some("vlc://" + u)
      else if playerId == "iina" then
        DecodeEncode(u);
        EncodeAlphabet(u);
        assert ("iina://weblink?url=" + Encode(u))[|"iina://weblink?url="|..] == Encode(u);
        Some("iina://weblink?url=" + Encode(u))
      else if playerId == "outplayer" then Some("outplayer://" + u)
      else None
  }

  /** Headers of the source override preferred headers key by key; keys
      of either record survive. */
  lemma EffectiveHeadersMap(source: Source)
    ensures ToMap(EffectiveHeaders(source)) == ToMap(OrEmpty(source.preferredHeaders)) + ToMap(OrEmpty(source.headers))
    ensures Keys(EffectiveHeaders(source))[..|OrEmpty(source.preferredHeaders)|] == Keys(OrEmpty(source.preferredHeaders))
  {
    SpreadToMap(OrEmpty(source.preferredHeaders), OrEmpty(source.headers));
    SpreadKeys(OrEmpty(source.preferredHeaders), OrEmpty(source.headers));
  }

  /** `{A: 1, B: 2}` spread under `{B: 3, C: 4}` gives `{A: 1, B: 3, C: 4}`. */
  lemma HeaderMergeExample()
    ensures EffectiveHeaders(Source.Hls("u", Some([("B", "3"), ("C", "4")]), Some([("A", "1"), ("B", "2")])))
         == [("A", "1"), ("B", "3"), ("C", "4")]
  {
  }

  /** A link that was wrapped carries, to the proxy, the candidate URL, the
      merged headers and the download flag, on the endpoint the source type
      calls for. */
  lemma DownloadLinkRoundTrip(source: Option<Source>, currentQuality: Option<Quality>,
                              chosen: Option<string>, proxyUrls: seq<string>)
    requires DownloadLink(source, currentQuality, chosen, proxyUrls).Some?
    requires HasBase(chosen)
    requires !IsUrlAlreadyProxied(Candidate(source, currentQuality).value, proxyUrls)
    ensures ReadProxyUrl(chosen.value, DownloadLink(source, currentQuality, chosen, proxyUrls).value)
         == Some(ProxyRequest(if source.value.Hls? then Kind.Hls else Web,
                              Candidate(source, currentQuality).value, EffectiveHeaders(source.value), true))
  {
    var url, src := Candidate(source, currentQuality).value, source.value;
    if src.Hls? {
      ReadM3U8ProxyUrlRoundTrip(chosen.value, url, EffectiveHeaders(src), true);
    } else {
      ReadProxyUrlRoundTrip(chosen.value, url, EffectiveHeaders(src), true);
    }
  }

  /** Resolving again a source whose candidate is a link this hook produced
      returns that link unchanged, once a proxy base is configured (for
      file sources, one of the configured proxies). */
  lemma DownloadLinkStable(source: Option<Source>, currentQuality: Option<Quality>,
                           chosen: Option<string>, proxyUrls: seq<string>,
                           again: Option<Source>, againQuality: Option<Quality>, chosenAgain: Option<string>)
    requires DownloadLink(source, currentQuality, chosen, proxyUrls).Some?
    requires HasBase(chosen) && (source.value.Hls? || chosen.value in proxyUrls)
    requires Candidate(again, againQuality) == DownloadLink(source, currentQuality, chosen, proxyUrls)
    ensures DownloadLink(again, againQuality, chosenAgain, proxyUrls) == DownloadLink(source, currentQuality, chosen, proxyUrls)
  {
    var url, src := Candidate(source, currentQuality).value, source.value;
    var r := DownloadLink(source, currentQuality, chosen, proxyUrls).value;
    if !IsUrlAlreadyProxied(url, proxyUrls) {
      if src.Hls? {
        M3U8ProxyUrlIsProxied(chosen, url, EffectiveHeaders(src), true, proxyUrls);
      } else {
        ProxyUrlIsProxied(chosen, url, EffectiveHeaders(src), true, proxyUrls);
      }
      assert r != "";
    }
  }
}
