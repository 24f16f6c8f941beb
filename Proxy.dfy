/** The proxy URL builders and the double-proxying detector of
    `proxy.ts`. The load balancer (`getLoadbalancedProxyUrl`) and the
    configured pool (`getProxyUrls`) are not part of this model: the base
    the balancer picked is the parameter `chosen`, the pool the parameter
    `proxyUrls`. The console warnings are left out. */
module Proxy {
  import opened Wrappers
  import opened Strings
  import opened Headers
  import opened UriComponent
  import opened Json
  import opened Query

  /** Marker of an HLS proxy URL (the AirPlay format). */
  const HlsSignature := "/proxy.m3u8?type=hls&url="
  /** Marker of a web proxy URL (the Chromecast format). */
  const WebSignature := "/proxy?type=web&url="

  /** The picked base is usable: JavaScript's `!proxyBaseUrl` is false,
      which rules out `undefined`, `null` and the empty string. */
  predicate HasBase(chosen: Option<string>) {
    chosen.Some? && chosen.value != ""
  }

  /** The query parameters both builders write after their path. */
  function ProxyParams(url: string, headers: Headers, download: bool): seq<Param> {
    [("url", Encode(url)), ("headers", Encode(Stringify(headers)))]
      + (if download then [("download", "true")] else [])
  }

  /** `createProxyUrl(url, headers, download)`. The `&headers=` part is
      written unconditionally: `headers` is a record defaulting to `{}`,
      which is truthy. */
  function ProxyUrl(chosen: Option<string>, url: string, headers: Headers, download: bool): (r: string)
    ensures !HasBase(chosen) ==> r == url
    ensures HasBase(chosen) ==> StartsWith(r, chosen.value + "/proxy?url=")
  {
    if !HasBase(chosen) then url
    else
      chosen.value + "/proxy?url=" + Encode(url) + "&headers=" + Encode(Stringify(headers))
        + (if download then "&download=true" else "")
  }

  /** `createM3U8ProxyUrl(url, headers, download)`. */
  function M3U8ProxyUrl(chosen: Option<string>, url: string, headers: Headers, download: bool): (r: string)
    ensures !HasBase(chosen) ==> r == url
    ensures HasBase(chosen) ==> StartsWith(r, chosen.value + HlsSignature)
  {
    if !HasBase(chosen) then url
    else
      chosen.value + "/proxy.m3u8?type=hls&url=" + Encode(url) + "&headers=" + Encode(Stringify(headers))
        + (if download then "&download=true" else "")
  }

  /** `createMP4ProxyUrl(url, headers)`: not implemented in the source, it
      hands back the URL whatever the headers. */
  function MP4ProxyUrl(url: string, headers: Headers): (r: string)
    ensures r == url
  {
    url
  }

  /** `proxyUrls.some((proxyUrl) => url.startsWith(proxyUrl))` */
  predicate StartsWithAny(url: string, proxyUrls: seq<string>) {
    proxyUrls != [] && (StartsWith(url, proxyUrls[0]) || StartsWithAny(url, proxyUrls[1..]))
  }

  /** `isUrlAlreadyProxied(url)` */
  predicate IsUrlAlreadyProxied(url: string, proxyUrls: seq<string>) {
    Contains(url, HlsSignature) || Contains(url, WebSignature) || StartsWithAny(url, proxyUrls)
  }

  /** What a proxy reads off a proxied URL. */
  datatype Kind = Web | Hls
  datatype ProxyRequest = ProxyRequest(kind: Kind, target: string, headers: Headers, download: bool)

  /** The reading of a URL built on `base`: the path selects the kind and
      the query string follows the `?`. */
  function ReadProxyUrl(base: string, u: string): Option<ProxyRequest> {
    if !StartsWith(u, base) then None
    else
      var rest := u[|base|..];
      if StartsWith(rest, "/proxy?") then ReadQuery(Web, rest[7..])
      else if StartsWith(rest, "/proxy.m3u8?") then ReadQuery(Hls, rest[12..])
      else None
  }

  /** The reading of a query string: an HLS request must say `type=hls`,
      the `url` parameter is percent-decoded, the `headers` parameter
      percent-decoded and parsed as JSON (an absent one is `{}`), and
      `download=true` asks for a download. */
  function ReadQuery(kind: Kind, q: string): Option<ProxyRequest> {
    var ps := Parse(q);
    var _ :- if kind == Hls && Lookup(ps, "type") != Some("hls") then None else Some(());
    var encodedUrl :- Lookup(ps, "url");
    var target :- Decode(encodedUrl);
    var headers :-
      match Lookup(ps, "headers")
      case None => Some([])
      case Some(e) => var json :- Decode(e); ParseObject(json);
    Some(ProxyRequest(kind, target, headers, Lookup(ps, "download") == Some("true")))
  }

  /** An encoded component holds none of the characters that delimit a
      URL's path, query, parameters or fragment. */
  lemma EncodedHasNoDelimiters(s: string)
    ensures forall i | 0 <= i < |Encode(s)| :: Encode(s)[i] !in "&=?/#"
  {
    EncodeAlphabet(s);
  }

  lemma ProxyParamsSeparable(url: string, headers: Headers, download: bool)
    ensures Separable(ProxyParams(url, headers, download))
    ensures Separable([("type", "hls")] + ProxyParams(url, headers, download))
  {
    EncodedHasNoDelimiters(url);
    EncodedHasNoDelimiters(Stringify(headers));
  }

  /** The parameter part both builders share, after `url=`. */
  lemma JoinTail(a: string, h: string, download: bool)
    ensures Join([("url", a), ("headers", h)] + (if download then [("download", "true")] else []))
      == "url=" + a + "&headers=" + h + (if download then "&download=true" else "")
  {
    if download {
      JoinThree(a, h);
    } else {
      JoinTwo(a, h);
      assert [("url", a), ("headers", h)] + [] == [("url", a), ("headers", h)];
    }
  }

  lemma JoinTwo(a: string, h: string)
    ensures Join([("url", a), ("headers", h)]) == "url=" + a + "&headers=" + h
  {
    var ps := [("url", a), ("headers", h)];
    assert ps[1..] == [("headers", h)];
    assert Join(ps) == "url" + "=" + a + "&" + ("headers" + "=" + h);
  }

  lemma JoinThree(a: string, h: string)
    ensures Join([("url", a), ("headers", h)] + [("download", "true")])
      == "url=" + a + "&headers=" + h + "&download=true"
  {
    var ps := [("url", a), ("headers", h)] + [("download", "true")];
    assert ps[1..] == [("headers", h), ("download", "true")];
    assert ps[1..][1..] == [("download", "true")];
    assert Join(ps[1..]) == "headers" + "=" + h + "&" + ("download" + "=" + "true");
    assert Join(ps) == "url" + "=" + a + "&" + Join(ps[1..]);
  }

  lemma WebJoin(b: string, a: string, h: string, download: bool)
    ensures b + "/proxy?url=" + a + "&headers=" + h + (if download then "&download=true" else "")
      == b + "/proxy?" + Join([("url", a), ("headers", h)] + (if download then [("download", "true")] else []))
  {
    JoinTail(a, h, download);
    assert "/proxy?url=" == "/proxy?" + "url=";
  }

  /** With a usable base, `createProxyUrl` writes the path `/proxy` and then
      the parameters `url`, `headers` and (only when asked) `download`. */
  lemma ProxyUrlLayout(b: string, url: string, headers: Headers, download: bool)
    requires b != ""
    ensures ProxyUrl(Some(b), url, headers, download) == b + "/proxy?" + Join(ProxyParams(url, headers, download))
  {
    WebJoin(b, Encode(url), Encode(Stringify(headers)), download);
  }

  lemma JoinTypeFirst(a: string, h: string, download: bool)
    ensures Join([("type", "hls"), ("url", a), ("headers", h)] + (if download then [("download", "true")] else []))
      == "type=hls&" + Join([("url", a), ("headers", h)] + (if download then [("download", "true")] else []))
  {
    var rest := [("url", a), ("headers", h)] + (if download then [("download", "true")] else []);
    var ps := [("type", "hls")] + rest;
    assert ps == [("type", "hls"), ("url", a), ("headers", h)] + (if download then [("download", "true")] else []);
    assert ps[1..] == rest;
    assert "type" + "=" + "hls" + "&" == "type=hls&";
  }

  /** The HLS template read as path plus query, and as marker plus tail. */
  lemma RegroupHlsPath(b: string, a: string, h: string, tail: string)
    ensures b + "/proxy.m3u8?type=hls&url=" + a + "&headers=" + h + tail
      == b + "/proxy.m3u8?" + ("type=hls&" + ("url=" + a + "&headers=" + h + tail))
    ensures b + "/proxy.m3u8?type=hls&url=" + a + "&headers=" + h + tail
      == b + HlsSignature + (a + "&headers=" + h + tail)
  {
    assert "/proxy.m3u8?type=hls&url=" == "/proxy.m3u8?" + "type=hls&" + "url=";
  }

  lemma M3U8Join(b: string, a: string, h: string, download: bool)
    ensures b + "/proxy.m3u8?type=hls&url=" + a + "&headers=" + h + (if download then "&download=true" else "")
      == b + "/proxy.m3u8?" + Join([("type", "hls"), ("url", a), ("headers", h)] + (if download then [("download", "true")] else []))
  {
    JoinTail(a, h, download);
    JoinTypeFirst(a, h, download);
    RegroupHlsPath(b, a, h, if download then "&download=true" else "");
  }

  /** With a usable base, `createM3U8ProxyUrl` writes the path `/proxy.m3u8`
      and then the parameters `type=hls`, `url`, `headers` and (only when
      asked) `download`. */
  lemma M3U8ProxyUrlLayout(b: string, url: string, headers: Headers, download: bool)
    requires b != ""
    ensures M3U8ProxyUrl(Some(b), url, headers, download)
      == b + "/proxy.m3u8?" + Join([("type", "hls")] + ProxyParams(url, headers, download))
  {
    M3U8Join(b, Encode(url), Encode(Stringify(headers)), download);
    assert [("type", "hls")] + ProxyParams(url, headers, download)
      == [("type", "hls"), ("url", Encode(url)), ("headers", Encode(Stringify(headers)))]
        + (if download then [("download", "true")] else []);
  }

  lemma ReadParams(url: string, headers: Headers, download: bool, ps: seq<Param>)
    requires ps == ProxyParams(url, headers, download) || ps == [("type", "hls")] + ProxyParams(url, headers, download)
    ensures Lookup(ps, "url") == Some(Encode(url))
    ensures Lookup(ps, "headers") == Some(Encode(Stringify(headers)))
    ensures Lookup(ps, "download") == if download then Some("true") else None
  {
    var web := ProxyParams(url, headers, download);
    assert "type" != "url" && "type" != "headers" && "type" != "download";
    assert "url" != "headers" && "url" != "download" && "headers" != "download";
    if ps != web {
      assert ps[1..] == web;
    }
    assert web[1..][1..] == if download then [("download", "true")] else [];
    assert Lookup(web, "download") == Lookup(web[1..], "download") == Lookup(web[1..][1..], "download");
  }

  /** The reader strips the web path and reads the query behind it. */
  lemma ReadWebPath(b: string, q: string)
    requires b != ""
    ensures ReadProxyUrl(b, b + "/proxy?" + q) == ReadQuery(Web, q)
  {
    var u := b + "/proxy?" + q;
    assert u[..|b|] == b;
    assert u[|b|..] == "/proxy?" + q;
  }

  lemma ReadHlsPath(b: string, q: string)
    requires b != ""
    ensures ReadProxyUrl(b, b + "/proxy.m3u8?" + q) == ReadQuery(Hls, q)
  {
    var u := b + "/proxy.m3u8?" + q;
    assert u[..|b|] == b;
    var rest := u[|b|..];
    assert rest == "/proxy.m3u8?" + q;
    assert !StartsWith(rest, "/proxy?") by { assert rest[6] == '.'; }
  }

  lemma ReadBuiltQuery(kind: Kind, url: string, headers: Headers, download: bool, ps: seq<Param>)
    requires kind == Web ==> ps == ProxyParams(url, headers, download)
    requires kind == Hls ==> ps == [("type", "hls")] + ProxyParams(url, headers, download)
    ensures ReadQuery(kind, Join(ps)) == Some(ProxyRequest(kind, url, headers, download))
  {
    ProxyParamsSeparable(url, headers, download);
    ParseJoin(ps);
    ReadParams(url, headers, download, ps);
    if kind == Hls {
      assert Lookup(ps, "type") == Some("hls");
    }
    DecodeEncode(url);
    DecodeEncode(Stringify(headers));
    ParseStringify(headers);
  }

  /** A proxy reading a `createProxyUrl` result on its base gets back the
      target URL, the header record and the download flag. */
  lemma ReadProxyUrlRoundTrip(b: string, url: string, headers: Headers, download: bool)
    requires b != ""
    ensures ReadProxyUrl(b, ProxyUrl(Some(b), url, headers, download))
      == Some(ProxyRequest(Web, url, headers, download))
  {
    var ps := ProxyParams(url, headers, download);
    ProxyUrlLayout(b, url, headers, download);
    ReadWebPath(b, Join(ps));
    ReadBuiltQuery(Web, url, headers, download, ps);
  }

  /** The same for `createM3U8ProxyUrl`. */
  lemma ReadM3U8ProxyUrlRoundTrip(b: string, url: string, headers: Headers, download: bool)
    requires b != ""
    ensures ReadProxyUrl(b, M3U8ProxyUrl(Some(b), url, headers, download))
      == Some(ProxyRequest(Hls, url, headers, download))
  {
    var ps := [("type", "hls")] + ProxyParams(url, headers, download);
    M3U8ProxyUrlLayout(b, url, headers, download);
    ReadHlsPath(b, Join(ps));
    ReadBuiltQuery(Hls, url, headers, download, ps);
  }

  /** `some` holds exactly when one configured base is a prefix. */
  lemma {:induction false} StartsWithAnyIff(url: string, proxyUrls: seq<string>)
    ensures StartsWithAny(url, proxyUrls) <==> exists i :: 0 <= i < |proxyUrls| && StartsWith(url, proxyUrls[i])
  {
    if proxyUrls != [] {
      StartsWithAnyIff(url, proxyUrls[1..]);
      if exists i :: 0 <= i < |proxyUrls| && StartsWith(url, proxyUrls[i]) {
        var i :| 0 <= i < |proxyUrls| && StartsWith(url, proxyUrls[i]);
        if i > 0 { assert proxyUrls[1..][i - 1] == proxyUrls[i]; }
      }
    }
  }

  /** A URL counts as proxied exactly when the HLS marker or the web
      marker occurs somewhere in it, or it starts with a configured proxy. */
  lemma IsUrlAlreadyProxiedIff(url: string, proxyUrls: seq<string>)
    ensures IsUrlAlreadyProxied(url, proxyUrls) <==>
      (exists i :: OccursAt(url, HlsSignature, i)) ||
      (exists i :: OccursAt(url, WebSignature, i)) ||
      (exists j :: 0 <= j < |proxyUrls| && StartsWith(url, proxyUrls[j]))
  {
    ContainsIff(url, HlsSignature);
    ContainsIff(url, WebSignature);
    StartsWithAnyIff(url, proxyUrls);
  }

  /** A `createM3U8ProxyUrl` result carries the HLS marker, so it is
      recognised as proxied whatever the configured pool. */
  lemma M3U8ProxyUrlIsProxied(chosen: Option<string>, url: string, headers: Headers, download: bool, proxyUrls: seq<string>)
    requires HasBase(chosen)
    ensures IsUrlAlreadyProxied(M3U8ProxyUrl(chosen, url, headers, download), proxyUrls)
  {
    var a, h, tail := Encode(url), Encode(Stringify(headers)), if download then "&download=true" else "";
    RegroupHlsPath(chosen.value, a, h, tail);
    ContainsInfix(chosen.value, HlsSignature, a + "&headers=" + h + tail);
  }

  /** A `createProxyUrl` result is recognised as proxied when the base it
      was built on is one of the configured proxy URLs. */
  lemma ProxyUrlIsProxied(chosen: Option<string>, url: string, headers: Headers, download: bool, proxyUrls: seq<string>)
    requires HasBase(chosen) && chosen.value in proxyUrls
    ensures IsUrlAlreadyProxied(ProxyUrl(chosen, url, headers, download), proxyUrls)
  {
    var i :| 0 <= i < |proxyUrls| && proxyUrls[i] == chosen.value;
    StartsWithAnyIff(ProxyUrl(chosen, url, headers, download), proxyUrls);
  }

  lemma EmptyHeadersEncoding()
    ensures Stringify([]) == "{}"
    ensures Encode(Stringify([])) == "%7B%7D"
  {
    assert Encode("{}") == EncodeChar('{') + Encode("}");
    assert Encode("}") == EncodeChar('}') + Encode([]);
  }

  /** In `b + "/proxy?url=" + rest`, with no `?` in `b` or `rest`, the only
      `?` is the one of the path. */
  lemma OnlyQuestionMark(b: string, rest: string, j: int)
    requires '?' !in b && '?' !in rest && j != |b| + 6
    ensures 0 <= j < |b + "/proxy?url=" + rest| ==> (b + "/proxy?url=" + rest)[j] != '?'
  {
    var u := b + "/proxy?url=" + rest;
    if 0 <= j < |b| {
      assert u[j] == b[j];
    } else if |b| + 11 <= j < |u| {
      assert u[j] == rest[j - |b| - 11];
    } else if 0 <= j < |u| {
      assert u[j] == "/proxy?url="[j - |b|];
    }
  }

  /** The web marker would need `type` right after that `?`. */
  lemma WebMarkerAbsent(b: string, rest: string)
    requires '?' !in b && '?' !in rest
    ensures !Contains(b + "/proxy?url=" + rest, WebSignature)
  {
    var u := b + "/proxy?url=" + rest;
    forall i ensures !OccursAt(u, WebSignature, i) {
      if i == |b| {
        assert u[i + 7] == 'u';
        MismatchNotAt(u, WebSignature, i, 7);
      } else {
        OnlyQuestionMark(b, rest, i + 6);
        MismatchNotAt(u, WebSignature, i, 6);
      }
    }
    ContainsIff(u, WebSignature);
  }

  /** The HLS marker would need `.m3u8` right before that `?`. */
  lemma HlsMarkerAbsent(b: string, rest: string)
    requires '?' !in b && '?' !in rest
    ensures !Contains(b + "/proxy?url=" + rest, HlsSignature)
  {
    var u := b + "/proxy?url=" + rest;
    forall i ensures !OccursAt(u, HlsSignature, i) {
      if i == |b| - 5 {
        assert u[|b|] == '/';
        MismatchNotAt(u, HlsSignature, i, 5);
      } else {
        OnlyQuestionMark(b, rest, i + 11);
        MismatchNotAt(u, HlsSignature, i, 11);
      }
    }
    ContainsIff(u, HlsSignature);
  }

  lemma NoQuestionInEncoding(s: string)
    ensures '?' !in Encode(s)
  {
    EncodedHasNoDelimiters(s);
    assert '?' in "&=?/#";
  }

  lemma NoQuestionInTail(a: string, h: string, download: bool)
    requires '?' !in a && '?' !in h
    ensures '?' !in a + "&headers=" + h + (if download then "&download=true" else "")
  {
  }

  lemma RegroupWebPath(b: string, a: string, h: string, tail: string)
    ensures b + "/proxy?url=" + a + "&headers=" + h + tail == b + "/proxy?url=" + (a + "&headers=" + h + tail)
  {
  }

  /** A `createProxyUrl` result on a base without `?` carries neither
      marker: its `/proxy?url=` is not the web marker `/proxy?type=web&url=`. */
  lemma ProxyUrlCarriesNoMarker(chosen: Option<string>, url: string, headers: Headers, download: bool)
    requires HasBase(chosen) && '?' !in chosen.value
    ensures !Contains(ProxyUrl(chosen, url, headers, download), HlsSignature)
    ensures !Contains(ProxyUrl(chosen, url, headers, download), WebSignature)
  {
    var a, h, tail := Encode(url), Encode(Stringify(headers)), if download then "&download=true" else "";
    RegroupWebPath(chosen.value, a, h, tail);
    NoQuestionInEncoding(url);
    NoQuestionInEncoding(Stringify(headers));
    NoQuestionInTail(a, h, download);
    WebMarkerAbsent(chosen.value, a + "&headers=" + h + tail);
    HlsMarkerAbsent(chosen.value, a + "&headers=" + h + tail);
  }

  /** So such a result counts as proxied exactly when a configured proxy URL
      is a prefix of it; with an empty pool it is never recognised, and
      idempotence of `createProxyUrl` rests on the pool alone. */
  lemma ProxyUrlRecognisedOnlyByPrefix(chosen: Option<string>, url: string, headers: Headers, download: bool,
                                       proxyUrls: seq<string>)
    requires HasBase(chosen) && '?' !in chosen.value
    ensures IsUrlAlreadyProxied(ProxyUrl(chosen, url, headers, download), proxyUrls)
        <==> exists j :: 0 <= j < |proxyUrls| && StartsWith(ProxyUrl(chosen, url, headers, download), proxyUrls[j])
    ensures !IsUrlAlreadyProxied(ProxyUrl(chosen, url, headers, download), [])
  {
    ProxyUrlCarriesNoMarker(chosen, url, headers, download);
    StartsWithAnyIff(ProxyUrl(chosen, url, headers, download), proxyUrls);
  }

  lemma ExampleUnreserved()
    ensures AllUnreserved("https") && AllUnreserved("cdn.example") && AllUnreserved("video.m3u8")
  {
  }

  lemma ExampleJoined()
    ensures "https" + "://" + "cdn.example" + "/" + "video.m3u8" == "https://cdn.example/video.m3u8"
    ensures "https" + "%3A%2F%2F" + "cdn.example" + "%2F" + "video.m3u8" == "https%3A%2F%2Fcdn.example%2Fvideo.m3u8"
  {
  }

  lemma ExampleParts()
    ensures Encode("https://cdn.example/video.m3u8") == "https%3A%2F%2Fcdn.example%2Fvideo.m3u8"
  {
    ExampleUnreserved();
    ExampleJoined();
    EncodeSimpleUrl("https", "cdn.example", "video.m3u8");
  }

  lemma M3U8Example()
    ensures M3U8ProxyUrl(Some("https://proxy1.example"), "https://cdn.example/video.m3u8", [], false)
      == "https://proxy1.example" + "/proxy.m3u8?type=hls&url="
        + "https%3A%2F%2Fcdn.example%2Fvideo.m3u8" + "&headers=" + "%7B%7D"
  {
    ExampleParts();
    EmptyHeadersEncoding();
  }
}
