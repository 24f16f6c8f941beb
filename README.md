# Playback URL logic of the P-Stream player

This project models, in Dafny, how the player front-end turns a media
source into the URL it plays or offers for download, and how the quality
menu decides what it shows. It has three parts:

- **Proxy URLs** (`proxy.ts`, module `Proxy`). `createProxyUrl` and
  `createM3U8ProxyUrl` wrap a target URL in a proxy URL. The proxy URL is
  the chosen proxy base, then a path, then the percent-encoded target, then
  the percent-encoded JSON of the request headers, then optionally
  `&download=true`. `createMP4ProxyUrl` is a stub that returns its input.
  `isUrlAlreadyProxied` recognises URLs that are already proxied.
- **Download links** (`Downloads.tsx`, module `Downloads`). The link of
  `useDownloadLink` takes the current quality's file, or the HLS manifest.
  It merges the two header records and never wraps a URL that
  `isUrlAlreadyProxied` recognises. A `createProxyUrl` output is recognised
  only when a configured proxy URL is a prefix of it, so without such a
  pool entry it can be wrapped again.
  `openInExternalPlayer` builds the VLC, IINA and Outplayer deep links.
- **Quality menu** (`QualityView.tsx`, module `QualityView`). The menu
  filters the quality ladder and marks entries selected, clickable or
  disabled. It shows the automatic-quality toggle only for HLS sources. The
  class `QualityPreferences` holds the two preference fields that
  `change` and `changeAutomatic` update.

Supporting modules define the encodings the code relies on:

- `UriComponent`: `encodeURIComponent` over UTF-8, with a
  `decodeURIComponent` partner.
- `Json`: `JSON.stringify` of a string-to-string object, with a parser
  partner.
- `Headers`: header records as ordered key/value lists, with object
  spread.
- `Query`: `k=v&k=v` query strings.
- `Strings`: `startsWith` and `includes`.
- `PlayerSource`: the player store's source and quality types. The store
  itself is not part of this model.

`Proxy.ReadProxyUrl` is an independent reading of a proxy URL: path,
query parameters, percent-decoding and JSON parsing. The round-trip lemmas
show that it recovers exactly what the builders put in.

The following are parameters rather than modelled code:

- the base picked by the load balancer (`chosen`);
- the configured proxy pool (`proxyUrls`);
- the quality ladder `allQualities` (`all`).

The player-store effects `switchQuality` and `enableAutomaticQuality`
are returned as `PlayerEffect` values.

**Idempotence of wrapping.** One would expect wrapping to be
idempotent: a URL that is already proxied is never wrapped again. The
code gives that only in two cases:

- For `createM3U8ProxyUrl`, always: its output carries the
  `/proxy.m3u8?type=hls&url=` marker.
- For `createProxyUrl`, only when some configured proxy URL is a prefix
  of the result, for instance the chosen base itself. Its path
  `/proxy?url=` does not contain the web marker `/proxy?type=web&url=`.
  On a base without `?`, the result contains neither marker, so the
  prefix check is the only way it is recognised. With an empty pool it
  is never recognised and the next call wraps it again.

With no base at all, the builders return the URL unwrapped. The model
follows the code (`Proxy.ProxyUrlIsProxied`,
`Proxy.ProxyUrlRecognisedOnlyByPrefix`, `Downloads.DownloadLinkStable`).

## Model

| member | source | states |
|---|---|---|
| Proxy.ProxyUrl | frontend/src/components/player/utils/proxy.ts:10-25 | Without a usable base (none, or the empty string), the URL comes back unchanged. With base `b`, the result starts with `b + "/proxy?url="`. |
| Proxy.ProxyUrlLayout | frontend/src/components/player/utils/proxy.ts:22-24 | With base `b`, the result is exactly `b + "/proxy?"` followed by the joined parameters: `url`, then `headers` (always present), then `download=true` only when asked. |
| Proxy.M3U8ProxyUrl | frontend/src/components/player/utils/proxy.ts:33-49 | Without a usable base, the URL comes back unchanged. With base `b`, the result starts with `b + "/proxy.m3u8?type=hls&url="`. |
| Proxy.M3U8ProxyUrlLayout | frontend/src/components/player/utils/proxy.ts:46-48 | With base `b`, the result is exactly `b + "/proxy.m3u8?"` followed by the joined `type=hls`, `url`, `headers` and the optional `download`. |
| Proxy.MP4ProxyUrl | frontend/src/components/player/utils/proxy.ts:57-66 | Returns the URL for every header record. |
| Proxy.EncodedHasNoDelimiters | frontend/src/components/player/utils/proxy.ts:22-23 | An encoded component contains no `&`, `=`, `?`, `/` or `#`. |
| Proxy.ProxyParamsSeparable | frontend/src/components/player/utils/proxy.ts:22-24 | The builders' parameters can be split back apart: keys and values contain no separators. |
| Proxy.ReadProxyUrlRoundTrip | frontend/src/components/player/utils/proxy.ts:22-24 | Reading a `createProxyUrl` result on its base gives a web request for exactly the target URL, the header record and the download flag. |
| Proxy.ReadM3U8ProxyUrlRoundTrip | frontend/src/components/player/utils/proxy.ts:46-48 | Reading a `createM3U8ProxyUrl` result on its base gives an HLS request for exactly the target URL, the header record and the download flag. |
| Proxy.EmptyHeadersEncoding | frontend/src/components/player/utils/proxy.ts:12-24 | The default empty header record is written as `{}` and travels as `headers=%7B%7D`. |
| Proxy.M3U8Example | frontend/src/components/player/utils/proxy.ts:46-48 | Base `https://proxy1.example`, target `https://cdn.example/video.m3u8` and no headers give `https://proxy1.example/proxy.m3u8?type=hls&url=https%3A%2F%2Fcdn.example%2Fvideo.m3u8&headers=%7B%7D`. |
| Proxy.StartsWithAnyIff | frontend/src/components/player/utils/proxy.ts:85-86 | The pool check holds iff some configured proxy URL is a prefix of the URL. |
| Proxy.StartsWithAny | frontend/src/components/player/utils/proxy.ts:86 | The pool test `proxyUrls.some(p => url.startsWith(p))`, walked entry by entry; characterised by `Proxy.StartsWithAnyIff`. |
| Proxy.IsUrlAlreadyProxied | frontend/src/components/player/utils/proxy.ts:73-87 | The three tests in the source's order: HLS marker, web marker, pool prefix; characterised by `Proxy.IsUrlAlreadyProxiedIff`. |
| Proxy.IsUrlAlreadyProxiedIff | frontend/src/components/player/utils/proxy.ts:73-87 | A URL counts as proxied iff at least one of three holds: the HLS marker occurs in it, the web marker occurs in it, or it starts with a configured proxy URL. |
| Proxy.M3U8ProxyUrlIsProxied | frontend/src/components/player/utils/proxy.ts:73-77 | With a usable base, an HLS proxy URL is recognised as proxied whatever the pool. |
| Proxy.ProxyUrlIsProxied | frontend/src/components/player/utils/proxy.ts:84-86 | A web proxy URL is recognised as proxied when its base is in the configured pool. |
| Proxy.ProxyUrlCarriesNoMarker | frontend/src/components/player/utils/proxy.ts:73-80 | A `createProxyUrl` result on a base without `?` contains neither the HLS marker nor the web marker. |
| Proxy.ProxyUrlRecognisedOnlyByPrefix | frontend/src/components/player/utils/proxy.ts:73-87 | On a base without `?`, a `createProxyUrl` result counts as proxied iff some configured proxy URL is a prefix of it. With an empty pool it never counts as proxied. |
| Downloads.Candidate | frontend/src/components/player/atoms/settings/Downloads.tsx:85-89 | There is a candidate iff one of two holds: the source is HLS, or it is a file source whose quality map has the current quality. For HLS the candidate is the manifest URL; for a file it is that quality's URL. |
| Downloads.DownloadLink | frontend/src/components/player/atoms/settings/Downloads.tsx:82-109 | The link is null iff there is no candidate or the candidate is empty. An already-proxied candidate comes back unchanged. Without a usable base, the candidate comes back unchanged. |
| Downloads.DownloadLinkRoundTrip | frontend/src/components/player/atoms/settings/Downloads.tsx:91-102 | A candidate that gets wrapped reaches the proxy as exactly that URL, with the merged headers and `download=true`, on the HLS endpoint for HLS sources and the web endpoint for file sources. |
| Downloads.DownloadLinkStable | frontend/src/components/player/atoms/settings/Downloads.tsx:97-105 | Resolving again a source whose candidate is a link this hook produced gives the same link, provided a base was used (for file sources, a base in the pool). |
| Downloads.EffectiveHeaders | frontend/src/components/player/atoms/settings/Downloads.tsx:92-95 | `{...preferredHeaders, ...headers}` with absent records as `{}`; characterised by `Downloads.EffectiveHeadersMap`. |
| Downloads.EffectiveHeadersMap | frontend/src/components/player/atoms/settings/Downloads.tsx:91-94 | In the merged headers, `headers` overrides `preferredHeaders` key by key, keys of both survive, and an absent record counts as empty. The preferred keys keep their order in front. |
| Downloads.HeaderMergeExample | frontend/src/components/player/atoms/settings/Downloads.tsx:91-94 | `{A: 1, B: 2}` overridden by `{B: 3, C: 4}` gives `{A: 1, B: 3, C: 4}`. |
| Downloads.ExternalPlayerUrl | frontend/src/components/player/atoms/settings/Downloads.tsx:157-182 | A deep link exists iff the download URL is non-empty and the player is `vlc`, `iina` or `outplayer`. `vlc://` and `outplayer://` are followed by the URL itself. `iina://weblink?url=` is followed by the URL's encoding: a component of unreserved characters and escapes that decodes back to the URL. |
| QualityView.AlwaysVisible | frontend/src/components/player/atoms/settings/QualityView.tsx:16-23 | Every label but `unknown` is always visible; used by `QualityView.ListedQualities`. |
| QualityView.VisibleQualities | frontend/src/components/player/atoms/settings/QualityView.tsx:16-62 | The visible list is an order-preserving subsequence of the ladder. A quality is in it iff it is on the ladder and is either always visible or available. |
| QualityView.VisibleCounts | frontend/src/components/player/atoms/settings/QualityView.tsx:58-62 | The filter keeps every occurrence of a shown quality and drops every hidden one. |
| QualityView.VisibleDistinct | frontend/src/components/player/atoms/settings/QualityView.tsx:58-62 | A ladder without repeats gives a visible list without repeats. |
| QualityView.VisibleAllShown | frontend/src/components/player/atoms/settings/QualityView.tsx:58-62 | A ladder whose qualities are all shown passes the filter unchanged. |
| QualityView.VisibleExample | frontend/src/components/player/atoms/settings/QualityView.tsx:16-62 | With only 720p and 1080p available, the full ladder shows 360, 480, 720, 1080 and 4k, and hides `unknown`. |
| QualityView.ListedQualities | frontend/src/components/player/atoms/settings/QualityView.tsx:16-62 | A ladder quality is listed iff it is not `unknown` or it is available. |
| QualityView.QualityMenu | frontend/src/components/player/atoms/settings/QualityView.tsx:39-93 | The entries are the visible qualities, one each, in ladder order. An entry is clickable iff its quality is available, disabled iff not clickable, and selected iff it is the current quality. The auto toggle is shown iff the source is HLS, and then shows the stored setting. |
| QualityView.EntryFor | frontend/src/components/player/atoms/settings/QualityView.tsx:71-78 | One menu entry: selected when it is the current quality, clickable when available, disabled otherwise; characterised by `QualityView.QualityMenu`. |
| QualityView.SupportsAutoQuality | frontend/src/components/player/atoms/settings/QualityView.tsx:39 | Automatic quality is offered only for HLS sources; characterised by the toggle clause of `QualityView.QualityMenu`. |
| QualityView.AtMostOneSelected | frontend/src/components/player/atoms/settings/QualityView.tsx:73 | With a ladder without repeats, at most one entry is selected. One is selected iff the current quality is on the ladder and visible. |
| QualityView.QualityPreferences.constructor | frontend/src/components/player/atoms/settings/QualityView.tsx:34-36 | The preference starts with the given automatic flag and last-chosen quality. |
| QualityView.QualityPreferences.Change | frontend/src/components/player/atoms/settings/QualityView.tsx:41-50 | Remembers the chosen quality, leaves automatic mode unchanged, and asks the player to switch to that quality. |
| QualityView.QualityPreferences.ChangeAutomatic | frontend/src/components/player/atoms/settings/QualityView.tsx:52-56 | Negates automatic mode and leaves the last-chosen quality alone. It asks the player to enable automatic quality iff the new value is on. |
| QualityView.QualityPreferences.Click | frontend/src/components/player/atoms/settings/QualityView.tsx:74-76 | Clicking an available entry behaves as `change`. Clicking an unavailable one changes nothing and asks nothing. |
| QualityView.ToggleTwice | frontend/src/components/player/atoms/settings/QualityView.tsx:52-56 | Toggling twice restores both fields, and exactly one of the two toggles (the one that turns automatic mode on) asks the player to enable it. |
| UriComponent.Encode | frontend/src/components/player/utils/proxy.ts:22-47 | The encoding is never shorter than its input. |
| UriComponent.EncodeAlphabet | frontend/src/components/player/utils/proxy.ts:22-47 | Every character of an encoding is unreserved or the `%` of an escape. |
| UriComponent.DecodeEncode | frontend/src/components/player/utils/proxy.ts:22-47 | Decoding an encoding gives back the original string, for every string. |
| UriComponent.EncodeUnreserved | frontend/src/components/player/utils/proxy.ts:22 | A string of unreserved characters is its own encoding. |
| UriComponent.EncodeSimpleUrl | frontend/src/components/player/utils/proxy.ts:22 | In `scheme://host/path` made of unreserved characters, only the `:` and all three `/` are escaped. |
| Json.ParseStringify | frontend/src/components/player/utils/proxy.ts:23-47 | Parsing the JSON text of a header record gives back every entry, in order. |
| Headers.SpreadToMap | frontend/src/components/player/atoms/settings/Downloads.tsx:91-94 | Spreading `b` over `a` gives, as a dictionary, `a` updated by `b`. |
| Headers.SpreadKeys | frontend/src/components/player/atoms/settings/Downloads.tsx:91-94 | Spreading keeps `a`'s keys in place and appends the keys of `b` that `a` lacks, in `b`'s order. |
| Headers.SpreadDistinct | frontend/src/components/player/atoms/settings/Downloads.tsx:91-94 | Spreading two records without repeated keys gives a record without repeated keys. |
| Query.ParseJoin | frontend/src/components/player/utils/proxy.ts:24-48 | Splitting a joined list of separable parameters gives the list back. |
| Strings.ContainsIff | frontend/src/components/player/utils/proxy.ts:75-80 | `includes` holds iff the pattern occurs at some position. |

## Left out

- React rendering, translations, `router.close()` and navigation, `window.open`, the clipboard and `console.warn`. Only the strings produced and the state changed are modelled.
- The subtitle download (`convertSubtitlesToSrtDataurl`) is not part of this model.
- `getLoadbalancedProxyUrl` and `getProxyUrls` are parameters. The random, load-balancing choice of a base is not modelled.
- `allQualities` is a parameter. The guarantee that its labels are distinct is a hypothesis of `QualityView.AtMostOneSelected`.
- `switchQuality` and `enableAutomaticQuality` are returned as effects. What the player does with them is not modelled.
- The quality store (`useQualityStore`) is reduced to its two fields in `QualityPreferences`. Its persistence is not modelled.
- The memoisation of `useDownloadLink` (`useMemo`) and of the callbacks (`useCallback`) is not modelled. Each function is computed from its inputs.
- Headers: JavaScript lists integer-like property names first, in ascending order. The model keeps every key in insertion order, so it differs for keys such as `"1"`.
- Strings are sequences of Unicode scalar values. Lone UTF-16 surrogates cannot occur, so the `URIError` that `encodeURIComponent` throws for them is not modelled.
- Proxy.ProxyUrl: a caller that passes `null` as the header record gets no `&headers=` part. The declared type rules `null` out, so the model always writes that part (the same holds for Proxy.M3U8ProxyUrl).
- `Proxy.ReadProxyUrl` reads URLs produced by the builders. It is not a full URL parser and does not model the proxy server, which is not part of this model.
- `frontend/src/pages/discover/hooks/useDiscoverMedia.ts`, `frontend/src/utils/setup/constants.ts` and `frontend/src/components/layout/Footer.tsx` are not part of this model: they are network fetches, configuration lookup and layout.
