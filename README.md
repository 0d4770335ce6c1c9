# Daydream browser core, modelled in Dafny

Daydream is a proxy web browser that runs in a browser tab. Its address bar takes URLs, search terms and
`daydream://` addresses for its own pages. A tab's frame loads pages through a service-worker proxy.
This project models the decision logic at the core of the browser, and proves properties of it:

- **Scheme router** (`Protocols`). It does the following:
  - registers routes per scheme and path;
  - turns typed input into the URL a frame loads;
  - turns a loaded URL back into the address shown.
- **Address helpers** (`Utils`). The simpler `processUrl`/`getInternalURL` pair, and `closest`.
- **Proxy decisions** (`Proxy`). It covers:
  - search versus URL;
  - the transport choice;
  - the per-domain backend and the `automatic` fallback;
  - the service-worker registration dispatch;
  - favicon hrefs.
- **Session history** (`History`). A stack of entries and a current index, which is persisted.
- **Omnibox suggestions** (`Search`). It covers:
  - arrow-key movement through four result sections;
  - the query prefix strip;
  - the predicted settings URLs;
  - the result caps.
- **Zoom and the inspector** (`Functions`). The zoom step ladder, and the eruda script flags.
- **Event bus** (`Events`). Listener lists, dispatch, and the message handlers.
- **Export obfuscation** (`Obfuscation`). This covers:
  - the XOR-2 layer;
  - base64 as `btoa`/`atob` compute it;
  - `base6xorEncrypt`/`base6xorDecrypt`;
  - `decodeBase64`.
- **Cookie parsing** (`Cookies`). `extractCookies`.
- **Profiles** (`Profiles`). The profile store, the `activeProfile` entry, and the database filter of `clearAllData`.
- **Icon route** (`IconRoute`). The URL normalisation of the server's `/internal/icons/` handler.
- **Development server** (`ViteConfig`). The pretty-URL middleware, and the `pages` map.

`StringUtil` (strings.dfy) defines JavaScript's string operations once:

- `startsWith` and `endsWith`;
- `indexOf`;
- a first-occurrence `replace`;
- `split` and `join`;
- `trim` with JavaScript's whitespace set;
- ASCII `toLowerCase`.

`Wrappers` defines `Option` and `Result`.

Calls into code outside the core become function parameters:

- the WHATWG URL parser;
- the UV codec in `convertURL`;
- `encodeURIComponent`, `decodeURIComponent` and `decodeURI`;
- the glob and `path.resolve`;
- the clock.

Where the model needs a property of such a call, the property is a hypothesis of the lemma that uses it. I/O that a method performs is recorded in fields of its class, e.g. `Proxy.transportCalls` and the `History` store fields.

Points where the code behaves differently from what one might expect are modelled as the code is written:

- The `javascript:` branch of `Protocols.processUrl` does not return. Such input is routed like any other string and ends as `/internal/javascript:…` or a scheme route.
- `redirect`, `inFrame_Redirect`, `convertURL` and `getFavicon` hand `registerSW` the selected entry's `file`. For the `uv`, `sj` and `ec` entries that is a string. A string has no `type`, so `registerSW` does nothing for it (`Proxy.FileStringDoesNothing`), and the `setTransports` continuation chained on the call still runs (proxy.ts lines 206, 237, 262 and 316). For the `auto` entry the file is `null`. `registerSW(null)` rejects at `null.type` (line 96), so that continuation never runs (`Proxy.ChainedFileCalls`).
- With only the built-in route, `daydream://*` is resolved by the exact-path lookup under the key `*`. It yields `/internal` itself. The round trip `daydream://p` → `/internal/p` → `daydream://p` therefore holds exactly for the paths `Protocols.BuiltInRoundTrip` admits: non-empty, on one line, not starting with `/`, and not `*`. Outside them it fails:
  - `daydream:///x` comes back as `daydream://x`, because the leading slashes are stripped;
  - `daydream://a` followed by a line break and `b` comes back as `daydream://a`, because `(.+)` stops at the line break;
  - `daydream://` with an empty path does not match the pattern, and comes back as `daydream://daydream://`.
- The zoom state starts at level 1 with the step pointing at 1.25 (`Functions.InitialZoomMismatch`).
- A profile named `activeProfile` shares its key with the `activeProfile` entry (`Profiles.NameSharesActiveKey`).
- `init` of the profiles API, as written, never writes the `activeProfile` entry. See Findings.

## Model

| member | source | states |
|---|---|---|
| Protocols.Protocols.constructor | src/js/browser/protocols.ts:31-40 | the route table starts with exactly the built-in `daydream` wildcard route to `/internal`, unproxied |
| Protocols.Protocols.Register | src/js/browser/protocols.ts:42-48 | the table becomes `SetRoute` of the old table under the lower-cased scheme, and stays well formed (no scheme or path twice) |
| Protocols.SetRouteLookup | src/js/browser/protocols.ts:42-48 | after a register, the lookup of that scheme and path gives the new entry; every other (scheme, path) lookup is unchanged |
| Protocols.SetRouteProtos | src/js/browser/protocols.ts:44-46 | a scheme is appended to the insertion order only when it is new |
| Protocols.SetPathKeys | src/js/browser/protocols.ts:47 | a path key is appended to its scheme's order only when it is new; overwriting keeps the order |
| Protocols.SetRouteWellFormed | src/js/browser/protocols.ts:42-48 | registering keeps schemes and paths free of duplicates |
| Protocols.LowerIdempotent | src/js/browser/protocols.ts:43 | lower-casing a lower-cased scheme changes nothing |
| Protocols.SchemeRun | src/js/browser/protocols.ts:59 | the scheme of the regex is the longest prefix of `[a-zA-Z0-9+.-]` characters |
| Protocols.RestOfLine | src/js/browser/protocols.ts:59 | `(.+)` captures the remainder up to the first line terminator |
| Protocols.SchemeMatch | src/js/browser/protocols.ts:59 | a match has a non-empty scheme of scheme characters and a non-empty path without a line terminator |
| Protocols.SchemeMatchOf | src/js/browser/protocols.ts:59-62 | `scheme://rest` with a non-empty first line of rest matches, with that scheme and the first line of rest |
| Protocols.SchemeMatchNeedsRest | src/js/browser/protocols.ts:59-62 | a match always has a non-empty scheme and a non-empty path |
| Protocols.SchemeCaseInsensitive | src/js/browser/protocols.ts:59-85 | two spellings of a scheme that lower-case alike resolve alike |
| Protocols.RouteResolve | src/js/browser/protocols.ts:59-85 | a route answers only input of the form `scheme://…` whose lower-cased scheme is registered |
| Protocols.ExactBeforeWildcard | src/js/browser/protocols.ts:63-84 | an exact path entry wins over the scheme's `*` entry |
| Protocols.WildcardJoin | src/js/browser/protocols.ts:70-77 | with no exact entry, the `*` entry's URL is joined with the path and converted when proxied |
| Protocols.ProcessUrl | src/js/browser/protocols.ts:50-97 | input that is not `scheme://…` is returned unchanged or placed under `/internal/`; unrouted http, https, absolute-path and data input is returned unchanged |
| Protocols.Fallthrough | src/js/browser/protocols.ts:88-97 | unrouted input is returned unchanged if it starts with `http://`, `https://`, `/` or `data:`, and otherwise gets `/internal/` prepended; routing never fails |
| Protocols.JoinURL | src/js/browser/protocols.ts:134-143 | `joinURL` is the base without one trailing slash, exactly one slash, and the path without one leading slash |
| Protocols.JoinURLExamples | src/js/browser/protocols.ts:134-143 | the three cases: both slashes, neither, one |
| Protocols.BuiltInLookup | src/js/browser/protocols.ts:39 | the built-in table has no exact `daydream` path except `*`, which maps to `/internal`, unproxied |
| Protocols.BuiltInForward | src/js/browser/protocols.ts:59-77 | `daydream://p` becomes `/internal/p` for a non-empty, one-line `p` that does not start with `/` and is not `*`; the table is the one of line 39 and the join that of lines 134-143 |
| Protocols.JavascriptFallsThrough | src/js/browser/protocols.ts:51-97 | with the built-in table, a `javascript:` input is not returned early; it becomes `/internal/` + input |
| Protocols.InternalURLOf | src/js/browser/protocols.ts:100-121 | a URL no route matches is shown unchanged or as a `daydream://` address |
| Protocols.Protocols.GetInternalURL | src/js/browser/protocols.ts:100-121 | the loop returns the reverse mapping `InternalURLOf`: the first match in insertion order |
| Protocols.StripLeadingSlashes | src/js/browser/protocols.ts:105 | the result is a suffix of the input that does not start with `/` |
| Protocols.ReverseExactFirst | src/js/browser/protocols.ts:101-112 | a URL equal to the first entry's URL, an exact one, shows as `scheme://path` |
| Protocols.ReverseFallback | src/js/browser/protocols.ts:116-120 | with no route matching, `/internal/x` shows as `daydream://x` and anything else is unchanged |
| Protocols.BuiltInReverse | src/js/browser/protocols.ts:101-120 | with the built-in table, a URL with prefix `/internal` shows as `daydream://` + the rest without leading slashes; others are unchanged; the table is the one of line 39 |
| Protocols.BuiltInRoundTrip | src/js/browser/protocols.ts:73-106 | `getInternalURL(processUrl("daydream://" + p))` is `daydream://p` for every non-empty, one-line `p` not starting with `/` other than `*`; the table is the one of line 39 |
| Utils.ProcessInternal | src/js/utils.ts:81-83 | `daydream://p` becomes `/internal/p` |
| Utils.ProcessPassThrough | src/js/utils.ts:84-90 | http, https, absolute-path and data input is returned unchanged |
| Utils.ProcessNoValue | src/js/utils.ts:91-98 | there is no value exactly for `javascript:` input |
| Utils.ProcessOther | src/js/utils.ts:99-101 | any other input gets `/internal/` prepended |
| Utils.DaydreamNotOther | src/js/utils.ts:81-98 | a `daydream://` input takes only the first branch |
| Utils.RoundTrip | src/js/utils.ts:81-107 | for every `p`, `getInternalURL(processUrl("daydream://" + p))` is `daydream://p` |
| Utils.DisplayUnchanged | src/js/utils.ts:104-120 | http(s), daydream, data and javascript URLs and non-`/internal/` absolute paths are shown unchanged; any other string not under `/internal/` gets `daydream://` |
| Utils.FallbackDisplay | src/js/utils.ts:99-118 | a string sent to `/internal/` by the fallback shows as `daydream://` + the string |
| Utils.Closest | src/js/utils.ts:135-147 | −1 for an empty array; otherwise an index minimising the distance to `value`, and the first such index |
| Proxy.OrDefault | src/js/apis/proxy.ts:46-63 | JavaScript's `or` of a setting and its default: the result is the setting or the default, a non-empty setting wins, and it is never empty when the default is not |
| Proxy.SearchDefaultRedundant | src/js/apis/proxy.ts:79 | once the constructor's settings read (lines 49-62, not awaited) has completed, the template is non-empty, so the second DuckDuckGo default in `search` never takes effect |
| Proxy.Proxy.constructor | src/js/apis/proxy.ts:46-63 | the search template, transport and wisp URL are the stored settings or their defaults (`ws`/`wss` after the page protocol) |
| Proxy.Search | src/js/apis/proxy.ts:77-93 | the result is the `href` of the trimmed input, or of `http://` + it, or the search URL for the encoded trimmed input; the first whenever the trimmed input parses |
| Proxy.QueryUrl | src/js/apis/proxy.ts:79-90 | a template without `%s` is used as it is; otherwise the result contains the query and is 2 characters shorter than the template plus the query |
| Proxy.SearchTrims | src/js/apis/proxy.ts:77-78 | the input is trimmed first, so trimming it beforehand changes nothing |
| Proxy.SearchAbsolute | src/js/apis/proxy.ts:78-81 | input that parses as an absolute URL yields that URL's `href` |
| Proxy.SearchBareHost | src/js/apis/proxy.ts:83-87 | otherwise, when `http://` + input parses and its host has a dot, that URL's `href` |
| Proxy.SearchQuery | src/js/apis/proxy.ts:83-90 | otherwise the template with its first `%s` replaced by the encoded input |
| Proxy.QueryUrlDefault | src/js/apis/proxy.ts:79 | with no template, or an empty one, DuckDuckGo's `?q=` URL |
| Proxy.QueryUrlSetting | src/js/apis/proxy.ts:79-89 | a stored template has only its first `%s` replaced |
| Proxy.TransportFile | src/js/apis/proxy.ts:66-72 | a name in `transportMap` selects its file and any other name the libcurl file, so the file is always one of the map's |
| Proxy.Proxy.SetTransports | src/js/apis/proxy.ts:66-75 | exactly one transport call, for the current transport and wisp URL, is recorded; nothing else changes |
| Proxy.DetermineProxy | src/js/apis/proxy.ts:165-171 | no mapping gives `uv`; `undefined` only when the mapping has no `default`; an empty id only from an empty `default` entry |
| Proxy.DetermineProxyCases | src/js/apis/proxy.ts:145-171 | no mapping gives `uv`; a truthy domain entry is used; otherwise the `default` entry, if any |
| Proxy.DetermineProxyFromMapping | src/js/apis/proxy.ts:165-171 | a backend id from a loaded mapping is one of its values |
| Proxy.ChosenEntry | src/js/apis/proxy.ts:183-188 | the entry used is a configured one or the UV fallback |
| Proxy.AutomaticResult | src/js/apis/proxy.ts:173-203 | a descriptor needs a non-empty parsed hostname, and has the type, file and config of a configured entry or of the fallback |
| Proxy.AutomaticNeedsHost | src/js/apis/proxy.ts:174-181 | `automatic` gives null exactly when no non-empty hostname parses |
| Proxy.AutomaticFallback | src/js/apis/proxy.ts:183-202 | an unknown backend id falls back to `sw`, `/@/sw.js` and the UV config, with no `func` |
| Proxy.AutomaticConfigured | src/js/apis/proxy.ts:183-202 | a known backend id yields its entry's type, file and config, with no `func` |
| Proxy.AutomaticWithoutMapping | src/js/apis/proxy.ts:145-202 | without a mapping, the `uv` entry is used |
| Proxy.ReferenceHost | src/js/apis/proxy.ts:147 | a reference starting with `//` resolves to the host it names, the run up to the next `/`; any other relative reference stays on the page's host |
| Proxy.FetchedMapping | src/js/apis/proxy.ts:145-154 | a mapping is loaded only when the reference stays on the page's own site, and it is the one that site serves |
| Proxy.MappingFetchedFromJsonHost | src/js/apis/proxy.ts:145-171 | as written, the mapping is requested from the host `json`, so from any other site none is loaded and every domain goes to `uv` |
| Proxy.MappingFetchedFromSite | src/js/apis/proxy.ts:145-171 | corrected: `/json/proxy.json` stays on the page's site, whose mapping then decides the backend |
| Proxy.AutomaticCall | src/js/apis/proxy.ts:173-188 | `automatic` rejects exactly when `swConfig` is undefined and a hostname was found; with a config it resolves to `AutomaticResult` |
| Proxy.AutoFuncRejects | src/js/index.ts:81-88 | as written, the `auto` entry calls `automatic(input)` without `swConfig`, so every input with a hostname rejects |
| Proxy.AutoFuncWithConfig | src/js/apis/proxy.ts:173-203 | corrected: with `swConfig` passed on, the same input resolves to a descriptor |
| Proxy.Proxy.Automatic | src/js/apis/proxy.ts:173-203 | returns `AutomaticResult`; on a descriptor it registers that worker once; on null it changes nothing |
| Proxy.FileStringDoesNothing | src/js/apis/proxy.ts:96-118 | a file-name string as argument registers no worker, makes no transport call and logs nothing; the call is the one of lines 205-208 |
| Proxy.RetryOnlyOnNull | src/js/apis/proxy.ts:96-118 | a registration calls `setTransports` once, and a second time exactly when the transport reads null |
| Proxy.RegisterTransportCalls | src/js/apis/proxy.ts:96-118 | at most two transport calls, all of the current transport |
| Proxy.ChainedTransportCalls | src/js/apis/proxy.ts:205-207 | `registerSW(f).then(setTransports)` makes no call when `registerSW` rejects, and otherwise one more than `registerSW`, all of the current transport |
| Proxy.ChainedFileCalls | src/js/apis/proxy.ts:205-207 | a file string gives exactly the continuation's call; the `auto` entry's null file gives none, and registers and logs nothing |
| Proxy.Proxy.RegisterSW | src/js/apis/proxy.ts:95-119 | only a `sw` descriptor with service-worker support registers its file and updates; the transport calls are `RegisterTransportCalls` |
| Proxy.AbsoluteHref | src/js/apis/proxy.ts:310-314 | an href starting with `http` is kept, and with an `http` origin every result starts with `http` |
| Proxy.AbsoluteHrefIdempotent | src/js/apis/proxy.ts:310-314 | with an `http` origin, making an href absolute twice is doing it once |
| Proxy.AbsoluteHrefSlash | src/js/apis/proxy.ts:310-314 | any other href becomes origin + `/` + the href without its leading slash |
| Proxy.Favicon | src/js/apis/proxy.ts:303-327 | an icon or a throw needs a string href; an icon URL starts with the backend's prefix. The invalid-URL throw happens exactly for a relative href on a page URL that does not parse. The missing-config throw happens exactly when the backend has no `config` and the href was made absolute |
| Proxy.FaviconWithoutConfig | src/js/apis/proxy.ts:318-320 | with a backend that has no config, such as the `auto` entry, every string href makes `getFavicon` reject |
| Proxy.FaviconCases | src/js/apis/proxy.ts:303-327 | no icon link gives undefined; a non-string href gives null; otherwise the absolute href goes through the proxy prefix and codec |
| History.Pushed | src/js/apis/history.ts:57-63 | keeps the entries up to the current one, appends the new one, points at it, and stays valid |
| History.Replaced | src/js/apis/history.ts:65-71 | overwrites only the current entry, keeps the length; nothing when the index is −1 |
| History.GoCompose | src/js/apis/history.ts:108-121 | two moves that both happen are one move by the sum of their steps |
| History.BackTarget | src/js/apis/history.ts:80-92 | `back` is `go(-1)`: it moves exactly when the index is above 0 |
| History.ForwardTarget | src/js/apis/history.ts:94-106 | `forward` is `go(1)`: it moves exactly when the index is below the last entry |
| History.Added | src/js/apis/history.ts:123-127 | appends without discarding forward entries and points at the new last entry |
| History.GoValid | src/js/apis/history.ts:108-121 | a move keeps −1 ≤ index < length |
| History.GoInverse | src/js/apis/history.ts:108-121 | `go(-n)` undoes `go(n)` |
| History.BackThenForward | src/js/apis/history.ts:80-106 | forward undoes back |
| History.ForwardThenBack | src/js/apis/history.ts:80-106 | back undoes forward |
| History.PushThenBack | src/js/apis/history.ts:57-92 | back after a push returns to the old entry, which the push kept |
| History.PushEndsForward | src/js/apis/history.ts:57-106 | a push discards the forward entries |
| History.RestoreSaved | src/js/apis/history.ts:34-48 | `init` restores exactly what `saveState` stored |
| History.RestoreUnchecked | src/js/apis/history.ts:34-43 | `init` does not check what it restores: a stored index can break the bounds |
| History.History.constructor | src/js/apis/history.ts:23 | an empty stack at index −1 |
| History.History.Save | src/js/apis/history.ts:45-48 | the store holds the stack and index; the session is unchanged |
| History.History.Init | src/js/apis/history.ts:34-43 | the session becomes `Restored` from the store |
| History.History.PushState | src/js/apis/history.ts:57-63 | the session becomes `Pushed`, is saved, and a push event is emitted |
| History.History.ReplaceState | src/js/apis/history.ts:65-71 | `Replaced` when the index is at least 0, emitting a replace event; otherwise nothing changes |
| History.History.Back | src/js/apis/history.ts:80-92 | moves to `BackTarget` with a back event for the new entry's URL, or changes nothing |
| History.History.Forward | src/js/apis/history.ts:94-106 | moves to `ForwardTarget` with a forward event, or changes nothing |
| History.History.GoSteps | src/js/apis/history.ts:108-121 | moves to `GoTarget` with a go event, or changes nothing; the stack is never changed |
| History.History.AddPage | src/js/apis/history.ts:123-127 | the session becomes `Added` and is saved |
| History.History.ClearHistory | src/js/apis/history.ts:129-134 | an empty stack at index −1, the store cleared, a clear event |
| Search.JsRem | src/js/browser/search.ts:155-166 | JavaScript's `%`: NaN for a zero divisor, otherwise the sign of the dividend with magnitude below the divisor |
| Search.DownStepMoves | src/js/browser/search.ts:149-158 | past the last item ArrowDown leaves the section, otherwise it selects the next item |
| Search.UpStepMoves | src/js/browser/search.ts:159-168 | at the first item ArrowUp leaves the section; from a later one it selects the previous item; from no selection, the next-to-last item |
| Search.DownStepInRange | src/js/browser/search.ts:149-158 | a selection ArrowDown makes lies inside the section |
| Search.NaNIsAbsorbing | src/js/browser/search.ts:159-168 | as written, ArrowUp with nothing selected in an empty section selects NaN, and from NaN both arrow keys select NaN again |
| Search.UpStepGuardedAgrees | src/js/browser/search.ts:159-168 | corrected: the guarded ArrowUp is the written one in a non-empty section, and leaves an empty section for the previous one |
| Search.UpStepGuardedInRange | src/js/browser/search.ts:159-168 | corrected: a selection the guarded ArrowUp makes from a selection is a number inside the section, never NaN |
| Search.EmptyListSearchesForever | src/js/browser/search.ts:149-158 | as written: with nothing selected and no items ArrowDown leaves the section, and with every section empty the next and previous sections are empty too, so the search of lines 318-330 never stops |
| Search.NextIndexBounds | src/js/browser/search.ts:319-320 | the next section index goes round to 0 after the last |
| Search.PreviousIndexBounds | src/js/browser/search.ts:301-303 | the previous section index goes round to the last before 0 |
| Search.Search.constructor | src/js/browser/search.ts:54-75 | four empty sections, the first current one, nothing selected |
| Search.Search.Populate | src/js/browser/search.ts:370-378 | the section counts are replaced; current section and selection are not reset |
| Search.Search.MoveToNextSection | src/js/browser/search.ts:318-330 | ends on the first non-empty section after the current one, going round, with nothing selected |
| Search.Search.MoveToPreviousSection | src/js/browser/search.ts:300-316 | ends on the first non-empty section before the current one, going round, with its last item selected |
| Search.Search.ArrowDown | src/js/browser/search.ts:149-158 | selects as `DownStep` says, or moves at item 0 to the first non-empty section after the current one, every section passed over being empty; with every section empty it does nothing (see Findings) |
| Search.Search.ArrowUp | src/js/browser/search.ts:159-168 | selects as the guarded ArrowUp says, or moves at its last item to the first non-empty section before the current one, every section passed over being empty (see Findings) |
| Search.StripDaydreamCases | src/js/browser/search.ts:123-126 | a query without `daydream:` is kept; one with it loses a non-empty prefix and keeps a suffix |
| Search.StripDaydreamScheme | src/js/browser/search.ts:123-126 | `daydream://p` becomes `p` |
| Search.RemoveAllIdempotent | src/js/browser/search.ts:446 | removing the spaces twice removes nothing more |
| Search.PredictedSettingsUrls | src/js/browser/search.ts:437-448 | one URL per settings page |
| Search.PredictedSettingsShape | src/js/browser/search.ts:437-448 | the k-th URL starts with the k-th base path; a blank query gives the bare path, any other gives path + `/` + the query without spaces; no URL holds a space |
| Search.PredictedSettingsIgnoresSpaces | src/js/browser/search.ts:437-448 | spaces in the query do not change the URLs |
| Search.SearchResultsShown | src/js/browser/search.ts:371-375 | at most 8 results, a prefix of the suggestions, all of them when there are at most 8 |
| Search.MatchingGames | src/js/browser/search.ts:456-459 | only games whose name contains the query, ignoring case |
| Search.MatchingGamesComplete | src/js/browser/search.ts:456-459 | every matching game survives the filter |
| Search.MatchingGamesAppend | src/js/browser/search.ts:456-459 | the filter keeps the catalogue's order: it distributes over concatenation |
| Search.GamesShown | src/js/browser/search.ts:456-459 | at most 10 games, a prefix of the matches |
| Functions.ZoomInStep | src/js/browser/functions.ts:139-145 | the step rises by one below the top and stays at the top |
| Functions.ZoomOutStep | src/js/browser/functions.ts:147-153 | the step falls by one above 0 and stays at 0 |
| Functions.ZoomInOut | src/js/browser/functions.ts:139-153 | from an interior step, in then out (and out then in) returns to it |
| Functions.ZoomMonotone | src/js/browser/functions.ts:139-153 | zooming out never enlarges and zooming in never shrinks |
| Functions.InitialZoomMismatch | src/js/browser/functions.ts:61-63 | the initial level is not the level of the initial step; the first zoom in jumps to 150; the step table is that of line 62 |
| Functions.Functions.constructor | src/js/browser/functions.ts:47-64 | level 1, step 4, all flags clear |
| Functions.Functions.ZoomIn | src/js/browser/functions.ts:139-145 | the step is `ZoomInStep` and the level that step's value; the flags are unchanged |
| Functions.Functions.ZoomOut | src/js/browser/functions.ts:147-153 | the step is `ZoomOutStep` and the level that step's value; the flags are unchanged |
| Functions.AfterInjectStart | src/js/browser/functions.ts:168-179 | afterwards the script is loaded or a load is in flight, so a second entry starts nothing; the toggle and `loaded` are kept, and consistent flags stay consistent |
| Functions.InjectStartIdempotent | src/js/browser/functions.ts:168-179 | entering `injectErudaScript` twice leaves the flags as entering it once |
| Functions.AfterUnload | src/js/browser/functions.ts:267-272 | unload clears the toggle, loaded and injecting, so the next inspect starts a fresh injection |
| Functions.TransitionsConsistent | src/js/browser/functions.ts:166-195 | every transition keeps "loaded and injecting" from holding together; with the toggle of lines 253-272 |
| Functions.LoadedOnlyByLoad | src/js/browser/functions.ts:184-192 | only the load callback sets loaded; the error callback leaves it |
| Functions.DoubleClickWhileLoading | src/js/browser/functions.ts:168-188 | a second inspect while the script loads resolves at once, so the toggle flips twice; with the toggle of lines 253-262 |
| Functions.Functions.InjectErudaScript | src/js/browser/functions.ts:166-195 | the outcome is `InjectStartOf` and the flags `AfterInjectStart` |
| Functions.Functions.OnScriptLoad | src/js/browser/functions.ts:184-188 | the flags become `AfterLoad`: loaded, not injecting |
| Functions.Functions.OnScriptError | src/js/browser/functions.ts:189-192 | the flags become `AfterError`: not injecting |
| Functions.Functions.OnInjected | src/js/browser/functions.ts:253-262 | the eruda panel is shown exactly when the toggle was off, and the toggle flips |
| Functions.Functions.OnUnload | src/js/browser/functions.ts:267-272 | the flags are reset |
| Functions.Functions.InspectElement | src/js/browser/functions.ts:229-274 | no frame or a forbidden `src` skips; otherwise injection starts and a later completion toggles |
| Events.Added | src/js/apis/events.ts:42-51 | adding registers the callback once more under the name, creating the name's list if needed, and changes no other name |
| Events.Removed | src/js/apis/events.ts:53-63 | after removal the callback is not in the name's list, which does not grow; no name is created or dropped and no other name changes |
| Events.DispatchCalls | src/js/apis/events.ts:65-72 | one call per registered callback, with the payload and in registration order, then one per `document` listener with the custom event |
| Events.AddAppends | src/js/apis/events.ts:42-51 | the callback is appended to the name's list, which is created if needed; other names are unchanged |
| Events.AddTwice | src/js/apis/events.ts:46-49 | adding twice puts the callback in the list twice |
| Events.Without | src/js/apis/events.ts:57-60 | the filter removes the callback and adds nothing |
| Events.WithoutKeepsOthers | src/js/apis/events.ts:57-60 | every other callback is kept as often as it occurred |
| Events.WithoutAppend | src/js/apis/events.ts:57-60 | the filter keeps order: it distributes over concatenation |
| Events.WithoutAbsent | src/js/apis/events.ts:57-60 | filtering out an absent callback changes nothing |
| Events.RemoveAll | src/js/apis/events.ts:53-63 | removal drops every occurrence, keeps the other callbacks, and changes nothing for a name without a list |
| Events.AddThenRemove | src/js/apis/events.ts:42-63 | removing right after adding leaves the earlier list without the callback |
| Events.RawCalls | src/js/apis/events.ts:65-72 | each registered callback is called in registration order with the same payload |
| Events.CustomCalls | src/js/apis/events.ts:65-72 | each document listener is called in order with a custom event of that name and data |
| Events.DispatchCountsRegistrations | src/js/apis/events.ts:65-72 | a callback receives the payload once per registration |
| Events.AddedCallbackCalledTwice | src/js/apis/events.ts:42-72 | a newly added callback receives the payload once and the custom event too |
| Events.MessageName | src/js/apis/events.ts:28-40 | a message with no or an empty `eventName` dispatches nothing |
| Events.EventSystem.constructor | src/js/apis/events.ts:13-26 | no listeners anywhere |
| Events.EventSystem.AddEventListener | src/js/apis/events.ts:42-51 | the registry becomes `Added` and the document's listeners `DocAdded` |
| Events.EventSystem.RemoveEventListener | src/js/apis/events.ts:53-63 | the registry becomes `Removed` and the document's listeners `DocRemoved` |
| Events.EventSystem.DispatchEvent | src/js/apis/events.ts:65-72 | the calls made are `DispatchCalls` |
| Events.EventSystem.HandleMessage | src/js/apis/events.ts:28-40 | no name, no calls; otherwise the dispatch of that name with the message's data |
| Events.NoDuplicatesWithout | src/js/apis/events.ts:57-60 | filtering keeps a duplicate-free list free of duplicates |
| Obfuscation.Xor2 | src/js/apis/exporting.ts:5-9 | the length is kept and each code unit has bit 1 flipped |
| Obfuscation.XorEach | src/js/apis/exporting.ts:5-9 | the loop computes `Xor2` |
| Obfuscation.Xor2Involution | src/js/apis/exporting.ts:5-19 | the XOR layer undoes itself, so decryption inverts the XOR of encryption |
| Obfuscation.Xor2WellFormed | src/js/apis/exporting.ts:5-9 | the XOR layer keeps surrogate pairing intact, both ways |
| Obfuscation.Sextets | src/js/apis/exporting.ts:10 | the 6-bit groups of a byte string: all below 64, never one left over, of the base64 length |
| Obfuscation.BytesOfSextets | src/js/apis/exporting.ts:10-17 | the bytes are recovered from their 6-bit groups |
| Obfuscation.ValuesOfChars | src/js/apis/exporting.ts:10-17 | base64 digits are recovered from their characters |
| Obfuscation.Encode | src/js/apis/exporting.ts:10 | the output length is a multiple of 4 |
| Obfuscation.EncodeAlphabet | src/js/apis/exporting.ts:10 | every output character is in the base64 alphabet of RFC 4648 section 4 or is `=`, and `=` only in the last two places |
| Obfuscation.DecodeEncode | src/js/apis/exporting.ts:10-17 | forgiving-base64 decoding inverts the encoding |
| Obfuscation.DecodeLengthOne | src/js/apis/exporting.ts:17 | a whitespace-free input whose length is 1 more than a multiple of 4 does not decode; the decoding is reached from line 93 |
| Obfuscation.FromToBytes | src/js/apis/exporting.ts:10-17 | Latin-1 text survives the round trip through bytes |
| Obfuscation.AtobBtoa | src/js/apis/exporting.ts:10-17 | `btoa` accepts any Latin-1 text and `atob` recovers it |
| Obfuscation.Encrypted | src/js/apis/exporting.ts:4-11 | encryption succeeds exactly when the URI encoding of the XORed text succeeds and is Latin-1, and its output length is a multiple of 4 |
| Obfuscation.Decrypted | src/js/apis/exporting.ts:13-21 | decryption succeeds exactly when `atob` and the URI decoding succeed, and XORing its output gives back what the URI decoding produced |
| Obfuscation.Base6xorEncrypt | src/js/apis/exporting.ts:4-11 | computes `Encrypted`: XOR, then the URI encoding, then `btoa` |
| Obfuscation.Base6xorDecrypt | src/js/apis/exporting.ts:13-21 | computes `Decrypted`: `atob`, then the URI decoding, then XOR |
| Obfuscation.RoundTrip | src/js/apis/exporting.ts:4-21 | decrypting an encryption gives back the text, when the URI codec pair is inverse and its encoder gives ASCII |
| Obfuscation.EncryptedAlphabet | src/js/apis/exporting.ts:4-11 | encryption fails exactly when the URI encoding fails; its output is base64 alphabet and padding |
| Obfuscation.IndexOfUnit | src/js/apis/exporting.ts:92 | the first position of a code unit, or −1 when it is absent |
| Obfuscation.SecondField | src/js/apis/exporting.ts:92 | the text that follows the first comma, up to the next comma or the end; absent exactly when there is no comma |
| Obfuscation.DecodeBase64Payload | src/js/apis/exporting.ts:91-94 | a data URL `header,payload` decodes to the payload text, whatever the header without commas is |
| Obfuscation.DecodeBase64 | src/js/apis/exporting.ts:91-94 | only a URL with a comma decodes: without one `atob("undefined")` throws |
| Cookies.Step | src/js/apis/exporting.ts:25-28 | a cookie whose value decodes adds its key, holding the decoded value, and leaves every other key; a value that does not decode makes extraction throw |
| Cookies.Collected | src/js/apis/exporting.ts:22-30 | the dictionary has at most one entry per cookie |
| Cookies.Extracted | src/js/apis/exporting.ts:22-30 | `extractCookies` returns exactly when every `;`-separated cookie's value decodes |
| Cookies.ExtractCookies | src/js/apis/exporting.ts:22-30 | the loop computes `Extracted` of the cookie string |
| Cookies.ParseParts | src/js/apis/exporting.ts:25-26 | the key is the text before the first `=`, trimmed, and the raw value all that follows it |
| Cookies.ValueKeepsEquals | src/js/apis/exporting.ts:25-26 | a value may itself contain `=` |
| Cookies.CollectedSucceeds | src/js/apis/exporting.ts:22-30 | extraction succeeds exactly when every value decodes |
| Cookies.NoneStays | src/js/apis/exporting.ts:22-30 | once a value fails to decode, the whole extraction throws |
| Cookies.LastPieceWins | src/js/apis/exporting.ts:27 | the keys are those of the cookies; each holds the decoded value of the last cookie with that key |
| Cookies.LastIndex | src/js/apis/exporting.ts:27 | the position of the last cookie with a key: it has the key and no later one does; -1 when none has it |
| Cookies.CollectedAtLastIndex | src/js/apis/exporting.ts:22-30 | a key is in the result exactly when some cookie has it, and holds the decoded value of the cookie at `LastIndex` |
| Cookies.EmptyCookieString | src/js/apis/profiles.ts:192-199 | an empty cookie string yields the one entry `""` → `""` |
| Profiles.InitVersionsAgree | src/js/apis/profiles.ts:72-79 | `init` as written and as intended give the same store exactly when the `activeProfile` key exists: a falsy entry can only be `""`, which the intended `init` writes again |
| Profiles.Initialized | src/js/apis/profiles.ts:72-78 | the `activeProfile` entry is set to `""` when it is unset or falsy; otherwise nothing changes |
| Profiles.InitNeverWrites | src/js/apis/profiles.ts:72-79 | on an empty store, as written: no `activeProfile` entry; corrected: the `activeProfile` entry `""`; `_waitForRequest` replaces the `onsuccess` handler at line 363 |
| Profiles.InitIdempotent | src/js/apis/profiles.ts:72-78 | a second init changes nothing, and init touches no other key |
| Profiles.ProfilesAPI.InitAsWritten | src/js/apis/profiles.ts:68-81 | the store becomes `InitializedAsWritten`, since `_waitForRequest` (lines 360-366) replaces the handler before the read completes |
| Profiles.ProfilesAPI.Init | src/js/apis/profiles.ts:68-81 | the store becomes `Initialized` |
| Profiles.Created | src/js/apis/profiles.ts:91-97 | the key `name` holds a new empty record, which may overwrite another; other keys are unchanged |
| Profiles.NameSharesActiveKey | src/js/apis/profiles.ts:91-97 | a profile named `activeProfile` replaces the `activeProfile` entry, and reading the active profile then throws; the `activeProfile` entry is read at lines 139-151 |
| Profiles.CreatedThenLookup | src/js/apis/profiles.ts:91-118 | `getProfile` (`ProfilesAPI.GetProfile`) after `createProfile` finds the new empty record; every other name reads as before |
| Profiles.ActiveOfCases | src/js/apis/profiles.ts:139-151 | null when the `activeProfile` entry is missing or empty; otherwise the lookup of the name it holds |
| Profiles.ActiveOf | src/js/apis/profiles.ts:139-151 | what `getActiveProfile` (`ProfilesAPI.GetActiveProfile`) finds is the truthy value stored under the name the `activeProfile` entry holds; it throws exactly when that entry is an object, with the invalid-key error |
| Profiles.SavedReadBack | src/js/apis/profiles.ts:153-171 | when the active record is stored under its own name, the save succeeds and reading the active profile back gives that record with the exported data |
| Profiles.SavedTouchesOneKey | src/js/apis/profiles.ts:153-171 | a successful save writes only the key given by the active record's `name` field; with no active profile the store is kept |
| Profiles.ProfilesAPI.SaveCurrentProfileData | src/js/apis/profiles.ts:153-171 | the store becomes `Saved`, or stays unchanged with its error |
| Profiles.SwitchedThenActive | src/js/apis/profiles.ts:120-137 | after a corrected switch `getActiveProfile` finds the profile switched to, whose data is what was imported; a profile named `""` then reads as no active profile, one named `activeProfile` as that name |
| Profiles.SwitchSetsActive | src/js/apis/profiles.ts:121-133 | a switch succeeds exactly when the profile exists and the save succeeds, then the `activeProfile` entry holds the name; as written and corrected succeed alike |
| Profiles.SwitchToOtherAgrees | src/js/apis/profiles.ts:120-137 | switching to another profile than the active one gives the same result as written and corrected |
| Profiles.ReselectImportsStaleData | src/js/apis/profiles.ts:121-136 | re-selecting the active profile, as written, imports the data from before the save |
| Profiles.ReselectImportsExport | src/js/apis/profiles.ts:126-136 | corrected, re-selecting the active profile imports what was just exported |
| Profiles.ProfilesAPI.SetActiveProfile | src/js/apis/profiles.ts:120-137 | the store and imported data are those of `Switched`; on an error the store is the one reached so far |
| Profiles.ProfilesAPI.CreateProfile | src/js/apis/profiles.ts:83-106 | the store gets the new profile and the database list is kept; with auto-select the profile is then switched to, leaving the list `Kept` of the old one, or the switch's own error comes back with the store holding the new profile and the list unchanged |
| Profiles.Kept | src/js/apis/profiles.ts:175-180 | no more names than before, and every name kept is `profilesDB` or empty |
| Profiles.KeptExactly | src/js/apis/profiles.ts:175-180 | a database is kept exactly when it is `profilesDB` or unnamed |
| Profiles.KeptAppend | src/js/apis/profiles.ts:175-180 | the survivors keep their order: the filter distributes over concatenation |
| Profiles.ProfilesAPI.ClearAllData | src/js/apis/profiles.ts:173-182 | the database list becomes `Kept` of the old list; the store is unchanged |
| IconRoute.Upstream | srv/router.ts:44-51 | the upstream URL is `https://icon.horse/icon/` followed by the normalised URL, which never gains characters; a URL holding `https:/` loses at least those seven |
| IconRoute.NormalisedShorter | srv/router.ts:44-47 | the replace chain never lengthens the URL, and takes out a whole `https:/` when there is one |
| IconRoute.SchemeGone | srv/router.ts:44-47 | of an `http://` or `https://` URL with a colon-free host, the normalised URL keeps no colon: nothing of the scheme is left |
| IconRoute.NoSchemeUnchanged | srv/router.ts:44-51 | a URL with none of the patterns (no colon) is appended unchanged |
| IconRoute.NoColonAfterFirst | srv/router.ts:45-47 | the last three replacements change nothing in a colon-free string |
| IconRoute.SecureKeepsSlash | srv/router.ts:44-47 | since `https:/` is replaced first, `https://host` becomes `/host` |
| IconRoute.PlainKeepsSlash | srv/router.ts:44-47 | `http://host` becomes `/host` too, through `http:/` |
| IconRoute.SecureUpstream | srv/router.ts:44-51 | an `https://` URL is fetched with a doubled slash |
| IconRoute.SecureExample | srv/router.ts:44-51 | `https://a.com` is fetched as `https://icon.horse/icon//a.com` |
| ViteConfig.Rewritten | vite.config.ts:24-29 | the middleware only appends to a URL, `/index.html` to a single-segment `/internal/` URL not ending in `.html`, and what it produces is never such a URL again; an absent URL stays absent |
| ViteConfig.RewriteIdempotent | vite.config.ts:25-28 | rewriting twice is rewriting once |
| ViteConfig.DeeperPathsUnchanged | vite.config.ts:24-29 | a trailing slash or a deeper path is not rewritten |
| ViteConfig.PageNameRewritten | vite.config.ts:24-29 | a page name is rewritten to its directory's index file |
| ViteConfig.PrettyUrls | vite.config.ts:24-30 | the request URL becomes `Rewritten` and `next()` is called exactly once |
| ViteConfig.NameOf | vite.config.ts:14 | a path without `/` is named `undefined` |
| ViteConfig.NameOfPage | vite.config.ts:11-14 | the name of `dir/page/rest` is `page` |
| ViteConfig.Pages | vite.config.ts:7-16 | `pages` has the `index` entry and an entry for the name of every path |
| ViteConfig.BuildPages | vite.config.ts:7-16 | the loop computes `Pages` |
| ViteConfig.LastPathWins | vite.config.ts:7-16 | the names are `index` and the path names; each maps to its last path; `index` keeps the preset only when no path is named so |
| ViteConfig.LastNamed | vite.config.ts:11-14 | the position of the last path with a name: it has the name and no later path does; -1 when none has it |
| ViteConfig.PagesAtLastNamed | vite.config.ts:7-16 | a name is in `pages` exactly when it is `index` or some path has it, and maps to the path at `LastNamed`, or to the preset |

## Left out

- I/O is not modelled:
  - IndexedDB, localStorage and localforage;
  - `document.cookie` writes and cookie clearing;
  - `fetch`, `HEAD` probes and the DOM;
  - iframes and their `eval`;
  - `postMessage` and BroadcastChannel;
  - logging: `this.logging.createLog` (proxy.ts line 74), `this.logger.createLog` (functions.ts line 273), and the `console` output in search.ts, profiles.ts and proxy.ts.
  Their effects appear only as recorded fields or as parameters.
- Promise and event-loop ordering is not modelled. Each asynchronous operation is one atomic step, and `serviceWorker.ready` is taken to resolve.
- The WHATWG URL parser, the UV codec and `convertURL` are parameters, and so are `encodeURIComponent`/`decodeURIComponent` and `decodeURI`. The properties the model needs of them are hypotheses.
- `Proxy.redirect`, `inFrame_Redirect` and the frame navigation are left out: they are DOM work. Only their `registerSW` argument is modelled.
- `Protocols.navigate` is left out: it only sets an iframe attribute.
- Protocols.ProcessUrl: the `(.+)` capture is modelled as the rest of the first line. Non-BMP characters are not modelled, since `string` is a sequence of code points rather than UTF-16 code units everywhere except in `Obfuscation`.
- StringUtil.Lower: `toLowerCase` is ASCII-only in the model, because Unicode case mapping has no model here.
- Zoom levels are integers in percent rather than floating point. `zoomLevel` itself is only written to the frame's style.
- `History.go` with a non-integer step is not modelled, because the model's steps are integers.
- History: the methods after a restore whose index lies outside the stack are not modelled. `History.History.Init` may restore such an index (`History.RestoreUnchecked`), after which the source throws or repairs; every other method of the class requires a valid session.
- Utils.Closest: the JavaScript numbers of `closest` are integers in the model. So it does not capture that an `Infinity` value gives −1 on a non-empty array, that a `NaN` element is skipped, or fractional distances.
- Search sections are modelled by their item counts. The `querySelectorAll` lookups, `populateOtherPages` and `populateSettings` (HEAD fetches), `throttle` and the rendering are left out.
- Eruda's own behaviour is not modelled, and neither is a toggle that arrives before the script does. Only the flags are modelled.
- Events.EventSystem.DispatchEvent: `emit` (events.ts lines 13-26) also posts `{eventName, data}` to every iframe, to the parent window and to the `global-events` BroadcastChannel. These posts are left out as I/O; its local `dispatchEvent` is `DispatchEvent`.
- `importData`/`exportData` and their JSON handling are left out: they are database, `localStorage` and cookie I/O. `importData` swallows its own errors (profiles.ts lines 293-295); `exportData` does not.
- Profiles.Saved: the export is a parameter that always succeeds, so `Saved`, `ProfilesAPI.SaveCurrentProfileData`, `ProfilesAPI.SetActiveProfile` and `ProfilesAPI.CreateProfile` do not model the rejection of `exportData` (for example from `getAllIDBData`, profiles.ts lines 245-252). In the source that rejection passes through `saveCurrentProfileData` (line 157) and `setActiveProfile` (line 126) before the `activeProfile` write at line 131, so the store is left as it was.
- Keys that plain JavaScript objects inherit from `Object.prototype` are not modelled: each such object is a map holding only its own keys. The lookups concerned are:
  - `transportMap[transports]` (proxy.ts line 72, `Proxy.TransportFile`): a transport named `constructor` would select a function instead of the libcurl file;
  - `proxyMapping[domain]` (proxy.ts line 168, `Proxy.DetermineProxy`): a domain named like an inherited key would read that key;
  - `swConfig[selectedProxy]` (proxy.ts line 183, `Proxy.ChosenEntry`): likewise for a backend id;
  - `cookies[key]` (exporting.ts line 27, `Cookies.Step`): a cookie named `__proto__` is dropped rather than stored;
  - `this.eventListeners[eventName]` (events.ts lines 46-49, `Events.Added`): an event named `constructor` finds a function, whose missing `push` throws.
- `base6xorEncrypt`/`base6xorDecrypt` and `extractCookies` are defined twice in the source, in exporting.ts and profiles.ts (372-389, 192-199). The model defines each once.
- Proxy.Search: `encode` is a parameter with no constraint, and `QueryUrl` inserts its output literally. In the source, `replace` reads `$&` and the like in the replacement text as patterns. The two differ only for an encoder whose output holds `$`, and `encodeURIComponent` escapes `$`.
- The icon route's fetch and its response are left out as network I/O.
- Proxy.FetchedMapping: the fetch itself is network I/O. The model takes as hypotheses that the site's own reply is a parameter, and that no host but the page's serves the mapping. The `mapping` parameter of `DetermineProxy` and `AutomaticResult` stands for what the corrected fetch yields.
- The vite glob and `path.resolve` are parameters, and the rest of the server configuration is left out.

## Findings

| source | as written | input that shows it | evidently intended | confidence | as-written member | corrected member |
|---|---|---|---|---|---|---|
| src/js/apis/profiles.ts:72-79, 363 | `init` sets `onsuccess` on the request that reads `activeProfile`, but `_waitForRequest` replaces that handler before the request completes, so the `""` entry is never written | an empty store: after `init` there is still no `activeProfile` key | the `activeProfile` entry is written as `""` when it is unset or falsy | medium, not executed | Profiles.InitNeverWrites | Profiles.Initialized |
| src/js/browser/search.ts:149-158, 318-330 | ArrowDown past the end calls `moveToNextSection`, whose loop never ends when every section is empty | the state after `init`, with four empty sections, and ArrowDown pressed | do nothing when there is nothing to select | high, not executed | Search.EmptyListSearchesForever | Search.Search.ArrowDown |
| src/js/browser/search.ts:159-168 | ArrowUp computes `(i - 1 + n) % n` in an empty section, which is NaN, and no arrow key leaves NaN again | no items, nothing selected (`-1`), ArrowUp pressed | move to the previous section instead | high, not executed | Search.NaNIsAbsorbing | Search.UpStepGuardedInRange |
| src/js/apis/profiles.ts:121, 126, 136 | `setActiveProfile` reads the target profile, then saves the current data, then imports the data it read first | the active profile `a` holds `old`, the page exports `new`, and `a` is selected again: `old` is imported | import the data just saved | medium, not executed | Profiles.ReselectImportsStaleData | Profiles.ReselectImportsExport |
| src/js/apis/proxy.ts:147 | `fetchProxyMapping` fetches `//json/proxy.json`, a network-path reference naming the host `json`, not a path on the site | a page served from any host but `json`: the fetch fails, the mapping is `null`, and `determineProxy` returns `uv` for every domain | fetch `/json/proxy.json` from the site itself | medium, not executed | Proxy.MappingFetchedFromJsonHost | Proxy.MappingFetchedFromSite |
| src/js/index.ts:81-88 | the `auto` entry's `func` calls `proxy.automatic(input)` without its `swConfig` argument, which is then `undefined` | any address-bar input with a hostname while `auto` is selected: `undefined[selectedProxy]` at proxy.ts line 183 throws, and the promise rejects | pass the page's `swConfig` on | medium, not executed | Proxy.AutoFuncRejects | Proxy.AutoFuncWithConfig |
