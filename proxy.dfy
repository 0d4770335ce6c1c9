/** The decision logic of the proxy facade (src/js/apis/proxy.ts): omnibox
    input to URL, transport file choice, domain to backend choice, the
    service-worker descriptor `automatic` settles on, the `registerSW` type
    dispatch with its single transport retry, and favicon href
    absolutisation. The WHATWG URL parser, `encodeURIComponent`, the UV codec
    and BareMux are parameters or logs. */
module Proxy {
  import opened Wrappers
  import opened StringUtil

  /** What `new URL(s)` yields when it does not throw. */
  datatype ParsedUrl = ParsedUrl(href: string, hostname: string, origin: string)

  /** `new URL(s)`: `None` when the constructor throws. */
  type UrlParser = string -> Option<ParsedUrl>

  const DefaultSearch: string := "https://www.duckduckgo.com/?q=%s"
  const EpoxyFile: string := "/epoxy/index.mjs"
  const LibcurlFile: string := "/libcurl/index.mjs"

  /** JavaScript `v || d` on a setting that may be unset (`None`): the
      setting or the default, a non-empty setting winning, and never the
      empty string when the default is not. */
  function OrDefault(v: Option<string>, d: string): (r: string)
    ensures r == d || (v.Some? && r == v.value)
    ensures v.Some? && v.value != "" ==> r == v.value
    ensures d != "" ==> r != ""
  {
    if v.Some? && v.value != "" then v.value else d
  }

  /** `search` applies the DuckDuckGo default to `searchVar` once more, but
      once the constructor's settings read (an asynchronous function it does
      not await) has completed, `searchVar` is a non-empty string, so the
      second default never takes effect. */
  lemma SearchDefaultRedundant(stored: Option<string>)
    ensures OrDefault(Some(OrDefault(stored, DefaultSearch)), DefaultSearch) == OrDefault(stored, DefaultSearch)
  {
    assert DefaultSearch != "";
  }

  /** `search`: the trimmed input as an absolute URL, else as a bare host with
      a dot, else substituted into the search template. */
  function Search(input: string, searchVar: Option<string>, parse: UrlParser, encode: string -> string): (r: string)
    ensures || (parse(Trim(input)).Some? && r == parse(Trim(input)).value.href)
            || (parse(HttpPrefix + Trim(input)).Some? && r == parse(HttpPrefix + Trim(input)).value.href)
            || r == QueryUrl(searchVar, encode(Trim(input)))
    ensures parse(Trim(input)).Some? ==> r == parse(Trim(input)).value.href
  {
    SearchTrimmed(Trim(input), searchVar, parse, encode)
  }

  function SearchTrimmed(t: string, searchVar: Option<string>, parse: UrlParser, encode: string -> string): string {
    match parse(t)
    case Some(u) => u.href
    case None =>
      match parse(HttpPrefix + t)
      case Some(u) => if Contains(u.hostname, ".") then u.href else QueryUrl(searchVar, encode(t))
      case None => QueryUrl(searchVar, encode(t))
  }

  const HttpPrefix: string := "http://"

  /** The search template (the setting, or DuckDuckGo when it is unset or
      empty) with its first `%s` replaced by the encoded query. */
  function QueryUrl(searchVar: Option<string>, query: string): (r: string)
    ensures var t := OrDefault(searchVar, DefaultSearch);
      && (!Contains(t, "%s") ==> r == t)
      && (Contains(t, "%s") ==> Contains(r, query) && |r| == |t| - 2 + |query|)
  {
    var t := OrDefault(searchVar, DefaultSearch);
    ReplaceFirstPlaced(t, "%s", query);
    ReplaceFirst(t, "%s", query)
  }

  /** The input is trimmed first: surrounding white space never matters. */
  lemma SearchTrims(input: string, searchVar: Option<string>, parse: UrlParser, encode: string -> string)
    ensures Search(Trim(input), searchVar, parse, encode) == Search(input, searchVar, parse, encode)
  {
    TrimIdempotent(input);
  }

  lemma SearchAbsolute(input: string, searchVar: Option<string>, parse: UrlParser, encode: string -> string)
    requires parse(Trim(input)).Some?
    ensures Search(input, searchVar, parse, encode) == parse(Trim(input)).value.href
  {
  }

  lemma SearchBareHost(input: string, searchVar: Option<string>, parse: UrlParser, encode: string -> string)
    requires parse(Trim(input)).None?
    requires parse("http://" + Trim(input)).Some?
    requires Contains(parse("http://" + Trim(input)).value.hostname, ".")
    ensures Search(input, searchVar, parse, encode) == parse("http://" + Trim(input)).value.href
  {
  }

  /** Input that is neither a URL nor a dotted host goes to the search
      engine; the template's first `%s` receives the encoded query. */
  lemma SearchQuery(input: string, searchVar: Option<string>, parse: UrlParser, encode: string -> string)
    requires parse(Trim(input)).None?
    requires parse("http://" + Trim(input)).None? || !Contains(parse("http://" + Trim(input)).value.hostname, ".")
    ensures Search(input, searchVar, parse, encode) == QueryUrl(searchVar, encode(Trim(input)))
  {
  }

  /** With no search setting the query goes to DuckDuckGo. */
  lemma QueryUrlDefault(query: string)
    ensures QueryUrl(None, query) == "https://www.duckduckgo.com/?q=" + query
    ensures QueryUrl(Some(""), query) == "https://www.duckduckgo.com/?q=" + query
  {
    var a := "https://www.duckduckgo.com/?q=";
    assert DefaultSearch == a + "%s" + "";
    ReplaceFirstAfter(a, "%s", "", query);
    assert a + query + "" == a + query;
    assert ReplaceFirst(DefaultSearch, "%s", query) == a + query;
    assert OrDefault(None, DefaultSearch) == DefaultSearch;
    assert OrDefault(Some(""), DefaultSearch) == DefaultSearch;
  }

  /** A configured template is used when set. */
  lemma QueryUrlSetting(template: string, query: string)
    requires template != ""
    ensures QueryUrl(Some(template), query) == ReplaceFirst(template, "%s", query)
  {
  }

  /** The `transportMap` record of `setTransports`. */
  const TransportMap: map<string, string> := map["epoxy" := EpoxyFile, "libcurl" := LibcurlFile]

  /** `transportMap[transports] || "/libcurl/index.mjs"`: the mapped file
      for a known transport, the libcurl file for any other, so always one
      of the map's files. */
  function TransportFile(transport: string): (file: string)
    ensures transport in TransportMap ==> file == TransportMap[transport]
    ensures transport !in TransportMap ==> file == LibcurlFile
    ensures file in TransportMap.Values
  {
    assert TransportMap["epoxy"] == EpoxyFile && TransportMap["libcurl"] == LibcurlFile;
    if transport == "epoxy" then EpoxyFile else LibcurlFile
  }

  /** `determineProxy`: `mapping` is `None` when the mapping file could not be
      loaded (or parsed to a falsy value); the result is `None` for
      JavaScript `undefined`. */
  function DetermineProxy(domain: string, mapping: Option<map<string, string>>): (r: Option<string>)
    ensures mapping.None? ==> r == Some("uv")
    ensures r.None? ==> mapping.Some? && "default" !in mapping.value
    ensures r == Some("") ==> mapping.Some? && "default" in mapping.value && mapping.value["default"] == ""
  {
    match mapping
    case None => Some("uv")
    case Some(m) =>
      if domain in m && m[domain] != "" then Some(m[domain])
      else if "default" in m then Some(m["default"])
      else None
  }

  lemma DetermineProxyCases(domain: string, mapping: Option<map<string, string>>)
    ensures mapping.None? ==> DetermineProxy(domain, mapping) == Some("uv")
    ensures mapping.Some? && domain in mapping.value && mapping.value[domain] != "" ==>
      DetermineProxy(domain, mapping) == Some(mapping.value[domain])
    ensures mapping.Some? && !(domain in mapping.value && mapping.value[domain] != "") ==>
      DetermineProxy(domain, mapping) == (if "default" in mapping.value then Some(mapping.value["default"]) else None)
  {
  }

  /** The result is always a backend named by the mapping, or "uv". */
  lemma DetermineProxyFromMapping(domain: string, mapping: Option<map<string, string>>)
    ensures DetermineProxy(domain, mapping).Some? ==>
      DetermineProxy(domain, mapping).value == "uv" || (mapping.Some? && DetermineProxy(domain, mapping).value in mapping.value.Values)
  {
    match mapping
    case None =>
    case Some(m) =>
      if domain in m && m[domain] != "" {
        assert m[domain] in m.Values;
      } else if "default" in m {
        assert m["default"] in m.Values;
      }
  }

  /** `getDomainFromUrl`. */
  function DomainOf(url: string, parse: UrlParser): Option<string> {
    match parse(url)
    case Some(u) => Some(u.hostname)
    case None => None
  }

  /** A service-worker config entry; config objects are named, and `hasFunc`
      says whether the entry carries a truthy `func`. */
  datatype SwEntry = SwEntry(swType: string, file: string, config: string, hasFunc: bool)

  /** The descriptor `automatic` returns: the entry without its `func`. */
  datatype SwDescriptor = SwDescriptor(swType: string, file: string, config: string)

  const UvConfig: string := "__uv$config"
  const FallbackEntry: SwEntry := SwEntry("sw", "/@/sw.js", UvConfig, false)

  /** The key `swConfig[selectedProxy]` reads: an undefined backend becomes
      the property name "undefined". */
  /** The reference `fetchProxyMapping` fetches, as written: a network-path
      reference, whose first segment is a host name. */
  const MappingRefAsWritten: string := "//json/proxy.json"
  /** The same file as a path on the page's own site. */
  const MappingRef: string := "/json/proxy.json"

  /** The leading run of `s` up to its first `/`. */
  function Authority(s: string): (a: string)
    ensures |a| <= |s| && '/' !in a && a == s[..|a|] && (|a| == |s| || s[|a|] == '/')
  {
    if s == [] || s[0] == '/' then []
    else
      var tail := Authority(s[1..]);
      assert s[..1 + |tail|] == [s[0]] + s[1..][..|tail|];
      [s[0]] + tail
  }

  /** The host a reference resolves to from a page on `pageHost`, after
      section 5.2.2 of RFC 3986: a reference starting with `//` names its
      own authority; any other relative reference keeps the page's. */
  function ReferenceHost(pageHost: string, ref: string): (h: string)
    ensures StartsWith(ref, "//") ==> '/' !in h && StartsWith(ref, "//" + h)
                                      && (|ref| == 2 + |h| || ref[2 + |h|] == '/')
    ensures !StartsWith(ref, "//") ==> h == pageHost
  {
    if StartsWith(ref, "//") then
      var rest := ref[2..];
      var h := Authority(rest);
      assert |h| <= |rest| && ref[..2] == "//";
      assert ref[..2 + |h|] == ref[..2] + rest[..|h|];
      h
    else pageHost
  }

  /** What `fetchProxyMapping` yields: the mapping the page's own site serves
      at `/json/proxy.json` (`None` when it serves none) when the reference
      stays on that site, and `None` (the failed fetch) for any other host. */
  function FetchedMapping(ref: string, pageHost: string, served: Option<map<string, string>>): (m: Option<map<string, string>>)
    ensures m.Some? ==> m == served && ReferenceHost(pageHost, ref) == pageHost
  {
    if ReferenceHost(pageHost, ref) == pageHost then served else None
  }

  /** As written, the mapping is fetched from the host `json`; from any
      other site it is never loaded, and every domain goes to `uv`. */
  lemma MappingFetchedFromJsonHost(pageHost: string, served: Option<map<string, string>>, domain: string)
    requires pageHost != "json"
    ensures ReferenceHost(pageHost, MappingRefAsWritten) == "json"
    ensures FetchedMapping(MappingRefAsWritten, pageHost, served) == None
    ensures DetermineProxy(domain, FetchedMapping(MappingRefAsWritten, pageHost, served)) == Some("uv")
  {
    JsonAuthority();
    assert MappingRefAsWritten[..2] == "//";
  }

  lemma JsonAuthority()
    ensures Authority(MappingRefAsWritten[2..]) == "json"
  {
    var rest := MappingRefAsWritten[2..];
    var h := Authority(rest);
    assert rest[..4] == "json" && rest[4] == '/';
    assert h == rest[..4];
  }

  /** Corrected: the site-relative path loads the site's own mapping, so
      `determineProxy` decides on it. */
  lemma MappingFetchedFromSite(pageHost: string, served: Option<map<string, string>>, domain: string)
    ensures ReferenceHost(pageHost, MappingRef) == pageHost
    ensures FetchedMapping(MappingRef, pageHost, served) == served
    ensures DetermineProxy(domain, FetchedMapping(MappingRef, pageHost, served)) == DetermineProxy(domain, served)
  {
    assert !StartsWith(MappingRef, "//") by { assert MappingRef[1] == 'j'; }
  }

  function BackendKey(selected: Option<string>): string {
    match selected
    case Some(p) => p
    case None => "undefined"
  }

  /** The entry `automatic` uses: the configured one, or the UV fallback. */
  function ChosenEntry(domain: string, mapping: Option<map<string, string>>, swConfig: map<string, SwEntry>): (e: SwEntry)
    ensures e == FallbackEntry || e in swConfig.Values
  {
    var key := BackendKey(DetermineProxy(domain, mapping));
    if key in swConfig then swConfig[key] else FallbackEntry
  }

  /** The value `automatic` resolves to. */
  function AutomaticResult(input: string, parse: UrlParser, mapping: Option<map<string, string>>,
                           swConfig: map<string, SwEntry>): (r: Option<SwDescriptor>)
    ensures r.Some? ==> parse(input).Some? && parse(input).value.hostname != ""
    ensures r.Some? ==> exists e :: (e == FallbackEntry || e in swConfig.Values) && r.value == SwDescriptor(e.swType, e.file, e.config)
  {
    match DomainOf(input, parse)
    case None => None
    case Some(d) =>
      if d == "" then None
      else
        var e := ChosenEntry(d, mapping, swConfig);
        Some(SwDescriptor(e.swType, e.file, e.config))
  }

  /** No hostname, no descriptor. */
  lemma AutomaticNeedsHost(input: string, parse: UrlParser, mapping: Option<map<string, string>>,
                           swConfig: map<string, SwEntry>)
    ensures AutomaticResult(input, parse, mapping, swConfig).None? <==>
      (parse(input).None? || parse(input).value.hostname == "")
  {
  }

  /** A backend id with no config entry falls back to the UV service worker. */
  lemma AutomaticFallback(input: string, parse: UrlParser, mapping: Option<map<string, string>>,
                          swConfig: map<string, SwEntry>)
    requires parse(input).Some? && parse(input).value.hostname != ""
    requires BackendKey(DetermineProxy(parse(input).value.hostname, mapping)) !in swConfig
    ensures AutomaticResult(input, parse, mapping, swConfig) == Some(SwDescriptor("sw", "/@/sw.js", UvConfig))
  {
  }

  /** A configured backend is used as configured, minus its `func`. */
  lemma AutomaticConfigured(input: string, parse: UrlParser, mapping: Option<map<string, string>>,
                            swConfig: map<string, SwEntry>)
    requires parse(input).Some? && parse(input).value.hostname != ""
    requires BackendKey(DetermineProxy(parse(input).value.hostname, mapping)) in swConfig
    ensures var e := swConfig[BackendKey(DetermineProxy(parse(input).value.hostname, mapping))];
      AutomaticResult(input, parse, mapping, swConfig) == Some(SwDescriptor(e.swType, e.file, e.config))
  {
  }

  /** How an `automatic(input, swConfig)` promise settles: `Rejects` when
      `swConfig` is `undefined` (`None`) and a hostname was found, since
      `undefined[selectedProxy]` (line 183) throws. */
  datatype AutomaticOutcome = Resolves(r: Option<SwDescriptor>) | Rejects

  function AutomaticCall(input: string, parse: UrlParser, mapping: Option<map<string, string>>,
                         swConfig: Option<map<string, SwEntry>>): (o: AutomaticOutcome)
    ensures o.Rejects? <==> swConfig.None? && parse(input).Some? && parse(input).value.hostname != ""
    ensures swConfig.Some? ==> o == Resolves(AutomaticResult(input, parse, mapping, swConfig.value))
  {
    match swConfig
    case Some(c) => Resolves(AutomaticResult(input, parse, mapping, c))
    case None =>
      match DomainOf(input, parse)
      case None => Resolves(None)
      case Some(d) => if d == "" then Resolves(None) else Rejects
  }

  /** As written, the `auto` entry's `func` (src/js/index.ts line 86) calls
      `automatic(input)` with no `swConfig`: every input with a hostname
      makes it reject, so the automatic backend never resolves. */
  lemma AutoFuncRejects(input: string, parse: UrlParser, mapping: Option<map<string, string>>)
    requires parse(input).Some? && parse(input).value.hostname != ""
    ensures AutomaticCall(input, parse, mapping, None) == Rejects
  {
  }

  /** Corrected: with the page's `swConfig` passed on, the same input
      resolves to a descriptor. */
  lemma AutoFuncWithConfig(input: string, parse: UrlParser, mapping: Option<map<string, string>>,
                           swConfig: map<string, SwEntry>)
    requires parse(input).Some? && parse(input).value.hostname != ""
    ensures AutomaticCall(input, parse, mapping, Some(swConfig)).Resolves?
    ensures AutomaticCall(input, parse, mapping, Some(swConfig)).r.Some?
  {
  }

  /** Without a mapping file every host goes to the "uv" entry. */
  lemma AutomaticWithoutMapping(input: string, parse: UrlParser, swConfig: map<string, SwEntry>)
    requires parse(input).Some? && parse(input).value.hostname != ""
    requires "uv" in swConfig
    ensures AutomaticResult(input, parse, None, swConfig) ==
      Some(SwDescriptor(swConfig["uv"].swType, swConfig["uv"].file, swConfig["uv"].config))
  {
  }

  /** The favicon href made absolute against the page origin: an href that
      does not start with "http" gets the origin and exactly one "/". */
  function AbsoluteHref(origin: string, href: string): (r: string)
    ensures StartsWith(href, "http") ==> r == href
    ensures StartsWith(origin, "http") ==> StartsWith(r, "http")
  {
    if StartsWith(href, "http") then href
    else
      var r := origin + (if StartsWith(href, "/") then href else "/" + href);
      assert StartsWith(origin, "http") ==> r[..4] == origin[..4];
      r
  }

  /** With an `http` origin the href is absolute after one pass, so a second
      pass leaves it alone. */
  lemma AbsoluteHrefIdempotent(origin: string, href: string)
    requires StartsWith(origin, "http")
    ensures AbsoluteHref(origin, AbsoluteHref(origin, href)) == AbsoluteHref(origin, href)
  {
  }

  lemma AbsoluteHrefSlash(origin: string, href: string)
    requires !StartsWith(href, "http")
    ensures StartsWith(AbsoluteHref(origin, href), origin + "/")
    ensures StartsWith(href, "/") ==> AbsoluteHref(origin, href)[|origin| + 1..] == href[1..]
    ensures !StartsWith(href, "/") ==> AbsoluteHref(origin, href)[|origin| + 1..] == href
  {
    var r := AbsoluteHref(origin, href);
    if StartsWith(href, "/") {
      assert r == origin + href;
      assert href == "/" + href[1..];
      assert r == (origin + "/") + href[1..];
    } else {
      assert r == (origin + "/") + href;
    }
  }

  /** Why `getFavicon` rejects. */
  datatype FaviconError =
    | InvalidPageUrl  // `new URL(url)` rejected the page URL
    | NoConfig        // the selected backend has no `config` to read `prefix` from

  /** What the `getFavicon` promise resolves to. */
  datatype FaviconResult =
    | Undefined                // no icon link on the page
    | Null                     // the link's href attribute is missing
    | Icon(url: string)        // the proxied icon URL
    | Throws(e: FaviconError)  // the promise rejects

  /** `getFavicon` after the page is fetched and parsed: `link` is `None`
      when no icon link exists and `Some(None)` when its href is not a
      string; `prefix` is the selected backend's `config.prefix`, `None`
      when that backend has no config (the `auto` entry's `config: null`),
      and `encode` its codec. */
  function Favicon(url: string, link: Option<Option<string>>, parse: UrlParser,
                   prefix: Option<string>, encode: string -> string): (r: FaviconResult)
    ensures r.Icon? || r.Throws? ==> link.Some? && link.value.Some?
    ensures r.Icon? ==> prefix.Some? && StartsWith(r.url, prefix.value)
    ensures r == Throws(InvalidPageUrl) <==>
      link.Some? && link.value.Some? && !StartsWith(link.value.value, "http") && parse(url).None?
    ensures r == Throws(NoConfig) <==>
      link.Some? && link.value.Some? && prefix.None? && (StartsWith(link.value.value, "http") || parse(url).Some?)
  {
    match link
    case None => Undefined
    case Some(None) => Null
    case Some(Some(href)) =>
      var absolute :=
        if StartsWith(href, "http") then Some(href)
        else match parse(url)
          case None => None
          case Some(base) => Some(AbsoluteHref(base.origin, href));
      match absolute
      case None => Throws(InvalidPageUrl)
      case Some(a) =>
        match prefix
        case None => Throws(NoConfig)
        case Some(p) => Icon(p + encode(a))
  }

  lemma FaviconCases(url: string, link: Option<Option<string>>, parse: UrlParser,
                     prefix: Option<string>, encode: string -> string)
    ensures link.None? <==> Favicon(url, link, parse, prefix, encode) == Undefined
    ensures link == Some(None) <==> Favicon(url, link, parse, prefix, encode) == Null
    ensures link.Some? && link.value.Some? && prefix.Some? && (StartsWith(link.value.value, "http") || parse(url).Some?) ==>
      Favicon(url, link, parse, prefix, encode) ==
        Icon(prefix.value + encode(if StartsWith(link.value.value, "http") then link.value.value
                                   else AbsoluteHref(parse(url).value.origin, link.value.value)))
  {
  }

  /** With a backend that has no config, as the `auto` entry, no string href
      yields an icon: `getFavicon` rejects. */
  lemma FaviconWithoutConfig(url: string, href: string, parse: UrlParser, encode: string -> string)
    ensures Favicon(url, Some(Some(href)), parse, None, encode).Throws?
  {
  }

  /** The argument of `registerSW`: a descriptor object, or (as `redirect`,
      `inFrame_Redirect`, `convertURL` and `getFavicon` pass it) the bare
      file string, whose `type` property is undefined. */
  datatype SwArg = Descriptor(d: SwDescriptor) | FileString(file: string) | NullFile

  /** `registerSW(null)`, as the `auto` entry's `file: null` is passed,
      reads `null.type` and rejects with a TypeError. */
  predicate RegisterRejects(arg: SwArg) {
    arg.NullFile?
  }

  /** One `connection.setTransport(file, [{wisp}])` call. */
  datatype TransportCall = TransportCall(file: string, wisp: string)

  /** What `registerSW` logs for the types it only reports. */
  function RegisterNote(arg: SwArg): Option<string> {
    if arg.Descriptor? && arg.d.swType == "iframe" then Some("iframe proxy selected")
    else if arg.Descriptor? && arg.d.swType == "multi" then Some("multi proxy selected")
    else None
  }

  /** Only a descriptor of type "sw" does any work, and only with service
      workers available. */
  predicate RegistersWorker(arg: SwArg, hasServiceWorker: bool) {
    arg.Descriptor? && arg.d.swType == "sw" && hasServiceWorker
  }

  /** The transport calls of one `registerSW`: one, plus one retry when
      `getTransport()` reads back null. */
  function RegisterTransportCalls(arg: SwArg, hasServiceWorker: bool, readsNull: bool, call: TransportCall): (calls: seq<TransportCall>)
    ensures |calls| <= 2
    ensures forall k :: 0 <= k < |calls| ==> calls[k] == call
  {
    if !RegistersWorker(arg, hasServiceWorker) then []
    else if readsNull then [call, call]
    else [call]
  }

  /** The file string passed by `redirect` and friends never registers or
      retries anything. */
  lemma FileStringDoesNothing(file: string, hasServiceWorker: bool, readsNull: bool, call: TransportCall)
    ensures !RegistersWorker(FileString(file), hasServiceWorker)
    ensures RegisterTransportCalls(FileString(file), hasServiceWorker, readsNull, call) == []
    ensures RegisterNote(FileString(file)) == None
  {
  }

  /** The transport calls of `registerSW(arg).then(() => setTransports())`,
      the chain of lines 205-207, 236-238, 261-263 and 315-317, in the
      order of this sequence (the source does not fix the order): those of
      `registerSW`, then the continuation's, which runs only when
      `registerSW` resolves. */
  function ChainedTransportCalls(arg: SwArg, hasServiceWorker: bool, readsNull: bool, call: TransportCall): (calls: seq<TransportCall>)
    ensures RegisterRejects(arg) ==> calls == []
    ensures !RegisterRejects(arg) ==> |calls| == |RegisterTransportCalls(arg, hasServiceWorker, readsNull, call)| + 1
    ensures forall k :: 0 <= k < |calls| ==> calls[k] == call
  {
    if RegisterRejects(arg) then [] else RegisterTransportCalls(arg, hasServiceWorker, readsNull, call) + [call]
  }

  /** A file string still runs the chained `setTransports`; the `auto`
      entry's null file makes the whole chain stop. */
  lemma ChainedFileCalls(file: string, hasServiceWorker: bool, readsNull: bool, call: TransportCall)
    ensures ChainedTransportCalls(FileString(file), hasServiceWorker, readsNull, call) == [call]
    ensures ChainedTransportCalls(NullFile, hasServiceWorker, readsNull, call) == []
    ensures !RegistersWorker(NullFile, hasServiceWorker) && RegisterNote(NullFile) == None
  {
  }

  /** The retry happens exactly when the transport reads back null. */
  lemma RetryOnlyOnNull(arg: SwArg, hasServiceWorker: bool, readsNull: bool, call: TransportCall)
    requires RegistersWorker(arg, hasServiceWorker)
    ensures |RegisterTransportCalls(arg, hasServiceWorker, readsNull, call)| == (if readsNull then 2 else 1)
  {
  }

  /** The facade's settings and the effects it has on BareMux and the
      service-worker container, as logs. */
  class Proxy {
    var searchVar: string
    var transportVar: string
    var wispUrl: string
    /** `connection.setTransport` calls, in order. */
    var transportCalls: seq<TransportCall>
    /** Files passed to `navigator.serviceWorker.register`, in order. */
    var registrations: seq<string>
    /** Number of `updateSW` calls. */
    var updates: nat
    /** Backend keys whose `func` was called by `automatic`. */
    var funcCalls: seq<string>

    /** The constructor once the three settings have been read: each unset
        or empty setting gives its default, the wisp URL following the
        page's protocol and host. */
    constructor (search: Option<string>, transports: Option<string>, wisp: Option<string>, secure: bool, host: string)
      ensures searchVar == OrDefault(search, DefaultSearch)
      ensures transportVar == OrDefault(transports, "libcurl")
      ensures wispUrl == OrDefault(wisp, (if secure then "wss" else "ws") + "://" + host + "/wisp/")
      ensures transportCalls == [] && registrations == [] && updates == 0 && funcCalls == []
    {
      searchVar := OrDefault(search, DefaultSearch);
      transportVar := OrDefault(transports, "libcurl");
      wispUrl := OrDefault(wisp, (if secure then "wss" else "ws") + "://" + host + "/wisp/");
      transportCalls := [];
      registrations := [];
      updates := 0;
      funcCalls := [];
    }

    function CurrentTransport(): TransportCall
      reads this
    {
      TransportCall(TransportFile(transportVar), wispUrl)
    }

    /** `setTransports`. */
    method SetTransports()
      modifies this
      ensures transportCalls == old(transportCalls) + [old(CurrentTransport())]
      ensures searchVar == old(searchVar) && transportVar == old(transportVar) && wispUrl == old(wispUrl)
      ensures registrations == old(registrations) && updates == old(updates) && funcCalls == old(funcCalls)
    {
      var file := TransportFile(transportVar);
      transportCalls := transportCalls + [TransportCall(file, wispUrl)];
    }

    /** `registerSW`, with the worker's `ready` promise taken to resolve;
        `readsNull` is whether `getTransport()` then reads back null. */
    method RegisterSW(arg: SwArg, hasServiceWorker: bool, readsNull: bool) returns (note: Option<string>, rejected: bool)
      modifies this
      ensures rejected == RegisterRejects(arg)
      ensures note == RegisterNote(arg)
      ensures transportCalls == old(transportCalls) + RegisterTransportCalls(arg, hasServiceWorker, readsNull, old(CurrentTransport()))
      ensures registrations == old(registrations) + (if RegistersWorker(arg, hasServiceWorker) then [arg.d.file] else [])
      ensures updates == old(updates) + (if RegistersWorker(arg, hasServiceWorker) then 1 else 0)
      ensures searchVar == old(searchVar) && transportVar == old(transportVar) && wispUrl == old(wispUrl)
      ensures funcCalls == old(funcCalls)
    {
      note := None;
      rejected := arg.NullFile?;
      if arg.Descriptor? {
        if arg.d.swType == "sw" {
          if hasServiceWorker {
            registrations := registrations + [arg.d.file];
            SetTransports();
            if readsNull {
              SetTransports();
            }
            updates := updates + 1;
          }
        } else if arg.d.swType == "iframe" {
          note := Some("iframe proxy selected");
        } else if arg.d.swType == "multi" {
          note := Some("multi proxy selected");
        }
      }
    }

    /** `automatic`: choose the backend for the input's host, run its
        `func`, register it and set the transport. */
    method Automatic(input: string, parse: UrlParser, mapping: Option<map<string, string>>,
                     swConfig: map<string, SwEntry>, hasServiceWorker: bool, readsNull: bool)
      returns (r: Option<SwDescriptor>)
      modifies this
      ensures r == AutomaticResult(input, parse, mapping, swConfig)
      ensures r.None? ==> transportCalls == old(transportCalls) && registrations == old(registrations)
                          && updates == old(updates) && funcCalls == old(funcCalls)
      ensures r.Some? ==>
        var key := BackendKey(DetermineProxy(parse(input).value.hostname, mapping));
        var e := ChosenEntry(parse(input).value.hostname, mapping, swConfig);
        && funcCalls == old(funcCalls) + (if e.hasFunc then [key] else [])
        && transportCalls == old(transportCalls)
             + RegisterTransportCalls(Descriptor(r.value), hasServiceWorker, readsNull, old(CurrentTransport()))
             + [old(CurrentTransport())]
        && registrations == old(registrations) + (if RegistersWorker(Descriptor(r.value), hasServiceWorker) then [e.file] else [])
        && updates == old(updates) + (if RegistersWorker(Descriptor(r.value), hasServiceWorker) then 1 else 0)
      ensures searchVar == old(searchVar) && transportVar == old(transportVar) && wispUrl == old(wispUrl)
    {
      var domain := DomainOf(input, parse);
      if domain.None? || domain.value == "" {
        return None;
      }
      var selected := DetermineProxy(domain.value, mapping);
      var key := BackendKey(selected);
      var e := if key in swConfig then swConfig[key] else FallbackEntry;
      if e.hasFunc {
        funcCalls := funcCalls + [key];
      }
      var d := SwDescriptor(e.swType, e.file, e.config);
      var _, _ := RegisterSW(Descriptor(d), hasServiceWorker, readsNull);
      SetTransports();
      return Some(d);
    }
  }
}
