/** The scheme router of src/js/browser/protocols.ts: a route table
    `scheme -> path -> {url, proxy}` filled by `register`, the forward
    resolution `processUrl` and the reverse mapping `getInternalURL` used for
    the address bar.

    The table is a JavaScript `Map` of `Map`s, whose iteration order is the
    order in which keys were first inserted; it is modelled as an association
    list of schemes, each with an association list of paths. The proxied branch
    calls `proxy.convertURL`, which is the parameter `convert` here. */
module Protocols {
  import opened Wrappers
  import opened StringUtil

  datatype RouteEntry = RouteEntry(url: string, proxy: bool)

  datatype PathRoute = PathRoute(path: string, entry: RouteEntry)

  datatype SchemeRoutes = SchemeRoutes(proto: string, paths: seq<PathRoute>)

  type Routes = seq<SchemeRoutes>

  predicate DistinctPaths(paths: seq<PathRoute>) {
    forall a, b :: 0 <= a < b < |paths| ==> paths[a].path != paths[b].path
  }

  /** What a JavaScript `Map` guarantees: each key at most once, at every level. */
  predicate WellFormed(routes: Routes) {
    (forall a, b :: 0 <= a < b < |routes| ==> routes[a].proto != routes[b].proto)
    && (forall a :: 0 <= a < |routes| ==> DistinctPaths(routes[a].paths))
  }

  // ---------------------------------------------------------------- lookups

  function PathLookup(paths: seq<PathRoute>, path: string): Option<RouteEntry> {
    if paths == [] then None
    else if paths[0].path == path then Some(paths[0].entry)
    else PathLookup(paths[1..], path)
  }

  function SchemeLookup(routes: Routes, proto: string): Option<seq<PathRoute>> {
    if routes == [] then None
    else if routes[0].proto == proto then Some(routes[0].paths)
    else SchemeLookup(routes[1..], proto)
  }

  /** `routes.get(proto)?.get(path)`. */
  function Lookup(routes: Routes, proto: string, path: string): Option<RouteEntry> {
    match SchemeLookup(routes, proto)
    case None => None
    case Some(paths) => PathLookup(paths, path)
  }

  function Protos(routes: Routes): seq<string> {
    if routes == [] then [] else [routes[0].proto] + Protos(routes[1..])
  }

  function PathKeys(paths: seq<PathRoute>): seq<string> {
    if paths == [] then [] else [paths[0].path] + PathKeys(paths[1..])
  }

  // ------------------------------------------------------------- register

  /** `Map.set`: an existing key keeps its position and gets the new value, a
      new key goes to the end. */
  function SetPath(paths: seq<PathRoute>, path: string, entry: RouteEntry): seq<PathRoute> {
    if paths == [] then [PathRoute(path, entry)]
    else if paths[0].path == path then [PathRoute(path, entry)] + paths[1..]
    else [paths[0]] + SetPath(paths[1..], path, entry)
  }

  /** The table after `register` with an already lower-cased scheme. */
  function SetRoute(routes: Routes, proto: string, path: string, entry: RouteEntry): Routes {
    if routes == [] then [SchemeRoutes(proto, [PathRoute(path, entry)])]
    else if routes[0].proto == proto then [SchemeRoutes(proto, SetPath(routes[0].paths, path, entry))] + routes[1..]
    else [routes[0]] + SetRoute(routes[1..], proto, path, entry)
  }

  lemma {:induction false} SetPathLookup(paths: seq<PathRoute>, path: string, entry: RouteEntry, q: string)
    ensures PathLookup(SetPath(paths, path, entry), q) == if q == path then Some(entry) else PathLookup(paths, q)
  {
    if paths != [] && paths[0].path != path {
      SetPathLookup(paths[1..], path, entry, q);
    }
  }

  lemma {:induction false} SetPathKeys(paths: seq<PathRoute>, path: string, entry: RouteEntry)
    ensures PathKeys(SetPath(paths, path, entry)) == if path in PathKeys(paths) then PathKeys(paths) else PathKeys(paths) + [path]
  {
    if paths != [] && paths[0].path != path {
      SetPathKeys(paths[1..], path, entry);
    }
  }

  lemma {:induction false} SetPathDistinct(paths: seq<PathRoute>, path: string, entry: RouteEntry)
    requires DistinctPaths(paths)
    ensures DistinctPaths(SetPath(paths, path, entry))
  {
    if paths != [] && paths[0].path != path {
      var tail := paths[1..];
      var t := SetPath(tail, path, entry);
      SetPathDistinct(tail, path, entry);
      SetPathKeys(tail, path, entry);
      PathKeysIndex(t);
      PathKeysIndex(tail);
      assert paths[0].path !in PathKeys(tail) by {
        forall k | 0 <= k < |tail| ensures PathKeys(tail)[k] != paths[0].path {
          assert tail[k] == paths[k + 1];
        }
      }
      var r := SetPath(paths, path, entry);
      forall b | 0 < b < |r| ensures r[0].path != r[b].path {
        assert r[b] == t[b - 1];
        assert PathKeys(t)[b - 1] in PathKeys(t);
      }
    }
  }

  lemma {:induction false} PathKeysIndex(paths: seq<PathRoute>)
    ensures |PathKeys(paths)| == |paths|
    ensures forall k :: 0 <= k < |paths| ==> PathKeys(paths)[k] == paths[k].path
  {
    if paths != [] { PathKeysIndex(paths[1..]); }
  }

  /** `register` overwrites exactly the entry for its (scheme, path) pair;
      every other lookup gives what it gave before. */
  lemma {:induction false} SetRouteLookup(routes: Routes, proto: string, path: string, entry: RouteEntry, p: string, q: string)
    ensures Lookup(SetRoute(routes, proto, path, entry), p, q)
      == if p == proto && q == path then Some(entry) else Lookup(routes, p, q)
  {
    if routes == [] {
      var e := PathRoute(path, entry);
      assert [e][1..] == [];
      assert SetRoute(routes, proto, path, entry) == [SchemeRoutes(proto, [e])];
      assert [SchemeRoutes(proto, [e])][1..] == [];
      assert PathLookup([e], q) == if q == path then Some(entry) else PathLookup([], q);
    } else if routes[0].proto == proto {
      SetPathLookup(routes[0].paths, path, entry, q);
      assert SetRoute(routes, proto, path, entry)[1..] == routes[1..];
    } else {
      SetRouteLookup(routes[1..], proto, path, entry, p, q);
      assert SetRoute(routes, proto, path, entry)[1..] == SetRoute(routes[1..], proto, path, entry);
    }
  }

  /** The scheme keys keep their order; a new scheme is appended. */
  lemma {:induction false} SetRouteProtos(routes: Routes, proto: string, path: string, entry: RouteEntry)
    ensures Protos(SetRoute(routes, proto, path, entry)) == if proto in Protos(routes) then Protos(routes) else Protos(routes) + [proto]
  {
    if routes != [] && routes[0].proto != proto {
      SetRouteProtos(routes[1..], proto, path, entry);
    }
  }

  lemma {:induction false} ProtosIndex(routes: Routes)
    ensures |Protos(routes)| == |routes|
    ensures forall k :: 0 <= k < |routes| ==> Protos(routes)[k] == routes[k].proto
  {
    if routes != [] { ProtosIndex(routes[1..]); }
  }

  lemma {:induction false} SetRouteWellFormed(routes: Routes, proto: string, path: string, entry: RouteEntry)
    requires WellFormed(routes)
    ensures WellFormed(SetRoute(routes, proto, path, entry))
  {
    var r := SetRoute(routes, proto, path, entry);
    if routes == [] {
    } else if routes[0].proto == proto {
      SetPathDistinct(routes[0].paths, path, entry);
      assert r[1..] == routes[1..];
      forall a | 0 <= a < |r| ensures DistinctPaths(r[a].paths) {
        if a > 0 { assert r[a] == routes[a]; }
      }
    } else {
      var tail := routes[1..];
      assert WellFormed(tail) by {
        forall a | 0 <= a < |tail| ensures DistinctPaths(tail[a].paths) { assert tail[a] == routes[a + 1]; }
      }
      SetRouteWellFormed(tail, proto, path, entry);
      SetRouteProtos(tail, proto, path, entry);
      var t := SetRoute(tail, proto, path, entry);
      ProtosIndex(t);
      ProtosIndex(tail);
      assert routes[0].proto !in Protos(tail) by {
        forall k | 0 <= k < |tail| ensures Protos(tail)[k] != routes[0].proto {
          assert tail[k] == routes[k + 1];
        }
      }
      assert r[1..] == t;
      forall b | 0 < b < |r| ensures r[0].proto != r[b].proto {
        assert r[b] == t[b - 1];
        assert Protos(t)[b - 1] in Protos(t);
      }
      forall a | 0 <= a < |r| ensures DistinctPaths(r[a].paths) {
        if a > 0 { assert r[a] == r[1..][a - 1]; }
      }
    }
  }

  // ------------------------------------------------------------ processUrl

  predicate IsSchemeChar(ch: char) {
    ('a' <= ch <= 'z') || ('A' <= ch <= 'Z') || ('0' <= ch <= '9') || ch == '+' || ch == '.' || ch == '-'
  }

  /** Length of the longest prefix of `s` made of scheme characters. */
  function SchemeRun(s: string): (n: nat)
    ensures n <= |s|
    ensures forall k :: 0 <= k < n ==> IsSchemeChar(s[k])
    ensures n < |s| ==> !IsSchemeChar(s[n])
  {
    if s != [] && IsSchemeChar(s[0]) then 1 + SchemeRun(s[1..]) else 0
  }

  /** The longest prefix of `s` without a line terminator: what `.+` consumes. */
  function RestOfLine(s: string): (r: string)
    ensures |r| <= |s| && r == s[..|r|]
    ensures forall k :: 0 <= k < |r| ==> !IsLineTerminator(r[k])
    ensures |r| < |s| ==> IsLineTerminator(s[|r|])
  {
    if s != [] && !IsLineTerminator(s[0]) then [s[0]] + RestOfLine(s[1..]) else []
  }

  /** `url.match(/^([a-zA-Z0-9+.-]+):\/\/(.+)/)`, giving `(match[1], match[2])`.
      The greedy scheme group can only end where the longest run of scheme
      characters ends, since ':' is not one of them. */
  function SchemeMatch(url: string): (r: Option<(string, string)>)
    ensures r.Some? ==> r.value.0 != [] && forall k :: 0 <= k < |r.value.0| ==> IsSchemeChar(r.value.0[k])
    ensures r.Some? ==> r.value.1 != [] && forall k :: 0 <= k < |r.value.1| ==> !IsLineTerminator(r.value.1[k])
  {
    var n := SchemeRun(url);
    if n >= 1 && n + 3 < |url| && url[n..n + 3] == "://" && !IsLineTerminator(url[n + 3])
    then Some((url[..n], RestOfLine(url[n + 3..])))
    else None
  }

  /** `joinURL`: exactly one slash at the junction, unless a side brings two. */
  function JoinURL(base: string, path: string): (r: string)
    ensures r == DropLastSlash(base) + "/" + DropFirstSlash(path)
  {
    SlashParts(base, path);
    var endsWithSlash := EndsWith(base, "/");
    var startsWithSlash := StartsWith(path, "/");
    if endsWithSlash && startsWithSlash then base + path[1..]
    else if !endsWithSlash && !startsWithSlash then base + "/" + path
    else base + path
  }

  function DropLastSlash(s: string): string {
    if EndsWith(s, "/") then s[..|s| - 1] else s
  }

  function DropFirstSlash(s: string): string {
    if StartsWith(s, "/") then s[1..] else s
  }

  /** The route-table branch of `processUrl`: `Some` when a route answered. */
  function RouteResolve(routes: Routes, url: string, convert: string -> string): (r: Option<string>)
    ensures r.Some? ==> SchemeMatch(url).Some? && SchemeLookup(routes, Lower(SchemeMatch(url).value.0)).Some?
  {
    match SchemeMatch(url)
    case None => None
    case Some((scheme, path)) =>
      match SchemeLookup(routes, Lower(scheme))
      case None => None
      case Some(protoRoutes) =>
        match PathLookup(protoRoutes, path)
        case Some(resolved) => Some(if resolved.proxy then convert(resolved.url) else resolved.url)
        case None =>
          match PathLookup(protoRoutes, "*")
          case Some(wildcard) =>
            var fullUrl := JoinURL(wildcard.url, path);
            Some(if wildcard.proxy then convert(fullUrl) else fullUrl)
          case None => None
  }

  predicate IsPassThrough(url: string) {
    StartsWith(url, "http://") || StartsWith(url, "https://") || StartsWith(url, "/") || StartsWith(url, "data:")
  }

  /** `processUrl`. The `javascript:` branch evaluates its code in the active
      frame and then falls through to the rules below, so it is not a case here. */
  function ProcessUrl(routes: Routes, url: string, convert: string -> string): (r: string)
    ensures SchemeMatch(url).None? ==> r == url || r == "/internal/" + url
    ensures IsPassThrough(url) && RouteResolve(routes, url, convert).None? ==> r == url
  {
    match RouteResolve(routes, url, convert)
    case Some(r) => r
    case None => if IsPassThrough(url) then url else "/internal/" + url
  }

  // --------------------------------------------------------- getInternalURL

  /** `s.replace(/^\/+/, "")`. */
  function StripLeadingSlashes(s: string): (r: string)
    ensures r == [] || r[0] != '/'
    ensures |r| <= |s| && s[|s| - |r|..] == r
  {
    if s != [] && s[0] == '/' then StripLeadingSlashes(s[1..]) else s
  }

  function EntryMatch(proto: string, pr: PathRoute, url: string): Option<string> {
    if pr.path == "*" then
      (if StartsWith(url, pr.entry.url) then Some(proto + "://" + StripLeadingSlashes(url[|pr.entry.url|..])) else None)
    else if url == pr.entry.url then Some(proto + "://" + pr.path)
    else None
  }

  function MatchIn(proto: string, paths: seq<PathRoute>, url: string): Option<string> {
    if paths == [] then None
    else if EntryMatch(proto, paths[0], url).Some? then EntryMatch(proto, paths[0], url)
    else MatchIn(proto, paths[1..], url)
  }

  /** The first entry, in insertion order, that matches `url`. */
  function MatchAll(routes: Routes, url: string): Option<string> {
    if routes == [] then None
    else if MatchIn(routes[0].proto, routes[0].paths, url).Some? then MatchIn(routes[0].proto, routes[0].paths, url)
    else MatchAll(routes[1..], url)
  }

  /** What `getInternalURL` returns for `url` under the table `routes`. */
  function InternalURLOf(routes: Routes, url: string): (r: string)
    ensures MatchAll(routes, url).None? ==> r == url || StartsWith(r, "daydream://")
  {
    match MatchAll(routes, url)
    case Some(r) => r
    case None => if StartsWith(url, "/internal/") then "daydream://" + url[|"/internal/"|..] else url
  }

  /** The table as the constructor leaves it: the daydream wildcard to `/internal`, unproxied. */
  const BuiltIn: Routes := [SchemeRoutes(Daydream, [BuiltInWildcard])]

  const Daydream: string := "daydream"
  const InternalBase: string := "/internal"
  const BuiltInWildcard: PathRoute := PathRoute("*", RouteEntry(InternalBase, false))
  const JsScheme: string := "javascript"

  class Protocols {
    var routes: Routes

    ghost predicate Valid()
      reads this
    {
      WellFormed(routes)
    }

    constructor ()
      ensures Valid() && routes == BuiltIn
    {
      routes := [];
      new;
      DaydreamScheme();
      Register(Daydream, "*", InternalBase, false);
    }

    /** `register`: lower-cases the scheme, then sets (or overwrites) one entry. */
    method Register(proto: string, path: string, url: string, proxy: bool)
      requires Valid()
      modifies this
      ensures Valid()
      ensures routes == SetRoute(old(routes), Lower(proto), path, RouteEntry(url, proxy))
    {
      SetRouteWellFormed(routes, Lower(proto), path, RouteEntry(url, proxy));
      routes := SetRoute(routes, Lower(proto), path, RouteEntry(url, proxy));
    }

    /** `getInternalURL`: scans every entry in insertion order and returns on
        the first match. */
    method GetInternalURL(url: string) returns (r: string)
      ensures r == InternalURLOf(routes, url)
    {
      var i := 0;
      while i < |routes|
        invariant 0 <= i <= |routes|
        invariant MatchAll(routes, url) == MatchAll(routes[i..], url)
      {
        var sr := routes[i];
        assert routes[i..][1..] == routes[i + 1..];
        var j := 0;
        while j < |sr.paths|
          invariant 0 <= j <= |sr.paths|
          invariant MatchIn(sr.proto, sr.paths, url) == MatchIn(sr.proto, sr.paths[j..], url)
        {
          var pr := sr.paths[j];
          assert sr.paths[j..][1..] == sr.paths[j + 1..];
          if pr.path == "*" {
            if StartsWith(url, pr.entry.url) {
              return sr.proto + "://" + StripLeadingSlashes(url[|pr.entry.url|..]);
            }
          } else if url == pr.entry.url {
            return sr.proto + "://" + pr.path;
          }
          j := j + 1;
        }
        i := i + 1;
      }
      if StartsWith(url, "/internal/") {
        return "daydream://" + url[|"/internal/"|..];
      }
      return url;
    }
  }

  // ------------------------------------------------------------- properties

  lemma LowerId(s: string)
    requires forall k :: 0 <= k < |s| ==> !('A' <= s[k] <= 'Z')
    ensures Lower(s) == s
  {
    assert forall k :: 0 <= k < |s| ==> Lower(s)[k] == s[k];
  }

  lemma {:induction false} LowerIdempotent(s: string)
    ensures Lower(Lower(s)) == Lower(s)
  {
    if s != [] { LowerIdempotent(s[1..]); }
  }

  lemma {:induction false} SchemeRunOf(scheme: string, rest: string)
    requires forall k :: 0 <= k < |scheme| ==> IsSchemeChar(scheme[k])
    requires rest == [] || !IsSchemeChar(rest[0])
    ensures SchemeRun(scheme + rest) == |scheme|
  {
    if scheme != [] {
      assert (scheme + rest)[1..] == scheme[1..] + rest;
      SchemeRunOf(scheme[1..], rest);
    }
  }

  /** The regular expression splits `scheme://rest` at the first "://" when
      the scheme is made of scheme characters and `rest` does not start with a
      line terminator; the path is `rest` up to its first line terminator. */
  lemma SchemeMatchOf(scheme: string, rest: string)
    requires scheme != [] && forall k :: 0 <= k < |scheme| ==> IsSchemeChar(scheme[k])
    requires rest != [] && !IsLineTerminator(rest[0])
    ensures SchemeMatch(scheme + "://" + rest) == Some((scheme, RestOfLine(rest)))
  {
    var url := scheme + "://" + rest;
    SchemeRunOf(scheme, "://" + rest);
    assert url == scheme + ("://" + rest);
    assert url[|scheme|..|scheme| + 3] == "://";
    assert url[|scheme| + 3..] == rest;
  }

  /** The regex needs at least one character after "://", and a scheme. */
  lemma SchemeMatchNeedsRest(url: string)
    requires SchemeMatch(url).Some?
    ensures var (scheme, path) := SchemeMatch(url).value;
      scheme != [] && path != [] && StartsWith(url, scheme + "://" + path)
  {
    var n := SchemeRun(url);
    var rest := url[n + 3..];
    assert rest[0] == url[n + 3];
    var path := RestOfLine(rest);
    assert url[..n + 3 + |path|] == url[..n] + "://" + path;
  }

  lemma RestOfLineId(s: string)
    requires forall k :: 0 <= k < |s| ==> !IsLineTerminator(s[k])
    ensures RestOfLine(s) == s
  {
  }

  /** Scheme matching is case-insensitive: two spellings of one scheme route alike. */
  lemma SchemeCaseInsensitive(routes: Routes, s1: string, s2: string, rest: string, convert: string -> string)
    requires s1 != [] && forall k :: 0 <= k < |s1| ==> IsSchemeChar(s1[k])
    requires s2 != [] && forall k :: 0 <= k < |s2| ==> IsSchemeChar(s2[k])
    requires Lower(s1) == Lower(s2)
    requires rest != [] && !IsLineTerminator(rest[0])
    ensures RouteResolve(routes, s1 + "://" + rest, convert) == RouteResolve(routes, s2 + "://" + rest, convert)
  {
    SchemeMatchOf(s1, rest);
    SchemeMatchOf(s2, rest);
  }

  /** An exact path entry answers before the scheme's wildcard. */
  lemma ExactBeforeWildcard(routes: Routes, scheme: string, path: string, convert: string -> string)
    requires scheme != [] && forall k :: 0 <= k < |scheme| ==> IsSchemeChar(scheme[k])
    requires path != [] && forall k :: 0 <= k < |path| ==> !IsLineTerminator(path[k])
    requires Lookup(routes, Lower(scheme), path).Some?
    ensures ProcessUrl(routes, scheme + "://" + path, convert)
      == var e := Lookup(routes, Lower(scheme), path).value; if e.proxy then convert(e.url) else e.url
  {
    SchemeMatchOf(scheme, path);
    RestOfLineId(path);
  }

  /** Without an exact entry, the wildcard target is joined with the path. */
  lemma WildcardJoin(routes: Routes, scheme: string, path: string, convert: string -> string)
    requires scheme != [] && forall k :: 0 <= k < |scheme| ==> IsSchemeChar(scheme[k])
    requires path != [] && forall k :: 0 <= k < |path| ==> !IsLineTerminator(path[k])
    requires Lookup(routes, Lower(scheme), path).None?
    requires Lookup(routes, Lower(scheme), "*").Some?
    ensures ProcessUrl(routes, scheme + "://" + path, convert)
      == var w := Lookup(routes, Lower(scheme), "*").value;
         if w.proxy then convert(JoinURL(w.url, path)) else JoinURL(w.url, path)
  {
    SchemeMatchOf(scheme, path);
    RestOfLineId(path);
  }

  /** Input no route answers is passed through or placed under /internal/:
      routing never fails. */
  lemma Fallthrough(routes: Routes, url: string, convert: string -> string)
    requires RouteResolve(routes, url, convert).None?
    ensures IsPassThrough(url) ==> ProcessUrl(routes, url, convert) == url
    ensures !IsPassThrough(url) ==> ProcessUrl(routes, url, convert) == "/internal/" + url
  {
  }

  /** A string ending in a slash is what remains without it, plus the
      slash; likewise at the start. */
  lemma SlashParts(base: string, path: string)
    ensures EndsWith(base, "/") ==> base == DropLastSlash(base) + "/"
    ensures !EndsWith(base, "/") ==> DropLastSlash(base) == base
    ensures StartsWith(path, "/") ==> path == "/" + DropFirstSlash(path)
    ensures !StartsWith(path, "/") ==> DropFirstSlash(path) == path
  {
  }

  lemma JoinURLExamples()
    ensures JoinURL("/base/", "a") == "/base/a"
    ensures JoinURL("/base", "a") == "/base/a"
    ensures JoinURL("/base/", "/a") == "/base/a"
  {
    assert EndsWith("/base/", "/");
    assert !EndsWith("/base", "/");
    assert StartsWith("/a", "/");
    assert !StartsWith("a", "/");
  }

  /** With the built-in table, `daydream://p` resolves to `/internal/p`
      (for example `daydream://settings` to `/internal/settings`) whenever the
      regex takes all of `p`, `p` has no leading slash, and `p` is not the
      literal key "*", which the exact-path lookup finds first. */
  lemma BuiltInForward(p: string, convert: string -> string)
    requires p != [] && p[0] != '/' && p != "*"
    requires forall k :: 0 <= k < |p| ==> !IsLineTerminator(p[k])
    ensures ProcessUrl(BuiltIn, Daydream + "://" + p, convert) == InternalBase + "/" + p
  {
    DaydreamScheme();
    BuiltInLookup(p);
    WildcardJoin(BuiltIn, Daydream, p, convert);
    JoinInternal(p);
  }

  lemma JoinInternal(p: string)
    requires p != [] && p[0] != '/'
    ensures JoinURL(InternalBase, p) == InternalBase + "/" + p
  {
    assert !EndsWith(InternalBase, "/") by { assert InternalBase[8] == 'l'; }
    assert !StartsWith(p, "/");
  }

  lemma DaydreamScheme()
    ensures Daydream != [] && forall k :: 0 <= k < |Daydream| ==> IsSchemeChar(Daydream[k])
    ensures Lower(Daydream) == Daydream
  {
    assert forall k :: 0 <= k < |Daydream| ==> 'a' <= Daydream[k] <= 'z';
    LowerId(Daydream);
  }

  /** The built-in table has one scheme, `daydream`, with only the wildcard. */
  lemma BuiltInSchemes(proto: string)
    ensures proto != Daydream ==> SchemeLookup(BuiltIn, proto).None?
    ensures SchemeLookup(BuiltIn, Daydream) == Some([BuiltInWildcard])
  {
    assert BuiltIn[0].proto == Daydream && BuiltIn[1..] == [];
  }

  lemma BuiltInLookup(p: string)
    requires p != "*"
    ensures Lookup(BuiltIn, Daydream, p).None?
    ensures Lookup(BuiltIn, Daydream, "*") == Some(RouteEntry(InternalBase, false))
  {
    BuiltInSchemes(Daydream);
    var e := BuiltInWildcard;
    assert [e][1..] == [];
    assert [e][0].path != p;
    assert PathLookup([e], p) == PathLookup([], p);
  }

  /** `javascript:` input is not handled specially: with the built-in table it
      ends up under /internal/, so `javascript:alert(1)` becomes
      `/internal/javascript:alert(1)`. */
  lemma JavascriptFallsThrough(url: string, convert: string -> string)
    requires StartsWith(url, "javascript:")
    ensures ProcessUrl(BuiltIn, url, convert) == "/internal/" + url
  {
    JavascriptSchemeRun(url);
    JavascriptNotResolved(url, convert);
    assert url[0] == url[..10][0] == 'j';
    PassThroughFirst(url);
  }

  lemma JavascriptNotResolved(url: string, convert: string -> string)
    requires |url| > 10 && url[..10] == JsScheme && SchemeRun(url) == 10
    ensures RouteResolve(BuiltIn, url, convert).None?
  {
    JavascriptNotRouted();
    if SchemeMatch(url).Some? {
      assert SchemeMatch(url).value.0 == JsScheme;
    }
  }

  /** The pass-through prefixes start with `h`, `/` or `d`. */
  lemma PassThroughFirst(url: string)
    ensures IsPassThrough(url) ==> url != [] && (url[0] == 'h' || url[0] == '/' || url[0] == 'd')
  {
    if IsPassThrough(url) {
      if StartsWith(url, "http://") { assert url[0] == url[..7][0]; }
      else if StartsWith(url, "https://") { assert url[0] == url[..8][0]; }
      else if StartsWith(url, "data:") { assert url[0] == url[..5][0]; }
      else { assert url[0] == url[..1][0]; }
    }
  }

  lemma JavascriptSchemeRun(url: string)
    requires StartsWith(url, "javascript:")
    ensures SchemeRun(url) == 10 && url[..10] == JsScheme
  {
    JavascriptPrefix(url);
    SchemeRunOfJs(url);
  }

  lemma JavascriptPrefix(url: string)
    requires StartsWith(url, "javascript:")
    ensures |url| > 10 && url[..10] == JsScheme && url[10] == ':'
  {
    var jc := "javascript:";
    assert jc == JsScheme + ":";
    assert url[..11] == jc;
    assert url[..10] == jc[..10];
  }

  lemma SchemeRunOfJs(url: string)
    requires |url| > 10 && url[..10] == JsScheme && url[10] == ':'
    ensures SchemeRun(url) == 10
  {
    var rest := url[10..];
    assert url == url[..10] + rest;
    assert forall k :: 0 <= k < |JsScheme| ==> 'a' <= JsScheme[k] <= 'z';
    SchemeRunOf(JsScheme, rest);
  }

  lemma JavascriptNotRouted()
    ensures SchemeLookup(BuiltIn, Lower(JsScheme)).None?
  {
    assert Lower(JsScheme)[0] == LowerChar(JsScheme[0]) == 'j';
    assert Daydream[0] == 'd';
    BuiltInSchemes(Lower(JsScheme));
  }

  /** Under the built-in table, any frame URL starting with "/internal" shows
      as daydream:// with the rest, leading slashes removed. */
  lemma BuiltInReverse(url: string)
    ensures StartsWith(url, InternalBase) ==>
      InternalURLOf(BuiltIn, url) == Daydream + "://" + StripLeadingSlashes(url[|InternalBase|..])
    ensures !StartsWith(url, InternalBase) ==> InternalURLOf(BuiltIn, url) == url
  {
    var e := BuiltInWildcard;
    assert BuiltIn[0].paths == [e] && BuiltIn[1..] == [];
    assert MatchAll(BuiltIn, url) == MatchIn(Daydream, [e], url);
    assert MatchIn(Daydream, [e], url) == EntryMatch(Daydream, e, url);
    if !StartsWith(url, InternalBase) {
      StartsWithLonger(url, InternalBase, "/");
      assert InternalBase + "/" == "/internal/";
    }
  }

  /** Round trip with only the built-in route, for a non-empty path without a
      leading slash and without line terminators. */
  lemma BuiltInRoundTrip(p: string, convert: string -> string)
    requires p != [] && p[0] != '/' && p != "*"
    requires forall k :: 0 <= k < |p| ==> !IsLineTerminator(p[k])
    ensures InternalURLOf(BuiltIn, ProcessUrl(BuiltIn, Daydream + "://" + p, convert)) == Daydream + "://" + p
  {
    BuiltInForward(p, convert);
    var out := InternalBase + "/" + p;
    assert out[..|InternalBase|] == InternalBase;
    assert out[|InternalBase|..] == "/" + p;
    BuiltInReverse(out);
    assert StripLeadingSlashes("/" + p) == p;
  }

  /** The reverse mapping: with no matching entry, a "/internal/" path shows as
      daydream:// and anything else is returned unchanged. */
  lemma ReverseFallback(routes: Routes, url: string)
    requires MatchAll(routes, url).None?
    ensures StartsWith(url, "/internal/") ==> InternalURLOf(routes, url) == "daydream://" + url[10..]
    ensures !StartsWith(url, "/internal/") ==> InternalURLOf(routes, url) == url
  {
  }

  /** An exact entry that comes first in insertion order shows as its
      `scheme://path`. */
  lemma ReverseExactFirst(proto: string, path: string, e: RouteEntry, rest: seq<PathRoute>, more: Routes, url: string)
    requires path != "*" && url == e.url
    ensures InternalURLOf([SchemeRoutes(proto, [PathRoute(path, e)] + rest)] + more, url) == proto + "://" + path
  {
    var paths := [PathRoute(path, e)] + rest;
    assert paths[0] == PathRoute(path, e);
    assert MatchIn(proto, paths, url) == Some(proto + "://" + path);
  }
}
