/** The development-server configuration of vite.config.ts: the `pages`
    record that names every internal page after its directory, and the
    pretty-URL middleware that serves `/internal/<page>` from
    `/internal/<page>/index.html`. The file-system glob and `path.resolve`
    are parameters. */
module ViteConfig {
  import opened Wrappers
  import opened StringUtil

  const InternalPrefix: string := "/internal/"
  const HtmlSuffix: string := ".html"
  const IndexSuffix: string := "/index.html"

  /** The regular expression `^\/internal\/[^/]+$`: the prefix followed by
      one or more characters, none of them a slash. */
  predicate SingleSegment(u: string) {
    StartsWith(u, InternalPrefix) && |u| > |InternalPrefix| && '/' !in u[|InternalPrefix|..]
  }

  /** The URL after the middleware; an absent or empty `req.url` is left
      alone. */
  function Rewritten(url: Option<string>): (r: Option<string>)
    ensures url.None? ==> r.None?
    ensures url.Some? && SingleSegment(url.value) && !EndsWith(url.value, HtmlSuffix) ==>
      r == Some(url.value + IndexSuffix)
    ensures url.Some? && !(SingleSegment(url.value) && !EndsWith(url.value, HtmlSuffix)) ==> r == url
    ensures url.Some? ==> r.Some? && StartsWith(r.value, url.value)
    ensures r.Some? ==> !(SingleSegment(r.value) && !EndsWith(r.value, HtmlSuffix))
  {
    if url.Some? && url.value != "" && SingleSegment(url.value) && !EndsWith(url.value, HtmlSuffix)
    then IndexIsHtml(url.value); Some(url.value + IndexSuffix)
    else url
  }

  /** A URL ending in `/index.html` ends in `.html`. */
  lemma IndexIsHtml(u: string)
    ensures EndsWith(u + IndexSuffix, HtmlSuffix)
  {
    var v := u + IndexSuffix;
    assert v[|v| - |HtmlSuffix|..] == IndexSuffix[|IndexSuffix| - |HtmlSuffix|..];
  }

  /** A rewritten URL has a deeper path, so a second pass leaves it. */
  lemma RewriteIdempotent(url: Option<string>)
    ensures Rewritten(Rewritten(url)) == Rewritten(url)
  {
    if url.Some? && SingleSegment(url.value) && !EndsWith(url.value, HtmlSuffix) {
      var u := url.value + IndexSuffix;
      var n := |InternalPrefix|;
      assert u[..n] == url.value[..n];
      assert u[|url.value|] == '/';
      assert u[n..][|url.value| - n] == '/';
    }
  }

  /** Trailing slashes and deeper paths are not rewritten. */
  lemma DeeperPathsUnchanged(page: string, rest: string)
    ensures Rewritten(Some(InternalPrefix + page + "/" + rest)) == Some(InternalPrefix + page + "/" + rest)
  {
    var u := InternalPrefix + page + "/" + rest;
    var n := |InternalPrefix|;
    assert u[n..][|page|] == '/';
  }

  /** A page name is rewritten to its directory's index file. */
  lemma PageNameRewritten(page: string)
    requires page != [] && '/' !in page && !EndsWith(page, HtmlSuffix)
    ensures Rewritten(Some(InternalPrefix + page)) == Some(InternalPrefix + page + IndexSuffix)
  {
    var u := InternalPrefix + page;
    assert u[..|InternalPrefix|] == InternalPrefix;
    assert u[|InternalPrefix|..] == page;
    assert |HtmlSuffix| == 5 && '/' !in HtmlSuffix;
    if |page| >= 5 {
      assert u[|u| - 5..] == page[|page| - 5..];
    } else {
      assert u[|u| - 5..][4 - |page|] == u[9] == '/';
    }
  }

  /** The request object the middleware updates in place. */
  class Request {
    var url: Option<string>
    /** How often the middleware has handed the request on. */
    var nextCalls: nat

    constructor (initialUrl: Option<string>)
      ensures url == initialUrl && nextCalls == 0
    {
      url := initialUrl;
      nextCalls := 0;
    }
  }

  /** The middleware of `prettyUrlsPlugin`: `next()` is called exactly once. */
  method PrettyUrls(req: Request)
    modifies req
    ensures req.url == Rewritten(old(req.url))
    ensures req.nextCalls == old(req.nextCalls) + 1
  {
    if req.url.Some? && req.url.value != "" && SingleSegment(req.url.value) && !EndsWith(req.url.value, HtmlSuffix) {
      req.url := Some(req.url.value + IndexSuffix);
    }
    req.nextCalls := req.nextCalls + 1;
  }

  // ---------------------------------------------------------------------
  // The `pages` record.

  /** `path.split("/")[1]`; a path without a slash has no second segment
      and its name is the string "undefined". */
  function NameOf(path: string): (name: string)
    ensures '/' !in path ==> name == "undefined"
  {
    var parts := Split(path, '/');
    if |parts| > 1 then parts[1] else "undefined"
  }

  /** The name of `internal/<page>/index.html` is `<page>`. */
  lemma NameOfPage(dir: string, page: string, rest: string)
    requires '/' !in dir && '/' !in page
    ensures NameOf(dir + "/" + page + "/" + rest) == page
  {
    var s := dir + "/" + page + "/" + rest;
    assert s[|dir|] == '/' && s[..|dir|] == dir;
    FirstIndexUnique(s, '/', |dir|);
    var t := s[|dir| + 1..];
    assert t == page + "/" + rest;
    assert t[|page|] == '/' && t[..|page|] == page;
    FirstIndexUnique(t, '/', |page|);
    assert Split(t, '/')[0] == page;
  }

  /** `pages` after the first paths of the glob, over the preset `index`
      entry. */
  function Pages(paths: seq<string>, resolve: string -> string): (r: map<string, string>)
    ensures "index" in r
    ensures forall i :: 0 <= i < |paths| ==> NameOf(paths[i]) in r
    decreases |paths|
  {
    if paths == [] then map["index" := resolve("index.html")]
    else Pages(paths[..|paths| - 1], resolve)[NameOf(paths[|paths| - 1]) := resolve(paths[|paths| - 1])]
  }

  /** The loop filling `pages`. */
  method BuildPages(paths: seq<string>, resolve: string -> string) returns (pages: map<string, string>)
    ensures pages == Pages(paths, resolve)
  {
    pages := map["index" := resolve("index.html")];
    for i := 0 to |paths|
      invariant pages == Pages(paths[..i], resolve)
    {
      assert paths[..i + 1][..i] == paths[..i];
      var path := paths[i];
      pages := pages[NameOf(path) := resolve(path)];
    }
    assert paths[..|paths|] == paths;
  }

  /** The position of the last path that `nameOf` names `name`, or -1. */
  function LastNamed(paths: seq<string>, nameOf: string -> string, name: string): (i: int)
    ensures -1 <= i < |paths|
    ensures i >= 0 ==> nameOf(paths[i]) == name && forall j :: i < j < |paths| ==> nameOf(paths[j]) != name
    ensures i == -1 ==> forall j :: 0 <= j < |paths| ==> nameOf(paths[j]) != name
    decreases |paths|
  {
    if paths == [] then -1
    else if nameOf(paths[|paths| - 1]) == name then |paths| - 1
    else LastNamed(paths[..|paths| - 1], nameOf, name)
  }

  /** `pages` at a name holds the path found by `LastNamed`, or the preset
      for `index`. */
  lemma {:induction false} PagesAtLastNamed(paths: seq<string>, resolve: string -> string, name: string)
    ensures name in Pages(paths, resolve) <==> name == "index" || LastNamed(paths, NameOf, name) >= 0
    ensures LastNamed(paths, NameOf, name) >= 0 ==> Pages(paths, resolve)[name] == resolve(paths[LastNamed(paths, NameOf, name)])
    ensures LastNamed(paths, NameOf, name) == -1 && name == "index" ==> Pages(paths, resolve)[name] == resolve("index.html")
    decreases |paths|
  {
    if paths != [] {
      var n := |paths| - 1;
      var init := paths[..n];
      PagesAtLastNamed(init, resolve, name);
      if NameOf(paths[n]) != name {
        var i := LastNamed(init, NameOf, name);
        assert i >= 0 ==> init[i] == paths[i];
      }
    }
  }

  /** The names are `index` and those of the paths; each maps to the last
      path with that name, and `index` keeps the preset only when no path
      is named so. */
  lemma LastPathWins(paths: seq<string>, resolve: string -> string, name: string)
    ensures name in Pages(paths, resolve) <==> name == "index" || exists i :: 0 <= i < |paths| && NameOf(paths[i]) == name
    ensures (forall i :: 0 <= i < |paths| ==> NameOf(paths[i]) != name) && name == "index" ==>
      Pages(paths, resolve)[name] == resolve("index.html")
    ensures forall i :: 0 <= i < |paths| && NameOf(paths[i]) == name && (forall j :: i < j < |paths| ==> NameOf(paths[j]) != name) ==>
      Pages(paths, resolve)[name] == resolve(paths[i])
  {
    PagesAtLastNamed(paths, resolve, name);
    var k := LastNamed(paths, NameOf, name);
    if k >= 0 {
      assert NameOf(paths[k]) == name;
    }
    forall i | 0 <= i < |paths| && NameOf(paths[i]) == name && (forall j :: i < j < |paths| ==> NameOf(paths[j]) != name)
      ensures Pages(paths, resolve)[name] == resolve(paths[i])
    {
      assert k == i;
    }
  }
}
