/** The `/internal/icons/:url(*)` handler of srv/router.ts: the requested
    URL is stripped of its scheme by four first-occurrence replacements and
    appended to the icon.horse endpoint. The fetch of that URL is outside
    the model. */
module IconRoute {
  import opened StringUtil

  const IconHorse: string := "https://icon.horse/icon/"

  // The four patterns, in the order the handler tries them.
  const SecureOneSlash: string := "https:/"
  const PlainOneSlash: string := "http:/"
  const SecureTwoSlashes: string := "https://"
  const PlainTwoSlashes: string := "http://"

  /** The replace chain, in the handler's order, each pattern removed at
      most once. */
  function Normalised(url: string): string {
    AfterFirst(ReplaceFirst(url, SecureOneSlash, ""))
  }

  /** The last three replacements. */
  function AfterFirst(u: string): string {
    AfterSecond(ReplaceFirst(u, PlainOneSlash, ""))
  }

  function AfterSecond(u: string): string {
    ReplaceFirst(ReplaceFirst(u, SecureTwoSlashes, ""), PlainTwoSlashes, "")
  }

  /** The upstream URL the handler fetches: the endpoint, then the URL with
      characters only taken out; an `https:/` in it costs at least those
      seven. */
  function Upstream(url: string): (r: string)
    ensures StartsWith(r, IconHorse)
    ensures r[|IconHorse|..] == Normalised(url)
    ensures |r| <= |IconHorse| + |url|
    ensures Contains(url, SecureOneSlash) ==> |r| <= |IconHorse| + |url| - |SecureOneSlash|
  {
    NormalisedShorter(url);
    IconHorse + Normalised(url)
  }

  /** Removing a pattern never lengthens a string, and removes the whole
      pattern when it occurs. */
  lemma RemovedShorter(s: string, pat: string)
    ensures |ReplaceFirst(s, pat, "")| <= |s|
    ensures Contains(s, pat) ==> |ReplaceFirst(s, pat, "")| == |s| - |pat|
  {
    ReplaceFirstPlaced(s, pat, "");
  }

  lemma NormalisedShorter(url: string)
    ensures |Normalised(url)| <= |url|
    ensures Contains(url, SecureOneSlash) ==> |Normalised(url)| <= |url| - |SecureOneSlash|
  {
    var u1 := ReplaceFirst(url, SecureOneSlash, "");
    var u2 := ReplaceFirst(u1, PlainOneSlash, "");
    var u3 := ReplaceFirst(u2, SecureTwoSlashes, "");
    RemovedShorter(url, SecureOneSlash);
    RemovedShorter(u1, PlainOneSlash);
    RemovedShorter(u2, SecureTwoSlashes);
    RemovedShorter(u3, PlainTwoSlashes);
  }

  /** A pattern holding `c` does not occur in a string without `c`. */
  lemma AbsentChar(s: string, pat: string, c: char, j: nat)
    requires j < |pat| && pat[j] == c && c !in s
    ensures !Contains(s, pat)
  {
    forall i: nat | i <= |s|
      ensures !OccursAt(s, pat, i)
    {
      if i + |pat| <= |s| {
        assert s[i..i + |pat|][j] == s[i + j];
      }
    }
  }

  lemma ColonPositions()
    ensures SecureOneSlash[5] == ':' && PlainOneSlash[4] == ':'
    ensures SecureTwoSlashes[5] == ':' && PlainTwoSlashes[4] == ':'
    ensures |SecureOneSlash| == 7 && |PlainOneSlash| == 6
  {
  }

  /** Every pattern but the first has a colon, so a colon-free string passes
      the rest of the chain unchanged. */
  lemma NoColonAfterFirst(s: string)
    requires ':' !in s
    ensures AfterFirst(s) == s
  {
    ColonPositions();
    AbsentChar(s, PlainOneSlash, ':', 4);
    NoColonAfterSecond(s);
  }

  lemma NoColonAfterSecond(s: string)
    requires ':' !in s
    ensures AfterSecond(s) == s
  {
    ColonPositions();
    AbsentChar(s, SecureTwoSlashes, ':', 5);
    AbsentChar(s, PlainTwoSlashes, ':', 4);
  }

  /** A URL without a colon, so without any of the patterns, is appended
      unchanged. */
  lemma NoSchemeUnchanged(url: string)
    requires ':' !in url
    ensures Upstream(url) == IconHorse + url
  {
    ColonPositions();
    AbsentChar(url, SecureOneSlash, ':', 5);
    NoColonAfterFirst(url);
  }

  /** Because `https:/` is tried first, an `https://` URL keeps one slash. */
  lemma SecureKeepsSlash(host: string)
    requires ':' !in host
    ensures Normalised(SecureTwoSlashes + host) == "/" + host
  {
    var rest := "/" + host;
    var u := SecureTwoSlashes + host;
    assert u == SecureOneSlash + rest by {
      assert SecureTwoSlashes == SecureOneSlash + "/";
    }
    ReplaceFirstOfPrefix(SecureOneSlash, rest, "");
    assert ReplaceFirst(u, SecureOneSlash, "") == rest;
    assert ':' !in rest;
    NoColonAfterFirst(rest);
  }

  /** `https:/` does not occur in an `http://` URL whose host has no
      colon: the only colon is at index 4. */
  lemma PlainHasNoSecure(host: string)
    requires ':' !in host
    ensures !Contains(PlainTwoSlashes + host, SecureOneSlash)
  {
    var s := PlainTwoSlashes + host;
    ColonPositions();
    forall i: nat | i <= |s|
      ensures !OccursAt(s, SecureOneSlash, i)
    {
      if i + 7 <= |s| {
        assert s[i..i + 7][5] == s[i + 5];
        if i + 5 < 7 {
          assert s[i + 5] == PlainTwoSlashes[i + 5] == '/';
        } else {
          assert s[i + 5] == host[i + 5 - 7];
        }
      }
    }
  }

  /** An `http://` URL is caught by the `http:/` step and keeps one slash
      too. */
  lemma PlainKeepsSlash(host: string)
    requires ':' !in host
    ensures Normalised(PlainTwoSlashes + host) == "/" + host
  {
    var rest := "/" + host;
    var u := PlainTwoSlashes + host;
    assert u == PlainOneSlash + rest by {
      assert PlainTwoSlashes == PlainOneSlash + "/";
    }
    PlainHasNoSecure(host);
    assert ReplaceFirst(u, SecureOneSlash, "") == u;
    ReplaceFirstOfPrefix(PlainOneSlash, rest, "");
    assert ReplaceFirst(u, PlainOneSlash, "") == rest;
    assert ':' !in rest;
    NoColonAfterSecond(rest);
  }

  /** The upstream URL of an `https://` URL has a doubled slash. */
  lemma SecureUpstream(host: string)
    requires ':' !in host
    ensures Upstream(SecureTwoSlashes + host) == IconHorse + "/" + host
  {
    SecureKeepsSlash(host);
  }

  /** Of an `http://` or `https://` URL whose host has no colon, the
      normalised URL keeps no colon: nothing of the scheme is left. */
  lemma SchemeGone(host: string)
    requires ':' !in host
    ensures ':' !in Normalised(SecureTwoSlashes + host)
    ensures ':' !in Normalised(PlainTwoSlashes + host)
  {
    SecureKeepsSlash(host);
    PlainKeepsSlash(host);
    assert ':' !in "/" + host;
  }

  const ExampleHost: string := "a.com"

  /** `https://a.com` is fetched as `https://icon.horse/icon//a.com`. */
  lemma SecureExample()
    ensures SecureTwoSlashes + ExampleHost == "https://a.com"
    ensures Upstream(SecureTwoSlashes + ExampleHost) == "https://icon.horse/icon//a.com"
  {
    assert ':' !in ExampleHost;
    SecureUpstream(ExampleHost);
    ExampleSpelled();
  }

  lemma ExampleSpelled()
    ensures SecureTwoSlashes + ExampleHost == "https://a.com"
    ensures IconHorse + "/" + ExampleHost == "https://icon.horse/icon//a.com"
  {
  }
}
