/** The legacy routing helpers of src/js/utils.ts, hard-wired to the
    `daydream://` <-> `/internal/` pair, and the arg-min helper `closest`. */
module Utils {
  import opened Wrappers
  import opened StringUtil

  const DaydreamPrefix: string := "daydream://"
  const InternalPrefix: string := "/internal/"
  const HttpPrefix: string := "http://"
  const HttpsPrefix: string := "https://"
  const DataPrefix: string := "data:"
  const JsPrefix: string := "javascript:"
  const SlashPrefix: string := "/"

  predicate IsPassThrough(url: string) {
    StartsWith(url, HttpPrefix) || StartsWith(url, HttpsPrefix) || StartsWith(url, SlashPrefix) || StartsWith(url, DataPrefix)
  }

  /** `processUrl`; `None` is the `javascript:` branch, which runs the code in
      the active frame and returns nothing, so no navigation happens. */
  function ProcessUrl(url: string): Option<string> {
    if StartsWith(url, DaydreamPrefix) then Some(InternalPrefix + ReplaceFirst(url, DaydreamPrefix, ""))
    else if IsPassThrough(url) then Some(url)
    else if StartsWith(url, JsPrefix) then None
    else Some(InternalPrefix + url)
  }

  /** `getInternalURL`. */
  function GetInternalURL(url: string): string {
    if StartsWith(url, InternalPrefix) then DaydreamPrefix + ReplaceFirst(url, InternalPrefix, "")
    else if StartsWith(url, HttpPrefix) || StartsWith(url, HttpsPrefix) || StartsWith(url, DaydreamPrefix)
         || StartsWith(url, DataPrefix) || StartsWith(url, JsPrefix)
         || (StartsWith(url, SlashPrefix) && !StartsWith(url, InternalPrefix))
    then url
    else DaydreamPrefix + url
  }

  lemma DaydreamNotOther(url: string)
    requires StartsWith(url, DaydreamPrefix)
    ensures !IsPassThrough(url) && !StartsWith(url, JsPrefix)
  {
    assert url[..11] == DaydreamPrefix;
    assert url[0] == 'd' && url[2] == 'y';
  }

  /** `daydream://p` goes to `/internal/p`. */
  lemma ProcessInternal(p: string)
    ensures ProcessUrl(DaydreamPrefix + p) == Some(InternalPrefix + p)
  {
    var url := DaydreamPrefix + p;
    assert url[..11] == DaydreamPrefix;
    assert StartsWith(url, DaydreamPrefix);
    ReplaceFirstOfPrefix(DaydreamPrefix, p, "");
    assert ReplaceFirst(url, DaydreamPrefix, "") == p;
  }

  /** The four pass-through prefixes come back unchanged. */
  lemma ProcessPassThrough(url: string)
    requires IsPassThrough(url)
    ensures ProcessUrl(url) == Some(url)
  {
    if StartsWith(url, DaydreamPrefix) { DaydreamNotOther(url); }
  }

  /** Exactly the `javascript:` input gives no value. */
  lemma ProcessNoValue(url: string)
    ensures ProcessUrl(url).None? <==> StartsWith(url, JsPrefix)
  {
    if StartsWith(url, JsPrefix) {
      assert url[0] == 'j';
    }
  }

  /** Anything else is placed under /internal/. */
  lemma ProcessOther(url: string)
    requires !StartsWith(url, DaydreamPrefix) && !IsPassThrough(url) && !StartsWith(url, JsPrefix)
    ensures ProcessUrl(url) == Some(InternalPrefix + url)
  {
  }

  /** The address bar shows the internal URL it came from. */
  lemma RoundTrip(p: string)
    ensures ProcessUrl(DaydreamPrefix + p).Some?
    ensures GetInternalURL(ProcessUrl(DaydreamPrefix + p).value) == DaydreamPrefix + p
  {
    ProcessInternal(p);
    ReplaceFirstOfPrefix(InternalPrefix, p, "");
  }

  /** URLs that are already external, internal-scheme, data or script URLs,
      and absolute paths outside /internal/, are shown as they are; any other
      string gets a `daydream://` prefix. */
  lemma DisplayUnchanged(url: string)
    requires !StartsWith(url, InternalPrefix)
    ensures (StartsWith(url, HttpPrefix) || StartsWith(url, HttpsPrefix) || StartsWith(url, DaydreamPrefix)
             || StartsWith(url, DataPrefix) || StartsWith(url, JsPrefix) || StartsWith(url, SlashPrefix))
            ==> GetInternalURL(url) == url
    ensures !(StartsWith(url, HttpPrefix) || StartsWith(url, HttpsPrefix) || StartsWith(url, DaydreamPrefix)
             || StartsWith(url, DataPrefix) || StartsWith(url, JsPrefix) || StartsWith(url, SlashPrefix))
            ==> GetInternalURL(url) == DaydreamPrefix + url
  {
  }

  /** The fallback of `processUrl` is undone by `getInternalURL`. */
  lemma FallbackDisplay(url: string)
    requires !StartsWith(url, DaydreamPrefix) && !IsPassThrough(url) && !StartsWith(url, JsPrefix)
    ensures GetInternalURL(ProcessUrl(url).value) == DaydreamPrefix + url
  {
    var u := InternalPrefix + url;
    ProcessOther(url);
    assert u[..|InternalPrefix|] == InternalPrefix;
    ReplaceFirstOfPrefix(InternalPrefix, url, "");
    assert ReplaceFirst(u, InternalPrefix, "") == url;
  }

  function Abs(x: int): nat {
    if x < 0 then -x else x
  }

  /** `closest`: the first index whose element is nearest to `value`, or -1
      for an empty array. The `forEach` keeps the running minimum distance
      (`None` for the initial `Infinity`) and its index. */
  method Closest(value: int, values: seq<int>) returns (closestIndex: int)
    ensures values == [] ==> closestIndex == -1
    ensures values != [] ==> 0 <= closestIndex < |values|
    ensures values != [] ==> forall j :: 0 <= j < |values| ==> Abs(value - values[closestIndex]) <= Abs(value - values[j])
    ensures values != [] ==> forall j :: 0 <= j < closestIndex ==> Abs(value - values[j]) > Abs(value - values[closestIndex])
  {
    var closest: Option<nat> := None;
    closestIndex := -1;
    var i := 0;
    while i < |values|
      invariant 0 <= i <= |values|
      invariant i == 0 <==> closest.None?
      invariant i == 0 ==> closestIndex == -1
      invariant i > 0 ==> 0 <= closestIndex < i && closest == Some(Abs(value - values[closestIndex]))
      invariant i > 0 ==> forall j :: 0 <= j < i ==> Abs(value - values[closestIndex]) <= Abs(value - values[j])
      invariant i > 0 ==> forall j :: 0 <= j < closestIndex ==> Abs(value - values[j]) > Abs(value - values[closestIndex])
    {
      var d := Abs(value - values[i]);
      if closest.None? || d < closest.value {
        closest := Some(d);
        closestIndex := i;
      }
      i := i + 1;
    }
  }
}
