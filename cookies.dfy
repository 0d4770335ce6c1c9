/** `extractCookies`, which both src/js/apis/exporting.ts and
    src/js/apis/profiles.ts define: `document.cookie` is split at `;`,
    each piece at `=`; the first part, trimmed, is the key and the rest,
    joined back with `=` and passed through `decodeURI`, the value. A
    later cookie overwrites an earlier one with the same key. */
module Cookies {
  import opened Wrappers
  import opened StringUtil

  /** `decodeURI`; `None` is the URIError it throws. */
  type Decoder = string -> Option<string>

  /** One `;`-separated piece, split at its first `=`. */
  datatype Piece = Piece(key: string, raw: string)

  /** The key is `parts.shift()?.trim()` (the array from `split` is never
      empty, so neither `?? ""` nor `|| ""` changes it) and the undecoded
      value `parts.join("=")`. */
  function Parse(c: string): Piece {
    var parts := Split(c, '=');
    Piece(Trim(parts[0]), Join(parts[1..], '='))
  }

  /** The key is what precedes the first `=`, trimmed, and the value all
      that follows it, further `=` included. */
  lemma ParseParts(c: string)
    ensures '=' !in c ==> Parse(c) == Piece(Trim(c), "")
    ensures '=' in c ==> Parse(c) == Piece(Trim(c[..FirstIndex(c, '=')]), c[FirstIndex(c, '=') + 1..])
  {
    SplitHead(c, '=');
  }

  function ParseAll(cs: seq<string>): (ps: seq<Piece>) {
    seq(|cs|, i requires 0 <= i < |cs| => Parse(cs[i]))
  }

  /** One piece added to the dictionary. */
  function Step(acc: Option<map<string, string>>, p: Piece, decode: Decoder): (r: Option<map<string, string>>)
    ensures r.Some? <==> acc.Some? && decode(p.raw).Some?
    ensures r.Some? ==> r.value.Keys == acc.value.Keys + {p.key} && Some(r.value[p.key]) == decode(p.raw)
    ensures r.Some? ==> forall k :: k in acc.value && k != p.key ==> r.value[k] == acc.value[k]
  {
    if acc.Some? && decode(p.raw).Some? then Some(acc.value[p.key := decode(p.raw).value]) else None
  }

  /** The dictionary built from the pieces, in order; `None` once a value
      fails to decode. */
  function Collected(ps: seq<Piece>, decode: Decoder): (r: Option<map<string, string>>)
    ensures r.Some? ==> |r.value| <= |ps|
    decreases |ps|
  {
    if ps == [] then Some(map[])
    else Step(Collected(ps[..|ps| - 1], decode), ps[|ps| - 1], decode)
  }

  /** What `extractCookies` returns for a cookie string. */
  function Extracted(cookie: string, decode: Decoder): (r: Option<map<string, string>>)
    ensures r.Some? <==> AllDecode(ParseAll(Split(cookie, ';')), decode)
  {
    CollectedSucceeds(ParseAll(Split(cookie, ';')), decode);
    Collected(ParseAll(Split(cookie, ';')), decode)
  }

  /** Every piece's raw value decodes. */
  predicate AllDecode(ps: seq<Piece>, decode: Decoder) {
    forall i :: 0 <= i < |ps| ==> decode(ps[i].raw).Some?
  }

  method ExtractCookies(cookie: string, decode: Decoder) returns (r: Option<map<string, string>>)
    ensures r == Extracted(cookie, decode)
  {
    var ps := ParseAll(Split(cookie, ';'));
    var cookies: map<string, string> := map[];
    var i := 0;
    while i < |ps|
      invariant 0 <= i <= |ps|
      invariant Collected(ps[..i], decode) == Some(cookies)
    {
      var p := ps[i];
      CollectedStep(ps, i, decode);
      var v := decode(p.raw);
      if v.None? {
        NoneStays(ps, i + 1, decode);
        return None;
      }
      cookies := cookies[p.key := v.value];
      i := i + 1;
    }
    assert ps[..i] == ps;
    r := Some(cookies);
  }

  /** One more piece is one more `Step`. */
  lemma CollectedStep(ps: seq<Piece>, i: nat, decode: Decoder)
    requires i < |ps|
    ensures Collected(ps[..i + 1], decode) == Step(Collected(ps[..i], decode), ps[i], decode)
  {
    assert ps[..i + 1][..i] == ps[..i];
  }

  /** A value that does not decode makes the whole extraction throw. */
  lemma {:induction false} NoneStays(ps: seq<Piece>, n: nat, decode: Decoder)
    requires n <= |ps| && Collected(ps[..n], decode).None?
    ensures Collected(ps, decode).None?
    decreases |ps| - n
  {
    if n < |ps| {
      assert ps[..n + 1][..n] == ps[..n];
      NoneStays(ps, n + 1, decode);
    } else {
      assert ps[..n] == ps;
    }
  }

  /** The extraction succeeds exactly when every value decodes. */
  lemma {:induction false} CollectedSucceeds(ps: seq<Piece>, decode: Decoder)
    ensures Collected(ps, decode).Some? <==> forall i :: 0 <= i < |ps| ==> decode(ps[i].raw).Some?
    decreases |ps|
  {
    if ps != [] {
      var init := ps[..|ps| - 1];
      CollectedSucceeds(init, decode);
      assert forall i :: 0 <= i < |init| ==> init[i] == ps[i];
    }
  }

  /** The position of the last piece with `key`, or -1. */
  function LastIndex(ps: seq<Piece>, key: string): (i: int)
    ensures -1 <= i < |ps|
    ensures i >= 0 ==> ps[i].key == key && forall j :: i < j < |ps| ==> ps[j].key != key
    ensures i == -1 ==> forall j :: 0 <= j < |ps| ==> ps[j].key != key
    decreases |ps|
  {
    if ps == [] then -1
    else if ps[|ps| - 1].key == key then |ps| - 1
    else LastIndex(ps[..|ps| - 1], key)
  }

  lemma {:induction false} CollectedAtLastIndex(ps: seq<Piece>, decode: Decoder, key: string)
    requires Collected(ps, decode).Some?
    ensures key in Collected(ps, decode).value <==> LastIndex(ps, key) >= 0
    ensures key in Collected(ps, decode).value ==>
      Some(Collected(ps, decode).value[key]) == decode(ps[LastIndex(ps, key)].raw)
    decreases |ps|
  {
    if ps != [] {
      var n := |ps| - 1;
      var init := ps[..n];
      CollectedAtLastIndex(init, decode, key);
      if ps[n].key != key {
        var i := LastIndex(init, key);
        assert i >= 0 ==> init[i] == ps[i];
      }
    }
  }

  /** Every key of the result comes from a piece, and holds the decoded
      value of the last piece with that key. */
  lemma LastPieceWins(ps: seq<Piece>, decode: Decoder, key: string)
    requires Collected(ps, decode).Some?
    ensures key in Collected(ps, decode).value <==> exists i :: 0 <= i < |ps| && ps[i].key == key
    ensures key in Collected(ps, decode).value ==>
      exists i :: 0 <= i < |ps| && ps[i].key == key
        && Some(Collected(ps, decode).value[key]) == decode(ps[i].raw)
        && forall j :: i < j < |ps| ==> ps[j].key != key
  {
    CollectedAtLastIndex(ps, decode, key);
    var i := LastIndex(ps, key);
    if i >= 0 {
      assert ps[i].key == key;
    }
  }

  /** An empty cookie string still yields one entry, under the empty key. */
  lemma EmptyCookieString(decode: Decoder)
    requires decode("") == Some("")
    ensures Extracted("", decode) == Some(map["" := ""])
  {
    assert Split("", ';') == [""];
    assert Parse("") == Piece("", "");
    assert ParseAll([""]) == [Piece("", "")];
  }

  /** A value may itself contain `=`: only the first one separates. */
  lemma ValueKeepsEquals(name: string, value: string)
    requires '=' !in name
    ensures Parse(name + "=" + value) == Piece(Trim(name), value)
  {
    var c := name + "=" + value;
    assert c[|name|] == '=' && c[..|name|] == name;
    FirstIndexUnique(c, '=', |name|);
    ParseParts(c);
    assert c[|name| + 1..] == value;
  }
}
