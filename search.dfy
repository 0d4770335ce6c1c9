/** The omnibox suggestion box (src/js/browser/search.ts): keyboard movement
    through the result sections, the query clean-up before the suggestion
    fetch, the predicted settings URLs and the capped result lists. A
    section is represented by the number of suggestion items it shows. */
module Search {
  import opened StringUtil

  /** `selectedSuggestionIndex`, which JavaScript arithmetic can turn into NaN. */
  datatype Selection = Index(i: int) | NaN

  /** What one arrow key does: move to another section, or select. */
  datatype Step = ToNextSection | ToPreviousSection | Select(sel: Selection)

  /** JavaScript `a % n` for a non-negative divisor: the remainder takes the
      sign of `a` (a negative zero reads as 0), and `% 0` is NaN. */
  function JsRem(a: int, n: nat): (r: Selection)
    ensures n == 0 <==> r == NaN
    ensures n > 0 && 0 <= a ==> r == Index(a % n)
    ensures n > 0 ==> 0 - n < r.i < n && (a >= 0 ==> r.i >= 0) && (a <= 0 ==> r.i <= 0)
  {
    if n == 0 then NaN
    else if a >= 0 then Index(a % n)
    else Index(-((-a) % n))
  }

  /** The ArrowDown branch, with `n` items in the current section. */
  function DownStep(sel: Selection, n: nat): Step {
    match sel
    case NaN => Select(NaN)
    case Index(i) => if i + 1 >= n then ToNextSection else Select(JsRem(i + 1, n))
  }

  /** The ArrowUp branch, as written. */
  function UpStep(sel: Selection, n: nat): Step {
    match sel
    case NaN => Select(NaN)
    case Index(i) => if i == 0 then ToPreviousSection else Select(JsRem(i - 1 + n, n))
  }

  /** ArrowUp with an empty current section moves to the previous section
      instead of computing `% 0`. */
  function UpStepGuarded(sel: Selection, n: nat): Step {
    if n == 0 then ToPreviousSection else UpStep(sel, n)
  }

  /** ArrowDown inside a section moves one item down; past the last item
      it leaves the section. */
  lemma DownStepMoves(i: int, n: nat)
    requires -1 <= i
    ensures i + 1 >= n ==> DownStep(Index(i), n) == ToNextSection
    ensures i + 1 < n ==> DownStep(Index(i), n) == Select(Index(i + 1))
  {
  }

  /** ArrowUp at the first item leaves the section, from a later item it
      moves one up, and from no selection it wraps to the next-to-last item
      (the last one only when there is a single item). */
  lemma UpStepMoves(i: int, n: nat)
    requires -1 <= i && n > 0
    ensures i == 0 ==> UpStep(Index(i), n) == ToPreviousSection
    ensures 0 < i <= n ==> UpStep(Index(i), n) == Select(Index(i - 1))
    ensures i == -1 ==> UpStep(Index(i), n) == Select(Index(if n == 1 then 0 else n - 2))
  {
    if 0 < i <= n {
      ModAfterOneTurn(i - 1 + n, n);
    } else if i == -1 && n == 1 {
      assert JsRem(-1, 1) == Index(0);
    } else if i == -1 {
      ModBelow(n - 2, n);
    }
  }

  lemma ModAfterOneTurn(a: int, n: nat)
    requires n <= a < 2 * n
    ensures a % n == a - n
  {
    assert a == (a - n) + 1 * n;
  }

  lemma ModBelow(a: int, n: nat)
    requires 0 <= a < n
    ensures a % n == a
  {
  }

  /** ArrowUp with nothing selected in an empty section yields NaN, and no
      arrow key ever leaves NaN again. */
  lemma NaNIsAbsorbing(n: nat)
    ensures UpStep(Index(-1), 0) == Select(NaN)
    ensures DownStep(NaN, n) == Select(NaN) && UpStep(NaN, n) == Select(NaN)
  {
  }

  /** The guarded ArrowUp never produces NaN from a selection, and what it
      selects lies inside the section. */
  lemma UpStepGuardedInRange(i: int, n: nat)
    requires -1 <= i
    ensures UpStepGuarded(Index(i), n).Select? ==>
      UpStepGuarded(Index(i), n).sel.Index? && 0 <= UpStepGuarded(Index(i), n).sel.i < n
  {
  }

  /** The guard changes ArrowUp only in an empty section, which it leaves
      for the previous one. */
  lemma UpStepGuardedAgrees(sel: Selection, n: nat)
    ensures n > 0 ==> UpStepGuarded(sel, n) == UpStep(sel, n)
    ensures n == 0 ==> UpStepGuarded(sel, n) == ToPreviousSection
  {
  }

  /** ArrowDown never produces NaN from a selection either. */
  lemma DownStepInRange(i: int, n: nat)
    requires -1 <= i
    ensures DownStep(Index(i), n).Select? ==>
      DownStep(Index(i), n).sel.Index? && 0 <= DownStep(Index(i), n).sel.i < n
  {
  }

  /** With nothing selected and no items, ArrowDown asks for the next
      section; when every section is empty the search in `moveToNextSection`
      (and likewise in `moveToPreviousSection`) never finds one, so the
      source's loop does not end. */
  lemma EmptyListSearchesForever(sections: seq<nat>, current: nat)
    requires |sections| > 0 && !HasNonEmpty(sections) && current < |sections|
    ensures DownStep(Index(-1), sections[current]) == ToNextSection
    ensures sections[NextIndex(current, |sections|)] == 0
    ensures sections[PreviousIndex(current, |sections|)] == 0
  {
    NextIndexBounds(current, |sections|);
    PreviousIndexBounds(current, |sections|);
  }

  predicate HasNonEmpty(sections: seq<nat>) {
    exists k :: 0 <= k < |sections| && sections[k] > 0
  }

  /** `(c + 1) % n`. */
  function NextIndex(c: nat, n: nat): nat
    requires n > 0
  {
    (c + 1) % n
  }

  /** `(c - 1 + n) % n`. */
  function PreviousIndex(c: nat, n: nat): int
    requires n > 0
  {
    (c - 1 + n) % n
  }

  lemma NextIndexBounds(c: nat, n: nat)
    requires c < n
    ensures NextIndex(c, n) == if c + 1 == n then 0 else c + 1
  {
    if c + 1 == n {
      assert c + 1 == 0 + 1 * n;
    }
  }

  lemma PreviousIndexBounds(c: nat, n: nat)
    requires c < n
    ensures PreviousIndex(c, n) == if c == 0 then n - 1 else c - 1
  {
    if c > 0 {
      assert c - 1 + n == (c - 1) + 1 * n;
    }
  }

  /** How many forward steps lead from `from` to `to` on a ring of `n`
      sections: between 1 and `n`, and `n` to come back to `from`. */
  function Ahead(from: int, to: int, n: int): int {
    if to > from then to - from else to - from + n
  }

  /** How many backward steps lead from `from` to `to`, likewise. */
  function Behind(from: int, to: int, n: int): int {
    if to < from then from - to else from - to + n
  }

  /** `removeAll`ing twice removes nothing more. */
  lemma {:induction false} RemoveAllIdempotent(s: string, c: char)
    ensures RemoveAll(RemoveAll(s, c), c) == RemoveAll(s, c)
  {
    if s != [] {
      RemoveAllIdempotent(s[1..], c);
      if s[0] == c {
        assert RemoveAll(s, c) == RemoveAll(s[1..], c);
      } else {
        assert RemoveAll(s, c) == [s[0]] + RemoveAll(s[1..], c);
        assert RemoveAll(s, c)[1..] == RemoveAll(s[1..], c);
      }
    }
  }

  /** The query shorn of a leading `daydream://`, `daydream:/` or
      `daydream:`, the longest alternative first as the regular expression
      tries them. */
  function StripDaydream(q: string): string {
    if StartsWith(q, "daydream://") then q[11..]
    else if StartsWith(q, "daydream:/") then q[10..]
    else if StartsWith(q, "daydream:") then q[9..]
    else q
  }

  lemma StripDaydreamCases(q: string)
    ensures !StartsWith(q, "daydream:") ==> StripDaydream(q) == q
    ensures StartsWith(q, "daydream:") ==> |StripDaydream(q)| < |q| && EndsWith(q, StripDaydream(q))
  {
    if StartsWith(q, "daydream://") {
      StartsWithLonger(q, "daydream:", "//");
    } else if StartsWith(q, "daydream:/") {
      StartsWithLonger(q, "daydream:", "/");
    }
  }

  /** An internal address typed in full loses exactly its scheme. */
  lemma StripDaydreamScheme(p: string)
    ensures StripDaydream("daydream://" + p) == p
  {
    assert ("daydream://" + p)[..11] == "daydream://";
  }

  const SettingsPaths: seq<string> := ["settings", "settings/about", "settings/profile",
    "settings/privacy", "settings/security", "settings/notifications"]

  /** `generatePredictedSettingsUrls`. */
  function PredictedSettingsUrls(query: string): (urls: seq<string>)
    ensures |urls| == |SettingsPaths|
  {
    var q := RemoveAll(query, ' ');
    seq(|SettingsPaths|, k requires 0 <= k < |SettingsPaths| => SettingsPaths[k] + (if q != "" then "/" + q else ""))
  }

  /** One URL per settings page, in order; a query without spaces becomes
      a sub-path, and an empty (or all-space) query adds nothing. */
  lemma PredictedSettingsShape(query: string, k: nat)
    requires k < |SettingsPaths|
    ensures StartsWith(PredictedSettingsUrls(query)[k], SettingsPaths[k])
    ensures RemoveAll(query, ' ') == "" ==> PredictedSettingsUrls(query)[k] == SettingsPaths[k]
    ensures RemoveAll(query, ' ') != "" ==>
      PredictedSettingsUrls(query)[k][|SettingsPaths[k]|..] == "/" + RemoveAll(query, ' ')
    ensures ' ' !in PredictedSettingsUrls(query)[k]
  {
    var q := RemoveAll(query, ' ');
    var u := PredictedSettingsUrls(query)[k];
    assert u == SettingsPaths[k] + (if q != "" then "/" + q else "");
    assert u[..|SettingsPaths[k]|] == SettingsPaths[k];
    assert ' ' !in SettingsPaths[k];
  }

  /** Spaces in the query never matter. */
  lemma PredictedSettingsIgnoresSpaces(query: string)
    ensures PredictedSettingsUrls(RemoveAll(query, ' ')) == PredictedSettingsUrls(query)
  {
    RemoveAllIdempotent(query, ' ');
  }

  const MaxInitialResults: nat := 4
  const MaxExpandedResults: nat := 8
  const MaxGames: nat := 10

  /** `slice(0, k)`. */
  function Take<T>(s: seq<T>, k: nat): (r: seq<T>)
    ensures |r| == if |s| < k then |s| else k
    ensures r == s[..|r|]
  {
    if |s| <= k then s else s[..k]
  }

  /** The suggestions shown under "Search Results". */
  function SearchResultsShown(suggestions: seq<string>): (r: seq<string>)
    ensures |r| <= MaxExpandedResults && |r| <= |suggestions| && r == suggestions[..|r|]
    ensures |suggestions| <= MaxExpandedResults ==> r == suggestions
  {
    Take(suggestions, MaxExpandedResults)
  }

  /** An entry of the games catalogue. */
  datatype Game = Game(name: string, image: string, link: string)

  predicate GameMatches(g: Game, query: string) {
    Contains(Lower(g.name), Lower(query))
  }

  /** Every game of `r` is one of `games` and matches `query`. */
  predicate AllFrom(r: seq<Game>, games: seq<Game>, query: string) {
    forall k :: 0 <= k < |r| ==> r[k] in games && GameMatches(r[k], query)
  }

  /** `filter` on the case-insensitive name match. */
  function MatchingGames(games: seq<Game>, query: string): (r: seq<Game>)
    ensures |r| <= |games|
    ensures AllFrom(r, games, query)
  {
    if games == [] then []
    else if GameMatches(games[0], query) then [games[0]] + MatchingGames(games[1..], query)
    else MatchingGames(games[1..], query)
  }

  /** The filter keeps the catalogue's order: filtering two runs of games
      one after the other is filtering their concatenation. */
  lemma {:induction false} MatchingGamesAppend(a: seq<Game>, b: seq<Game>, query: string)
    ensures MatchingGames(a + b, query) == MatchingGames(a, query) + MatchingGames(b, query)
  {
    if a == [] {
      assert a + b == b;
    } else {
      var ab := a + b;
      assert ab[0] == a[0];
      assert ab[1..] == a[1..] + b;
      var rest := MatchingGames(a[1..] + b, query);
      MatchingGamesAppend(a[1..], b, query);
      if GameMatches(a[0], query) {
        calc {
          MatchingGames(ab, query);
          [a[0]] + rest;
          [a[0]] + (MatchingGames(a[1..], query) + MatchingGames(b, query));
          ([a[0]] + MatchingGames(a[1..], query)) + MatchingGames(b, query);
          MatchingGames(a, query) + MatchingGames(b, query);
        }
      } else {
        calc {
          MatchingGames(ab, query);
          rest;
          MatchingGames(a[1..], query) + MatchingGames(b, query);
          MatchingGames(a, query) + MatchingGames(b, query);
        }
      }
    }
  }

  /** Every matching game survives the filter. */
  lemma {:induction false} MatchingGamesComplete(games: seq<Game>, query: string, g: Game)
    requires g in games && GameMatches(g, query)
    ensures g in MatchingGames(games, query)
  {
    if games[0] != g {
      MatchingGamesComplete(games[1..], query, g);
    }
  }

  /** The games shown: the first ten matches. */
  function GamesShown(games: seq<Game>, query: string): (r: seq<Game>)
    ensures |r| <= MaxGames
    ensures forall k :: 0 <= k < |r| ==> r[k] in games && GameMatches(r[k], query)
    ensures |r| <= |MatchingGames(games, query)| && r == MatchingGames(games, query)[..|r|]
  {
    Take(MatchingGames(games, query), MaxGames)
  }

  /** The suggestion box's selection state over its four sections
      (search results, other pages, settings, games). */
  class Search {
    var sections: seq<nat>
    var current: int
    var selected: Selection

    ghost predicate Valid()
      reads this
    {
      |sections| > 0 && 0 <= current < |sections| && selected.Index? && selected.i >= -1
    }

    /** The constructor together with `init`'s four empty sections. */
    constructor ()
      ensures Valid() && sections == [0, 0, 0, 0] && current == 0 && selected == Index(-1)
    {
      sections := [0, 0, 0, 0];
      current := 0;
      selected := Index(-1);
    }

    /** The sections are refilled; the selection is not reset. */
    method Populate(counts: seq<nat>)
      requires Valid() && |counts| == |sections|
      modifies this
      ensures Valid() && sections == counts && current == old(current) && selected == old(selected)
    {
      sections := counts;
    }

    /** `moveToNextSection`: the first section after the current one, going
        round, that has items; nothing is selected in it. */
    method MoveToNextSection()
      requires Valid() && HasNonEmpty(sections)
      modifies this
      ensures Valid() && sections == old(sections) && selected == Index(-1)
      ensures sections[current] > 0
      ensures forall k :: 0 <= k < |sections| && Ahead(old(current), k, |sections|) < Ahead(old(current), current, |sections|)
                ==> sections[k] == 0
    {
      var n := |sections|;
      ghost var start := current;
      ghost var target :| 0 <= target < n && sections[target] > 0;
      NextIndexBounds(current, n);
      current := (current + 1) % n;
      while sections[current] == 0
        invariant n == |sections| && sections == old(sections) && selected == old(selected)
        invariant 0 <= current < n
        invariant Ahead(start, current, n) <= Ahead(start, target, n)
        invariant forall k :: 0 <= k < n && Ahead(start, k, n) < Ahead(start, current, n) ==> sections[k] == 0
        decreases Ahead(start, target, n) - Ahead(start, current, n)
      {
        NextIndexBounds(current, n);
        current := (current + 1) % n;
      }
      selected := Index(-1);
    }

    /** `moveToPreviousSection`: the first section before the current one,
        going round, that has items; its last item is selected. */
    method MoveToPreviousSection()
      requires Valid() && HasNonEmpty(sections)
      modifies this
      ensures Valid() && sections == old(sections)
      ensures sections[current] > 0 && selected == Index(sections[current] - 1)
      ensures forall k :: 0 <= k < |sections| && Behind(old(current), k, |sections|) < Behind(old(current), current, |sections|)
                ==> sections[k] == 0
    {
      var n := |sections|;
      ghost var start := current;
      ghost var target :| 0 <= target < n && sections[target] > 0;
      PreviousIndexBounds(current, n);
      current := (current - 1 + n) % n;
      while sections[current] == 0
        invariant n == |sections| && sections == old(sections) && selected == old(selected)
        invariant 0 <= current < n
        invariant Behind(start, current, n) <= Behind(start, target, n)
        invariant forall k :: 0 <= k < n && Behind(start, k, n) < Behind(start, current, n) ==> sections[k] == 0
        decreases Behind(start, target, n) - Behind(start, current, n)
      {
        PreviousIndexBounds(current, n);
        current := (current - 1 + n) % n;
      }
      selected := Index(sections[current] - 1);
    }

    /** ArrowDown; with no items anywhere the selection stays as it is
        rather than searching for a section forever. */
    method ArrowDown()
      requires Valid()
      modifies this
      ensures Valid() && sections == old(sections)
      ensures DownStep(old(selected), old(sections[current])).Select? ==>
        current == old(current) && selected == DownStep(old(selected), old(sections[current])).sel
      ensures DownStep(old(selected), old(sections[current])) == ToNextSection && HasNonEmpty(sections) ==>
        sections[current] > 0 && selected == Index(0)
        && forall k :: 0 <= k < |sections| && Ahead(old(current), k, |sections|) < Ahead(old(current), current, |sections|)
             ==> sections[k] == 0
      ensures DownStep(old(selected), old(sections[current])) == ToNextSection && !HasNonEmpty(sections) ==>
        current == old(current) && selected == old(selected)
    {
      DownStepInRange(selected.i, sections[current]);
      var step := DownStep(selected, sections[current]);
      if step.Select? {
        selected := step.sel;
      } else if HasNonEmpty(sections) {
        MoveToNextSection();
        selected := Index(0);
      }
    }

    /** ArrowUp, guarded like ArrowDown and against an empty section. */
    method ArrowUp()
      requires Valid()
      modifies this
      ensures Valid() && sections == old(sections)
      ensures UpStepGuarded(old(selected), old(sections[current])).Select? ==>
        current == old(current) && selected == UpStepGuarded(old(selected), old(sections[current])).sel
      ensures UpStepGuarded(old(selected), old(sections[current])) == ToPreviousSection && HasNonEmpty(sections) ==>
        sections[current] > 0 && selected == Index(sections[current] - 1)
        && forall k :: 0 <= k < |sections| && Behind(old(current), k, |sections|) < Behind(old(current), current, |sections|)
             ==> sections[k] == 0
      ensures UpStepGuarded(old(selected), old(sections[current])) == ToPreviousSection && !HasNonEmpty(sections) ==>
        current == old(current) && selected == old(selected)
    {
      UpStepGuardedInRange(selected.i, sections[current]);
      var step := UpStepGuarded(selected, sections[current]);
      if step.Select? {
        selected := step.sel;
      } else if HasNonEmpty(sections) {
        MoveToPreviousSection();
      }
    }
  }
}
