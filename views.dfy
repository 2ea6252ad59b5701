/**
 * The view computations the two gem pages share (src/components/Explorer.tsx
 * and src/app/page.tsx): the filter callback, the sort comparator, and the
 * language list. The pages differ only in their hype-word list and in the
 * sort options they offer; those are parameters here.
 */
module Views {
  import opened Types
  import opened Text
  import opened Classifier
  import opened Sorting

  /** The search test of a non-empty query, already lower-cased. */
  predicate MatchesQuery(g: ScoredGem, query: string)
  {
    Contains(Lower(g.name), query) || Contains(Lower(DescriptionText(g.description)), query) ||
    Contains(Lower(g.language), query)
  }

  /** The view state the filter reads. */
  datatype FilterState = FilterState(noHype: bool, selectedLanguage: string, searchQuery: string)

  /** The callback of `.filter(gem => …)`. */
  predicate Keep(g: ScoredGem, hypeWords: seq<string>, state: FilterState)
  {
    if state.noHype && IsHype(g.name, g.description, hypeWords) then false
    else if state.selectedLanguage != "All" && g.language != state.selectedLanguage then false
    else if state.searchQuery != "" then MatchesQuery(g, Lower(state.searchQuery))
    else true
  }

  /** `gems.filter(…)`: a fresh array of the kept gems, in order. */
  function FilterGems(gems: seq<ScoredGem>, hypeWords: seq<string>, state: FilterState): (r: seq<ScoredGem>)
    ensures |r| <= |gems|
    ensures forall g :: g in r <==> g in gems && Keep(g, hypeWords, state)
  {
    if gems == [] then []
    else (if Keep(gems[0], hypeWords, state) then [gems[0]] else []) + FilterGems(gems[1..], hypeWords, state)
  }

  /** Filtering only leaves gems out: the result is a subsequence of the input. */
  lemma {:induction false} FilterSubsequence(gems: seq<ScoredGem>, hypeWords: seq<string>, state: FilterState)
    ensures SubsequenceOf(FilterGems(gems, hypeWords, state), gems)
  {
    if gems != [] {
      var r := FilterGems(gems, hypeWords, state);
      FilterSubsequence(gems[1..], hypeWords, state);
      if Keep(gems[0], hypeWords, state) {
        assert r[0] == gems[0] && r[1..] == FilterGems(gems[1..], hypeWords, state);
      } else {
        assert r == FilterGems(gems[1..], hypeWords, state);
      }
    }
  }

  /**
   * What each filter promises: with no-hype on nothing mentions a hype
   * word, with a language selected everything has that language, and a
   * non-empty query keeps exactly the gems whose name, description or
   * language contains it, ignoring case.
   */
  lemma FilterCharacterized(gems: seq<ScoredGem>, hypeWords: seq<string>, state: FilterState, g: ScoredGem)
    ensures g in FilterGems(gems, hypeWords, state) <==>
      && g in gems
      && !(state.noHype &&
           exists w :: w in hypeWords && (Contains(Lower(g.name), w) || Contains(Lower(DescriptionText(g.description)), w)))
      && (state.selectedLanguage == "All" || g.language == state.selectedLanguage)
      && (state.searchQuery == "" || MatchesQuery(g, Lower(state.searchQuery)))
  {
    HypeCharacterized(g.name, g.description, hypeWords);
  }

  /**
   * A longer hype-word list hides more: whatever the filter keeps with
   * `more` words it also keeps with `fewer` of them.
   */
  lemma MoreHypeWordsHideMore(gems: seq<ScoredGem>, fewer: seq<string>, more: seq<string>, state: FilterState)
    requires forall w :: w in fewer ==> w in more
    ensures forall g :: g in FilterGems(gems, more, state) ==> g in FilterGems(gems, fewer, state)
  {
    forall g | g in FilterGems(gems, more, state) ensures g in FilterGems(gems, fewer, state) {
      HypeCharacterized(g.name, g.description, fewer);
      HypeCharacterized(g.name, g.description, more);
    }
  }

  /** With every filter off the filter is the identity: an empty query excludes nothing. */
  lemma {:induction false} FilterOffIsIdentity(gems: seq<ScoredGem>, hypeWords: seq<string>, state: FilterState)
    requires !state.noHype && state.selectedLanguage == "All" && state.searchQuery == ""
    ensures FilterGems(gems, hypeWords, state) == gems
  {
    if gems != [] {
      FilterOffIsIdentity(gems[1..], hypeWords, state);
      assert [gems[0]] + gems[1..] == gems;
    }
  }

  /** The sort options; the comparator of each is a key sorted in descending order. */
  datatype SortOption = Score | Recent | Stars | Saved

  function ScoreKey(g: ScoredGem): real { g.gemScore }

  function RecentKey(g: ScoredGem): real { g.pushedAt as real }

  /** `a.stars - b.stars` sorts ascending: descending on the negated count. */
  function StarsKey(g: ScoredGem): real { -(g.stars as real) }

  /** `return 0`: every pair compares equal. */
  function SavedKey(g: ScoredGem): real { 0.0 }

  function KeyOf(sortBy: SortOption): ScoredGem -> real
  {
    match sortBy
    case Score => ScoreKey
    case Recent => RecentKey
    case Stars => StarsKey
    case Saved => SavedKey
  }

  /** `.sort((a, b) => …)`: the stable sort with the comparator of the option. */
  function SortGems(gems: seq<ScoredGem>, sortBy: SortOption): (r: seq<ScoredGem>)
    ensures |r| == |gems| && multiset(r) == multiset(gems)
  {
    SortDescPermutes(gems, KeyOf(sortBy));
    SortDesc(gems, KeyOf(sortBy))
  }

  /**
   * What each option promises: scores and push times never increase, star
   * counts never decrease, and "saved" keeps the filtered order.
   */
  lemma SortGemsOrders(gems: seq<ScoredGem>, sortBy: SortOption)
    ensures sortBy == Score ==> forall i, j :: 0 <= i < j < |gems| ==>
      SortGems(gems, sortBy)[i].gemScore >= SortGems(gems, sortBy)[j].gemScore
    ensures sortBy == Recent ==> forall i, j :: 0 <= i < j < |gems| ==>
      SortGems(gems, sortBy)[i].pushedAt >= SortGems(gems, sortBy)[j].pushedAt
    ensures sortBy == Stars ==> forall i, j :: 0 <= i < j < |gems| ==>
      SortGems(gems, sortBy)[i].stars <= SortGems(gems, sortBy)[j].stars
    ensures sortBy == Saved ==> SortGems(gems, sortBy) == gems
  {
    var r := SortGems(gems, sortBy);
    SortDescSorted(gems, KeyOf(sortBy));
    if sortBy == Score {
      forall i, j | 0 <= i < j < |gems| ensures r[i].gemScore >= r[j].gemScore {
        assert ScoreKey(r[i]) >= ScoreKey(r[j]);
      }
    } else if sortBy == Recent {
      forall i, j | 0 <= i < j < |gems| ensures r[i].pushedAt >= r[j].pushedAt {
        assert RecentKey(r[i]) >= RecentKey(r[j]);
      }
    } else if sortBy == Stars {
      forall i, j | 0 <= i < j < |gems| ensures r[i].stars <= r[j].stars {
        assert StarsKey(r[i]) >= StarsKey(r[j]);
      }
    } else {
      SortDescConstantKey(gems, SavedKey, 0.0);
    }
  }

  /** `gems.filter(…).sort(…)`: the list a page renders. */
  function View(gems: seq<ScoredGem>, hypeWords: seq<string>, state: FilterState, sortBy: SortOption)
    : (r: seq<ScoredGem>)
    ensures |r| <= |gems|
    ensures forall g :: g in r <==> g in gems && Keep(g, hypeWords, state)
  {
    var kept := FilterGems(gems, hypeWords, state);
    var r := SortGems(kept, sortBy);
    assert forall g :: g in r <==> g in multiset(kept);
    r
  }

  /**
   * With every filter off the view is a permutation of the input gems, and
   * the filtered-then-sorted view holds only input gems.
   */
  lemma ViewIsPermutationWhenUnfiltered(gems: seq<ScoredGem>, hypeWords: seq<string>, state: FilterState,
                                        sortBy: SortOption)
    requires !state.noHype && state.selectedLanguage == "All" && state.searchQuery == ""
    ensures multiset(View(gems, hypeWords, state, sortBy)) == multiset(gems)
  {
    FilterOffIsIdentity(gems, hypeWords, state);
  }

  // ----- the language list -----

  /** Lexicographic order on characters, the default order of `Array.prototype.sort` for text without characters above U+FFFF. */
  predicate StrLe(a: string, b: string)
  {
    a == [] || (b != [] && (a[0] < b[0] || (a[0] == b[0] && StrLe(a[1..], b[1..]))))
  }

  lemma {:induction false} StrLeTotal(a: string, b: string)
    ensures StrLe(a, b) || StrLe(b, a)
  {
    if a != [] && b != [] && a[0] == b[0] {
      StrLeTotal(a[1..], b[1..]);
    }
  }

  lemma {:induction false} StrLeTransitive(a: string, b: string, c: string)
    requires StrLe(a, b) && StrLe(b, c)
    ensures StrLe(a, c)
  {
    if a != [] && b != [] && c != [] && a[0] == b[0] && b[0] == c[0] {
      StrLeTransitive(a[1..], b[1..], c[1..]);
    }
  }

  ghost predicate SortedStrings(s: seq<string>)
  {
    forall i, j :: 0 <= i < j < |s| ==> StrLe(s[i], s[j])
  }

  function InsertString(s: seq<string>, x: string): (r: seq<string>)
    ensures |r| == |s| + 1
    ensures multiset(r) == multiset(s) + multiset{x}
  {
    if s == [] then [x]
    else if StrLe(x, s[0]) then [x] + s
    else
      assert s == [s[0]] + s[1..];
      [s[0]] + InsertString(s[1..], x)
  }

  /** `.sort()` with no comparator. */
  function SortStrings(s: seq<string>): (r: seq<string>)
    ensures |r| == |s| && multiset(r) == multiset(s)
  {
    if s == [] then []
    else
      assert s == s[..|s| - 1] + [s[|s| - 1]];
      InsertString(SortStrings(s[..|s| - 1]), s[|s| - 1])
  }

  lemma {:induction false} InsertStringSorted(s: seq<string>, x: string)
    requires SortedStrings(s)
    ensures SortedStrings(InsertString(s, x))
  {
    var r := InsertString(s, x);
    if s == [] {
    } else if StrLe(x, s[0]) {
      forall j | 0 < j < |r| ensures StrLe(x, r[j]) {
        if j > 1 {
          StrLeTransitive(x, s[0], s[j - 1]);
        }
      }
    } else {
      StrLeTotal(x, s[0]);
      InsertStringSorted(s[1..], x);
      var t := InsertString(s[1..], x);
      assert r == [s[0]] + t;
      forall j | 0 < j < |r| ensures StrLe(r[0], r[j]) {
        assert r[j] in multiset(t);
        if r[j] != x {
          assert r[j] in multiset(s[1..]);
          var m :| 0 <= m < |s[1..]| && s[1..][m] == r[j];
          assert s[m + 1] == r[j];
        }
      }
    }
  }

  lemma {:induction false} SortStringsSorted(s: seq<string>)
    ensures SortedStrings(SortStrings(s))
  {
    if s != [] {
      SortStringsSorted(s[..|s| - 1]);
      InsertStringSorted(SortStrings(s[..|s| - 1]), s[|s| - 1]);
    }
  }

  /** `Array.from(new Set(xs))`: the distinct values in order of first occurrence. */
  function Distinct(xs: seq<string>): (r: seq<string>)
    ensures forall x :: x in r <==> x in xs
    ensures forall i, j :: 0 <= i < j < |r| ==> r[i] != r[j]
  {
    if xs == [] then []
    else
      var front := Distinct(xs[..|xs| - 1]);
      var last := xs[|xs| - 1];
      assert forall x :: x in xs <==> x in xs[..|xs| - 1] || x == last by {
        assert xs == xs[..|xs| - 1] + [last];
      }
      if last in front then front else front + [last]
  }

  /** `.filter(Boolean)` on strings: drops the empty ones. */
  function NonEmpty(xs: seq<string>): (r: seq<string>)
    ensures forall x :: x in r <==> x in xs && x != ""
  {
    if xs == [] then []
    else (if xs[0] == "" then [] else [xs[0]]) + NonEmpty(xs[1..])
  }

  /** Dropping the empty strings keeps distinct values distinct. */
  lemma {:induction false} NonEmptyDistinct(xs: seq<string>)
    requires forall i, j :: 0 <= i < j < |xs| ==> xs[i] != xs[j]
    ensures forall i, j :: 0 <= i < j < |NonEmpty(xs)| ==> NonEmpty(xs)[i] != NonEmpty(xs)[j]
  {
    if xs != [] {
      var rest := NonEmpty(xs[1..]);
      NonEmptyDistinct(xs[1..]);
      if xs[0] != "" {
        var r := NonEmpty(xs);
        assert r == [xs[0]] + rest;
        assert xs[0] !in xs[1..];
        forall i, j | 0 <= i < j < |r| ensures r[i] != r[j] {
          if i == 0 {
            assert r[j] == rest[j - 1];
          } else {
            assert r[i] == rest[i - 1] && r[j] == rest[j - 1];
          }
        }
      } else {
        assert NonEmpty(xs) == rest;
      }
    }
  }

  function LanguagesOf(gems: seq<ScoredGem>): (r: seq<string>)
    ensures forall x :: x in r <==> exists g :: g in gems && g.language == x
  {
    if gems == [] then [] else [gems[0].language] + LanguagesOf(gems[1..])
  }

  /** `["All", ...Array.from(new Set(gems.map(g => g.language))).filter(Boolean)].sort()`. */
  function Languages(gems: seq<ScoredGem>): seq<string>
  {
    SortStrings(["All"] + NonEmpty(Distinct(LanguagesOf(gems))))
  }

  /**
   * The language list is sorted, offers "All", and offers exactly "All"
   * and the non-empty languages of the gems.
   */
  lemma LanguagesCharacterized(gems: seq<ScoredGem>)
    ensures SortedStrings(Languages(gems))
    ensures "All" in Languages(gems)
    ensures forall x :: x in Languages(gems) <==> x == "All" || (x != "" && exists g :: g in gems && g.language == x)
  {
    var ne := NonEmpty(Distinct(LanguagesOf(gems)));
    var xs := ["All"] + ne;
    SortStringsSorted(xs);
    forall x ensures x in Languages(gems) <==> x == "All" || (x != "" && exists g :: g in gems && g.language == x) {
      calc {
        x in Languages(gems);
        x in multiset(Languages(gems));
        x in multiset(xs);
        x in xs;
        x == "All" || x in ne;
      }
    }
  }

  /** Each language is listed once, unless a gem's own language is "All". */
  lemma LanguagesDistinct(gems: seq<ScoredGem>)
    requires forall g :: g in gems ==> g.language != "All"
    ensures forall i, j :: 0 <= i < j < |Languages(gems)| ==> Languages(gems)[i] != Languages(gems)[j]
  {
    var ne := NonEmpty(Distinct(LanguagesOf(gems)));
    NonEmptyDistinct(Distinct(LanguagesOf(gems)));
    var xs := ["All"] + ne;
    assert forall i, j :: 0 <= i < j < |xs| ==> xs[i] != xs[j] by {
      forall i, j | 0 <= i < j < |xs| ensures xs[i] != xs[j] {
        if i == 0 {
          assert xs[j] in ne;
        } else {
          assert xs[i] == ne[i - 1] && xs[j] == ne[j - 1];
        }
      }
    }
    var r := Languages(gems);
    forall i, j | 0 <= i < j < |r| ensures r[i] != r[j] {
      if r[i] == r[j] {
        DistinctCount(xs, r[i]);
        assert multiset(r)[r[i]] >= 2 by {
          TwoOccurrences(r, i, j);
        }
      }
    }
  }

  lemma {:induction false} DistinctCount(xs: seq<string>, x: string)
    requires forall i, j :: 0 <= i < j < |xs| ==> xs[i] != xs[j]
    ensures multiset(xs)[x] <= 1
  {
    if xs != [] {
      var rest := xs[1..];
      assert xs == [xs[0]] + rest;
      DistinctCount(rest, x);
      if xs[0] == x {
        assert x !in rest;
      }
    }
  }

  lemma TwoOccurrences(s: seq<string>, i: nat, j: nat)
    requires i < j < |s| && s[i] == s[j]
    ensures multiset(s)[s[i]] >= 2
  {
    assert s == s[..j] + [s[j]] + s[j + 1..];
    assert s[i] in s[..j];
  }
}
