/**
 * The two repository classifiers of the miner: churn (dropped before
 * scoring) and hype (admitted under a quota). Both lower-case the name and
 * the description, read a missing description as "", and look for keywords
 * as substrings; the keyword lists are parameters.
 */
module Classifier {
  import opened Text
  import opened Types

  /** `(repo.description || "")`. */
  function DescriptionText(description: Option<string>): string
  {
    if description.Some? then description.value else ""
  }

  /** `/\d{4}-\d{2}-\d{2}/` matches at the start of `s`. */
  predicate DateAt(s: string)
  {
    |s| >= 10 &&
    IsDigit(s[0]) && IsDigit(s[1]) && IsDigit(s[2]) && IsDigit(s[3]) && s[4] == '-' &&
    IsDigit(s[5]) && IsDigit(s[6]) && s[7] == '-' && IsDigit(s[8]) && IsDigit(s[9])
  }

  /** `/\d{6,}/` matches at the start of `s`: six digits in a row. */
  predicate DigitRunAt(s: string)
  {
    |s| >= 6 &&
    IsDigit(s[0]) && IsDigit(s[1]) && IsDigit(s[2]) && IsDigit(s[3]) && IsDigit(s[4]) && IsDigit(s[5])
  }

  /** `s.match(/\d{4}-\d{2}-\d{2}/)` succeeds: some position starts a date. */
  predicate HasDatePattern(s: string)
  {
    DateAt(s) || (s != [] && HasDatePattern(s[1..]))
  }

  /** `s.match(/\d{6,}/)` succeeds: some position starts a run of six or more digits. */
  predicate HasDigitRun(s: string)
  {
    DigitRunAt(s) || (s != [] && HasDigitRun(s[1..]))
  }

  /** `isLikelyChurn` (miner/miner.js:150-165) with the keyword list as a parameter. */
  predicate IsLikelyChurn(name: string, description: Option<string>, churnKeywords: seq<string>)
  {
    var n := Lower(name);
    var d := Lower(DescriptionText(description));
    MentionsAny(churnKeywords, n, d) || HasDatePattern(n) || HasDigitRun(n)
  }

  /** `isHype` (miner/miner.js:172-176) with the keyword list as a parameter. */
  predicate IsHype(name: string, description: Option<string>, hypeKeywords: seq<string>)
  {
    MentionsAny(hypeKeywords, Lower(name), Lower(DescriptionText(description)))
  }

  /** The date scan finds exactly the positions where a date starts. */
  lemma {:induction false} DatePatternAt(s: string)
    ensures HasDatePattern(s) <==> exists i :: 0 <= i <= |s| && DateAt(s[i..])
  {
    assert s[0..] == s;
    if s != [] {
      DatePatternAt(s[1..]);
      if i :| 0 <= i <= |s[1..]| && DateAt(s[1..][i..]) {
        assert s[1..][i..] == s[i + 1..];
      }
      if i :| 0 <= i <= |s| && DateAt(s[i..]) {
        if i > 0 {
          assert s[1..][i - 1..] == s[i..];
        }
      }
    }
  }

  /** The digit-run scan finds exactly the positions where six digits in a row start. */
  lemma {:induction false} DigitRunAtSome(s: string)
    ensures HasDigitRun(s) <==> exists i :: 0 <= i <= |s| && DigitRunAt(s[i..])
  {
    assert s[0..] == s;
    if s != [] {
      DigitRunAtSome(s[1..]);
      if i :| 0 <= i <= |s[1..]| && DigitRunAt(s[1..][i..]) {
        assert s[1..][i..] == s[i + 1..];
      }
      if i :| 0 <= i <= |s| && DigitRunAt(s[i..]) {
        if i > 0 {
          assert s[1..][i - 1..] == s[i..];
        }
      }
    }
  }

  /**
   * A repository is churn exactly when a churn keyword occurs in its
   * lower-cased name or lower-cased description, or its lower-cased name
   * holds a `dddd-dd-dd` date or six digits in a row.
   */
  lemma ChurnCharacterized(name: string, description: Option<string>, churnKeywords: seq<string>)
    ensures var n, d := Lower(name), Lower(DescriptionText(description));
      IsLikelyChurn(name, description, churnKeywords) <==>
        (exists k :: k in churnKeywords && (Contains(n, k) || Contains(d, k))) ||
        (exists i :: 0 <= i <= |n| && DateAt(n[i..])) ||
        (exists i :: 0 <= i <= |n| && DigitRunAt(n[i..]))
  {
    var n, d := Lower(name), Lower(DescriptionText(description));
    assert IsLikelyChurn(name, description, churnKeywords) <==>
      MentionsAny(churnKeywords, n, d) || HasDatePattern(n) || HasDigitRun(n);
    MentionsAnyIff(churnKeywords, n, d);
    DatePatternAt(n);
    DigitRunAtSome(n);
    assert MentionsAny(churnKeywords, n, d) <==> (exists k :: k in churnKeywords && (Contains(n, k) || Contains(d, k)));
    assert HasDatePattern(n) <==> (exists i :: 0 <= i <= |n| && DateAt(n[i..]));
    assert HasDigitRun(n) <==> (exists i :: 0 <= i <= |n| && DigitRunAt(n[i..]));
  }

  /**
   * The date and digit-run patterns look at the name only: when no keyword
   * occurs in the description, the description cannot make a repository
   * churn, whatever digits it holds.
   */
  lemma DescriptionPatternsIgnored(name: string, description: string, churnKeywords: seq<string>)
    requires forall k :: k in churnKeywords ==> !Contains(Lower(description), k)
    ensures IsLikelyChurn(name, Some(description), churnKeywords) == IsLikelyChurn(name, None, churnKeywords)
  {
    MentionsAnyIff(churnKeywords, Lower(name), Lower(description));
    MentionsAnyIff(churnKeywords, Lower(name), Lower(""));
  }

  /** A repository is hype exactly when a hype keyword occurs in its lower-cased name or description. */
  lemma HypeCharacterized(name: string, description: Option<string>, hypeKeywords: seq<string>)
    ensures IsHype(name, description, hypeKeywords) <==>
      exists k :: k in hypeKeywords &&
        (Contains(Lower(name), k) || Contains(Lower(DescriptionText(description)), k))
  {
    MentionsAnyIff(hypeKeywords, Lower(name), Lower(DescriptionText(description)));
  }

  /** Case does not matter: names and descriptions that lower-case alike classify alike. */
  lemma ClassifiersIgnoreCase(name: string, description: string, keywords: seq<string>)
    ensures IsLikelyChurn(name, Some(description), keywords) == IsLikelyChurn(Lower(name), Some(Lower(description)), keywords)
    ensures IsHype(name, Some(description), keywords) == IsHype(Lower(name), Some(Lower(description)), keywords)
  {
    LowerIdempotent(name);
    LowerIdempotent(description);
  }

  lemma {:induction false} DatePatternWitness(s: string, i: nat)
    requires i <= |s| && DateAt(s[i..])
    ensures HasDatePattern(s)
  {
    if i > 0 {
      assert s[1..][i - 1..] == s[i..];
      DatePatternWitness(s[1..], i - 1);
    }
  }

  lemma {:induction false} DigitRunWitness(s: string, i: nat)
    requires i <= |s| && DigitRunAt(s[i..])
    ensures HasDigitRun(s)
  {
    if i > 0 {
      assert s[1..][i - 1..] == s[i..];
      DigitRunWitness(s[1..], i - 1);
    }
  }

  /** A date anywhere in the lower-cased name makes churn. */
  lemma DateInNameIsChurn(name: string, description: Option<string>, keywords: seq<string>, i: nat)
    requires i <= |Lower(name)| && DateAt(Lower(name)[i..])
    ensures IsLikelyChurn(name, description, keywords)
  {
    DatePatternWitness(Lower(name), i);
  }

  /** Six digits in a row anywhere in the lower-cased name make churn. */
  lemma DigitRunInNameIsChurn(name: string, description: Option<string>, keywords: seq<string>, i: nat)
    requires i <= |Lower(name)| && DigitRunAt(Lower(name)[i..])
    ensures IsLikelyChurn(name, description, keywords)
  {
    DigitRunWitness(Lower(name), i);
  }

  /** A dated snapshot name is churn: "update-2023-10-01". */
  lemma DatedNameExample(dated: string)
    requires dated == "update-2023-10-01"
    ensures IsLikelyChurn(dated, None, ChurnKeywords)
  {
    LowerOfLower(dated);
    assert DateAt(dated[7..]);
    DateInNameIsChurn(dated, None, ChurnKeywords, 7);
  }

  /** A long numeric run is churn: "build123456". */
  lemma NumberedNameExample(numbered: string)
    requires numbered == "build123456"
    ensures IsLikelyChurn(numbered, None, ChurnKeywords)
  {
    LowerOfLower(numbered);
    assert DigitRunAt(numbered[5..]);
    DigitRunInNameIsChurn(numbered, None, ChurnKeywords, 5);
  }

  /** Five digits are no pattern: "v12345" holds neither a date nor a six-digit run. */
  lemma ShortNumberExample(short: string)
    requires short == "v12345"
    ensures !HasDatePattern(Lower(short)) && !HasDigitRun(Lower(short))
  {
    LowerOfLower(short);
    DatePatternAt(short);
    DigitRunAtSome(short);
    forall i | 0 <= i <= |short| ensures !DigitRunAt(short[i..]) {
      if i == 0 {
        assert !IsDigit(short[0]);
      }
    }
  }

  /** A listed keyword occurring in the lower-cased name makes churn. */
  lemma KeywordInNameIsChurn(name: string, description: Option<string>, keywords: seq<string>, j: nat, i: nat)
    requires j < |keywords| && OccursAt(Lower(name), keywords[j], i)
    ensures IsLikelyChurn(name, description, keywords)
  {
    ContainsWitness(Lower(name), keywords[j], i);
    MentionsWitness(keywords, Lower(name), Lower(DescriptionText(description)), j);
  }

  /** A listed keyword occurring in the lower-cased name makes hype. */
  lemma KeywordInNameIsHype(name: string, description: Option<string>, keywords: seq<string>, j: nat, i: nat)
    requires j < |keywords| && OccursAt(Lower(name), keywords[j], i)
    ensures IsHype(name, description, keywords)
  {
    ContainsWitness(Lower(name), keywords[j], i);
    MentionsWitness(keywords, Lower(name), Lower(DescriptionText(description)), j);
  }

  /** A keyword anywhere in the name makes churn: "my-proxy-list" holds "proxy". */
  lemma ChurnKeywordExample(listed: string)
    requires listed == "my-proxy-list"
    ensures IsLikelyChurn(listed, None, ChurnKeywords)
  {
    LowerOfLower(listed);
    assert listed[3..8] == ChurnKeywords[2];
    KeywordInNameIsChurn(listed, None, ChurnKeywords, 2, 3);
  }

  /** A hype keyword at the start of the name: "ai-generator" is hype. */
  lemma HypeKeywordExample(generator: string)
    requires generator == "ai-generator"
    ensures IsHype(generator, Some(""), HypeKeywords)
  {
    LowerOfLower(generator);
    assert generator[0..2] == HypeKeywords[0];
    KeywordInNameIsHype(generator, Some(""), HypeKeywords, 0, 0);
  }

  /** Substring matching, not word matching: "maintainer" is hype through "ai". */
  lemma HypeSubstringExample(maintainer: string)
    requires maintainer == "maintainer"
    ensures IsHype(maintainer, None, HypeKeywords)
  {
    LowerOfLower(maintainer);
    assert maintainer[1..3] == HypeKeywords[0];
    KeywordInNameIsHype(maintainer, None, HypeKeywords, 0, 1);
  }
}
