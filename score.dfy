/**
 * The exact parts of `calculateScore` (miner/miner.js:187-217): the floors
 * and caps that keep both divisors of the formula positive, the
 * contribution term and the language multiplier. The logarithms, the square
 * root and the final rounding are floating point; the model hands the exact
 * terms to a combining function instead (see `Miner.External`).
 */
module Score {
  import opened Types

  /** `1000 * 60 * 60 * 24 * 30.44`: milliseconds in an average month. */
  const MsPerAverageMonth: int := 2630016000

  /** `Math.max(1, repo.stargazerCount)`: the star count the visibility factor divides by. */
  function StarsUsed(stargazerCount: int): (r: int)
    ensures r >= 1 && r >= stargazerCount
    ensures r == stargazerCount || r == 1
  {
    if stargazerCount > 1 then stargazerCount else 1
  }

  /** Age in average months, `(now - createdAt) / (ms per 30.44 days)`, before any clamp. */
  function RawAgeMonths(now: int, createdAt: int): real
  {
    (now - createdAt) as real / MsPerAverageMonth as real
  }

  /** `Math.max(6, rawAge)` followed by `Math.min(age, 60)`: the age the maturity factor uses. */
  function MaturityMonths(now: int, createdAt: int): (r: real)
    ensures 6.0 <= r <= 60.0
    ensures 6.0 <= RawAgeMonths(now, createdAt) <= 60.0 ==> r == RawAgeMonths(now, createdAt)
    ensures RawAgeMonths(now, createdAt) < 6.0 ==> r == 6.0
    ensures RawAgeMonths(now, createdAt) > 60.0 ==> r == 60.0
  {
    var raw := RawAgeMonths(now, createdAt);
    var floored := if raw > 6.0 then raw else 6.0;
    if floored < 60.0 then floored else 60.0
  }

  /** `labeledIssuesCount * 2 + (hasGoodFirstIssues ? 50 : 0)`. */
  function Contribution(labeledIssuesCount: nat, hasGoodFirstIssues: bool): nat
  {
    labeledIssuesCount * 2 + (if hasGoodFirstIssues then 50 else 0)
  }

  /** Each labelled issue adds 2 and an open good-first issue adds 50, whatever the other count is. */
  lemma ContributionIncrements(labeledIssuesCount: nat, hasGoodFirstIssues: bool)
    ensures Contribution(labeledIssuesCount, true) == Contribution(labeledIssuesCount, false) + 50
    ensures Contribution(labeledIssuesCount + 1, hasGoodFirstIssues) == Contribution(labeledIssuesCount, hasGoodFirstIssues) + 2
    ensures Contribution(0, false) == 0
  {
  }

  /** `repo.primaryLanguage ? repo.primaryLanguage.name : "Plain Text"`. */
  function LanguageName(primaryLanguage: Option<string>): string
  {
    if primaryLanguage.Some? then primaryLanguage.value else "Plain Text"
  }

  predicate IsMarkup(lang: string)
  {
    lang == "Plain Text" || lang == "HTML" || lang == "CSS"
  }

  /**
   * The language multiplier: 1.2 for a target language, then overwritten by
   * 0.5 for "Plain Text", "HTML" or "CSS"; 1.0 otherwise.
   */
  function LanguageMultiplier(lang: string, targetLanguages: seq<string>): (r: real)
    ensures IsMarkup(lang) ==> r == 0.5
    ensures !IsMarkup(lang) && lang in targetLanguages ==> r == 1.2
    ensures !IsMarkup(lang) && lang !in targetLanguages ==> r == 1.0
  {
    var boosted := if lang in targetLanguages then 1.2 else 1.0;
    if IsMarkup(lang) then 0.5 else boosted
  }

  /**
   * The multiplier is always one of the three factors; a repository with no
   * primary language reads as "Plain Text" and gets 0.5, and a target
   * language such as "Rust" outweighs "Plain Text".
   */
  lemma MultiplierExamples(lang: string)
    ensures LanguageMultiplier(lang, TargetLanguages) in {0.5, 1.0, 1.2}
    ensures LanguageMultiplier(LanguageName(None), TargetLanguages) == 0.5
    ensures LanguageMultiplier("Rust", TargetLanguages) > LanguageMultiplier("Plain Text", TargetLanguages)
  {
    assert "Rust" in TargetLanguages;
  }

  /** The exact inputs of the score formula, as `calculateScore` derives them. */
  datatype ScoreTerms = ScoreTerms(
    recentCommits: nat,
    mergedPrsCount: nat,
    contribution: nat,
    stars: int,
    maturityMonths: real,
    langMultiplier: real)

  /** Both divisors of the formula are positive: `log10(stars + 1) > 0` and `sqrt(age) > 0`. */
  predicate DivisorsPositive(t: ScoreTerms)
  {
    t.stars + 1 >= 2 && t.maturityMonths >= 6.0 && t.langMultiplier > 0.0
  }

  /** The terms of `calculateScore(repo, recentCommits, mergedPrsCount, labeledIssuesCount, hasGoodFirstIssues)`. */
  function Terms(repo: Repository, now: int, recentCommits: nat, mergedPrsCount: nat,
                 labeledIssuesCount: nat, hasGoodFirstIssues: bool, targetLanguages: seq<string>): (t: ScoreTerms)
    ensures DivisorsPositive(t)
    ensures 1 <= t.stars && repo.stargazerCount <= t.stars
    ensures t.maturityMonths <= 60.0
    ensures t.recentCommits == recentCommits && t.mergedPrsCount == mergedPrsCount
  {
    ScoreTerms(
      recentCommits,
      mergedPrsCount,
      Contribution(labeledIssuesCount, hasGoodFirstIssues),
      StarsUsed(repo.stargazerCount),
      MaturityMonths(now, repo.createdAt),
      LanguageMultiplier(LanguageName(repo.primaryLanguage), targetLanguages))
  }

  /**
   * No star and no age still give positive divisors: a repository created
   * right now with zero stars is scored with one star and six months.
   */
  lemma DegenerateInputsClamped(repo: Repository, now: int, targetLanguages: seq<string>)
    requires repo.stargazerCount == 0 && repo.createdAt == now
    ensures Terms(repo, now, 0, 0, 0, false, targetLanguages).stars == 1
    ensures Terms(repo, now, 0, 0, 0, false, targetLanguages).maturityMonths == 6.0
  {
  }
}
