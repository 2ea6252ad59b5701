/**
 * `getGems` end to end (miner/miner.js:326-483) on materialised inputs:
 * discovery merge, churn filter, per-repository scoring with failures
 * dropped, stable sort by score, diversity filter, and the written
 * document. The network lookups are inputs; the file write is the
 * returned document.
 */
module Miner {
  import opened Types
  import opened Classifier
  import opened Derivation
  import opened Discovery
  import opened Sorting
  import opened Ranking
  import opened Validate

  predicate Churn(repo: Repository, config: MiningConfig)
  {
    IsLikelyChurn(repo.name, repo.description, config.churnKeywords)
  }

  /** `.filter(repo => !isLikelyChurn(repo))`. */
  function NonChurn(repos: seq<Repository>, config: MiningConfig): (r: seq<Repository>)
    ensures |r| <= |repos|
    ensures forall x :: x in r <==> x in repos && !Churn(x, config)
  {
    if repos == [] then []
    else (if Churn(repos[0], config) then [] else [repos[0]]) + NonChurn(repos[1..], config)
  }

  /** The filter keeps the surviving repositories in discovery order. */
  lemma {:induction false} NonChurnInOrder(repos: seq<Repository>, config: MiningConfig)
    ensures SubsequenceOf(NonChurn(repos, config), repos)
  {
    if repos != [] {
      var r := NonChurn(repos, config);
      NonChurnInOrder(repos[1..], config);
      if Churn(repos[0], config) {
        assert r == NonChurn(repos[1..], config);
      } else {
        assert r[0] == repos[0] && r[1..] == NonChurn(repos[1..], config);
      }
    }
  }

  /**
   * `.map(async repo => { try { … } catch { return null } })` followed by
   * `.filter(Boolean)`: the records of the repositories whose step did not
   * throw, in order.
   */
  function ScoreAll(repos: seq<Repository>, clock: Clock, config: MiningConfig, ext: External): (r: seq<ScoredGem>)
    ensures |r| <= |repos|
  {
    if repos == [] then []
    else
      var head := ScoreRepo(repos[0], clock, config, ext);
      (if head.Some? then [head.value] else []) + ScoreAll(repos[1..], clock, config, ext)
  }

  /** Every record comes from a repository of the input whose step succeeded. */
  lemma {:induction false} ScoreAllFrom(repos: seq<Repository>, clock: Clock, config: MiningConfig, ext: External)
    ensures forall g :: g in ScoreAll(repos, clock, config, ext) ==>
      exists x :: x in repos && ScoreRepo(x, clock, config, ext) == Some(g)
  {
    if repos != [] {
      ScoreAllFrom(repos[1..], clock, config, ext);
      forall g | g in ScoreAll(repos, clock, config, ext)
        ensures exists x :: x in repos && ScoreRepo(x, clock, config, ext) == Some(g)
      {
        if g !in ScoreAll(repos[1..], clock, config, ext) {
          assert ScoreRepo(repos[0], clock, config, ext) == Some(g);
        } else {
          var x :| x in repos[1..] && ScoreRepo(x, clock, config, ext) == Some(g);
          assert x in repos;
        }
      }
    }
  }

  /**
   * Records come out in repository order: scoring two lists one after the
   * other gives the records of the first, then those of the second.
   */
  lemma {:induction false} ScoreAllAppend(a: seq<Repository>, b: seq<Repository>, clock: Clock,
                                         config: MiningConfig, ext: External)
    ensures ScoreAll(a + b, clock, config, ext) == ScoreAll(a, clock, config, ext) + ScoreAll(b, clock, config, ext)
  {
    if a == [] {
      assert a + b == b;
    } else {
      assert (a + b)[0] == a[0] && (a + b)[1..] == a[1..] + b;
      ScoreAllAppend(a[1..], b, clock, config, ext);
    }
  }

  /** Scoring fewer repositories, in the same order, gives fewer records in the same order. */
  lemma {:induction false} ScoreAllSubsequence(a: seq<Repository>, b: seq<Repository>, clock: Clock,
                                              config: MiningConfig, ext: External)
    requires SubsequenceOf(a, b)
    ensures SubsequenceOf(ScoreAll(a, clock, config, ext), ScoreAll(b, clock, config, ext))
    decreases |b|
  {
    if a != [] {
      var sa, sb := ScoreAll(a, clock, config, ext), ScoreAll(b, clock, config, ext);
      var hb := ScoreRepo(b[0], clock, config, ext);
      if a[0] == b[0] && SubsequenceOf(a[1..], b[1..]) {
        ScoreAllSubsequence(a[1..], b[1..], clock, config, ext);
        if hb.Some? {
          assert sa[0] == sb[0] == hb.value;
          assert sa[1..] == ScoreAll(a[1..], clock, config, ext);
          assert sb[1..] == ScoreAll(b[1..], clock, config, ext);
        } else {
          assert sa == ScoreAll(a[1..], clock, config, ext);
          assert sb == ScoreAll(b[1..], clock, config, ext);
        }
      } else {
        ScoreAllSubsequence(a, b[1..], clock, config, ext);
        if hb.Some? {
          assert sb[1..] == ScoreAll(b[1..], clock, config, ext);
          SubsequenceDropFirst(sa, sb);
        } else {
          assert sb == ScoreAll(b[1..], clock, config, ext);
        }
      }
    }
  }

  /** Every repository whose step succeeds contributes its record: only failures are dropped. */
  lemma {:induction false} ScoreAllKeeps(repos: seq<Repository>, clock: Clock, config: MiningConfig, ext: External,
                                        x: Repository)
    requires x in repos && !Throws(x)
    ensures ScoreRepo(x, clock, config, ext).value in ScoreAll(repos, clock, config, ext)
  {
    if repos[0] != x {
      ScoreAllKeeps(repos[1..], clock, config, ext, x);
    }
  }

  /** The scored, sorted and filtered gems `getGems` writes, for the given lookups. */
  function Mined(trending: seq<seq<Repository>>, base: seq<Repository>, byLanguage: seq<seq<Repository>>,
                 clock: Clock, config: MiningConfig, ext: External, lastMined: string): GemsDocument
  {
    var repos := Values(Discovered(trending, base, byLanguage).0);
    var scored := ScoreAll(NonChurn(repos, config), clock, config, ext);
    var finalGems := Select(SortDesc(scored, GemScore), config.hypeLimit, config.totalLimit);
    GemsDocument(lastMined, |finalGems|, finalGems)
  }

  /**
   * `getGems`: discovery, the churn filter, the per-repository step, the
   * ranking and the output document `{ last_mined, count, gems }`.
   */
  method GetGems(trending: seq<seq<Repository>>, base: seq<Repository>, byLanguage: seq<seq<Repository>>,
                 clock: Clock, config: MiningConfig, ext: External, lastMined: string)
    returns (output: GemsDocument, hypeCount: nat, newCounts: seq<nat>)
    ensures output == Mined(trending, base, byLanguage, clock, config, ext, lastMined)
    ensures hypeCount == |HypeOf(output.gems)| <= config.hypeLimit
    ensures newCounts == Discovered(trending, base, byLanguage).1
  {
    var repos;
    repos, newCounts := Discover(trending, base, byLanguage);
    var scored := ScoreAll(NonChurn(repos, config), clock, config, ext);
    var finalGems;
    finalGems, hypeCount := Rank(scored, config.hypeLimit, config.totalLimit);
    SelectBounds(SortDesc(scored, GemScore), config.hypeLimit, config.totalLimit);
    output := GemsDocument(lastMined, |finalGems|, finalGems);
  }

  /**
   * The written document counts its gems exactly, emits at most
   * `totalLimit` of them, at most `hypeLimit` hype, in non-increasing
   * score order.
   */
  lemma MinedBounded(trending: seq<seq<Repository>>, base: seq<Repository>, byLanguage: seq<seq<Repository>>,
                     clock: Clock, config: MiningConfig, ext: External, lastMined: string)
    ensures var doc := Mined(trending, base, byLanguage, clock, config, ext, lastMined);
      && doc.count == |doc.gems| <= config.totalLimit
      && |HypeOf(doc.gems)| <= config.hypeLimit
      && SortedDesc(doc.gems, GemScore)
  {
    var repos := Values(Discovered(trending, base, byLanguage).0);
    var scored := ScoreAll(NonChurn(repos, config), clock, config, ext);
    SelectBounds(SortDesc(scored, GemScore), config.hypeLimit, config.totalLimit);
    RankedSorted(scored, config.hypeLimit, config.totalLimit);
  }

  /**
   * Ties keep discovery order: the written gems of score `v` appear in the
   * order their repositories were discovered, as a subsequence of the
   * records of all discovered repositories in discovery order.
   */
  lemma MinedTiesKeepDiscoveryOrder(trending: seq<seq<Repository>>, base: seq<Repository>,
                                    byLanguage: seq<seq<Repository>>, clock: Clock, config: MiningConfig,
                                    ext: External, lastMined: string, v: real)
    ensures var repos := Values(Discovered(trending, base, byLanguage).0);
      SubsequenceOf(WithKey(Mined(trending, base, byLanguage, clock, config, ext, lastMined).gems, GemScore, v),
                    WithKey(ScoreAll(repos, clock, config, ext), GemScore, v))
  {
    var repos := Values(Discovered(trending, base, byLanguage).0);
    var candidates := NonChurn(repos, config);
    var scored := ScoreAll(candidates, clock, config, ext);
    var gems := Mined(trending, base, byLanguage, clock, config, ext, lastMined).gems;
    RankedTiesKeepOrder(scored, config.hypeLimit, config.totalLimit, v);
    NonChurnInOrder(repos, config);
    ScoreAllSubsequence(candidates, repos, clock, config, ext);
    SubsequenceWithKey(scored, ScoreAll(repos, clock, config, ext), GemScore, v);
    SubsequenceTrans(WithKey(gems, GemScore, v), WithKey(scored, GemScore, v),
                     WithKey(ScoreAll(repos, clock, config, ext), GemScore, v));
  }

  /**
   * Only records of discovered repositories that are not churn and whose
   * step did not fail appear in the output.
   */
  lemma MinedProvenance(trending: seq<seq<Repository>>, base: seq<Repository>, byLanguage: seq<seq<Repository>>,
                        clock: Clock, config: MiningConfig, ext: External, lastMined: string)
    ensures var doc := Mined(trending, base, byLanguage, clock, config, ext, lastMined);
      var repos := Values(Discovered(trending, base, byLanguage).0);
      forall g :: g in doc.gems ==>
        exists x :: x in repos && !Churn(x, config) && ScoreRepo(x, clock, config, ext) == Some(g)
  {
    var repos := Values(Discovered(trending, base, byLanguage).0);
    var candidates := NonChurn(repos, config);
    var scored := ScoreAll(candidates, clock, config, ext);
    RankedFromInput(scored, config.hypeLimit, config.totalLimit);
    ScoreAllFrom(candidates, clock, config, ext);
  }

  /** What the validator demands of a repository's own fields: a non-negative star count and URLs that are URLs. */
  predicate Presentable(x: Repository, isUrl: string -> bool)
  {
    x.stargazerCount >= 0 && isUrl(x.url) && isUrl(x.url + GoodFirstIssuesQuery)
  }

  /**
   * Given lookups that return non-negative star counts and URLs that are
   * URLs, everything the miner writes passes the validator.
   */
  lemma MinedAccepted(trending: seq<seq<Repository>>, base: seq<Repository>, byLanguage: seq<seq<Repository>>,
                      clock: Clock, config: MiningConfig, ext: External, lastMined: string, isUrl: string -> bool)
    requires forall b, x :: b in trending && x in b ==> Presentable(x, isUrl)
    requires forall x :: x in base ==> Presentable(x, isUrl)
    requires forall b, x :: b in byLanguage && x in b ==> Presentable(x, isUrl)
    ensures ValidateGems(Parsed(Mined(trending, base, byLanguage, clock, config, ext, lastMined)), isUrl) == Accepted
  {
    var doc := Mined(trending, base, byLanguage, clock, config, ext, lastMined);
    var repos := Values(Discovered(trending, base, byLanguage).0);
    DiscoveredStores(trending, base, byLanguage, x => Presentable(x, isUrl));
    MinedProvenance(trending, base, byLanguage, clock, config, ext, lastMined);
    forall i | 0 <= i < |doc.gems| ensures GemSchemaOk(doc.gems[i], isUrl) {
      var g := doc.gems[i];
      assert g in doc.gems;
      var x :| x in repos && !Churn(x, config) && ScoreRepo(x, clock, config, ext) == Some(g);
      ScoredRecordPassesSchema(x, clock, config, ext, isUrl);
    }
  }
}
