/**
 * The per-repository step of `getGems` (miner/miner.js:380-453): the merged
 * pull-request count, the last merge and its maintenance score, and the
 * assembly of the emitted record. Network lookups (Hacker News, the summary
 * model, the bundle-size service) and the floating-point score formula are
 * inputs, gathered in `External`.
 */
module Derivation {
  import opened Types
  import opened Classifier
  import opened Score
  import opened Activity

  const MsPerDay: int := 86400000

  /** The sentinel for "no merge observed". */
  const NoMerge: nat := 999

  function Abs(x: int): nat
  {
    if x < 0 then -x else x
  }

  /** `!lastMergedAt`: no timestamp, or an empty one. */
  predicate Absent(lastMergedAt: Option<Stamp>)
  {
    lastMergedAt.None? || lastMergedAt.value.text == ""
  }

  /**
   * `calculateMaintenanceScore` of the miner (miner/miner.js:133-138): whole
   * days between now and the last merge, in either direction, or 999.
   */
  function MaintenanceScore(lastMergedAt: Option<Stamp>, now: int): (r: nat)
    ensures Absent(lastMergedAt) ==> r == NoMerge
    ensures !Absent(lastMergedAt) ==>
      r * MsPerDay <= Abs(now - lastMergedAt.value.ms) < (r + 1) * MsPerDay
  {
    if Absent(lastMergedAt) then NoMerge
    else Abs(now - lastMergedAt.value.ms) / MsPerDay
  }

  /** `repo.mergedPrs?.nodes || []`. */
  function MergedNodes(repo: Repository): seq<Stamp>
  {
    if repo.mergedPrs.Some? then repo.mergedPrs.value else []
  }

  /** `mergedPrs.filter(pr => new Date(pr.mergedAt) > thirtyDaysAgo).length`. */
  function CountMergedAfter(nodes: seq<Stamp>, cutoff: int): (n: nat)
    ensures n <= |nodes|
    ensures n == 0 <==> forall i :: 0 <= i < |nodes| ==> nodes[i].ms <= cutoff
    ensures n == |nodes| <==> forall i :: 0 <= i < |nodes| ==> nodes[i].ms > cutoff
  {
    if nodes == [] then 0
    else (if nodes[0].ms > cutoff then 1 else 0) + CountMergedAfter(nodes[1..], cutoff)
  }

  /** The positions of the nodes merged strictly after the cutoff. */
  ghost function RecentPositions(nodes: seq<Stamp>, cutoff: int): set<nat>
  {
    set i: nat | i < |nodes| && nodes[i].ms > cutoff
  }

  /** Counting a concatenation counts each part. */
  lemma {:induction false} CountMergedAfterAppend(a: seq<Stamp>, b: seq<Stamp>, cutoff: int)
    ensures CountMergedAfter(a + b, cutoff) == CountMergedAfter(a, cutoff) + CountMergedAfter(b, cutoff)
  {
    if a != [] {
      assert (a + b)[1..] == a[1..] + b;
      CountMergedAfterAppend(a[1..], b, cutoff);
    } else {
      assert a + b == b;
    }
  }

  /** The count is the number of nodes merged strictly after the cutoff. */
  lemma {:induction false} CountMergedAfterIsSize(nodes: seq<Stamp>, cutoff: int)
    ensures CountMergedAfter(nodes, cutoff) == |RecentPositions(nodes, cutoff)|
  {
    if nodes != [] {
      var n := |nodes| - 1;
      var front := nodes[..n];
      assert nodes == front + [nodes[n]];
      CountMergedAfterIsSize(front, cutoff);
      CountMergedAfterAppend(front, [nodes[n]], cutoff);
      var last: set<nat> := if nodes[n].ms > cutoff then {n} else {};
      assert RecentPositions(nodes, cutoff) == RecentPositions(front, cutoff) + last;
      assert n !in RecentPositions(front, cutoff);
    }
  }

  /** `mergedPrs.length > 0 ? mergedPrs[0].mergedAt : null`: the first node in the response's order. */
  function LastMergedAt(nodes: seq<Stamp>): (r: Option<Stamp>)
    ensures r.None? <==> nodes == []
    ensures r.Some? ==> r.value == nodes[0]
  {
    if nodes == [] then None else Some(nodes[0])
  }

  /** A repository without merged pull requests gets the 999 sentinel. */
  lemma NoMergesMeansSentinel(repo: Repository, now: int)
    requires MergedNodes(repo) == []
    ensures MaintenanceScore(LastMergedAt(MergedNodes(repo)), now) == NoMerge
  {
  }

  /** The lookups the per-repository step makes over the network, and the score formula. */
  datatype External = External(
    trendingFullNames: seq<string>,
    onHackerNews: string -> bool,
    summary: (string, Option<string>) -> string,
    bundleSize: string -> Option<int>,
    combine: ScoreTerms -> real)

  /** The clock of one mining run: now, and the instant thirty calendar days earlier. */
  datatype Clock = Clock(now: int, thirtyDaysAgo: int)

  /** `${repo.owner.login}/${repo.name}`: the key of a repository. */
  function FullName(repo: Repository): string
  {
    repo.ownerLogin + "/" + repo.name
  }

  const GoodFirstIssuesQuery: string := "/issues?q=is%3Aopen+is%3Aissue+label%3A%22good+first+issue%22"

  /**
   * The step throws, and the record is dropped: `repo.issues` is missing
   * (its `totalCount` is read without a guard) or a topic node has no topic.
   */
  predicate Throws(repo: Repository)
  {
    repo.goodFirstIssues.None? || (repo.topicNodes.Some? && !AllTopicsNamed(repo.topicNodes.value))
  }

  predicate AllTopicsNamed(nodes: seq<Option<string>>)
  {
    forall i :: 0 <= i < |nodes| ==> nodes[i].Some?
  }

  /** `(repo.repositoryTopics?.nodes || []).map(node => node.topic.name)`. */
  function Topics(nodes: Option<seq<Option<string>>>): (r: seq<string>)
    requires nodes.Some? ==> AllTopicsNamed(nodes.value)
    ensures nodes.None? ==> r == []
    ensures nodes.Some? ==> |r| == |nodes.value| && forall i :: 0 <= i < |r| ==> nodes.value[i] == Some(r[i])
  {
    if nodes.None? then []
    else seq(|nodes.value|, i requires 0 <= i < |nodes.value| => nodes.value[i].value)
  }

  predicate IsJavaScript(primaryLanguage: Option<string>)
  {
    primaryLanguage.Some? && primaryLanguage.value in ["TypeScript", "JavaScript"]
  }

  /**
   * The map callback of `getGems` for one non-churn repository: `None` is
   * the `null` the catch block returns.
   */
  function ScoreRepo(repo: Repository, clock: Clock, config: MiningConfig, ext: External): (r: Option<ScoredGem>)
    ensures r.None? <==> Throws(repo)
    ensures r.Some? ==>
      var g := r.value;
      && g.fullName == FullName(repo) && g.name == repo.name && g.url == repo.url
      && g.stars == repo.stargazerCount && g.pushedAt == repo.pushedAt
      && |g.activity| == 4 && g.recentCommits == g.activity[3]
      && (forall i :: 0 <= i < 4 ==> g.activity[i] >= 0)
      && g.forksCount >= 0 && g.openIssuesCount >= 0
      && 0 <= g.mergedPrsCount <= |MergedNodes(repo)|
      && g.momentumTrend >= 0.0 && (g.recentCommits == 0 ==> g.momentumTrend == 0.0)
      && (MergedNodes(repo) == [] ==> g.maintenanceScore == NoMerge)
      && g.isHype == IsHype(repo.name, repo.description, config.hypeKeywords)
      && g.goodFirstIssuesUrl == repo.url + GoodFirstIssuesQuery
      && (!g.featured ==> g.description == repo.description)
    ensures r.Some? ==>
      var g := r.value;
      var counts := WeeklyCountsOf(repo.windows);
      && g.activity == ActivityOf(counts) && g.recentCommits == counts.w1
      && g.momentumTrend == RoundCents(MomentumTrend(counts))
      && g.mergedPrsCount == CountMergedAfter(MergedNodes(repo), clock.thirtyDaysAgo)
      && g.maintenanceScore == MaintenanceScore(LastMergedAt(MergedNodes(repo)), clock.now)
      && g.hasGoodFirstIssues == (repo.goodFirstIssues.value > 0)
      && g.gemScore == ext.combine(Terms(repo, clock.now, counts.w1, g.mergedPrsCount,
                                         CountOrZero(repo.labelCount), g.hasGoodFirstIssues,
                                         config.targetLanguages))
      && g.forksCount == CountOrZero(repo.forkCount) && g.openIssuesCount == CountOrZero(repo.openIssues)
      && g.language == LanguageName(repo.primaryLanguage) && g.topics == Topics(repo.topicNodes)
      && g.license == repo.licenseSpdxId && g.latestRelease == repo.latestRelease
      && (g.featured <==> FullName(repo) in ext.trendingFullNames && ext.onHackerNews(FullName(repo)))
      && (g.featured ==> g.description == Some(ext.summary(FullName(repo), repo.description)))
      && g.bundleSize == (if IsJavaScript(repo.primaryLanguage) then ext.bundleSize(repo.name) else None)
  {
    if Throws(repo) then None
    else
      var fullName := FullName(repo);
      var counts := WeeklyCountsOf(repo.windows);
      var nodes := MergedNodes(repo);
      var mergedPrsCount := CountMergedAfter(nodes, clock.thirtyDaysAgo);
      var lastMergedAt := LastMergedAt(nodes);
      var labeledIssuesCount := CountOrZero(repo.labelCount);
      var hasGoodFirstIssues := repo.goodFirstIssues.value > 0;
      var terms := Terms(repo, clock.now, counts.w1, mergedPrsCount, labeledIssuesCount,
                         hasGoodFirstIssues, config.targetLanguages);
      var isTrending := fullName in ext.trendingFullNames;
      var featured := isTrending && ext.onHackerNews(fullName);
      var description := if featured then Some(ext.summary(fullName, repo.description)) else repo.description;
      Some(ScoredGem(
        name := repo.name,
        fullName := fullName,
        description := description,
        url := repo.url,
        stars := repo.stargazerCount,
        forksCount := CountOrZero(repo.forkCount),
        openIssuesCount := CountOrZero(repo.openIssues),
        language := LanguageName(repo.primaryLanguage),
        gemScore := ext.combine(terms),
        momentumTrend := RoundCents(MomentumTrend(counts)),
        recentCommits := counts.w1,
        mergedPrsCount := mergedPrsCount,
        topics := Topics(repo.topicNodes),
        activity := ActivityOf(counts),
        goodFirstIssuesUrl := repo.url + GoodFirstIssuesQuery,
        hasGoodFirstIssues := hasGoodFirstIssues,
        pushedAt := repo.pushedAt,
        isHype := IsHype(repo.name, repo.description, config.hypeKeywords),
        license := repo.licenseSpdxId,
        latestRelease := repo.latestRelease,
        featured := featured,
        maintenanceScore := MaintenanceScore(lastMergedAt, clock.now),
        bundleSize := if IsJavaScript(repo.primaryLanguage) then ext.bundleSize(repo.name) else None))
  }
}
