/**
 * The records the miner reads and writes (miner/types.ts) and its
 * configuration constants.
 *
 * Timestamps are integer milliseconds since the epoch. Date parsing is not
 * modelled: a merge timestamp is kept as a `Stamp`, the text the search API
 * returned together with the instant it denotes, because the maintenance
 * score tests the text itself for emptiness.
 */
module Types {

  datatype Option<+T> = None | Some(value: T)

  datatype Stamp = Stamp(text: string, ms: int)

  datatype Release = Release(tag: string, publishedAt: string)

  /**
   * `defaultBranchRef.target`: the commit counts of the four weekly windows,
   * w1 the most recent; a window the response leaves out is `None`.
   */
  datatype Windows = Windows(w1: Option<nat>, w2: Option<nat>, w3: Option<nat>, w4: Option<nat>)

  /**
   * One repository node of the search response. Fields the source reads
   * through optional chaining or `|| 0` are `Option`s. `goodFirstIssues` is
   * `issues.totalCount`, read without a guard, and a `None` in `topicNodes`
   * is a topic node without a topic: both make the per-repository step throw.
   */
  datatype Repository = Repository(
    name: string,
    ownerLogin: string,
    description: Option<string>,
    url: string,
    stargazerCount: int,
    createdAt: int,
    pushedAt: int,
    primaryLanguage: Option<string>,
    licenseSpdxId: Option<string>,
    topicNodes: Option<seq<Option<string>>>,
    mergedPrs: Option<seq<Stamp>>,
    latestRelease: Option<Release>,
    windows: Option<Windows>,
    goodFirstIssues: Option<nat>,
    openIssues: Option<nat>,
    forkCount: Option<nat>,
    labelCount: Option<nat>)

  /** One emitted gem (`ScoredGem` plus the extra fields the miner writes). */
  datatype ScoredGem = ScoredGem(
    name: string,
    fullName: string,
    description: Option<string>,
    url: string,
    stars: int,
    forksCount: int,
    openIssuesCount: int,
    language: string,
    gemScore: real,
    momentumTrend: real,
    recentCommits: int,
    mergedPrsCount: int,
    topics: seq<string>,
    activity: seq<int>,
    goodFirstIssuesUrl: string,
    hasGoodFirstIssues: bool,
    pushedAt: int,
    isHype: bool,
    license: Option<string>,
    latestRelease: Option<Release>,
    featured: bool,
    maintenanceScore: int,
    bundleSize: Option<int>)

  /** The written document `{ last_mined, count, gems }`. */
  datatype GemsDocument = GemsDocument(lastMined: string, count: int, gems: seq<ScoredGem>)

  /** `MiningConfig` without the pagination bound (fetching is not modelled). */
  datatype MiningConfig = MiningConfig(
    targetLanguages: seq<string>,
    churnKeywords: seq<string>,
    hypeKeywords: seq<string>,
    hypeLimit: nat,
    totalLimit: nat)

  const TargetLanguages: seq<string> :=
    ["TypeScript", "JavaScript", "Rust", "Go", "Python",
     "Zig", "Swift", "Kotlin", "C++", "Mojo", "Odin"]

  const ChurnKeywords: seq<string> :=
    ["config", "vpn", "proxy", "list", "index", "blocklist",
     "iptv", "rules", "detect", "scripts", "backup", "hot-search",
     "trending", "awesome-list", "collection", "mirrors", "database",
     "dns", "auto-updated", "hosts", "payload", "cve", "poc",
     "homework", "assignment", "leetcode", "tutorial", "course"]

  const HypeKeywords: seq<string> :=
    ["ai", "llm", "gpt", "openai", "claude", "langchain",
     "agent", "deepseek", "gemini", "llama", "mistral",
     "rag", "vector", "embedding", "anthropic", "cohere",
     "stable diffusion", "midjourney", "prompt engineering"]

  const HypeLimit: nat := 75
  const TotalLimit: nat := 250

  /** The constants the miner runs with. */
  const DefaultConfig: MiningConfig :=
    MiningConfig(TargetLanguages, ChurnKeywords, HypeKeywords, HypeLimit, TotalLimit)
}
