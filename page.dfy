/**
 * The home page (src/app/page.tsx): the same view over the fetched gems,
 * with a shorter hype-word list and only three sort options.
 */
module Page {
  import opened Types
  import opened Classifier
  import opened Views
  import opened Explorer

  /** The page's hype words: the first seven of the Explorer's. */
  const PageHypeWords: seq<string> := ["ai", "llm", "gpt", "openai", "claude", "langchain", "agent"]

  /** `"score" | "recent" | "stars"`: the page has no "saved" option. */
  datatype PageSort = Score | Recent | Stars

  function AsSortOption(sortBy: PageSort): (o: SortOption)
    ensures o != Saved
  {
    match sortBy
    case Score => SortOption.Score
    case Recent => SortOption.Recent
    case Stars => SortOption.Stars
  }

  /** `filteredGems` of the page. */
  function PageView(gems: seq<ScoredGem>, state: FilterState, sortBy: PageSort): (r: seq<ScoredGem>)
    ensures forall g :: g in r ==> g in gems
    ensures state.noHype ==> forall g :: g in r ==> !IsHype(g.name, g.description, PageHypeWords)
  {
    View(gems, PageHypeWords, state, AsSortOption(sortBy))
  }

  /**
   * The page hides no more than the Explorer does: on the same gems and
   * view state every gem the Explorer shows the page shows too.
   */
  lemma PageShowsWhatExplorerShows(gems: seq<ScoredGem>, state: FilterState, sortBy: PageSort)
    ensures forall g :: g in ExplorerView(gems, state, AsSortOption(sortBy)) ==> g in PageView(gems, state, sortBy)
  {
    assert PageHypeWords == ExplorerHypeWords[..7];
    MoreHypeWordsHideMore(gems, PageHypeWords, ExplorerHypeWords, state);
  }
}
