/**
 * The Explorer component (src/components/Explorer.tsx): the gem list the
 * site renders from the mined document, with its eleven hype words and
 * the four sort options of the filter bar.
 */
module Explorer {
  import opened Types
  import opened Text
  import opened Classifier
  import opened Views

  /** The Explorer's hype words: the first eleven of the miner's list. */
  const ExplorerHypeWords: seq<string> :=
    ["ai", "llm", "gpt", "openai", "claude", "langchain", "agent", "deepseek", "gemini", "llama", "mistral"]

  /**
   * `filteredGems`: the initial gems filtered and sorted by the current
   * view state. With no-hype on no gem shown carries an Explorer hype word,
   * with a language selected every gem shown has that language, and every
   * initial gem that passes the filters is shown.
   */
  function ExplorerView(initialGems: seq<ScoredGem>, state: FilterState, sortBy: SortOption): (r: seq<ScoredGem>)
    ensures forall g :: g in r ==> g in initialGems
    ensures state.noHype ==> forall g :: g in r ==> !IsHype(g.name, g.description, ExplorerHypeWords)
    ensures state.selectedLanguage != "All" ==> forall g :: g in r ==> g.language == state.selectedLanguage
    ensures forall g :: g in initialGems && Keep(g, ExplorerHypeWords, state) ==> g in r
    ensures sortBy == Saved ==> r == FilterGems(initialGems, ExplorerHypeWords, state)
  {
    SortGemsOrders(FilterGems(initialGems, ExplorerHypeWords, state), sortBy);
    View(initialGems, ExplorerHypeWords, state, sortBy)
  }

  /**
   * The no-hype switch never hides a gem the miner would not call hype on
   * the same name and description: every Explorer hype word is a miner
   * hype keyword.
   */
  lemma ExplorerHypeIsMinerHype(name: string, description: Option<string>)
    ensures IsHype(name, description, ExplorerHypeWords) ==> IsHype(name, description, HypeKeywords)
  {
    HypeCharacterized(name, description, ExplorerHypeWords);
    HypeCharacterized(name, description, HypeKeywords);
    assert ExplorerHypeWords == HypeKeywords[..11];
    if IsHype(name, description, ExplorerHypeWords) {
      var k :| k in ExplorerHypeWords &&
        (Contains(Lower(name), k) || Contains(Lower(DescriptionText(description)), k));
      assert k in HypeKeywords;
    }
  }
}
