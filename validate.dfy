/**
 * The output validator (miner/validate-output.js): `GemSchema` and
 * `GemsResponseSchema` as predicates, and `validateGems` as a function from
 * what the file held to an outcome and an exit status. The field types are
 * fixed by the datatypes, so only the value constraints remain; zod's
 * `.url()` check is the parameter `isUrl`.
 */
module Validate {
  import opened Types
  import opened Derivation

  /** `GemSchema`: URLs, non-negative counts and an activity of exactly four weeks. */
  predicate GemSchemaOk(g: ScoredGem, isUrl: string -> bool)
  {
    && isUrl(g.url)
    && g.stars >= 0 && g.forksCount >= 0 && g.openIssuesCount >= 0
    && g.recentCommits >= 0 && g.mergedPrsCount >= 0
    && |g.activity| == 4
    && isUrl(g.goodFirstIssuesUrl)
  }

  /** `GemsResponseSchema`: a non-negative count and every gem well formed. */
  predicate DocumentSchemaOk(doc: GemsDocument, isUrl: string -> bool)
  {
    doc.count >= 0 && forall i :: 0 <= i < |doc.gems| ==> GemSchemaOk(doc.gems[i], isUrl)
  }

  /** What `validateGems` finds at the output path. */
  datatype Input = Missing | Unreadable | Parsed(doc: GemsDocument)

  datatype Outcome = Accepted | NotFound | ReadError | SchemaError | CountMismatch

  /**
   * `validateGems`: a missing file, a file that does not parse, a schema
   * violation and a count that differs from the number of gems are each
   * refused; the schema is checked before the count.
   */
  function ValidateGems(input: Input, isUrl: string -> bool): (o: Outcome)
    ensures o == Accepted <==>
      input.Parsed? && DocumentSchemaOk(input.doc, isUrl) && |input.doc.gems| == input.doc.count
    ensures input.Parsed? && !DocumentSchemaOk(input.doc, isUrl) ==> o == SchemaError
    ensures o == CountMismatch ==> input.Parsed? && DocumentSchemaOk(input.doc, isUrl)
  {
    match input
    case Missing => NotFound
    case Unreadable => ReadError
    case Parsed(doc) =>
      if !DocumentSchemaOk(doc, isUrl) then SchemaError
      else if |doc.gems| != doc.count then CountMismatch
      else Accepted
  }

  /** `process.exit(1)` on every refusal; a normal exit otherwise. */
  function ExitStatus(o: Outcome): (status: nat)
    ensures status == 0 <==> o == Accepted
    ensures status <= 1
  {
    if o == Accepted then 0 else 1
  }

  /** A document whose count is off is refused with status 1, however well formed its gems are. */
  lemma CountMismatchExitsOne(doc: GemsDocument, isUrl: string -> bool)
    requires doc.count != |doc.gems|
    ensures ExitStatus(ValidateGems(Parsed(doc), isUrl)) == 1
    ensures DocumentSchemaOk(doc, isUrl) ==> ValidateGems(Parsed(doc), isUrl) == CountMismatch
  {
  }

  /**
   * The record the miner assembles passes `GemSchema` as soon as its star
   * count is non-negative and its URLs are URLs: activity has four entries,
   * and the weekly, fork, issue and merge counts are non-negative by
   * construction.
   */
  lemma ScoredRecordPassesSchema(repo: Repository, clock: Clock, config: MiningConfig, ext: External,
                                 isUrl: string -> bool)
    requires ScoreRepo(repo, clock, config, ext).Some?
    requires repo.stargazerCount >= 0
    requires isUrl(repo.url) && isUrl(repo.url + GoodFirstIssuesQuery)
    ensures GemSchemaOk(ScoreRepo(repo, clock, config, ext).value, isUrl)
  {
    var g := ScoreRepo(repo, clock, config, ext).value;
    assert g.activity[3] >= 0;
  }
}
