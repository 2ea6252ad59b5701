/**
 * The score badge of a gem card (src/components/GemCard.tsx): a label and
 * a colour class chosen by two thresholds on the gem score.
 */
module GemCard {
  /** The three badge tiers, from best to worst. */
  datatype Tier = Gold | Silver | Bronze

  /** A tier's standing: a higher rank is a better tier. */
  function Rank(t: Tier): nat
  {
    match t
    case Gold => 2
    case Silver => 1
    case Bronze => 0
  }

  /** A score earns a tier when it reaches the tier's threshold; every score earns bronze. */
  predicate Earns(score: real, t: Tier)
  {
    match t
    case Gold => score >= 90.0
    case Silver => score >= 70.0
    case Bronze => true
  }

  function TierName(t: Tier): string
  {
    match t
    case Gold => "Gold"
    case Silver => "Silver"
    case Bronze => "Bronze"
  }

  function TierColor(t: Tier): string
  {
    match t
    case Gold => "bg-yellow-500/10 text-yellow-500 border-yellow-500/20"
    case Silver => "bg-slate-300/10 text-slate-300 border-slate-300/20"
    case Bronze => "bg-orange-500/10 text-orange-500 border-orange-500/20"
  }

  /** `getScoreLabel`. */
  function ScoreLabel(score: real): (name: string)
    ensures name in ["Gold", "Silver", "Bronze"]
  {
    if score >= 90.0 then "Gold"
    else if score >= 70.0 then "Silver"
    else "Bronze"
  }

  /** `getScoreColor`. */
  function ScoreColor(score: real): (color: string)
    ensures color in [TierColor(Gold), TierColor(Silver), TierColor(Bronze)]
  {
    if score >= 90.0 then "bg-yellow-500/10 text-yellow-500 border-yellow-500/20"
    else if score >= 70.0 then "bg-slate-300/10 text-slate-300 border-slate-300/20"
    else "bg-orange-500/10 text-orange-500 border-orange-500/20"
  }

  /**
   * The label names the best tier the score earns, and the colour is that
   * same tier's colour.
   */
  lemma BadgeIsBestEarnedTier(score: real)
    ensures exists t ::
              && ScoreLabel(score) == TierName(t) && ScoreColor(score) == TierColor(t) && Earns(score, t)
              && forall u :: Earns(score, u) ==> Rank(u) <= Rank(t)
  {
    var t := if score >= 90.0 then Gold else if score >= 70.0 then Silver else Bronze;
    assert ScoreLabel(score) == TierName(t) && ScoreColor(score) == TierColor(t);
    forall u | Earns(score, u) ensures Rank(u) <= Rank(t) {
    }
  }

  function TierOfLabel(name: string): Tier
  {
    if name == "Gold" then Gold else if name == "Silver" then Silver else Bronze
  }

  /** A higher score never gets a worse badge. */
  lemma BadgeMonotone(lo: real, hi: real)
    requires lo <= hi
    ensures Rank(TierOfLabel(ScoreLabel(lo))) <= Rank(TierOfLabel(ScoreLabel(hi)))
  {
  }

  /** The thresholds as the card shows them: 90 is gold, 89.99 and 70 silver, 69.99 bronze. */
  lemma BadgeThresholds()
    ensures ScoreLabel(90.0) == "Gold" && ScoreLabel(89.99) == "Silver"
    ensures ScoreLabel(70.0) == "Silver" && ScoreLabel(69.99) == "Bronze"
    ensures ScoreLabel(85.0) == "Silver" && ScoreColor(85.0) == TierColor(Silver)
  {
  }
}
