/**
 * The dashboard's fixed reward rules and the three computations over them:
 * the reward announced on a check-in, the next reward shown beside a customer,
 * and the progress bar towards it.
 */
module Rewards {
  import opened Wrappers
  import opened Arrays

  datatype RewardKind = Discount | FreeItem

  /** A reward rule: reached after `visits` visits. */
  datatype RewardRule = RewardRule(visits: nat, description: string, kind: RewardKind, value: string)

  /** The `rewardRules` state, which the dashboard never changes. */
  const RewardRules: seq<RewardRule> := [
    RewardRule(5, "10% Off Next Service", Discount, "10%"),
    RewardRule(10, "Free Basic Service", FreeItem, "Basic Cut")
  ]

  /** The rules are listed by strictly ascending, positive thresholds: 5, then 10. */
  lemma RewardRulesAscending()
    ensures |RewardRules| == 2
    ensures RewardRules[0].visits == 5 && RewardRules[1].visits == 10
    ensures forall i, j :: 0 <= i < j < |RewardRules| ==> 0 < RewardRules[i].visits < RewardRules[j].visits
  {
  }

  /**
   * `rewardRules.find(r => r.visits === newVisits)`: the reward announced when a
   * returning customer's visit count becomes `newVisits`. Only an exact match
   * with a threshold announces a reward.
   */
  function EarnedReward(newVisits: nat): (r: Option<RewardRule>)
    ensures r.Some? <==> exists i :: 0 <= i < |RewardRules| && RewardRules[i].visits == newVisits
    ensures r.Some? ==> r.value in RewardRules && r.value.visits == newVisits
  {
    match FindFirst(RewardRules, (rule: RewardRule) => rule.visits == newVisits)
    case Some(i) => Some(RewardRules[i])
    case None => None
  }

  /**
   * `getNextReward(visits)`: the first rule whose threshold is above `visits`,
   * falling back to the last rule (never "none") once every threshold is reached.
   */
  function NextReward(visits: nat): (r: RewardRule)
    ensures r in RewardRules
    ensures r.visits > visits ==>
      forall j :: 0 <= j < |RewardRules| && RewardRules[j].visits > visits ==> r.visits <= RewardRules[j].visits
    ensures r.visits <= visits ==>
      r == RewardRules[|RewardRules| - 1] && forall j :: 0 <= j < |RewardRules| ==> RewardRules[j].visits <= visits
  {
    match FindFirst(RewardRules, (rule: RewardRule) => rule.visits > visits)
    case Some(i) => RewardRules[i]
    case None => RewardRules[|RewardRules| - 1]
  }

  /**
   * `getProgressPercentage(visits)`: `visits / next.visits * 100`, uncapped. The
   * `!nextReward` fallback of 100 cannot be taken, since `NextReward` always
   * returns a rule.
   */
  function ProgressPercentage(visits: nat): (r: real)
    ensures visits < RewardRules[0].visits ==> r == (visits as real) * 20.0
    ensures visits >= RewardRules[0].visits ==> r == (visits as real) * 10.0
  {
    var next := NextReward(visits);
    (visits as real) / (next.visits as real) * 100.0
  }

  /** Up to four visits the next reward is the 5-visit rule, from five on the 10-visit rule. */
  lemma NextRewardTiers(visits: nat)
    ensures visits < 5 ==> NextReward(visits) == RewardRules[0]
    ensures visits >= 5 ==> NextReward(visits) == RewardRules[1]
  {
  }

  /**
   * Sample values of the progress bar: it reaches 100 at ten visits and keeps
   * growing past it, and it falls from 80 to 50 when the first threshold is met
   * instead of restarting at 0.
   */
  lemma ProgressExamples()
    ensures ProgressPercentage(0) == 0.0
    ensures ProgressPercentage(4) == 80.0
    ensures ProgressPercentage(5) == 50.0
    ensures ProgressPercentage(10) == 100.0
    ensures ProgressPercentage(12) == 120.0
  {
  }

  /** Progress is not capped: it exceeds 100 beyond the last threshold. */
  lemma ProgressUncapped(visits: nat)
    requires visits > 10
    ensures ProgressPercentage(visits) > 100.0
  {
  }

  /** Within one tier the progress bar never moves backwards. */
  lemma ProgressMonotoneWithinTier(v: nat, w: nat)
    requires v <= w
    requires NextReward(v) == NextReward(w)
    ensures ProgressPercentage(v) <= ProgressPercentage(w)
  {
  }

  /** Every reward that can be announced is reached at exactly one visit count. */
  lemma EarnedRewardExamples()
    ensures EarnedReward(5) == Some(RewardRules[0])
    ensures EarnedReward(10) == Some(RewardRules[1])
    ensures EarnedReward(6).None? && EarnedReward(11).None? && EarnedReward(4).None?
  {
  }
}
