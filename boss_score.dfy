/**
 * Boss battle scoring (core/services.py, apply_bonus_rules and
 * calculate_final_score): a level-based bonus added to the base exam score,
 * capped at 100.
 */
module BossScore {

  /** The level bonus: 0 up to level 5, 5 up to 10, 10 up to 15, 15 above. */
  function ApplyBonusRules(level: int): (bonus: int)
    ensures bonus == 0 <==> level <= 5
    ensures bonus == 5 <==> 6 <= level <= 10
    ensures bonus == 10 <==> 11 <= level <= 15
    ensures bonus == 15 <==> level >= 16
  {
    if level <= 5 then 0
    else if level <= 10 then 5
    else if level <= 15 then 10
    else 15
  }

  datatype ScoreResult = ScoreResult(finalScore: int, bonusApplied: int, baseScore: int)

  /** The final score is the bonus-adjusted base, never above 100; the base is echoed. */
  function CalculateFinalScore(baseScore: int, playerLevel: int): (r: ScoreResult)
    ensures r.baseScore == baseScore
    ensures r.bonusApplied == ApplyBonusRules(playerLevel)
    ensures r.finalScore <= 100
    ensures r.finalScore == 100 || r.finalScore == baseScore + r.bonusApplied
    ensures r.finalScore <= baseScore + r.bonusApplied
  {
    var bonus := ApplyBonusRules(playerLevel);
    ScoreResult(if baseScore + bonus <= 100 then baseScore + bonus else 100, bonus, baseScore)
  }

  /** A higher level never earns a smaller bonus. */
  lemma BonusMonotonic(l1: int, l2: int)
    requires l1 <= l2
    ensures ApplyBonusRules(l1) <= ApplyBonusRules(l2)
  {
  }

  /** The final score never decreases with the base score or with the level. */
  lemma FinalScoreMonotonic(b1: int, b2: int, l1: int, l2: int)
    requires b1 <= b2 && l1 <= l2
    ensures CalculateFinalScore(b1, l1).finalScore <= CalculateFinalScore(b2, l2).finalScore
  {
    BonusMonotonic(l1, l2);
  }

  /** For a base score in [0, 100] the final score stays in [base, 100]. */
  lemma FinalScoreInRange(baseScore: int, level: int)
    requires 0 <= baseScore <= 100
    ensures baseScore <= CalculateFinalScore(baseScore, level).finalScore <= 100
  {
  }
}
