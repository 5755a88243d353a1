/**
 * Honor tiers (core/services.py, check_honor_privileges): honor points map to
 * a tier, three participation privileges and an EXP multiplier, here kept in
 * exact hundredths (120 stands for 1.2).
 */
module HonorTiers {

  datatype Tier = Outcast | Shamed | Disgraced | Neutral | Respected | Honored | Exalted
  {
    /** Position of the tier, lowest first. */
    function Rank(): nat
    {
      match this
      case Outcast => 0
      case Shamed => 1
      case Disgraced => 2
      case Neutral => 3
      case Respected => 4
      case Honored => 5
      case Exalted => 6
    }

    /** Inclusive lower bound of the tier; the lowest tier has none. */
    predicate Admits(honor: int)
    {
      match this
      case Outcast => true
      case Shamed => honor >= 50
      case Disgraced => honor >= 100
      case Neutral => honor >= 200
      case Respected => honor >= 400
      case Honored => honor >= 600
      case Exalted => honor >= 800
    }

    /** The tier's fixed EXP multiplier, in hundredths. */
    function Multiplier(): int
    {
      match this
      case Outcast => 50
      case Shamed => 80
      case Disgraced => 90
      case Neutral => 95
      case Respected => 100
      case Honored => 110
      case Exalted => 120
    }
  }

  datatype Privileges = Privileges(
    canSubmitSidequest: bool,
    canJoinDungeon: bool,
    canParticipateBoss: bool,
    expMultiplierBonus: int,
    tier: Tier,
    honorPoints: int)

  /**
   * The tier is the highest one whose lower bound the honor reaches; the
   * multiplier is that tier's, and each privilege has its own threshold.
   */
  function CheckHonorPrivileges(honor: int): (p: Privileges)
    ensures p.tier.Admits(honor)
    ensures forall t: Tier :: t.Admits(honor) ==> t.Rank() <= p.tier.Rank()
    ensures p.expMultiplierBonus == p.tier.Multiplier()
    ensures p.canSubmitSidequest <==> honor >= 50
    ensures p.canJoinDungeon <==> honor >= 100
    ensures p.canParticipateBoss <==> honor >= 200
    ensures p.honorPoints == honor
  {
    if honor >= 800 then Privileges(true, true, true, 120, Exalted, honor)
    else if honor >= 600 then Privileges(true, true, true, 110, Honored, honor)
    else if honor >= 400 then Privileges(true, true, true, 100, Respected, honor)
    else if honor >= 200 then Privileges(true, true, true, 95, Neutral, honor)
    else if honor >= 100 then Privileges(true, true, false, 90, Disgraced, honor)
    else if honor >= 50 then Privileges(true, false, false, 80, Shamed, honor)
    else Privileges(false, false, false, 50, Outcast, honor)
  }

  /** More honor never lowers the tier, the multiplier or any privilege. */
  lemma PrivilegesMonotonic(h1: int, h2: int)
    requires h1 <= h2
    ensures CheckHonorPrivileges(h1).tier.Rank() <= CheckHonorPrivileges(h2).tier.Rank()
    ensures CheckHonorPrivileges(h1).expMultiplierBonus <= CheckHonorPrivileges(h2).expMultiplierBonus
    ensures CheckHonorPrivileges(h1).canSubmitSidequest ==> CheckHonorPrivileges(h2).canSubmitSidequest
    ensures CheckHonorPrivileges(h1).canJoinDungeon ==> CheckHonorPrivileges(h2).canJoinDungeon
    ensures CheckHonorPrivileges(h1).canParticipateBoss ==> CheckHonorPrivileges(h2).canParticipateBoss
  {
    var p1, p2 := CheckHonorPrivileges(h1), CheckHonorPrivileges(h2);
    assert p1.tier.Admits(h2);
    MultiplierMonotonic(p1.tier, p2.tier);
  }

  /** A higher tier has a multiplier at least as large. */
  lemma MultiplierMonotonic(t1: Tier, t2: Tier)
    requires t1.Rank() <= t2.Rank()
    ensures t1.Multiplier() <= t2.Multiplier()
  {
  }

  /** The two ends of the scale: every privilege at 800 and above, none below 50. */
  lemma TierExtremes(h: int)
    ensures h >= 800 ==> CheckHonorPrivileges(h) == Privileges(true, true, true, 120, Exalted, h)
    ensures h < 50 ==> CheckHonorPrivileges(h) == Privileges(false, false, false, 50, Outcast, h)
  {
  }
}
