/**
 * The EXP ledger and levelling engine (core/services.py: add_exp,
 * check_level_up, calculate_bonus, apply_level_bonus).
 *
 * Every state-changing method is tied to a function over the value of the
 * tables and of the user row (`AddExpSpec`, `CheckLevelUpSpec`,
 * `ApplyLevelBonusSpec`); the lemmas at the end state what those functions
 * promise.
 */
module ExpLedger {
  import opened Common
  import opened Accounts
  import opened Models
  import opened HonorTiers

  // ---------------------------------------------------------------------
  // The level table

  /** The row of a level number, if the table has one. */
  function FindLevel(levels: seq<LevelRow>, level: int): (r: Option<LevelRow>)
    ensures r.Some? ==> r.value in levels && r.value.level == level
    ensures r.None? ==> forall row :: row in levels ==> row.level != level
  {
    if levels == [] then None
    else if levels[0].level == level then Some(levels[0])
    else FindLevel(levels[1..], level)
  }

  /** The row with the highest level number among those whose threshold `total` reaches. */
  function HighestReached(levels: seq<LevelRow>, total: int): (r: Option<LevelRow>)
    ensures r.Some? ==> r.value in levels && r.value.expRequired <= total
    ensures r.Some? ==> forall row :: row in levels && row.expRequired <= total ==> row.level <= r.value.level
    ensures r.None? ==> forall row :: row in levels ==> row.expRequired > total
  {
    if levels == [] then None
    else
      var rest := HighestReached(levels[1..], total);
      var head := levels[0];
      if head.expRequired > total then rest
      else if rest.Some? && rest.value.level > head.level then rest
      else Some(head)
  }

  /** With unique level numbers, the highest reached row is the only row with that property. */
  lemma HighestReachedDetermined(levels: seq<LevelRow>, total: int, row: LevelRow)
    requires UniqueLevels(levels)
    requires row in levels && row.expRequired <= total
    requires forall other :: other in levels && other.expRequired <= total ==> other.level <= row.level
    ensures HighestReached(levels, total) == Some(row)
  {
    var r := HighestReached(levels, total);
    assert r.Some?;
    var i :| 0 <= i < |levels| && levels[i] == row;
    var j :| 0 <= j < |levels| && levels[j] == r.value;
    assert levels[i].level == levels[j].level;
  }

  // ---------------------------------------------------------------------
  // Level-up bonus

  /** The honor bonus formula for reaching `level`. */
  function HonorBonusFor(level: int): int
  {
    if level <= 5 then level * 10
    else if level <= 10 then 50 + (level - 5) * 20
    else 150 + (level - 10) * 30
  }

  /** What each single level adds to the formula: 10 up to level 5, 20 up to 10, 30 above. */
  function PerLevelBonus(level: int): int
  {
    if level <= 5 then 10 else if level <= 10 then 20 else 30
  }

  /** The sum of the per-level bonuses of levels 1..n. */
  function AccumulatedBonus(n: nat): int
  {
    if n == 0 then 0 else AccumulatedBonus(n - 1) + PerLevelBonus(n)
  }

  /** The formula is the running sum of 10 points per level up to 5, 20 up to 10 and 30 above. */
  lemma {:induction false} HonorBonusIsAccumulated(n: nat)
    ensures HonorBonusFor(n) == AccumulatedBonus(n)
  {
    if n > 0 {
      HonorBonusIsAccumulated(n - 1);
    }
  }

  /** A higher level always earns a strictly larger bonus. */
  lemma HonorBonusIncreasing(l1: int, l2: int)
    requires l1 < l2
    ensures HonorBonusFor(l1) < HonorBonusFor(l2)
  {
  }

  datatype Bonus = Bonus(honorPoints: int, description: string)

  /** The bonus for a level: nothing when the table has no row for it. */
  function CalculateBonus(levels: seq<LevelRow>, level: int): (b: Bonus)
    ensures FindLevel(levels, level).None? ==> b == Bonus(0, "No bonus available")
    ensures FindLevel(levels, level).Some? ==> b.honorPoints == HonorBonusFor(level) && b.description != ""
  {
    match FindLevel(levels, level)
    case None => Bonus(0, "No bonus available")
    case Some(row) =>
      var d := row.bonusDescription;
      Bonus(HonorBonusFor(level),
            if d.Some? && d.value != "" then d.value else "Reached Level " + IntToString(level) + "!")
  }

  // ---------------------------------------------------------------------
  // Status-effect multiplier and lazy expiry

  /** An effect of the user that scales EXP now: active and not expired. */
  predicate Multiplies(e: StatusEffect, uid: nat, now: int)
  {
    e.userId == uid && e.isActive && !e.IsExpired(now)
  }

  /** An active effect of the user that has expired is switched off; any other is kept. */
  function Settle(e: StatusEffect, uid: nat, now: int): StatusEffect
  {
    if e.userId == uid && e.isActive && e.IsExpired(now) then e.(isActive := false) else e
  }

  /** The effects table after the multiplier read: only expired ones of the user are switched off. */
  function ExpireEffects(es: seq<StatusEffect>, uid: nat, now: int): (r: seq<StatusEffect>)
    ensures |r| == |es|
    ensures forall k :: 0 <= k < |es| ==> r[k] == es[k].(isActive := r[k].isActive)
    ensures forall k :: 0 <= k < |es| && es[k].userId != uid ==> r[k] == es[k]
    ensures forall k :: 0 <= k < |es| ==> (r[k].isActive <==> es[k].isActive && !(es[k].userId == uid && es[k].IsExpired(now)))
    ensures forall k :: 0 <= k < |r| && r[k].userId == uid && r[k].isActive ==> !r[k].IsExpired(now)
  {
    seq(|es|, k requires 0 <= k < |es| => Settle(es[k], uid, now))
  }

  /** The product of the multipliers (in hundredths) of the user's effects that scale EXP now. */
  function EffectProduct(es: seq<StatusEffect>, uid: nat, now: int): (m: Ratio)
    ensures m.den > 0
    decreases |es|
  {
    if es == [] then Ratio(1, 1)
    else
      var m := EffectProduct(es[..|es| - 1], uid, now);
      var e := es[|es| - 1];
      if Multiplies(e, uid, now) then Ratio(m.num * e.expMultiplier, m.den * 100) else m
  }

  /** The status-effect product times the honor tier's multiplier. */
  function CombinedMultiplier(es: seq<StatusEffect>, uid: nat, now: int, honor: int): (m: Ratio)
    ensures m.den > 0
  {
    var p := EffectProduct(es, uid, now);
    Ratio(p.num * CheckHonorPrivileges(honor).expMultiplierBonus, p.den * 100)
  }

  /** `int(amount * m)`: the exact product truncated toward zero. */
  function TruncScale(amount: int, m: Ratio): (r: int)
    requires m.den > 0
    ensures amount * m.num >= 0 ==> 0 <= r && r * m.den <= amount * m.num < (r + 1) * m.den
    ensures amount * m.num < 0 ==> r <= 0 && (r - 1) * m.den < amount * m.num <= r * m.den
  {
    TruncFacts(amount * m.num, m.den);
    var p := amount * m.num;
    if p >= 0 then p / m.den else -((-p) / m.den)
  }

  /** Truncating division of `p` by a positive `d` lies within one step of `p`. */
  lemma TruncFacts(p: int, d: int)
    requires d > 0
    ensures var r := if p >= 0 then p / d else -((-p) / d);
      && (p >= 0 ==> 0 <= r && r * d <= p < (r + 1) * d)
      && (p < 0 ==> r <= 0 && (r - 1) * d < p <= r * d)
  {
    var a := if p >= 0 then p else -p;
    var q := a / d;
    assert a == d * q + a % d && 0 <= a % d < d;
    assert (q + 1) * d == q * d + d;
    assert q * d == d * q;
    assert 0 <= q by {
      if q < 0 {
        MulMonotonic(q, -1, d);
        assert false;
      }
    }
    if p < 0 {
      assert (-q) * d == -(q * d);
      assert (-q - 1) * d == -((q + 1) * d);
    }
  }

  /** The description gets the multiplier attached exactly when the multiplier is not 1. */
  function Annotate(text: string, m: Ratio): LogText
  {
    if m.num != m.den then WithMultiplier(text, m) else Plain(text)
  }

  // ---------------------------------------------------------------------
  // Level check and bonus

  datatype LevelCheck =
    | LevelUp(oldLevel: int, newLevel: int, expRemaining: int, bonus: Bonus)
    | NoLevelUp(currentLevel: int, expRemaining: int)

  /**
   * Re-derives the level from total EXP. The level only moves up, to the
   * highest level reached; a level-up restarts the progress at the EXP beyond
   * that level's threshold (never below 0); otherwise the user is untouched.
   */
  function CheckLevelUpSpec(levels: seq<LevelRow>, u: UserRow): (r: (UserRow, LevelCheck))
    ensures r.0 == u.(currentLevel := r.0.currentLevel, currentExp := r.0.currentExp)
    ensures r.0.currentLevel >= u.currentLevel
    ensures r.1.LevelUp? <==> r.0.currentLevel > u.currentLevel
    ensures r.1.LevelUp? ==>
      && r.1.oldLevel == u.currentLevel && r.1.newLevel == r.0.currentLevel
      && (exists row :: row in levels && row.level == r.0.currentLevel && row.expRequired <= u.totalExp
                        && r.0.currentExp == Max(0, u.totalExp - row.expRequired))
      && r.0.currentExp >= 0
    ensures r.1.NoLevelUp? ==> r.0 == u && r.1.currentLevel == u.currentLevel && r.1.expRemaining >= 0
    ensures forall row :: row in levels && row.expRequired <= u.totalExp ==> row.level <= r.0.currentLevel
  {
    var found := HighestReached(levels, u.totalExp);
    if found.Some? && found.value.level > u.currentLevel then
      var row := found.value;
      (u.(currentLevel := row.level, currentExp := Max(0, u.totalExp - row.expRequired)),
       LevelUp(u.currentLevel, row.level, u.totalExp - row.expRequired, CalculateBonus(levels, row.level)))
    else
      var cur := FindLevel(levels, u.currentLevel);
      var remaining := if cur.Some? then u.totalExp - cur.value.expRequired else u.totalExp;
      (u, NoLevelUp(u.currentLevel, Max(0, remaining)))
  }

  /**
   * The EXP remaining that check_level_up reports: on a level-up, the total
   * beyond the reached level's requirement, unclamped (only the stored
   * progress is clamped at 0), with that level's bonus; otherwise the total
   * beyond the current level's requirement, or the whole total when the
   * current level has no row, clamped at 0.
   */
  lemma CheckLevelUpRemaining(levels: seq<LevelRow>, u: UserRow)
    ensures var r := CheckLevelUpSpec(levels, u);
      r.1.LevelUp? ==>
      && HighestReached(levels, u.totalExp).Some?
      && HighestReached(levels, u.totalExp).value.level == r.1.newLevel
      && r.1.expRemaining == u.totalExp - HighestReached(levels, u.totalExp).value.expRequired
      && r.0.currentExp == Max(0, r.1.expRemaining)
      && r.1.bonus == CalculateBonus(levels, r.1.newLevel)
    ensures var r := CheckLevelUpSpec(levels, u);
      r.1.NoLevelUp? ==>
      && (FindLevel(levels, u.currentLevel).Some? ==>
            r.1.expRemaining == Max(0, u.totalExp - FindLevel(levels, u.currentLevel).value.expRequired))
      && (FindLevel(levels, u.currentLevel).None? ==> r.1.expRemaining == Max(0, u.totalExp))
  {
  }

  /** Adds the level's bonus to honor, with no upper cap. */
  function ApplyLevelBonusSpec(levels: seq<LevelRow>, u: UserRow, level: int): (UserRow, Bonus)
  {
    var b := CalculateBonus(levels, level);
    (u.(honorPoints := u.honorPoints + b.honorPoints), b)
  }

  // ---------------------------------------------------------------------
  // add_exp

  datatype AddExpResult = AddExpResult(
    newExp: int,
    newTotalExp: int,
    levelUp: bool,
    newLevel: Option<int>,
    oldLevel: Option<int>,
    expMultiplier: Ratio,
    originalAmount: int,
    actualAmount: int)

  /**
   * The whole effect of add_exp on the tables and the user: expired effects
   * are switched off, the amount is scaled by the combined multiplier, both
   * EXP counters move by the scaled amount, one log entry records it, and a
   * level-up adds the bonus and a second, zero-EXP log entry.
   */
  function AddExpSpec(t: Tables, u: UserRow, amount: int, activity: Activity, text: string, now: int): (r: After<AddExpResult>)
    requires u.pk.Some?
    ensures r.tables.levels == t.levels && r.tables.punishments == t.punishments
    ensures r.tables.attendances == t.attendances
    ensures r.user.pk == u.pk && r.user.role == u.role
    ensures r.user.isStaff == u.isStaff && r.user.isSuperuser == u.isSuperuser
  {
    var c := CreditSpec(t, u, amount, activity, text, now);
    PromoteSpec(c.tables, c.user, c.value.0, amount, c.value.1)
  }

  /**
   * The first half of add_exp: expired effects are switched off, the amount is
   * scaled by the combined multiplier, both EXP counters move by the scaled
   * amount and one log entry records it. The value is the multiplier and the
   * scaled amount.
   */
  function CreditSpec(t: Tables, u: UserRow, amount: int, activity: Activity, text: string, now: int): (r: After<(Ratio, int)>)
    requires u.pk.Some?
  {
    var uid := u.pk.value;
    var m := CombinedMultiplier(t.effects, uid, now, u.honorPoints);
    var actual := TruncScale(amount, m);
    After(t.(effects := ExpireEffects(t.effects, uid, now),
             expLogs := t.expLogs + [ExpLog(uid, activity, actual, Annotate(text, m))]),
          u.(currentExp := u.currentExp + actual, totalExp := u.totalExp + actual),
          (m, actual))
  }

  /**
   * The second half of add_exp: the level check, and on a level-up the bonus
   * and a second, zero-EXP log entry.
   */
  function PromoteSpec(t: Tables, u: UserRow, m: Ratio, amount: int, actual: int): (r: After<AddExpResult>)
    requires u.pk.Some?
  {
    var uid := u.pk.value;
    var check := CheckLevelUpSpec(t.levels, u);
    var lc := check.1;
    if lc.LevelUp? then
      var rewarded := ApplyLevelBonusSpec(t.levels, check.0, lc.newLevel);
      var note := ExpLog(uid, BonusActivity, 0, LevelUpNote(lc.oldLevel, lc.newLevel, rewarded.1.honorPoints));
      After(t.(expLogs := t.expLogs + [note]), rewarded.0,
            AddExpResult(rewarded.0.currentExp, rewarded.0.totalExp, true, Some(lc.newLevel), Some(lc.oldLevel), m, amount, actual))
    else
      After(t, check.0,
            AddExpResult(check.0.currentExp, check.0.totalExp, false, None, None, m, amount, actual))
  }

  /** check_level_up on a user object. */
  method CheckLevelUp(db: Store, u: User) returns (r: LevelCheck)
    modifies u
    ensures (u.Row(), r) == CheckLevelUpSpec(db.levels, old(u.Row()))
  {
    var found := HighestReached(db.levels, u.totalExp);
    if found.Some? && found.value.level > u.currentLevel {
      var oldLevel := u.currentLevel;
      u.currentLevel := found.value.level;
      var remaining := u.totalExp - found.value.expRequired;
      u.currentExp := Max(0, remaining);
      r := LevelUp(oldLevel, found.value.level, remaining, CalculateBonus(db.levels, found.value.level));
    } else {
      var cur := FindLevel(db.levels, u.currentLevel);
      var remaining := if cur.Some? then u.totalExp - cur.value.expRequired else u.totalExp;
      r := NoLevelUp(u.currentLevel, Max(0, remaining));
    }
  }

  /** apply_level_bonus on a user object. */
  method ApplyLevelBonus(db: Store, u: User, level: int) returns (b: Bonus)
    modifies u
    ensures (u.Row(), b) == ApplyLevelBonusSpec(db.levels, old(u.Row()), level)
  {
    b := CalculateBonus(db.levels, level);
    u.honorPoints := u.honorPoints + b.honorPoints;
  }

  /**
   * The effect loop at the start of add_exp: each active effect of the user
   * is switched off when expired and otherwise multiplies the product.
   */
  method ActiveEffectsMultiplier(db: Store, uid: nat, now: int) returns (m: Ratio)
    modifies db
    ensures m == EffectProduct(old(db.effects), uid, now)
    ensures db.Snapshot() == old(db.Snapshot()).(effects := ExpireEffects(old(db.effects), uid, now))
  {
    ghost var es0 := db.effects;
    var num, den := 1, 1;
    var i := 0;
    while i < |db.effects|
      invariant 0 <= i <= |db.effects| == |es0|
      invariant forall k :: 0 <= k < i ==> db.effects[k] == Settle(es0[k], uid, now)
      invariant forall k :: i <= k < |es0| ==> db.effects[k] == es0[k]
      invariant Ratio(num, den) == EffectProduct(es0[..i], uid, now)
      invariant db.Snapshot() == old(db.Snapshot()).(effects := db.effects)
    {
      var e := db.effects[i];
      assert es0[..i + 1][..i] == es0[..i];
      if e.userId == uid && e.isActive {
        if e.IsExpired(now) {
          db.Deactivate(i);
        } else {
          num := num * e.expMultiplier;
          den := den * 100;
        }
      }
      i := i + 1;
    }
    assert es0[..i] == es0;
    assert db.effects == ExpireEffects(es0, uid, now);
    m := Ratio(num, den);
  }

  /** The crediting half of add_exp on the store and the user object. */
  method Credit(db: Store, u: User, amount: int, activity: Activity, text: string, now: int) returns (m: Ratio, actual: int)
    requires u.pk.Some?
    modifies db, u
    ensures After(db.Snapshot(), u.Row(), (m, actual)) == CreditSpec(old(db.Snapshot()), old(u.Row()), amount, activity, text, now)
  {
    var uid := u.pk.value;
    var product := ActiveEffectsMultiplier(db, uid, now);
    var tier := CheckHonorPrivileges(u.honorPoints);
    m := Ratio(product.num * tier.expMultiplierBonus, product.den * 100);
    actual := TruncScale(amount, m);
    u.currentExp := u.currentExp + actual;
    u.totalExp := u.totalExp + actual;
    db.expLogs := db.expLogs + [ExpLog(uid, activity, actual, Annotate(text, m))];
  }

  /** The level-up half of add_exp on the store and the user object. */
  method Promote(db: Store, u: User, m: Ratio, amount: int, actual: int) returns (r: AddExpResult)
    requires u.pk.Some?
    modifies db, u
    ensures After(db.Snapshot(), u.Row(), r) == PromoteSpec(old(db.Snapshot()), old(u.Row()), m, amount, actual)
  {
    var check := CheckLevelUp(db, u);
    if check.LevelUp? {
      var bonus := ApplyLevelBonus(db, u, check.newLevel);
      db.expLogs := db.expLogs + [ExpLog(u.pk.value, BonusActivity, 0, LevelUpNote(check.oldLevel, check.newLevel, bonus.honorPoints))];
      r := AddExpResult(u.currentExp, u.totalExp, true, Some(check.newLevel), Some(check.oldLevel), m, amount, actual);
    } else {
      r := AddExpResult(u.currentExp, u.totalExp, false, None, None, m, amount, actual);
    }
  }

  /** add_exp: one atomic step on the store and the user object. */
  method AddExp(db: Store, u: User, amount: int, activity: Activity, text: string, now: int) returns (r: AddExpResult)
    requires u.pk.Some?
    modifies db, u
    ensures After(db.Snapshot(), u.Row(), r) == AddExpSpec(old(db.Snapshot()), old(u.Row()), amount, activity, text, now)
  {
    var m, actual := Credit(db, u, amount, activity, text, now);
    r := Promote(db, u, m, amount, actual);
  }

  // ---------------------------------------------------------------------
  // Properties of the multiplier

  /** Settling an effect never changes whether it scales EXP now. */
  lemma SettleKeepsMultiplying(e: StatusEffect, uid: nat, now: int)
    ensures Multiplies(Settle(e, uid, now), uid, now) == Multiplies(e, uid, now)
  {
  }

  /**
   * The lazy expiry does not change the multiplier: reading it again right
   * after add_exp switched the expired effects off gives the same product.
   */
  lemma {:induction false} EffectProductIgnoresExpired(es: seq<StatusEffect>, uid: nat, now: int)
    ensures EffectProduct(ExpireEffects(es, uid, now), uid, now) == EffectProduct(es, uid, now)
    decreases |es|
  {
    if es != [] {
      var n := |es|;
      var xs := ExpireEffects(es, uid, now);
      assert xs[..n - 1] == ExpireEffects(es[..n - 1], uid, now);
      EffectProductIgnoresExpired(es[..n - 1], uid, now);
      SettleKeepsMultiplying(es[n - 1], uid, now);
    }
  }

  /** Switching expired effects off twice is the same as once. */
  lemma ExpireEffectsIdempotent(es: seq<StatusEffect>, uid: nat, now: int)
    ensures ExpireEffects(ExpireEffects(es, uid, now), uid, now) == ExpireEffects(es, uid, now)
  {
  }

  /** With no effect of the user scaling EXP now, the product is exactly 1. */
  lemma {:induction false} NoEffectsNeutral(es: seq<StatusEffect>, uid: nat, now: int)
    requires forall k :: 0 <= k < |es| ==> !Multiplies(es[k], uid, now)
    ensures EffectProduct(es, uid, now) == Ratio(1, 1)
    decreases |es|
  {
    if es != [] {
      NoEffectsNeutral(es[..|es| - 1], uid, now);
    }
  }

  /** With no negative effect multiplier in the table, the product is never negative. */
  lemma {:induction false} EffectProductNonNegative(es: seq<StatusEffect>, uid: nat, now: int)
    requires forall k :: 0 <= k < |es| ==> es[k].expMultiplier >= 0
    ensures EffectProduct(es, uid, now).num >= 0
    decreases |es|
  {
    if es != [] {
      EffectProductNonNegative(es[..|es| - 1], uid, now);
      var m := EffectProduct(es[..|es| - 1], uid, now);
      assert m.num * es[|es| - 1].expMultiplier >= 0;
    }
  }

  /** A multiplier of exactly 1 leaves the amount as it is. */
  lemma TruncScaleByOne(amount: int, m: Ratio)
    requires m.den > 0 && m.num == m.den
    ensures TruncScale(amount, m) == amount
  {
    var r := TruncScale(amount, m);
    if amount >= 0 {
      MulMonotonic(0, amount, m.den);
      MulLessCancel(amount, r + 1, m.den);
      if r > amount {
        MulMonotonic(amount + 1, r, m.den);
        assert false;
      }
    } else {
      if amount * m.den >= 0 {
        MulMonotonic(amount, -1, m.den);
        assert false;
      }
      MulLessCancel(r - 1, amount, m.den);
      if r < amount {
        MulMonotonic(r, amount - 1, m.den);
        assert false;
      }
    }
  }

  /** A strict order of products by the same positive factor is the order of the other factors. */
  lemma MulLessCancel(x: int, y: int, c: int)
    requires c > 0 && x * c < y * c
    ensures x < y
  {
    if x >= y {
      MulMonotonic(y, x, c);
    }
  }

  /**
   * Truncation toward zero is symmetric: scaling -a gives exactly minus the
   * scaled a, so granting and then revoking the same amount under the same
   * multiplier cancels out.
   */
  lemma TruncScaleOdd(amount: int, m: Ratio)
    requires m.den > 0
    ensures TruncScale(-amount, m) == -TruncScale(amount, m)
  {
    assert (-amount) * m.num == -(amount * m.num);
  }

  /** A multiplier between 0 and 1 never makes the amount larger in size, nor flips its sign. */
  lemma TruncScaleShrinks(amount: int, m: Ratio)
    requires 0 <= m.num <= m.den && m.den > 0
    ensures amount >= 0 ==> 0 <= TruncScale(amount, m) <= amount
    ensures amount < 0 ==> amount <= TruncScale(amount, m) <= 0
  {
    var a := if amount >= 0 then amount else -amount;
    MulMonotonic(m.num, m.den, a);
    var q := (a * m.num) / m.den;
    assert q * m.den <= a * m.num;
    if q > a {
      MulMonotonic(a + 1, q, m.den);
      assert false;
    }
    assert (-amount) * m.num == -(amount * m.num);
  }

  /** Multiplying by a non-negative factor keeps the order. */
  lemma MulMonotonic(x: int, y: int, c: int)
    requires x <= y && c >= 0
    ensures x * c <= y * c
  {
  }

  // ---------------------------------------------------------------------
  // Properties of add_exp

  /** No row the user's total EXP reaches is above the user's level. */
  predicate LevelCeiling(levels: seq<LevelRow>, u: UserRow)
  {
    forall row :: row in levels && row.expRequired <= u.totalExp ==> row.level <= u.currentLevel
  }

  /**
   * The ledger entries of add_exp: the amount is scaled by the combined
   * multiplier and truncated; both EXP counters move by it; the first new log
   * entry records it under the activity, with the multiplier attached exactly
   * when it is not 1; a level-up appends one more, zero-EXP bonus entry.
   */
  lemma AddExpLedger(t: Tables, u: UserRow, amount: int, activity: Activity, text: string, now: int)
    requires u.pk.Some?
    ensures var r := AddExpSpec(t, u, amount, activity, text, now);
      var m := CombinedMultiplier(t.effects, u.pk.value, now, u.honorPoints);
      && r.value.expMultiplier == m
      && r.value.originalAmount == amount
      && r.value.actualAmount == TruncScale(amount, m)
      && r.user.totalExp == u.totalExp + r.value.actualAmount
      && r.value.newTotalExp == r.user.totalExp && r.value.newExp == r.user.currentExp
      && r.tables.effects == ExpireEffects(t.effects, u.pk.value, now)
      && |r.tables.expLogs| == |t.expLogs| + (if r.value.levelUp then 2 else 1)
      && r.tables.expLogs[..|t.expLogs|] == t.expLogs
      && r.tables.expLogs[|t.expLogs|] == ExpLog(u.pk.value, activity, r.value.actualAmount, Annotate(text, m))
      && (r.tables.expLogs[|t.expLogs|].description.WithMultiplier? <==> m.num != m.den)
  {
  }

  /** The total EXP after add_exp credits `amount`. */
  function CreditedTotal(t: Tables, u: UserRow, amount: int, now: int): int
    requires u.pk.Some?
  {
    u.totalExp + TruncScale(amount, CombinedMultiplier(t.effects, u.pk.value, now, u.honorPoints))
  }

  /**
   * The level-up case of add_exp: when the new total reaches a row above the
   * current level, the user moves to the highest such row, the progress
   * restarts past its threshold, the formula bonus is added to honor and the
   * level-up entry is logged last.
   */
  lemma AddExpLevelUp(t: Tables, u: UserRow, amount: int, activity: Activity, text: string, now: int)
    requires u.pk.Some?
    requires var top := HighestReached(t.levels, CreditedTotal(t, u, amount, now));
      top.Some? && top.value.level > u.currentLevel
    ensures var r := AddExpSpec(t, u, amount, activity, text, now);
      var total := CreditedTotal(t, u, amount, now);
      var top := HighestReached(t.levels, total).value;
      && r.value.levelUp
      && r.value.oldLevel == Some(u.currentLevel) && r.value.newLevel == Some(top.level)
      && r.user.currentLevel == top.level
      && r.user.currentExp == Max(0, total - top.expRequired)
      && r.user.totalExp == total
      && r.user.honorPoints == u.honorPoints + HonorBonusFor(top.level)
      && r.tables.expLogs[|r.tables.expLogs| - 1]
           == ExpLog(u.pk.value, BonusActivity, 0, LevelUpNote(u.currentLevel, top.level, HonorBonusFor(top.level)))
  {
    var top := HighestReached(t.levels, CreditedTotal(t, u, amount, now)).value;
    assert FindLevel(t.levels, top.level).Some?;
  }

  /**
   * The case without level-up: when the new total reaches no row above the
   * current level, only the two EXP counters move, by the scaled amount.
   */
  lemma AddExpNoLevelUp(t: Tables, u: UserRow, amount: int, activity: Activity, text: string, now: int)
    requires u.pk.Some?
    requires var top := HighestReached(t.levels, CreditedTotal(t, u, amount, now));
      top.None? || top.value.level <= u.currentLevel
    ensures var r := AddExpSpec(t, u, amount, activity, text, now);
      var total := CreditedTotal(t, u, amount, now);
      && !r.value.levelUp && r.value.newLevel.None? && r.value.oldLevel.None?
      && r.user == u.(currentExp := u.currentExp + (total - u.totalExp), totalExp := total)
      && |r.tables.expLogs| == |t.expLogs| + 1
  {
  }

  /** add_exp never lowers the level and never leaves a row the total reaches above the level. */
  lemma AddExpKeepsLevelCeiling(t: Tables, u: UserRow, amount: int, activity: Activity, text: string, now: int)
    requires u.pk.Some?
    ensures AddExpSpec(t, u, amount, activity, text, now).user.currentLevel >= u.currentLevel
    ensures LevelCeiling(t.levels, AddExpSpec(t, u, amount, activity, text, now).user)
  {
  }

  /**
   * A penalty never raises the level: with no negative multiplier in the
   * effects table and a user at the ceiling of what the total reaches, a
   * non-positive amount leaves the level as it is and lowers the total.
   */
  lemma PenaltyNeverLevelsUp(t: Tables, u: UserRow, amount: int, text: string, now: int)
    requires u.pk.Some?
    requires forall k :: 0 <= k < |t.effects| ==> t.effects[k].expMultiplier >= 0
    requires LevelCeiling(t.levels, u)
    requires amount <= 0
    ensures var r := AddExpSpec(t, u, amount, OtherActivity, text, now);
      && !r.value.levelUp
      && r.user.currentLevel == u.currentLevel
      && r.user.honorPoints == u.honorPoints
      && r.user.totalExp <= u.totalExp
  {
    var c := CreditSpec(t, u, amount, OtherActivity, text, now);
    PenaltyScalesToPenalty(t.effects, u.pk.value, now, u.honorPoints, amount);
    assert c.user.totalExp <= u.totalExp && c.user.currentLevel == u.currentLevel;
    assert LevelCeiling(t.levels, c.user);
    assert c.tables.levels == t.levels;
    assert CheckLevelUpSpec(t.levels, c.user).1.NoLevelUp?;
  }

  /** With no negative effect multiplier, a non-positive amount scales to a non-positive amount. */
  lemma PenaltyScalesToPenalty(es: seq<StatusEffect>, uid: nat, now: int, honor: int, amount: int)
    requires forall k :: 0 <= k < |es| ==> es[k].expMultiplier >= 0
    requires amount <= 0
    ensures TruncScale(amount, CombinedMultiplier(es, uid, now, honor)) <= 0
  {
    EffectProductNonNegative(es, uid, now);
    var p := EffectProduct(es, uid, now);
    var m := CombinedMultiplier(es, uid, now, honor);
    assert m.num == p.num * CheckHonorPrivileges(honor).expMultiplierBonus;
    assert m.num >= 0;
    assert amount * m.num <= 0;
  }

  /**
   * A grant and the opposite penalty under the same combined multiplier move
   * the total EXP by opposite amounts, so they cancel out exactly.
   */
  lemma OppositeGrantsCancel(t1: Tables, u1: UserRow, t2: Tables, u2: UserRow, amount: int,
                             a1: Activity, a2: Activity, text1: string, text2: string, now1: int, now2: int)
    requires u1.pk.Some? && u2.pk.Some?
    requires CombinedMultiplier(t1.effects, u1.pk.value, now1, u1.honorPoints)
          == CombinedMultiplier(t2.effects, u2.pk.value, now2, u2.honorPoints)
    ensures (AddExpSpec(t1, u1, amount, a1, text1, now1).user.totalExp - u1.totalExp)
          + (AddExpSpec(t2, u2, -amount, a2, text2, now2).user.totalExp - u2.totalExp) == 0
  {
    AddExpLedger(t1, u1, amount, a1, text1, now1);
    AddExpLedger(t2, u2, -amount, a2, text2, now2);
    TruncScaleOdd(amount, CombinedMultiplier(t1.effects, u1.pk.value, now1, u1.honorPoints));
  }

  /** A player in the respected tier (400 to 599 honor) with no effect scaling EXP gets the amount exactly. */
  lemma RespectedGrantIsExact(t: Tables, u: UserRow, amount: int, activity: Activity, text: string, now: int)
    requires u.pk.Some? && 400 <= u.honorPoints < 600
    requires forall k :: 0 <= k < |t.effects| ==> !Multiplies(t.effects[k], u.pk.value, now)
    ensures var r := AddExpSpec(t, u, amount, activity, text, now);
      && r.value.actualAmount == amount
      && r.tables.expLogs[|t.expLogs|] == ExpLog(u.pk.value, activity, amount, Plain(text))
  {
    NoEffectsNeutral(t.effects, u.pk.value, now);
    TruncScaleByOne(amount, Ratio(100, 100));
  }

  /** A small level table: level 1 from 0 EXP, level 2 from 100, level 3 from 250. */
  function SampleLevels(): seq<LevelRow>
  {
    [LevelRow(1, 0, None), LevelRow(2, 100, None), LevelRow(3, 250, None)]
  }

  /** A level-1 player with 95 EXP and 500 honor who gains 10 reaches level 2 with 5 EXP of progress and 520 honor. */
  lemma LevelUpExample()
    ensures var u := UserRow(Some(7), "player", false, false, 95, 1, 95, 500);
      var r := AddExpSpec(Tables(SampleLevels(), [], [], [], []), u, 10, Quest, "Quest", 0);
      && r.value.actualAmount == 10 && r.value.levelUp
      && r.user.currentLevel == 2 && r.user.currentExp == 5 && r.user.totalExp == 105
      && r.user.honorPoints == 520
      && r.tables.expLogs == [ExpLog(7, Quest, 10, Plain("Quest")), ExpLog(7, BonusActivity, 0, LevelUpNote(1, 2, 20))]
  {
    var u := UserRow(Some(7), "player", false, false, 95, 1, 95, 500);
    TruncScaleByOne(10, Ratio(100, 100));
  }

  /**
   * Skipping levels pays only the bonus of the level reached: a jump from
   * level 1 to 3 adds the level-3 bonus (30) and not the level-2 one.
   */
  lemma SkippedLevelsForfeitBonus()
    ensures var u := UserRow(Some(7), "player", false, false, 0, 1, 0, 500);
      var r := AddExpSpec(Tables(SampleLevels(), [], [], [], []), u, 250, Quest, "Quest", 0);
      && r.user.currentLevel == 3 && r.user.currentExp == 0
      && r.user.honorPoints == 530
      && |r.tables.expLogs| == 2
  {
    TruncScaleByOne(250, Ratio(100, 100));
  }

  /** Honor is not capped at 1000 by a level-up: 1000 honor becomes 1020 on reaching level 2. */
  lemma LevelUpHonorUncapped()
    ensures var u := UserRow(Some(7), "player", false, false, 0, 1, 0, 1000);
      AddExpSpec(Tables(SampleLevels(), [], [], [], []), u, 100, Quest, "Quest", 0).user.honorPoints == 1020
  {
    assert CombinedMultiplier([], 7, 0, 1000) == Ratio(120, 100);
  }

  /**
   * A penalty can leave the level above what the total EXP supports: a level-2
   * player at exactly 100 EXP who loses 50 stays at level 2 with 50 total, while
   * the highest level that total reaches is 1.
   */
  lemma PenaltyCanLeaveLevelUnearned()
    ensures var u := UserRow(Some(7), "player", false, false, 0, 2, 100, 500);
      var r := AddExpSpec(Tables(SampleLevels(), [], [], [], []), u, -50, OtherActivity, "Penalty", 0);
      && r.user.currentLevel == 2 && r.user.totalExp == 50
      && HighestReached(SampleLevels(), r.user.totalExp) == Some(LevelRow(1, 0, None))
  {
    TruncScaleByOne(-50, Ratio(100, 100));
  }
}
