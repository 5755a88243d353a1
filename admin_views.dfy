/**
 * The three admin views of core/views.py that change progression state:
 * grading a sidequest submission (grade_submission), creating a boss battle
 * (BossCreateView) and resolving a punishment (resolve_punishment).
 * Rendering, flash messages and redirects are reduced to an outcome value.
 */
module AdminViews {
  import opened Common
  import opened Accounts
  import opened Models
  import opened HonorTiers
  import opened BossScore
  import opened ExpLedger
  import opened Punishments
  import opened Forms

  // ---------------------------------------------------------------------
  // grade_submission

  /** The value of a sidequest submission. */
  datatype SubmissionRow = SubmissionRow(
    userId: nat,
    quest: Sidequest,
    submittedAt: int,
    grade: Option<int>,
    expEarned: int,
    feedback: string)

  /** A submission object; grading assigns its grade, feedback and EXP earned. */
  class Submission {
    const userId: nat
    const quest: Sidequest
    const submittedAt: int
    var grade: Option<int>
    var expEarned: int
    var feedback: string

    function Row(): SubmissionRow
      reads this
    {
      SubmissionRow(userId, quest, submittedAt, grade, expEarned, feedback)
    }

    constructor (userId: nat, quest: Sidequest, submittedAt: int)
      ensures Row() == SubmissionRow(userId, quest, submittedAt, None, 0, "")
    {
      this.userId := userId;
      this.quest := quest;
      this.submittedAt := submittedAt;
      grade := None;
      expEarned := 0;
      feedback := "";
    }
  }

  /** A page view, or a posted grading form. */
  datatype GradeRequest = ShowGradeForm | PostGrade(grade: Option<int>, feedback: string)

  datatype GradeOutcome =
    | GradeDenied
    | SubmissionNotFound
    | GradeFormShown
    | GradeRejected(errors: seq<string>)
    | Graded(granted: Option<int>)

  /** The tables, the submission's owner and the submission after the view. */
  datatype GradeResult = GradeResult(tables: Tables, owner: UserRow, submission: Option<SubmissionRow>, outcome: GradeOutcome)

  function GradeText(title: string, grade: int): string
  {
    "Graded sidequest: " + title + " (Grade: " + IntToString(grade) + ")"
  }

  /**
   * Saving a valid form. `before` is the grade the view compares with: a
   * grant happens only when a grade is set and `before` is missing, and then
   * the submission's reward (the late one for a late submission) goes
   * through the EXP ledger as an assignment.
   */
  function SaveGrade(t: Tables, owner: UserRow, s: SubmissionRow, input: GradeInput, before: Option<int>, now: int)
    : (r: GradeResult)
    requires owner.pk == Some(s.userId)
    ensures r.submission.Some?
    ensures r.submission.value.grade == input.grade && r.submission.value.feedback == input.feedback
    ensures r.outcome.Graded?
    ensures r.outcome.granted.Some? <==> input.grade.Some? && before.None?
    ensures r.outcome.granted.Some? ==>
      && r.outcome.granted.value == GetExpReward(s.submittedAt, s.quest)
      && r.submission.value.expEarned == r.outcome.granted.value
    ensures r.outcome.granted.None? ==> r.tables == t && r.owner == owner && r.submission.value.expEarned == s.expEarned
    ensures r.tables.levels == t.levels && r.tables.punishments == t.punishments && r.tables.attendances == t.attendances
    ensures r.owner.pk == owner.pk
  {
    var saved := s.(grade := input.grade, feedback := input.feedback);
    if input.grade.Some? && before.None? then
      var reward := GetExpReward(s.submittedAt, s.quest);
      var g := AddExpSpec(t, owner, reward, Assignment, GradeText(s.quest.title, input.grade.value), now);
      GradeResult(g.tables, g.user, Some(saved.(expEarned := reward)), Graded(Some(reward)))
    else
      GradeResult(t, owner, Some(saved), Graded(None))
  }

  /**
   * The view around the save: admins only, then the submission must exist,
   * then a posted form must be valid. `bindFirst` says whether the grade is
   * compared after the form has copied its data onto the submission.
   */
  function GradeView(t: Tables, actor: UserRow, owner: UserRow, sub: Option<SubmissionRow>, req: GradeRequest,
                     now: int, bindFirst: bool): (r: GradeResult)
    requires sub.Some? ==> owner.pk == Some(sub.value.userId)
    ensures r.outcome == GradeDenied <==> !actor.IsAdmin()
    ensures r.outcome == SubmissionNotFound <==> actor.IsAdmin() && sub.None?
    ensures r.outcome.GradeRejected? <==>
      actor.IsAdmin() && sub.Some? && req.PostGrade? && CleanGradeForm(req.grade, req.feedback).Err?
    ensures !r.outcome.Graded? ==> r.tables == t && r.owner == owner && r.submission == sub
  {
    if !actor.IsAdmin() then GradeResult(t, owner, sub, GradeDenied)
    else if sub.None? then GradeResult(t, owner, sub, SubmissionNotFound)
    else if req.ShowGradeForm? then GradeResult(t, owner, sub, GradeFormShown)
    else
      match CleanGradeForm(req.grade, req.feedback)
      case Err(errors) => GradeResult(t, owner, sub, GradeRejected(errors))
      case Ok(input) =>
        var s := sub.value;
        SaveGrade(t, owner, s, input, if bindFirst then input.grade else s.grade, now)
  }

  /**
   * grade_submission as intended: the grade held before the form is saved is
   * compared with the new one, so the first grade grants the reward once.
   */
  function GradeSubmissionSpec(t: Tables, actor: UserRow, owner: UserRow, sub: Option<SubmissionRow>, req: GradeRequest,
                               now: int): (r: GradeResult)
    requires sub.Some? ==> owner.pk == Some(sub.value.userId)
    ensures r.outcome.Graded? && r.outcome.granted.Some? <==>
      && actor.IsAdmin() && sub.Some? && req.PostGrade? && CleanGradeForm(req.grade, req.feedback).Ok?
      && sub.value.grade.None? && req.grade.Some?
    ensures r.outcome.Graded? ==> sub.Some? && req.PostGrade? && r.submission.Some?
    ensures r.outcome.Graded? && r.outcome.granted.Some? ==>
      r.outcome.granted.value == GetExpReward(sub.value.submittedAt, sub.value.quest)
    ensures r.outcome.Graded? ==>
      r.submission.value == sub.value.(grade := req.grade, feedback := Strip(req.feedback),
                                       expEarned := if r.outcome.granted.Some? then GetExpReward(sub.value.submittedAt, sub.value.quest)
                                                    else sub.value.expEarned)
  {
    GradeView(t, actor, owner, sub, req, now, false)
  }

  /**
   * grade_submission as written: the form's validation has already copied
   * the new grade onto the submission when the old grade is read, so the
   * comparison sees the new grade twice.
   */
  function GradeSubmissionAsWritten(t: Tables, actor: UserRow, owner: UserRow, sub: Option<SubmissionRow>,
                                    req: GradeRequest, now: int): (r: GradeResult)
    requires sub.Some? ==> owner.pk == Some(sub.value.userId)
    ensures r.outcome.Graded? <==>
      actor.IsAdmin() && sub.Some? && req.PostGrade? && CleanGradeForm(req.grade, req.feedback).Ok?
  {
    GradeView(t, actor, owner, sub, req, now, true)
  }

  /** As written, grading never moves EXP: no input makes the view grant anything. */
  lemma GradeAsWrittenNeverGrants(t: Tables, actor: UserRow, owner: UserRow, sub: Option<SubmissionRow>,
                                  req: GradeRequest, now: int)
    requires sub.Some? ==> owner.pk == Some(sub.value.userId)
    ensures var r := GradeSubmissionAsWritten(t, actor, owner, sub, req, now);
      && r.tables == t && r.owner == owner
      && (r.outcome.Graded? ==> r.outcome.granted.None?)
  {
  }

  /**
   * The first valid grade of a submission credits the submission's reward
   * (the late one for a late submission) through the EXP ledger.
   */
  lemma FirstGradeGrants(t: Tables, actor: UserRow, owner: UserRow, s: SubmissionRow, g: int, feedback: string, now: int)
    requires owner.pk == Some(s.userId) && actor.IsAdmin() && s.grade.None?
    requires 0 <= g <= 100 && |Strip(feedback)| <= MaxFeedbackLength
    ensures var r := GradeSubmissionSpec(t, actor, owner, Some(s), PostGrade(Some(g), feedback), now);
      && r.outcome == Graded(Some(GetExpReward(s.submittedAt, s.quest)))
      && r.owner.totalExp == CreditedTotal(t, owner, GetExpReward(s.submittedAt, s.quest), now)
  {
    var input := GradeInput(Some(g), Strip(feedback));
    assert CleanGradeForm(Some(g), feedback) == Ok(input);
    assert GradeSubmissionSpec(t, actor, owner, Some(s), PostGrade(Some(g), feedback), now)
        == SaveGrade(t, owner, s, input, None, now);
    SaveGradeCredits(t, owner, s, input, now);
  }

  /** A grant made by saving a grade goes through the EXP ledger. */
  lemma SaveGradeCredits(t: Tables, owner: UserRow, s: SubmissionRow, input: GradeInput, now: int)
    requires owner.pk == Some(s.userId) && input.grade.Some?
    ensures SaveGrade(t, owner, s, input, None, now).owner.totalExp
         == CreditedTotal(t, owner, GetExpReward(s.submittedAt, s.quest), now)
  {
    AddExpLedger(t, owner, GetExpReward(s.submittedAt, s.quest), Assignment, GradeText(s.quest.title, input.grade.value), now);
  }

  /** The same first grade, as written, credits nothing and leaves the owner as it was. */
  lemma FirstGradeDiscrepancy(t: Tables, actor: UserRow, owner: UserRow, s: SubmissionRow, g: int, feedback: string, now: int)
    requires owner.pk == Some(s.userId) && actor.IsAdmin() && s.grade.None?
    requires 0 <= g <= 100 && |Strip(feedback)| <= MaxFeedbackLength
    ensures GradeSubmissionSpec(t, actor, owner, Some(s), PostGrade(Some(g), feedback), now).outcome.granted.Some?
    ensures var w := GradeSubmissionAsWritten(t, actor, owner, Some(s), PostGrade(Some(g), feedback), now);
      w.outcome == Graded(None) && w.owner == owner && w.tables == t
  {
  }

  /** Re-grading an already graded submission only rewrites the grade and the feedback. */
  lemma RegradeGrantsNothing(t: Tables, actor: UserRow, owner: UserRow, s: SubmissionRow, req: GradeRequest, now: int)
    requires owner.pk == Some(s.userId) && s.grade.Some?
    ensures var r := GradeSubmissionSpec(t, actor, owner, Some(s), req, now);
      && r.tables == t && r.owner == owner
      && (r.outcome.Graded? ==> r.outcome.granted.None? && r.submission.value.expEarned == s.expEarned)
  {
  }

  /** Once a grade has granted the reward, grading the same submission again grants nothing. */
  lemma GradeGrantsOnce(t: Tables, actor: UserRow, owner: UserRow, s: SubmissionRow, req1: GradeRequest,
                        req2: GradeRequest, now1: int, now2: int)
    requires owner.pk == Some(s.userId)
    requires GradeSubmissionSpec(t, actor, owner, Some(s), req1, now1).outcome == Graded(Some(GetExpReward(s.submittedAt, s.quest)))
    ensures var r1 := GradeSubmissionSpec(t, actor, owner, Some(s), req1, now1);
      var r2 := GradeSubmissionSpec(r1.tables, actor, r1.owner, r1.submission, req2, now2);
      r2.tables == r1.tables && r2.owner == r1.owner
  {
    var r1 := GradeSubmissionSpec(t, actor, owner, Some(s), req1, now1);
    RegradeGrantsNothing(r1.tables, actor, r1.owner, r1.submission.value, req2, now2);
  }

  /**
   * Clearing the grade re-arms the grant: a graded submission whose grade is
   * cleared by a valid form earns its reward again on the next grade.
   */
  lemma ClearedGradeGrantsAgain(t: Tables, actor: UserRow, owner: UserRow, s: SubmissionRow, g: int, now1: int, now2: int)
    requires owner.pk == Some(s.userId) && s.grade.Some? && actor.IsAdmin() && 0 <= g <= 100
    ensures var r1 := GradeSubmissionSpec(t, actor, owner, Some(s), PostGrade(None, ""), now1);
      var r2 := GradeSubmissionSpec(r1.tables, actor, r1.owner, r1.submission, PostGrade(Some(g), ""), now2);
      r2.outcome == Graded(Some(GetExpReward(s.submittedAt, s.quest)))
  {
    assert Strip("") == "";
    assert CleanGradeForm(None, "").Ok? && CleanGradeForm(Some(g), "").Ok?;
    var r1 := GradeSubmissionSpec(t, actor, owner, Some(s), PostGrade(None, ""), now1);
    assert r1.outcome.Graded?;
    var s1 := r1.submission.value;
    assert s1.grade.None? && s1.userId == s.userId && s1.submittedAt == s.submittedAt && s1.quest == s.quest;
  }

  /** grade_submission on the store, the owner object and the submission object. */
  method GradeSubmission(db: Store, actor: UserRow, owner: User, s: Submission?, req: GradeRequest, now: int)
    returns (outcome: GradeOutcome)
    requires s != null ==> owner.pk == Some(s.userId)
    modifies db, owner, s
    ensures GradeResult(db.Snapshot(), owner.Row(), if s == null then None else Some(s.Row()), outcome)
         == GradeSubmissionSpec(old(db.Snapshot()), actor, old(owner.Row()), if s == null then None else Some(old(s.Row())),
                                req, now)
  {
    if !actor.IsAdmin() {
      return GradeDenied;
    }
    if s == null {
      return SubmissionNotFound;
    }
    if req.ShowGradeForm? {
      return GradeFormShown;
    }
    var form := CleanGradeForm(req.grade, req.feedback);
    if form.Err? {
      return GradeRejected(form.error);
    }
    var before := s.grade;
    s.grade := form.value.grade;
    s.feedback := form.value.feedback;
    if s.grade.Some? && before.None? {
      var reward := GetExpReward(s.submittedAt, s.quest);
      s.expEarned := reward;
      var granted := AddExp(db, owner, reward, Assignment, GradeText(s.quest.title, s.grade.value), now);
      outcome := Graded(Some(reward));
    } else {
      outcome := Graded(None);
    }
  }

  // ---------------------------------------------------------------------
  // BossCreateView

  const BossTypes: seq<string> := ["mini_boss", "mid_boss", "last_boss"]
  const MaxBossNameLength: nat := 200

  /** The posted boss form; missing fields are None. */
  datatype BossForm = BossForm(
    bossType: string,
    name: string,
    description: string,
    baseScore: Option<int>,
    player: Option<UserRow>,
    battleDate: Option<int>)

  /** A boss battle record as saved. */
  datatype BossRecord = BossRecord(
    bossType: string,
    name: string,
    description: string,
    baseScore: int,
    finalScore: int,
    userId: nat,
    battleDate: int,
    bonusApplied: int)

  /** The player choice is valid only for an existing user whose role is player. */
  predicate ValidPlayerChoice(player: Option<UserRow>)
  {
    player.Some? && player.value.pk.Some? && player.value.IsPlayer()
  }

  /** The field checks of the boss form, all of which must hold. */
  predicate BossFormValid(f: BossForm)
  {
    && f.bossType in BossTypes
    && Strip(f.name) != "" && |Strip(f.name)| <= MaxBossNameLength
    && Strip(f.description) != ""
    && f.baseScore.Some? && 0 <= f.baseScore.value <= 100
    && ValidPlayerChoice(f.player)
    && f.battleDate.Some?
  }

  /** The names of the fields that fail their checks, in form order. */
  function BossFormErrors(f: BossForm): (errors: seq<string>)
    ensures errors == [] <==> BossFormValid(f)
  {
    (if f.bossType in BossTypes then [] else ["type"])
    + (if Strip(f.name) != "" && |Strip(f.name)| <= MaxBossNameLength then [] else ["name"])
    + (if Strip(f.description) != "" then [] else ["description"])
    + (if f.baseScore.Some? && 0 <= f.baseScore.value <= 100 then [] else ["base_score"])
    + (if ValidPlayerChoice(f.player) then [] else ["user"])
    + (if f.battleDate.Some? then [] else ["battle_date"])
  }

  datatype BossOutcome =
    | BossDenied
    | BossRejected(errors: seq<string>)
    | BossHonorTooLow(honor: int, tier: Tier)
    | BossCreated(boss: BossRecord)

  /**
   * BossCreateView on a posted form: only an authenticated admin gets past
   * dispatch; a valid form for a player below the boss threshold is refused
   * with the player's honor and tier; otherwise the score is computed from
   * the player's level.
   */
  function CreateBoss(actor: Option<UserRow>, f: BossForm): (r: BossOutcome)
    ensures r == BossDenied <==> actor.None? || !actor.value.IsAdmin()
    ensures r.BossRejected? <==> actor.Some? && actor.value.IsAdmin() && !BossFormValid(f)
    ensures r.BossRejected? ==> r.errors != []
    ensures r.BossHonorTooLow? ==> r.honor < 200 && r.tier.Rank() < Neutral.Rank()
    ensures r.BossCreated? <==>
      actor.Some? && actor.value.IsAdmin() && BossFormValid(f)
      && CheckHonorPrivileges(f.player.value.honorPoints).canParticipateBoss
    ensures r.BossCreated? ==>
      && r.boss.userId == f.player.value.pk.value
      && r.boss.baseScore == f.baseScore.value
      && r.boss.bonusApplied == ApplyBonusRules(f.player.value.currentLevel)
      && r.boss.baseScore <= r.boss.finalScore <= 100
  {
    if actor.None? || !actor.value.IsAdmin() then BossDenied
    else
      if !BossFormValid(f) then BossRejected(BossFormErrors(f))
      else
        var player := f.player.value;
        var privileges := CheckHonorPrivileges(player.honorPoints);
        if !privileges.canParticipateBoss then BossHonorTooLow(player.honorPoints, privileges.tier)
        else
          var score := CalculateFinalScore(f.baseScore.value, player.currentLevel);
          FinalScoreInRange(f.baseScore.value, player.currentLevel);
          BossCreated(BossRecord(f.bossType, Strip(f.name), Strip(f.description), f.baseScore.value,
                                 score.finalScore, player.pk.value, f.battleDate.value, score.bonusApplied))
  }

  /**
   * Eligibility only grows with honor: a form accepted for a player is
   * accepted, with the same record, for the same player holding more honor.
   */
  lemma BossEligibilityMonotonic(actor: Option<UserRow>, f: BossForm, more: int)
    requires CreateBoss(actor, f).BossCreated?
    requires more >= f.player.value.honorPoints
    ensures CreateBoss(actor, f.(player := Some(f.player.value.(honorPoints := more)))) == CreateBoss(actor, f)
  {
    PrivilegesMonotonic(f.player.value.honorPoints, more);
  }

  /** The final score is the capped sum of the base and the level bonus. */
  lemma BossScoreIsCappedSum(actor: Option<UserRow>, f: BossForm)
    requires CreateBoss(actor, f).BossCreated?
    ensures var b := CreateBoss(actor, f).boss;
      b.finalScore == Min(100, b.baseScore + b.bonusApplied)
  {
  }

  // ---------------------------------------------------------------------
  // resolve_punishment

  /** The description prefix of the effects a punishment imposes. */
  function EffectPrefix(p: Punishment): string
  {
    "Punishment effect: " + p.description
  }

  /** The effects resolving `p` switches off: the user's active ones whose description starts with the prefix. */
  predicate Swept(e: StatusEffect, p: Punishment)
  {
    e.userId == p.userId && e.isActive && StartsWith(e.description, EffectPrefix(p))
  }

  /** The effects table after resolving `p`: swept effects are inactive, every other field and effect is kept. */
  function SweepEffects(es: seq<StatusEffect>, p: Punishment): (r: seq<StatusEffect>)
    ensures |r| == |es|
    ensures forall k :: 0 <= k < |es| ==> r[k] == es[k].(isActive := r[k].isActive)
    ensures forall k :: 0 <= k < |es| ==> (r[k].isActive <==> es[k].isActive && !Swept(es[k], p))
  {
    seq(|es|, k requires 0 <= k < |es| => if Swept(es[k], p) then es[k].(isActive := false) else es[k])
  }

  datatype ResolveRequest = ResolveShow | ResolvePost

  datatype ResolveOutcome = ResolveDenied | PunishmentNotFound | ResolveFormShown | Resolved

  /**
   * resolve_punishment: admins only, then the punishment must exist; a post
   * marks it resolved now and switches off its effects. No EXP and no honor
   * is given back, so no user is touched.
   */
  function ResolveSpec(t: Tables, actor: UserRow, idx: nat, req: ResolveRequest, now: int): (r: (Tables, ResolveOutcome))
    ensures r.1 == ResolveDenied <==> !actor.IsAdmin()
    ensures r.1 == PunishmentNotFound <==> actor.IsAdmin() && idx >= |t.punishments|
    ensures r.1 != Resolved ==> r.0 == t
    ensures r.1 == Resolved <==> actor.IsAdmin() && idx < |t.punishments| && req.ResolvePost?
    ensures r.1 == Resolved ==>
      && r.0 == t.(punishments := r.0.punishments, effects := r.0.effects)
      && r.0.punishments == t.punishments[idx := t.punishments[idx].(resolved := true, resolvedAt := Some(now))]
      && r.0.effects == SweepEffects(t.effects, t.punishments[idx])
  {
    if !actor.IsAdmin() then (t, ResolveDenied)
    else if idx >= |t.punishments| then (t, PunishmentNotFound)
    else if req.ResolveShow? then (t, ResolveFormShown)
    else
      var p := t.punishments[idx];
      (t.(punishments := t.punishments[idx := p.(resolved := true, resolvedAt := Some(now))],
          effects := SweepEffects(t.effects, p)), Resolved)
  }

  /** resolve_punishment on the store: the bulk update becomes a loop over the effects table. */
  method ResolvePunishment(db: Store, actor: UserRow, idx: nat, req: ResolveRequest, now: int) returns (outcome: ResolveOutcome)
    modifies db
    ensures (db.Snapshot(), outcome) == ResolveSpec(old(db.Snapshot()), actor, idx, req, now)
  {
    if !actor.IsAdmin() {
      return ResolveDenied;
    }
    if idx >= |db.punishments| {
      return PunishmentNotFound;
    }
    if req.ResolveShow? {
      return ResolveFormShown;
    }
    var p := db.punishments[idx];
    db.punishments := db.punishments[idx := p.(resolved := true, resolvedAt := Some(now))];
    ghost var t1 := db.Snapshot();
    var i := 0;
    while i < |db.effects|
      invariant 0 <= i <= |db.effects| == |t1.effects|
      invariant forall k :: 0 <= k < i ==> db.effects[k] == SweepEffects(t1.effects, p)[k]
      invariant forall k :: i <= k < |t1.effects| ==> db.effects[k] == t1.effects[k]
      invariant db.Snapshot() == t1.(effects := db.effects)
    {
      if Swept(db.effects[i], p) {
        db.Deactivate(i);
      }
      i := i + 1;
    }
    assert db.effects == SweepEffects(t1.effects, p);
    outcome := Resolved;
  }

  /**
   * Resolving a punishment ends the effect applying it created, and the
   * effect of any other punishment of the same user whose description
   * extends it (two absence punishments share one description): from then on
   * that effect scales no EXP.
   */
  lemma ResolveEndsEffects(t: Tables, actor: UserRow, idx: nat, q: Punishment, j: nat, start: int, later: int)
    requires actor.IsAdmin() && idx < |t.punishments| && j < |t.effects|
    requires HasEffect(q.statusEffect) && t.effects[j] == PunishmentEffect(q, start)
    requires q.userId == t.punishments[idx].userId && StartsWith(q.description, t.punishments[idx].description)
    ensures var r := ResolveSpec(t, actor, idx, ResolvePost, later);
      !Multiplies(r.0.effects[j], q.userId, later)
  {
    var p := t.punishments[idx];
    var e := t.effects[j];
    assert e.description == EffectPrefix(q);
    assert EffectPrefix(q)[..|EffectPrefix(p)|] == EffectPrefix(p) by {
      assert q.description[..|p.description|] == p.description;
    }
  }

  /** Resolving leaves alone every effect of another user and every effect without the prefix. */
  lemma ResolveSparesOthers(t: Tables, actor: UserRow, idx: nat, j: nat, now: int)
    requires idx < |t.punishments| && j < |t.effects|
    requires t.effects[j].userId != t.punishments[idx].userId
          || !StartsWith(t.effects[j].description, EffectPrefix(t.punishments[idx]))
    ensures ResolveSpec(t, actor, idx, ResolvePost, now).0.effects[j] == t.effects[j]
  {
  }

  /** Resolving again changes only the resolution time. */
  lemma ResolveTwice(t: Tables, actor: UserRow, idx: nat, now1: int, now2: int)
    requires actor.IsAdmin() && idx < |t.punishments|
    ensures var r1 := ResolveSpec(t, actor, idx, ResolvePost, now1);
      var r2 := ResolveSpec(r1.0, actor, idx, ResolvePost, now2);
      && r2.0.effects == r1.0.effects
      && r2.0.punishments == r1.0.punishments[idx := r1.0.punishments[idx].(resolvedAt := Some(now2))]
  {
    var r1 := ResolveSpec(t, actor, idx, ResolvePost, now1);
    var p := t.punishments[idx];
    var p1 := r1.0.punishments[idx];
    assert EffectPrefix(p1) == EffectPrefix(p);
    var r2 := ResolveSpec(r1.0, actor, idx, ResolvePost, now2);
    assert forall k :: 0 <= k < |r1.0.effects| ==> r2.0.effects[k] == r1.0.effects[k];
  }

  /**
   * Resolving the only open absence punishment of a user re-arms the absence
   * check: with three absences in a row it records a new punishment.
   */
  lemma ResolveReopensAbsenceCheck(t: Tables, actor: UserRow, u: UserRow, idx: nat, now: int, later: int, createdBy: Option<nat>)
    requires actor.IsAdmin() && u.pk.Some? && idx < |t.punishments|
    requires IsOpen(t.punishments[idx], u.pk.value, Absence)
    requires forall j :: 0 <= j < |t.punishments| && j != idx ==> !IsOpen(t.punishments[j], u.pk.value, Absence)
    requires LeadingAbsences(Recent(t.attendances, u.pk.value, AbsenceThreshold)) >= AbsenceThreshold
    ensures AbsenceSpec(t, u, createdBy, later).value == Some(idx)
    ensures var r := ResolveSpec(t, actor, idx, ResolvePost, now);
      AbsenceSpec(r.0, u, createdBy, later).value == Some(|t.punishments|)
  {
    var r := ResolveSpec(t, actor, idx, ResolvePost, now);
    assert forall j :: 0 <= j < |r.0.punishments| ==> !IsOpen(r.0.punishments[j], u.pk.value, Absence);
  }
}
