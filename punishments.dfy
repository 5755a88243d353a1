/**
 * Punishments (core/services.py, PunishmentService, and Punishment.apply_punishment
 * in core/models.py): the rule tables, recording and applying a punishment,
 * the three punishment services and gradual honor recovery.
 */
module Punishments {
  import opened Common
  import opened Accounts
  import opened Models
  import opened ExpLedger

  // ---------------------------------------------------------------------
  // Rule tables

  /** A punishment rule: EXP penalty, honor loss, optional status effect and its duration in days. */
  datatype Rule = Rule(expPenalty: int, honorLoss: int, statusEffect: Option<string>, duration: int)

  /** The plagiarism rule of a severity; only three severities exist. */
  function PlagiarismRule(severity: string): (r: Option<Rule>)
    ensures r.Some? <==> severity == "minor" || severity == "major" || severity == "critical"
  {
    if severity == "minor" then Some(Rule(100, 10, None, 0))
    else if severity == "major" then Some(Rule(300, 20, Some("curse"), 7))
    else if severity == "critical" then Some(Rule(500, 30, Some("curse"), 14))
    else None
  }

  /** The cheating rule of a boss type; only three boss types exist. */
  function CheatingRule(bossType: string): (r: Option<Rule>)
    ensures r.Some? <==> bossType == "mini_boss" || bossType == "mid_boss" || bossType == "last_boss"
  {
    if bossType == "mini_boss" then Some(Rule(200, 15, Some("weakness"), 5))
    else if bossType == "mid_boss" then Some(Rule(400, 25, Some("curse"), 10))
    else if bossType == "last_boss" then Some(Rule(600, 40, Some("curse"), 21))
    else None
  }

  /** Consecutive absences that trigger the absence punishment. */
  const AbsenceThreshold: nat := 3

  const AbsenceRule: Rule := Rule(50, 5, Some("fatigue"), 3)

  /** Harsher severities and bigger bosses cost more on every axis. */
  lemma RulesEscalate()
    ensures var a, b, c := PlagiarismRule("minor").value, PlagiarismRule("major").value, PlagiarismRule("critical").value;
      a.expPenalty < b.expPenalty < c.expPenalty && a.honorLoss < b.honorLoss < c.honorLoss
      && a.duration < b.duration < c.duration
    ensures var a, b, c := CheatingRule("mini_boss").value, CheatingRule("mid_boss").value, CheatingRule("last_boss").value;
      a.expPenalty < b.expPenalty < c.expPenalty && a.honorLoss < b.honorLoss < c.honorLoss
      && a.duration < b.duration < c.duration
  {
  }

  /** The EXP multiplier, in hundredths, of the effect a punishment imposes. */
  function EffectMultiplierFor(effect: string): (m: int)
    ensures 0 < m <= 100
    ensures m == 100 <==> effect != "curse" && effect != "weakness" && effect != "silence" && effect != "fatigue"
  {
    if effect == "curse" then 50
    else if effect == "weakness" then 75
    else if effect == "silence" then 90
    else if effect == "fatigue" then 80
    else 100
  }

  /** Every effect a rule imposes strictly reduces EXP gains. */
  lemma RuleEffectsReduceExp(r: Rule)
    requires r in {PlagiarismRule("major").value, PlagiarismRule("critical").value,
                   CheatingRule("mini_boss").value, CheatingRule("mid_boss").value,
                   CheatingRule("last_boss").value, AbsenceRule}
    ensures r.statusEffect.Some? && EffectMultiplierFor(r.statusEffect.value) < 100
  {
  }

  // ---------------------------------------------------------------------
  // Applying one punishment

  /** A punishment imposes an effect when its effect name is present and non-empty. */
  predicate HasEffect(effect: Option<string>)
  {
    effect.Some? && effect.value != ""
  }

  function PenaltyText(kind: Kind): string
  {
    "Punishment penalty: " + kind.Label()
  }

  /** The status effect a punishment imposes, starting now; no end date when the duration is 0. */
  function PunishmentEffect(p: Punishment, now: int): StatusEffect
    requires HasEffect(p.statusEffect)
  {
    StatusEffect(p.userId, p.statusEffect.value, "Punishment effect: " + p.description,
                 EffectMultiplierFor(p.statusEffect.value), now,
                 if p.durationDays > 0 then Some(now + p.durationDays * SecondsPerDay) else None,
                 true)
  }

  /**
   * A timed punishment effect scales EXP from its start until exactly
   * `durationDays` days later and not after; an untimed one never lapses.
   */
  lemma PunishmentEffectLapses(p: Punishment, now: int, later: int)
    requires HasEffect(p.statusEffect) && now <= later
    ensures var e := PunishmentEffect(p, now);
      Multiplies(e, p.userId, later) <==> p.durationDays <= 0 || later <= now + p.durationDays * SecondsPerDay
  {
  }

  /**
   * Punishment.apply_punishment: a positive penalty goes through the EXP
   * ledger as a negative grant (so it is scaled by the same multiplier as a
   * gain), then the effect, if any, is added.
   */
  function ApplyPunishmentSpec(t: Tables, u: UserRow, p: Punishment, now: int): (r: After<()>)
    requires u.pk == Some(p.userId)
    ensures r.tables.levels == t.levels && r.tables.punishments == t.punishments
    ensures r.tables.attendances == t.attendances && r.user.pk == u.pk
    ensures p.expPenalty <= 0 ==> r.user == u && r.tables.expLogs == t.expLogs
    ensures HasEffect(p.statusEffect) ==>
      |r.tables.effects| == |t.effects| + 1 && r.tables.effects[|t.effects|] == PunishmentEffect(p, now)
    ensures !HasEffect(p.statusEffect) ==> |r.tables.effects| == |t.effects|
  {
    var penalized := PenalizeSpec(t, u, p, now);
    var effects := if HasEffect(p.statusEffect) then penalized.tables.effects + [PunishmentEffect(p, now)] else penalized.tables.effects;
    After(penalized.tables.(effects := effects), penalized.user, ())
  }

  /** The EXP part of a punishment: a positive penalty goes through the ledger as a negative grant. */
  function PenalizeSpec(t: Tables, u: UserRow, p: Punishment, now: int): (r: After<()>)
    requires u.pk == Some(p.userId)
    ensures r.tables.levels == t.levels && r.tables.punishments == t.punishments
    ensures r.tables.attendances == t.attendances && r.user.pk == u.pk
    ensures p.expPenalty <= 0 ==> r == After(t, u, ())
  {
    if p.expPenalty > 0 then
      var a := AddExpSpec(t, u, -p.expPenalty, OtherActivity, PenaltyText(p.kind), now);
      After(a.tables, a.user, ())
    else After(t, u, ())
  }

  /** The EXP part of a punishment on the store and the user object. */
  method Penalize(db: Store, u: User, p: Punishment, now: int)
    requires u.pk == Some(p.userId)
    modifies db, u
    ensures After(db.Snapshot(), u.Row(), ()) == PenalizeSpec(old(db.Snapshot()), old(u.Row()), p, now)
  {
    if p.expPenalty > 0 {
      var granted := AddExp(db, u, -p.expPenalty, OtherActivity, PenaltyText(p.kind), now);
    }
  }

  /** Records the punishment, applies it, then deducts honor, never below 0. */
  function PunishSpec(t: Tables, u: UserRow, p: Punishment, rule: Rule, now: int): (r: After<nat>)
    requires u.pk == Some(p.userId)
    ensures r.value == |t.punishments| && r.tables.punishments == t.punishments + [p]
    ensures r.tables.levels == t.levels && r.tables.attendances == t.attendances && r.user.pk == u.pk
    ensures rule.honorLoss > 0 ==> r.user.honorPoints >= 0
  {
    var applied := ApplyPunishmentSpec(t.(punishments := t.punishments + [p]), u, p, now);
    var user := if rule.honorLoss > 0 then applied.user.(honorPoints := Max(0, applied.user.honorPoints - rule.honorLoss))
                else applied.user;
    After(applied.tables, user, |t.punishments|)
  }

  method ApplyPunishment(db: Store, u: User, p: Punishment, now: int)
    requires u.pk == Some(p.userId)
    modifies db, u
    ensures After(db.Snapshot(), u.Row(), ()) == ApplyPunishmentSpec(old(db.Snapshot()), old(u.Row()), p, now)
  {
    Penalize(db, u, p, now);
    if HasEffect(p.statusEffect) {
      db.effects := db.effects + [PunishmentEffect(p, now)];
    }
  }

  method Punish(db: Store, u: User, p: Punishment, rule: Rule, now: int) returns (index: nat)
    requires u.pk == Some(p.userId)
    modifies db, u
    ensures After(db.Snapshot(), u.Row(), index) == PunishSpec(old(db.Snapshot()), old(u.Row()), p, rule, now)
  {
    index := |db.punishments|;
    db.punishments := db.punishments + [p];
    ApplyPunishment(db, u, p, now);
    if rule.honorLoss > 0 {
      u.honorPoints := Max(0, u.honorPoints - rule.honorLoss);
    }
  }

  /**
   * For a user whose level is not above what the total reaches and an
   * effects table without negative multipliers, a punishment keeps the level,
   * never raises the total and takes exactly the rule's honor loss, floored at 0.
   */
  lemma PunishKeepsLevelAndDeductsHonor(t: Tables, u: UserRow, p: Punishment, rule: Rule, now: int)
    requires u.pk == Some(p.userId)
    requires forall k :: 0 <= k < |t.effects| ==> t.effects[k].expMultiplier >= 0
    requires LevelCeiling(t.levels, u)
    ensures var r := PunishSpec(t, u, p, rule, now);
      && r.user.currentLevel == u.currentLevel
      && r.user.totalExp <= u.totalExp
      && r.user.honorPoints == (if rule.honorLoss > 0 then Max(0, u.honorPoints - rule.honorLoss) else u.honorPoints)
  {
    var t1 := t.(punishments := t.punishments + [p]);
    var applied := ApplyPunishmentSpec(t1, u, p, now);
    if p.expPenalty > 0 {
      PenaltyNeverLevelsUp(t1, u, -p.expPenalty, PenaltyText(p.kind), now);
      assert applied.user == AddExpSpec(t1, u, -p.expPenalty, OtherActivity, PenaltyText(p.kind), now).user;
    }
    assert applied.user.currentLevel == u.currentLevel && applied.user.honorPoints == u.honorPoints;
  }

  // ---------------------------------------------------------------------
  // Plagiarism and cheating

  /** `evidence or {}`: a missing or empty evidence dictionary is stored as the empty one. */
  function EvidenceOrEmpty(evidence: Option<map<string, Json>>): map<string, Json>
  {
    if evidence.Some? then evidence.value else map[]
  }

  function PlagiarismRecord(uid: nat, severity: string, rule: Rule, evidence: Option<map<string, Json>>,
                            createdBy: Option<nat>): Punishment
  {
    Punishment(uid, Plagiarism, severity, "Plagiarism detected - " + severity + " severity",
               rule.expPenalty, rule.statusEffect, rule.duration, false, None,
               Some(EvidenceOrEmpty(evidence)), createdBy)
  }

  /** The battle name in a cheating description: underscores become spaces, then title case. */
  function BossTitle(bossType: string): string
  {
    Title(ReplaceChar(bossType, '_', ' '))
  }

  function CheatingRecord(uid: nat, bossType: string, rule: Rule, createdBy: Option<nat>): Punishment
  {
    Punishment(uid, Cheating, if bossType == "last_boss" then "major" else "minor",
               "Cheating detected in " + BossTitle(bossType) + " battle",
               rule.expPenalty, rule.statusEffect, rule.duration, false, None,
               Some(map["boss_type" := JString(bossType)]), createdBy)
  }

  /** apply_plagiarism_punishment: an unknown severity is an error that changes nothing. */
  function PlagiarismSpec(t: Tables, u: UserRow, severity: string, evidence: Option<map<string, Json>>,
                          createdBy: Option<nat>, now: int): (r: After<Result<nat, string>>)
    requires u.pk.Some?
    ensures PlagiarismRule(severity).None? ==> r == After(t, u, Err("Invalid severity: " + severity))
    ensures PlagiarismRule(severity).Some? ==>
      && r.value == Ok(|t.punishments|)
      && r.tables.punishments == t.punishments + [PlagiarismRecord(u.pk.value, severity, PlagiarismRule(severity).value, evidence, createdBy)]
      && r.user.honorPoints >= 0
  {
    match PlagiarismRule(severity)
    case None => After(t, u, Err("Invalid severity: " + severity))
    case Some(rule) =>
      var r := PunishSpec(t, u, PlagiarismRecord(u.pk.value, severity, rule, evidence, createdBy), rule, now);
      After(r.tables, r.user, Ok(r.value))
  }

  /** apply_cheating_punishment: an unknown boss type is an error that changes nothing. */
  function CheatingSpec(t: Tables, u: UserRow, bossType: string, createdBy: Option<nat>, now: int): (r: After<Result<nat, string>>)
    requires u.pk.Some?
    ensures CheatingRule(bossType).None? ==> r == After(t, u, Err("Invalid boss_type: " + bossType))
    ensures CheatingRule(bossType).Some? ==>
      && r.value == Ok(|t.punishments|)
      && r.tables.punishments == t.punishments + [CheatingRecord(u.pk.value, bossType, CheatingRule(bossType).value, createdBy)]
      && r.user.honorPoints >= 0
  {
    match CheatingRule(bossType)
    case None => After(t, u, Err("Invalid boss_type: " + bossType))
    case Some(rule) =>
      var r := PunishSpec(t, u, CheatingRecord(u.pk.value, bossType, rule, createdBy), rule, now);
      After(r.tables, r.user, Ok(r.value))
  }

  method ApplyPlagiarismPunishment(db: Store, u: User, severity: string, evidence: Option<map<string, Json>>,
                                   createdBy: Option<nat>, now: int) returns (r: Result<nat, string>)
    requires u.pk.Some?
    modifies db, u
    ensures After(db.Snapshot(), u.Row(), r) == PlagiarismSpec(old(db.Snapshot()), old(u.Row()), severity, evidence, createdBy, now)
  {
    var rule := PlagiarismRule(severity);
    if rule.None? {
      return Err("Invalid severity: " + severity);
    }
    var index := Punish(db, u, PlagiarismRecord(u.pk.value, severity, rule.value, evidence, createdBy), rule.value, now);
    r := Ok(index);
  }

  method ApplyCheatingPunishment(db: Store, u: User, bossType: string, createdBy: Option<nat>, now: int)
    returns (r: Result<nat, string>)
    requires u.pk.Some?
    modifies db, u
    ensures After(db.Snapshot(), u.Row(), r) == CheatingSpec(old(db.Snapshot()), old(u.Row()), bossType, createdBy, now)
  {
    var rule := CheatingRule(bossType);
    if rule.None? {
      return Err("Invalid boss_type: " + bossType);
    }
    var index := Punish(db, u, CheatingRecord(u.pk.value, bossType, rule.value, createdBy), rule.value, now);
    r := Ok(index);
  }

  /** Title case leaves a run of lower-case letters after a letter as it is. */
  lemma {:induction false} TitleKeepsLowerRun(s: string, tail: string)
    requires forall i :: 0 <= i < |s| ==> 'a' <= s[i] <= 'z'
    ensures TitleFrom(s + tail, true) == s + TitleFrom(tail, true)
    decreases |s|
  {
    if s == [] {
      assert s + tail == tail;
    } else {
      var x := s + tail;
      var c := s[0];
      assert x[0] == c && x[1..] == s[1..] + tail;
      assert IsAsciiLetter(c) && LowerChar(c) == c;
      TitleKeepsLowerRun(s[1..], tail);
      calc {
        TitleFrom(x, true);
        [c] + TitleFrom(s[1..] + tail, true);
        [c] + (s[1..] + TitleFrom(tail, true));
        { assert s == [c] + s[1..]; }
        s + TitleFrom(tail, true);
      }
    }
  }

  /** A lower-case word at the start of a title is capitalised and the rest follows. */
  lemma TitleWord(first: char, rest: string, tail: string)
    requires 'a' <= first <= 'z'
    requires forall i :: 0 <= i < |rest| ==> 'a' <= rest[i] <= 'z'
    ensures TitleFrom([first] + rest + tail, false) == [UpperChar(first)] + rest + TitleFrom(tail, true)
  {
    var x := [first] + rest + tail;
    assert x[0] == first && IsAsciiLetter(first);
    assert x[1..] == rest + tail;
    assert TitleFrom(x, false) == [UpperChar(first)] + TitleFrom(x[1..], true);
    TitleKeepsLowerRun(rest, tail);
  }

  /** The second word of every boss type: " boss" becomes " Boss". */
  lemma BossWordTitle()
    ensures TitleFrom(" boss", true) == " Boss"
  {
    TitleWord('b', "oss", "");
    assert TitleFrom(" boss", true) == [' '] + TitleFrom("boss", false);
    assert "boss" == ['b'] + "oss" + "";
  }

  /** The battle name of a boss type whose first word is `first` followed by `rest`. */
  lemma BossTitleOf(bossType: string, first: char, rest: string)
    requires 'a' <= first <= 'z'
    requires forall i :: 0 <= i < |rest| ==> 'a' <= rest[i] <= 'z'
    requires ReplaceChar(bossType, '_', ' ') == [first] + rest + " boss"
    ensures BossTitle(bossType) == [UpperChar(first)] + rest + " Boss"
  {
    BossWordTitle();
    TitleWord(first, rest, " boss");
  }

  /** The battle names of the three boss types. */
  lemma BossTitles()
    ensures BossTitle("mini_boss") == "Mini Boss"
    ensures BossTitle("mid_boss") == "Mid Boss"
    ensures BossTitle("last_boss") == "Last Boss"
  {
    assert ReplaceChar("mini_boss", '_', ' ') == ['m'] + "ini" + " boss";
    BossTitleOf("mini_boss", 'm', "ini");
    assert ReplaceChar("mid_boss", '_', ' ') == ['m'] + "id" + " boss";
    BossTitleOf("mid_boss", 'm', "id");
    assert ReplaceChar("last_boss", '_', ' ') == ['l'] + "ast" + " boss";
    BossTitleOf("last_boss", 'l', "ast");
  }

  /**
   * The recorded cheating punishment for each boss type: "major" for the
   * last boss and "minor" otherwise, with a readable battle name.
   */
  lemma CheatingRecordOf(uid: nat, bossType: string, createdBy: Option<nat>)
    requires CheatingRule(bossType).Some?
    ensures var p := CheatingRecord(uid, bossType, CheatingRule(bossType).value, createdBy);
      && (bossType == "last_boss" ==> p.severity == "major" && p.description == "Cheating detected in " + "Last Boss" + " battle")
      && (bossType == "mini_boss" ==> p.severity == "minor" && p.description == "Cheating detected in " + "Mini Boss" + " battle")
      && (bossType == "mid_boss" ==> p.severity == "minor" && p.description == "Cheating detected in " + "Mid Boss" + " battle")
  {
    BossTitles();
  }

  // ---------------------------------------------------------------------
  // Absences

  /** The user's attendance rows, newest first. */
  function NewestFirst(atts: seq<Attendance>, uid: nat): (r: seq<Attendance>)
    ensures |r| <= |atts|
    ensures forall a :: a in r ==> a in atts && a.userId == uid
    decreases |atts|
  {
    if atts == [] then []
    else
      var last := atts[|atts| - 1];
      var rest := NewestFirst(atts[..|atts| - 1], uid);
      if last.userId == uid then [last] + rest else rest
  }

  function AttendanceOwners(atts: seq<Attendance>): (r: seq<nat>)
    ensures |r| == |atts| && forall i :: 0 <= i < |atts| ==> r[i] == atts[i].userId
  {
    seq(|atts|, i requires 0 <= i < |atts| => atts[i].userId)
  }

  /** The user's rows, in the order of their positions in the table, largest position first. */
  lemma {:induction false} NewestFirstOrder(atts: seq<Attendance>, uid: nat)
    ensures var pos := NewestIndices(AttendanceOwners(atts), uid);
      |NewestFirst(atts, uid)| == |pos| && forall j :: 0 <= j < |pos| ==> NewestFirst(atts, uid)[j] == atts[pos[j]]
    ensures forall a :: a in atts && a.userId == uid ==> a in NewestFirst(atts, uid)
    decreases |atts|
  {
    if atts != [] {
      var front := atts[..|atts| - 1];
      NewestFirstOrder(front, uid);
      assert AttendanceOwners(front) == AttendanceOwners(atts)[..|atts| - 1];
      NewestStep(atts, AttendanceOwners(atts), uid, NewestFirst(front, uid), NewestFirst(atts, uid));
    }
  }

  /** The `k` newest attendance rows of the user. */
  function Recent(atts: seq<Attendance>, uid: nat, k: nat): (r: seq<Attendance>)
    ensures |r| == Min(k, |NewestFirst(atts, uid)|)
    ensures forall j :: 0 <= j < |r| ==> r[j] == NewestFirst(atts, uid)[j]
  {
    var all := NewestFirst(atts, uid);
    all[..Min(k, |all|)]
  }

  /** The length of the run of absences at the front of `rs`. */
  function LeadingAbsences(rs: seq<Attendance>): (n: nat)
    ensures n <= |rs|
    ensures forall j :: 0 <= j < n ==> !rs[j].attended
    ensures n < |rs| ==> rs[n].attended
  {
    if rs == [] || rs[0].attended then 0 else 1 + LeadingAbsences(rs[1..])
  }

  /** The absence count of check_and_apply_absence_punishment, counted with an early exit. */
  method ConsecutiveAbsences(db: Store, uid: nat) returns (n: nat)
    ensures n == LeadingAbsences(Recent(db.attendances, uid, AbsenceThreshold))
  {
    var recent := Recent(db.attendances, uid, AbsenceThreshold);
    n := 0;
    while n < |recent|
      invariant n <= |recent|
      invariant LeadingAbsences(recent) == n + LeadingAbsences(recent[n..])
    {
      if recent[n].attended {
        break;
      }
      assert recent[n..][1..] == recent[n + 1..];
      n := n + 1;
    }
  }

  /** The absence punishment fires exactly when the user's three newest attendance rows are all absences. */
  lemma AbsenceTrigger(atts: seq<Attendance>, uid: nat)
    ensures LeadingAbsences(Recent(atts, uid, AbsenceThreshold)) >= AbsenceThreshold
        <==> |NewestFirst(atts, uid)| >= 3 && forall j :: 0 <= j < 3 ==> !NewestFirst(atts, uid)[j].attended
  {
    var all := NewestFirst(atts, uid);
    var recent := Recent(atts, uid, AbsenceThreshold);
    var n := LeadingAbsences(recent);
    if |all| >= 3 && forall j :: 0 <= j < 3 ==> !all[j].attended {
      assert forall j :: 0 <= j < 3 ==> !recent[j].attended;
    }
  }

  predicate IsOpen(p: Punishment, uid: nat, kind: Kind)
  {
    p.userId == uid && p.kind == kind && !p.resolved
  }

  /** The index of the newest unresolved punishment of that kind for the user. */
  function LatestUnresolved(ps: seq<Punishment>, uid: nat, kind: Kind): (r: Option<nat>)
    ensures r.Some? ==> r.value < |ps| && IsOpen(ps[r.value], uid, kind)
    ensures r.Some? ==> forall j :: r.value < j < |ps| ==> !IsOpen(ps[j], uid, kind)
    ensures r.None? ==> forall j :: 0 <= j < |ps| ==> !IsOpen(ps[j], uid, kind)
    decreases |ps|
  {
    if ps == [] then None
    else if IsOpen(ps[|ps| - 1], uid, kind) then Some(|ps| - 1)
    else LatestUnresolved(ps[..|ps| - 1], uid, kind)
  }

  function AbsenceRecord(uid: nat, count: nat, createdBy: Option<nat>): Punishment
  {
    Punishment(uid, Absence, "minor", "Consecutive absence detected (" + NatToString(count) + " times)",
               AbsenceRule.expPenalty, AbsenceRule.statusEffect, AbsenceRule.duration, false, None,
               Some(map["consecutive_absences" := JInt(count)]), createdBy)
  }

  /**
   * check_and_apply_absence_punishment: below the threshold nothing happens;
   * an unresolved absence punishment is returned instead of a duplicate;
   * otherwise a new one is recorded and applied.
   */
  function AbsenceSpec(t: Tables, u: UserRow, createdBy: Option<nat>, now: int): (r: After<Option<nat>>)
    requires u.pk.Some?
    ensures r.value.None? ==> r.tables == t && r.user == u
    ensures r.value.Some? ==> r.value.value < |r.tables.punishments| && IsOpen(r.tables.punishments[r.value.value], u.pk.value, Absence)
    ensures r.tables.attendances == t.attendances && r.user.pk == u.pk
  {
    var uid := u.pk.value;
    var n := LeadingAbsences(Recent(t.attendances, uid, AbsenceThreshold));
    if n < AbsenceThreshold then After(t, u, None)
    else
      match LatestUnresolved(t.punishments, uid, Absence)
      case Some(i) => After(t, u, Some(i))
      case None =>
        var r := PunishSpec(t, u, AbsenceRecord(uid, n, createdBy), AbsenceRule, now);
        After(r.tables, r.user, Some(r.value))
  }

  /**
   * The three cases of the absence check: it fires exactly at the threshold;
   * an open absence punishment is returned as it is, with nothing changed;
   * otherwise a new record is appended and its index returned.
   */
  lemma AbsenceCases(t: Tables, u: UserRow, createdBy: Option<nat>, now: int)
    requires u.pk.Some?
    ensures var r := AbsenceSpec(t, u, createdBy, now);
      var n := LeadingAbsences(Recent(t.attendances, u.pk.value, AbsenceThreshold));
      var open := LatestUnresolved(t.punishments, u.pk.value, Absence);
      && (r.value.Some? <==> n >= AbsenceThreshold)
      && (n >= AbsenceThreshold && open.Some? ==> r == After(t, u, open))
      && (n >= AbsenceThreshold && open.None? ==>
            r.value == Some(|t.punishments|) && r.tables.punishments == t.punishments + [AbsenceRecord(u.pk.value, n, createdBy)])
  {
  }

  method CheckAndApplyAbsencePunishment(db: Store, u: User, createdBy: Option<nat>, now: int) returns (r: Option<nat>)
    requires u.pk.Some?
    modifies db, u
    ensures After(db.Snapshot(), u.Row(), r) == AbsenceSpec(old(db.Snapshot()), old(u.Row()), createdBy, now)
  {
    var uid := u.pk.value;
    var n := ConsecutiveAbsences(db, uid);
    if n < AbsenceThreshold {
      return None;
    }
    var existing := LatestUnresolved(db.punishments, uid, Absence);
    if existing.Some? {
      return existing;
    }
    var index := Punish(db, u, AbsenceRecord(uid, n, createdBy), AbsenceRule, now);
    r := Some(index);
  }

  /**
   * The absence check never duplicates: running it again, at any later
   * time, returns the same punishment and changes nothing.
   */
  lemma AbsenceIdempotent(t: Tables, u: UserRow, createdBy: Option<nat>, now: int, later: int)
    requires u.pk.Some?
    ensures var r1 := AbsenceSpec(t, u, createdBy, now);
      var r2 := AbsenceSpec(r1.tables, r1.user, createdBy, later);
      r2 == r1
  {
    var r1 := AbsenceSpec(t, u, createdBy, now);
    var uid := u.pk.value;
    var n := LeadingAbsences(Recent(t.attendances, uid, AbsenceThreshold));
    if n >= AbsenceThreshold && LatestUnresolved(t.punishments, uid, Absence).None? {
      var p := AbsenceRecord(uid, n, createdBy);
      assert r1.tables.punishments == t.punishments + [p];
      assert LatestUnresolved(r1.tables.punishments, uid, Absence) == Some(|t.punishments|);
    }
  }

  /** Only the three newest rows are read, so the recorded count is always exactly 3. */
  lemma AbsenceCountIsThreshold(t: Tables, u: UserRow, createdBy: Option<nat>, now: int)
    requires u.pk.Some?
    requires var r := AbsenceSpec(t, u, createdBy, now); r.value.Some? && r.value.value == |t.punishments|
    ensures var r := AbsenceSpec(t, u, createdBy, now);
      r.tables.punishments[|t.punishments|] == AbsenceRecord(u.pk.value, 3, createdBy)
      && r.tables.punishments[|t.punishments|].description == "Consecutive absence detected (3 times)"
  {
    var n := LeadingAbsences(Recent(t.attendances, u.pk.value, AbsenceThreshold));
    if n < AbsenceThreshold {
      assert false;
    }
    assert n == 3;
    assert NatToString(3) == "3";
  }

  // ---------------------------------------------------------------------
  // Honor recovery

  const MaxHonor: int := 1000

  /** recover_honor_points: below the cap, honor grows by `amount` but not past the cap. */
  function RecoverHonorSpec(u: UserRow, amount: int): (r: (UserRow, bool))
    ensures r.0 == u.(honorPoints := r.0.honorPoints)
    ensures r.1 <==> u.honorPoints < MaxHonor
    ensures !r.1 ==> r.0 == u
    ensures r.1 ==> r.0.honorPoints == Min(MaxHonor, u.honorPoints + amount)
    ensures r.1 && amount >= 0 ==> u.honorPoints <= r.0.honorPoints <= MaxHonor
  {
    if u.honorPoints < MaxHonor then (u.(honorPoints := Min(MaxHonor, u.honorPoints + amount)), true)
    else (u, false)
  }

  method RecoverHonorPoints(u: User, amount: int) returns (changed: bool)
    modifies u
    ensures (u.Row(), changed) == RecoverHonorSpec(old(u.Row()), amount)
  {
    if u.honorPoints < MaxHonor {
      u.honorPoints := Min(MaxHonor, u.honorPoints + amount);
      changed := true;
    } else {
      changed := false;
    }
  }

  /** `n` recoveries of one point each. */
  function RecoverTimes(u: UserRow, n: nat): UserRow
  {
    if n == 0 then u else RecoverHonorSpec(RecoverTimes(u, n - 1), 1).0
  }

  /** Recovering one point `n` times adds `n` points, stopping at the cap; above the cap nothing moves. */
  lemma {:induction false} RecoverTimesCaps(u: UserRow, n: nat)
    ensures u.honorPoints <= MaxHonor ==> RecoverTimes(u, n) == u.(honorPoints := Min(MaxHonor, u.honorPoints + n))
    ensures u.honorPoints > MaxHonor ==> RecoverTimes(u, n) == u
  {
    if n > 0 {
      RecoverTimesCaps(u, n - 1);
    }
  }
}
