/**
 * The computations of gamification/views.py that the player pages rest on:
 * the honor change inferred for each past punishment (honor_history), the
 * clamped page size of recent_activities and the user's place on the
 * leaderboard. Rendering and caching are left out.
 */
module PlayerViews {
  import opened Common
  import opened Accounts
  import opened Models
  import opened ExpLedger
  import opened Punishments
  import opened Forms

  // ---------------------------------------------------------------------
  // honor_history

  /** `(evidence or {}).get('boss_type', 'mini_boss')`. */
  function EvidenceBossType(evidence: Option<map<string, Json>>): (v: Json)
    ensures evidence.None? ==> v == JString("mini_boss")
    ensures evidence.Some? && "boss_type" !in evidence.value ==> v == JString("mini_boss")
    ensures evidence.Some? && "boss_type" in evidence.value ==> v == evidence.value["boss_type"]
  {
    if evidence.Some? && "boss_type" in evidence.value then evidence.value["boss_type"] else JString("mini_boss")
  }

  /**
   * The honor change shown for a punishment: minus the honor loss of its
   * rule, or 0 when there is no rule (an unknown severity or boss type, a
   * late submission). A boss type that is a list or an object cannot be looked
   * up at all, which the page reports as an error.
   */
  function HonorChange(p: Punishment): (r: Result<int, string>)
    ensures r.Err? <==> p.kind == Cheating && (EvidenceBossType(p.evidence).JArray? || EvidenceBossType(p.evidence).JObject?)
    ensures r.Ok? ==> r.value <= 0
    ensures p.kind == Plagiarism ==> r == Ok(if PlagiarismRule(p.severity).Some? then -PlagiarismRule(p.severity).value.honorLoss else 0)
    ensures p.kind == Absence ==> r == Ok(-AbsenceRule.honorLoss)
    ensures p.kind == LateSubmission ==> r == Ok(0)
  {
    match p.kind
    case Plagiarism =>
      (match PlagiarismRule(p.severity)
       case None => Ok(0)
       case Some(rule) => Ok(-rule.honorLoss))
    case Cheating =>
      (match EvidenceBossType(p.evidence)
       case JString(bossType) =>
         (match CheatingRule(bossType)
          case None => Ok(0)
          case Some(rule) => Ok(-rule.honorLoss))
       case JArray(_) => Err("unhashable type: 'list'")
       case JObject(_) => Err("unhashable type: 'dict'")
       case _ => Ok(0))
    case Absence => Ok(-AbsenceRule.honorLoss)
    case LateSubmission => Ok(0)
  }

  datatype Inferred = Inferred(punishment: Punishment, honorChange: int)

  /**
   * The inferred list for punishments taken in order: one entry per
   * punishment, in the same order, or the error of the first punishment
   * whose change cannot be computed.
   */
  function InferHonor(ps: seq<Punishment>): (r: Result<seq<Inferred>, string>)
    ensures r.Ok? <==> forall j :: 0 <= j < |ps| ==> HonorChange(ps[j]).Ok?
    ensures r.Ok? ==> |r.value| == |ps| && forall j :: 0 <= j < |ps| ==> r.value[j] == Inferred(ps[j], HonorChange(ps[j]).value)
    ensures r.Err? ==> exists j :: 0 <= j < |ps| && HonorChange(ps[j]) == Err(r.error)
                                   && forall l :: 0 <= l < j ==> HonorChange(ps[l]).Ok?
    decreases |ps|
  {
    if ps == [] then Ok([])
    else
      var init, last := ps[..|ps| - 1], ps[|ps| - 1];
      assert forall j :: 0 <= j < |init| ==> init[j] == ps[j];
      match InferHonor(init)
      case Err(e) => Err(e)
      case Ok(rest) =>
        match HonorChange(last)
        case Err(e) => Err(e)
        case Ok(c) => Ok(rest + [Inferred(last, c)])
  }

  /** Once a prefix fails, the whole list fails with the same error. */
  lemma {:induction false} InferHonorFailsEarly(ps: seq<Punishment>, i: nat)
    requires i <= |ps| && InferHonor(ps[..i]).Err?
    ensures InferHonor(ps) == InferHonor(ps[..i])
    decreases |ps| - i
  {
    if i < |ps| {
      assert ps[..i + 1][..i] == ps[..i];
      InferHonorFailsEarly(ps, i + 1);
    } else {
      assert ps[..i] == ps;
    }
  }

  /** The loop of honor_history over the user's punishments, newest first. */
  method InferHonorChanges(ps: seq<Punishment>) returns (r: Result<seq<Inferred>, string>)
    ensures r == InferHonor(ps)
  {
    var inferred: seq<Inferred> := [];
    var i := 0;
    while i < |ps|
      invariant 0 <= i <= |ps|
      invariant InferHonor(ps[..i]) == Ok(inferred)
    {
      assert ps[..i + 1][..i] == ps[..i];
      var change := HonorChange(ps[i]);
      if change.Err? {
        InferHonorFailsEarly(ps, i + 1);
        return Err(change.error);
      }
      inferred := inferred + [Inferred(ps[i], change.value)];
      i := i + 1;
    }
    assert ps[..i] == ps;
    r := Ok(inferred);
  }

  /** The punishments of the user, newest first. */
  function PunishmentsNewestFirst(ps: seq<Punishment>, uid: nat): (r: seq<Punishment>)
    ensures |r| <= |ps|
    ensures forall p :: p in r ==> p in ps && p.userId == uid
    decreases |ps|
  {
    if ps == [] then []
    else
      var last := ps[|ps| - 1];
      var rest := PunishmentsNewestFirst(ps[..|ps| - 1], uid);
      if last.userId == uid then [last] + rest else rest
  }

  function PunishmentOwners(ps: seq<Punishment>): (r: seq<nat>)
    ensures |r| == |ps| && forall i :: 0 <= i < |ps| ==> r[i] == ps[i].userId
  {
    seq(|ps|, i requires 0 <= i < |ps| => ps[i].userId)
  }

  /** The user's rows, in the order of their positions in the table, largest position first. */
  lemma {:induction false} PunishmentsNewestFirstOrder(ps: seq<Punishment>, uid: nat)
    ensures var pos := NewestIndices(PunishmentOwners(ps), uid);
      |PunishmentsNewestFirst(ps, uid)| == |pos| && forall j :: 0 <= j < |pos| ==> PunishmentsNewestFirst(ps, uid)[j] == ps[pos[j]]
    ensures forall p :: p in ps && p.userId == uid ==> p in PunishmentsNewestFirst(ps, uid)
    decreases |ps|
  {
    if ps != [] {
      var front := ps[..|ps| - 1];
      PunishmentsNewestFirstOrder(front, uid);
      assert PunishmentOwners(front) == PunishmentOwners(ps)[..|ps| - 1];
      NewestStep(ps, PunishmentOwners(ps), uid, PunishmentsNewestFirst(front, uid), PunishmentsNewestFirst(ps, uid));
    }
  }

  const MaxHonorEntries: nat := 100

  datatype HonorHistoryPage =
    | HonorRedirect
    | HonorPage(entries: seq<Inferred>, currentHonor: int)
    | HonorPageError(message: string)

  /** honor_history: admins are sent to their dashboard; players see at most 100 entries about their own punishments. */
  function HonorHistory(viewer: UserRow, all: seq<Punishment>): (r: HonorHistoryPage)
    requires viewer.pk.Some?
    ensures r == HonorRedirect <==> viewer.IsAdmin()
    ensures r.HonorPage? ==>
      && r.currentHonor == viewer.honorPoints
      && |r.entries| <= MaxHonorEntries
      && forall j :: 0 <= j < |r.entries| ==> r.entries[j].punishment.userId == viewer.pk.value
                                              && HonorChange(r.entries[j].punishment) == Ok(r.entries[j].honorChange)
  {
    if viewer.IsAdmin() then HonorRedirect
    else
      var mine := PunishmentsNewestFirst(all, viewer.pk.value);
      match InferHonor(mine)
      case Err(e) => HonorPageError(e)
      case Ok(inferred) =>
        assert forall j :: 0 <= j < |inferred| ==> inferred[j].punishment in mine;
        HonorPage(inferred[..Min(MaxHonorEntries, |inferred|)], viewer.honorPoints)
  }

  /**
   * The page lists the first 100 of the player's punishments, newest first,
   * none skipped; it fails exactly when one of them has no inferable change.
   */
  lemma HonorHistoryEntries(viewer: UserRow, all: seq<Punishment>)
    requires viewer.pk.Some?
    ensures var r := HonorHistory(viewer, all);
      var mine := PunishmentsNewestFirst(all, viewer.pk.value);
      r.HonorPage? ==>
      && |r.entries| == Min(MaxHonorEntries, |mine|)
      && forall j :: 0 <= j < |r.entries| ==> r.entries[j].punishment == mine[j]
    ensures HonorHistory(viewer, all).HonorPageError? <==>
      !viewer.IsAdmin() && exists p :: p in PunishmentsNewestFirst(all, viewer.pk.value) && HonorChange(p).Err?
  {
    var mine := PunishmentsNewestFirst(all, viewer.pk.value);
    var r := HonorHistory(viewer, all);
    if !viewer.IsAdmin() {
      var inferred := InferHonor(mine);
      if inferred.Err? {
        var j :| 0 <= j < |mine| && HonorChange(mine[j]) == Err(inferred.error);
        assert mine[j] in mine && HonorChange(mine[j]).Err?;
        assert r == HonorPageError(inferred.error);
      } else {
        forall p | p in mine
          ensures HonorChange(p).Ok?
        {
          var j :| 0 <= j < |mine| && mine[j] == p;
        }
        assert r == HonorPage(inferred.value[..Min(MaxHonorEntries, |inferred.value|)], viewer.honorPoints);
      }
    }
  }

  /** The punishments the services record infer exactly the honor their rule takes away. */
  lemma ServiceRecordsInferTheirLoss(uid: nat, severity: string, bossType: string, count: nat,
                                     evidence: Option<map<string, Json>>, createdBy: Option<nat>)
    ensures PlagiarismRule(severity).Some? ==>
      var rule := PlagiarismRule(severity).value;
      HonorChange(PlagiarismRecord(uid, severity, rule, evidence, createdBy)) == Ok(-rule.honorLoss)
    ensures CheatingRule(bossType).Some? ==>
      var rule := CheatingRule(bossType).value;
      HonorChange(CheatingRecord(uid, bossType, rule, createdBy)) == Ok(-rule.honorLoss)
    ensures HonorChange(AbsenceRecord(uid, count, createdBy)) == Ok(-AbsenceRule.honorLoss)
  {
  }

  /**
   * For a player well above the floor, the change shown for a plagiarism
   * punishment is exactly what applying it took from the player's honor.
   */
  lemma InferredPlagiarismMatchesDeduction(t: Tables, u: UserRow, severity: string, evidence: Option<map<string, Json>>,
                                           createdBy: Option<nat>, now: int)
    requires u.pk.Some? && PlagiarismRule(severity).Some?
    requires u.honorPoints >= PlagiarismRule(severity).value.honorLoss
    requires forall k :: 0 <= k < |t.effects| ==> t.effects[k].expMultiplier >= 0
    requires LevelCeiling(t.levels, u)
    ensures var r := PlagiarismSpec(t, u, severity, evidence, createdBy, now);
      var p := r.tables.punishments[|t.punishments|];
      r.user.honorPoints == u.honorPoints + HonorChange(p).value
  {
    var rule := PlagiarismRule(severity).value;
    var p := PlagiarismRecord(u.pk.value, severity, rule, evidence, createdBy);
    PenaltyNeverLevelsUp(t.(punishments := t.punishments + [p]), u, -p.expPenalty, PenaltyText(p.kind), now);
  }

  /** Punishments whose evidence came through the punishment form never make the page fail. */
  lemma FlatEvidenceNeverFails(ps: seq<Punishment>)
    requires forall j :: 0 <= j < |ps| ==> ps[j].evidence.Some? ==> forall k :: k in ps[j].evidence.value ==> IsSimple(ps[j].evidence.value[k])
    ensures InferHonor(ps).Ok?
  {
    forall j | 0 <= j < |ps|
      ensures HonorChange(ps[j]).Ok?
    {
      var ev := ps[j].evidence;
      if ev.Some? && "boss_type" in ev.value {
        assert IsSimple(ev.value["boss_type"]);
      }
    }
  }

  /** A boss type stored as a list cannot be looked up: the page fails. */
  lemma ListBossTypeFails(p: Punishment)
    requires p.kind == Cheating && p.evidence == Some(map["boss_type" := JArray([JString("mid_boss")])])
    ensures HonorChange(p).Err?
  {
  }

  // ---------------------------------------------------------------------
  // recent_activities

  /** The `limit` query parameter: absent, not an integer, or an integer. */
  datatype LimitParam = NoLimit | NotAnInteger | Limit(n: int)

  const DefaultLimit: int := 10
  const MaxLimit: int := 100

  /** The page size: 10 when absent or unreadable, otherwise the value clamped to [1, 100]. */
  function ClampLimit(param: LimitParam): (limit: int)
    ensures 1 <= limit <= MaxLimit
    ensures param.Limit? && 1 <= param.n <= MaxLimit ==> limit == param.n
    ensures param.Limit? && param.n < 1 ==> limit == 1
    ensures param.Limit? && param.n > MaxLimit ==> limit == MaxLimit
    ensures !param.Limit? ==> limit == DefaultLimit
  {
    match param
    case NoLimit => DefaultLimit
    case NotAnInteger => DefaultLimit
    case Limit(n) => Max(1, Min(MaxLimit, n))
  }

  /** Clamping a clamped value changes nothing, and a larger request never gets a smaller page. */
  lemma ClampLimitStable(a: int, b: int)
    requires a <= b
    ensures ClampLimit(Limit(ClampLimit(Limit(a)))) == ClampLimit(Limit(a))
    ensures ClampLimit(Limit(a)) <= ClampLimit(Limit(b))
  {
  }

  /** The user's EXP log entries, newest first. */
  function LogsNewestFirst(logs: seq<ExpLog>, uid: nat): (r: seq<ExpLog>)
    ensures |r| <= |logs|
    ensures forall e :: e in r ==> e in logs && e.userId == uid
    decreases |logs|
  {
    if logs == [] then []
    else
      var last := logs[|logs| - 1];
      var rest := LogsNewestFirst(logs[..|logs| - 1], uid);
      if last.userId == uid then [last] + rest else rest
  }

  function LogOwners(logs: seq<ExpLog>): (r: seq<nat>)
    ensures |r| == |logs| && forall i :: 0 <= i < |logs| ==> r[i] == logs[i].userId
  {
    seq(|logs|, i requires 0 <= i < |logs| => logs[i].userId)
  }

  /** The user's rows, in the order of their positions in the table, largest position first. */
  lemma {:induction false} LogsNewestFirstOrder(logs: seq<ExpLog>, uid: nat)
    ensures var pos := NewestIndices(LogOwners(logs), uid);
      |LogsNewestFirst(logs, uid)| == |pos| && forall j :: 0 <= j < |pos| ==> LogsNewestFirst(logs, uid)[j] == logs[pos[j]]
    ensures forall e :: e in logs && e.userId == uid ==> e in LogsNewestFirst(logs, uid)
    decreases |logs|
  {
    if logs != [] {
      var front := logs[..|logs| - 1];
      LogsNewestFirstOrder(front, uid);
      assert LogOwners(front) == LogOwners(logs)[..|logs| - 1];
      NewestStep(logs, LogOwners(logs), uid, LogsNewestFirst(front, uid), LogsNewestFirst(logs, uid));
    }
  }

  /** recent_activities for a player: the newest entries of the player's log, as many as the clamped limit allows. */
  function RecentActivities(viewer: UserRow, logs: seq<ExpLog>, param: LimitParam): (r: Option<seq<ExpLog>>)
    requires viewer.pk.Some?
    ensures r.None? <==> viewer.IsAdmin()
    ensures r.Some? ==>
      && |r.value| == Min(ClampLimit(param), |LogsNewestFirst(logs, viewer.pk.value)|)
      && r.value == LogsNewestFirst(logs, viewer.pk.value)[..|r.value|]
      && forall e :: e in r.value ==> e.userId == viewer.pk.value
  {
    if viewer.IsAdmin() then None
    else
      var mine := LogsNewestFirst(logs, viewer.pk.value);
      Some(mine[..Min(ClampLimit(param), |mine|)])
  }

  // ---------------------------------------------------------------------
  // leaderboard

  /** The 1-based place of the user in the ranked players, or None when the user is not among them. */
  method UserRank(players: seq<UserRow>, uid: nat) returns (rank: Option<nat>)
    ensures rank.Some? ==> 1 <= rank.value <= |players| && players[rank.value - 1].pk == Some(uid)
    ensures rank.Some? ==> forall j :: 0 <= j < rank.value - 1 ==> players[j].pk != Some(uid)
    ensures rank.None? <==> forall j :: 0 <= j < |players| ==> players[j].pk != Some(uid)
  {
    rank := None;
    var idx := 0;
    while idx < |players|
      invariant 0 <= idx <= |players|
      invariant forall j :: 0 <= j < idx ==> players[j].pk != Some(uid)
    {
      if players[idx].pk == Some(uid) {
        rank := Some(idx + 1);
        return;
      }
      idx := idx + 1;
    }
  }
}
