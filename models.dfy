/**
 * The records of core/models.py and the in-memory store that holds them.
 * Every table except the users lives in one `Store` object whose sequence
 * fields the operations reassign; a sequence keeps creation order, so the
 * newest record of a kind is the last one. Times are integers in seconds.
 */
module Models {
  import opened Common
  import opened Accounts

  const SecondsPerDay: int := 86400

  /** A row of the level table: the total EXP needed to reach `level`. */
  datatype LevelRow = LevelRow(level: int, expRequired: int, bonusDescription: Option<string>)

  /** The level number is unique in the level table. */
  predicate UniqueLevels(levels: seq<LevelRow>)
  {
    forall i, j :: 0 <= i < j < |levels| ==> levels[i].level != levels[j].level
  }

  datatype Activity = Quest | Assignment | Participation | BonusActivity | AdminGrant | OtherActivity

  /** An exact multiplier `num / den`; the engine only builds ones with `den > 0`. */
  datatype Ratio = Ratio(num: int, den: int)

  /**
   * The description of an EXP log entry: a plain text, a text followed by the
   * multiplier that scaled the amount, or the level-up note.
   */
  datatype LogText =
    | Plain(text: string)
    | WithMultiplier(text: string, multiplier: Ratio)
    | LevelUpNote(oldLevel: int, newLevel: int, honorBonus: int)

  datatype ExpLog = ExpLog(userId: nat, activity: Activity, expEarned: int, description: LogText)

  /** A status effect; `expMultiplier` is in hundredths and `endDate` None means permanent. */
  datatype StatusEffect = StatusEffect(
    userId: nat,
    effectType: string,
    description: string,
    expMultiplier: int,
    startDate: int,
    endDate: Option<int>,
    isActive: bool)
  {
    /** Expired strictly after the end date; a permanent effect never expires. */
    predicate IsExpired(now: int)
    {
      match endDate
      case None => false
      case Some(end) => now > end
    }
  }

  datatype Attendance = Attendance(userId: nat, dungeonId: nat, attended: bool, participationExp: int)

  /** The four punishment types. */
  datatype Kind = Plagiarism | Cheating | LateSubmission | Absence
  {
    /** The display label of the type. */
    function Label(): string
    {
      match this
      case Plagiarism => "Plagiarism"
      case Cheating => "Cheating"
      case LateSubmission => "Late Submission"
      case Absence => "Absence"
    }
  }

  /** An already-parsed JSON value. */
  datatype Json =
    | JNull
    | JBool(b: bool)
    | JInt(i: int)
    | JFloat(r: real)
    | JString(s: string)
    | JArray(items: seq<Json>)
    | JObject(fields: map<string, Json>)

  datatype Punishment = Punishment(
    userId: nat,
    kind: Kind,
    severity: string,
    description: string,
    expPenalty: int,
    statusEffect: Option<string>,
    durationDays: int,
    resolved: bool,
    resolvedAt: Option<int>,
    evidence: Option<map<string, Json>>,
    createdBy: Option<nat>)

  datatype Sidequest = Sidequest(title: string, dueDate: int, expReward: int, lateExpReward: int)
  {
    /** Overdue strictly after the due date. */
    predicate IsOverdue(now: int)
    {
      now > dueDate
    }
  }

  /** A submission is late when it was submitted strictly after the due date. */
  predicate IsLate(submittedAt: int, quest: Sidequest)
  {
    submittedAt > quest.dueDate
  }

  /** The EXP a submission earns: the late reward when late, the regular reward otherwise. */
  function GetExpReward(submittedAt: int, quest: Sidequest): (r: int)
    ensures IsLate(submittedAt, quest) ==> r == quest.lateExpReward
    ensures !IsLate(submittedAt, quest) ==> r == quest.expReward
  {
    if IsLate(submittedAt, quest) then quest.lateExpReward else quest.expReward
  }

  /**
   * With rewards that pass the sidequest form (0 <= late <= regular), a late
   * submission never earns more than an on-time one and never a negative amount.
   */
  lemma LateNeverPaysMore(early: int, late: int, quest: Sidequest)
    requires 0 <= quest.lateExpReward <= quest.expReward
    requires early <= quest.dueDate < late
    ensures 0 <= GetExpReward(late, quest) <= GetExpReward(early, quest)
  {
  }

  /** A submission stamped at `now` is late exactly when the quest is overdue at `now`. */
  lemma LateIffOverdue(now: int, quest: Sidequest)
    ensures IsLate(now, quest) <==> quest.IsOverdue(now)
  {
  }

  /** A snapshot of every table in the store. */
  datatype Tables = Tables(
    levels: seq<LevelRow>,
    expLogs: seq<ExpLog>,
    effects: seq<StatusEffect>,
    punishments: seq<Punishment>,
    attendances: seq<Attendance>)

  /** The tables and the user after an operation, with the operation's result. */
  datatype After<R> = After(tables: Tables, user: UserRow, value: R)

  /** The persistent store; the level table is seed data and never changes. */
  class Store {
    const levels: seq<LevelRow>
    var expLogs: seq<ExpLog>
    var effects: seq<StatusEffect>
    var punishments: seq<Punishment>
    var attendances: seq<Attendance>

    function Snapshot(): Tables
      reads this
    {
      Tables(levels, expLogs, effects, punishments, attendances)
    }

    constructor (levels: seq<LevelRow>)
      requires UniqueLevels(levels)
      ensures Snapshot() == Tables(levels, [], [], [], [])
    {
      this.levels := levels;
      expLogs := [];
      effects := [];
      punishments := [];
      attendances := [];
    }

    /** Switches one status effect off and changes nothing else. */
    method Deactivate(i: nat)
      requires i < |effects|
      modifies this
      ensures Snapshot() == old(Snapshot()).(effects := old(effects)[i := old(effects)[i].(isActive := false)])
    {
      effects := effects[i := effects[i].(isActive := false)];
    }
  }
}
