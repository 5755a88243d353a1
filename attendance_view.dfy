/**
 * The attendance page of a dungeon (core/views.py, attendance_update): every
 * player gets an attendance row for the dungeon, then a submitted form moves
 * each row between absent and attended, granting or revoking the dungeon's
 * EXP and running the absence check on every row left absent.
 *
 * The attendance id of a row is its index in the attendance table.
 */
module AttendanceView {
  import opened Common
  import opened Accounts
  import opened Models
  import opened HonorTiers
  import opened ExpLedger
  import opened Punishments

  datatype Dungeon = Dungeon(id: nat, name: string, expReward: int)

  // ---------------------------------------------------------------------
  // get_or_create of the rows

  predicate RowFor(a: Attendance, uid: nat, did: nat)
  {
    a.userId == uid && a.dungeonId == did
  }

  /** The index of the user's row for the dungeon, if there is one. */
  function FindAttendance(atts: seq<Attendance>, uid: nat, did: nat): (r: Option<nat>)
    ensures r.Some? ==> r.value < |atts| && RowFor(atts[r.value], uid, did)
    ensures r.None? ==> forall j :: 0 <= j < |atts| ==> !RowFor(atts[j], uid, did)
    decreases |atts|
  {
    if atts == [] then None
    else if RowFor(atts[|atts| - 1], uid, did) then Some(|atts| - 1)
    else FindAttendance(atts[..|atts| - 1], uid, did)
  }

  /** The existing row, or a new absent row with no participation EXP. */
  function GetOrCreate(atts: seq<Attendance>, uid: nat, did: nat): (r: (seq<Attendance>, nat))
    ensures r.1 < |r.0| && RowFor(r.0[r.1], uid, did)
    ensures FindAttendance(atts, uid, did).Some? ==> r.0 == atts
    ensures FindAttendance(atts, uid, did).None? ==> r.0 == atts + [Attendance(uid, did, false, 0)]
  {
    match FindAttendance(atts, uid, did)
    case Some(i) => (atts, i)
    case None => (atts + [Attendance(uid, did, false, 0)], |atts|)
  }

  /**
   * get_or_create for every player in turn: the table only grows, by default
   * rows for the dungeon, and each player ends up with the index of a row of
   * their own for it.
   */
  function EnsureRows(atts: seq<Attendance>, pks: seq<nat>, did: nat): (r: (seq<Attendance>, seq<nat>))
    ensures |r.1| == |pks| && |atts| <= |r.0| && r.0[..|atts|] == atts
    ensures forall j :: 0 <= j < |pks| ==> r.1[j] < |r.0| && RowFor(r.0[r.1[j]], pks[j], did)
    ensures forall k :: |atts| <= k < |r.0| ==> r.0[k].dungeonId == did && !r.0[k].attended && r.0[k].participationExp == 0
    decreases |pks|
  {
    if pks == [] then (atts, [])
    else
      var prev := EnsureRows(atts, pks[..|pks| - 1], did);
      var step := GetOrCreate(prev.0, pks[|pks| - 1], did);
      (step.0, prev.1 + [step.1])
  }

  /** get_or_create for one more player continues from the rows of the players before it. */
  lemma EnsureRowsStep(atts: seq<Attendance>, pks: seq<nat>, did: nat, k: nat)
    requires k < |pks|
    ensures var prev := EnsureRows(atts, pks[..k], did);
      var step := GetOrCreate(prev.0, pks[k], did);
      EnsureRows(atts, pks[..k + 1], did) == (step.0, prev.1 + [step.1])
  {
    assert pks[..k + 1][..k] == pks[..k];
  }

  /** When every player already has a row, get_or_create creates nothing. */
  lemma {:induction false} EnsureRowsNoop(atts: seq<Attendance>, pks: seq<nat>, did: nat)
    requires forall j :: 0 <= j < |pks| ==> FindAttendance(atts, pks[j], did).Some?
    ensures EnsureRows(atts, pks, did).0 == atts
    decreases |pks|
  {
    if pks != [] {
      var init := pks[..|pks| - 1];
      assert forall j :: 0 <= j < |init| ==> init[j] == pks[j];
      EnsureRowsNoop(atts, init, did);
    }
  }

  /** Opening the page a second time adds no rows. */
  lemma EnsureRowsIdempotent(atts: seq<Attendance>, pks: seq<nat>, did: nat)
    ensures var once := EnsureRows(atts, pks, did).0;
      EnsureRows(once, pks, did).0 == once
  {
    var r := EnsureRows(atts, pks, did);
    forall j | 0 <= j < |pks|
      ensures FindAttendance(r.0, pks[j], did).Some?
    {
      assert RowFor(r.0[r.1[j]], pks[j], did);
    }
    EnsureRowsNoop(r.0, pks, did);
  }

  // ---------------------------------------------------------------------
  // One row

  /**
   * The checkbox state of a row: bulk "all" and "none" override the form;
   * otherwise a row is attended when its "attended_<id>" box was ticked.
   */
  function MarkFor(bulk: Option<string>, checked: set<nat>, id: nat): bool
  {
    if bulk == Some("all") then true
    else if bulk == Some("none") then false
    else id in checked
  }

  function JoinText(d: Dungeon): string
  {
    "Attended dungeon: " + d.name
  }

  function LeaveText(d: Dungeon): string
  {
    "Removed attendance for dungeon: " + d.name
  }

  /**
   * The move of one row. Absent to attended grants the dungeon's EXP, unless
   * the player's honor is too low to join, in which case the row stays
   * absent; attended to absent revokes it; an unchanged row moves nothing.
   * The value says whether EXP moved.
   */
  function MoveRowSpec(t: Tables, u: UserRow, i: nat, mark: bool, d: Dungeon, now: int): (r: After<bool>)
    requires u.pk.Some? && i < |t.attendances|
    ensures |r.tables.attendances| == |t.attendances| && r.tables.levels == t.levels && r.user.pk == u.pk
    ensures forall j :: 0 <= j < |t.attendances| && j != i ==> r.tables.attendances[j] == t.attendances[j]
    ensures RowFor(r.tables.attendances[i], t.attendances[i].userId, t.attendances[i].dungeonId)
    ensures r.tables.attendances[i].attended <==>
      mark && (t.attendances[i].attended || CheckHonorPrivileges(u.honorPoints).canJoinDungeon)
    ensures r.value <==> r.tables.attendances[i].attended != t.attendances[i].attended
  {
    var a := t.attendances[i];
    if mark && !a.attended then
      if !CheckHonorPrivileges(u.honorPoints).canJoinDungeon then After(t, u, false)
      else
        var joined := t.(attendances := t.attendances[i := a.(attended := true, participationExp := d.expReward)]);
        var g := AddExpSpec(joined, u, d.expReward, Participation, JoinText(d), now);
        After(g.tables, g.user, true)
    else if !mark && a.attended then
      var left := t.(attendances := t.attendances[i := a.(attended := false, participationExp := 0)]);
      var g := AddExpSpec(left, u, -d.expReward, Participation, LeaveText(d), now);
      After(g.tables, g.user, true)
    else After(t, u, false)
  }

  /**
   * One row of the loop: the move, then, for a row left absent, the absence
   * check (a refused join skips it, as the row was meant to be attended).
   */
  function AttendanceStepSpec(t: Tables, u: UserRow, i: nat, mark: bool, d: Dungeon, actor: Option<nat>, now: int)
    : (r: After<bool>)
    requires u.pk.Some? && i < |t.attendances|
    ensures |r.tables.attendances| == |t.attendances| && r.tables.levels == t.levels && r.user.pk == u.pk
    ensures forall j :: 0 <= j < |t.attendances| && j != i ==> r.tables.attendances[j] == t.attendances[j]
    ensures RowFor(r.tables.attendances[i], t.attendances[i].userId, t.attendances[i].dungeonId)
    ensures r.tables.attendances[i].attended <==>
      mark && (t.attendances[i].attended || CheckHonorPrivileges(u.honorPoints).canJoinDungeon)
    ensures r.value <==> r.tables.attendances[i].attended != t.attendances[i].attended
  {
    var moved := MoveRowSpec(t, u, i, mark, d, now);
    if mark then moved
    else
      var c := AbsenceSpec(moved.tables, moved.user, actor, now);
      After(c.tables, c.user, moved.value)
  }

  /** The move of one row, on the store and the row's user object. */
  method MoveRow(db: Store, u: User, i: nat, mark: bool, d: Dungeon, now: int) returns (changed: bool)
    requires u.pk.Some? && i < |db.attendances|
    modifies db, u
    ensures After(db.Snapshot(), u.Row(), changed) == MoveRowSpec(old(db.Snapshot()), old(u.Row()), i, mark, d, now)
  {
    var a := db.attendances[i];
    changed := false;
    if mark && !a.attended {
      var privileges := CheckHonorPrivileges(u.honorPoints);
      if !privileges.canJoinDungeon {
        return;
      }
      db.attendances := db.attendances[i := a.(attended := true, participationExp := d.expReward)];
      var granted := AddExp(db, u, d.expReward, Participation, JoinText(d), now);
      changed := true;
    } else if !mark && a.attended {
      db.attendances := db.attendances[i := a.(attended := false, participationExp := 0)];
      var revoked := AddExp(db, u, -d.expReward, Participation, LeaveText(d), now);
      changed := true;
    }
  }

  /** One row of the loop, on the store and the row's user object. */
  method AttendanceStep(db: Store, u: User, i: nat, mark: bool, d: Dungeon, actor: Option<nat>, now: int)
    returns (changed: bool)
    requires u.pk.Some? && i < |db.attendances|
    modifies db, u
    ensures After(db.Snapshot(), u.Row(), changed) == AttendanceStepSpec(old(db.Snapshot()), old(u.Row()), i, mark, d, actor, now)
  {
    changed := MoveRow(db, u, i, mark, d, now);
    if !mark {
      var punished := CheckAndApplyAbsencePunishment(db, u, actor, now);
    }
  }

  /**
   * Joining with enough honor: the row becomes attended with the dungeon's
   * reward, and exactly that reward, scaled by the player's multiplier, is
   * credited under participation.
   */
  lemma JoinGrantsReward(t: Tables, u: UserRow, i: nat, d: Dungeon, actor: Option<nat>, now: int)
    requires u.pk.Some? && i < |t.attendances|
    requires !t.attendances[i].attended && u.honorPoints >= 100
    ensures var r := AttendanceStepSpec(t, u, i, true, d, actor, now);
      var m := CombinedMultiplier(t.effects, u.pk.value, now, u.honorPoints);
      && r.value
      && r.tables.attendances[i] == t.attendances[i].(attended := true, participationExp := d.expReward)
      && r.user.totalExp == u.totalExp + TruncScale(d.expReward, m)
      && r.tables.expLogs[|t.expLogs|] == ExpLog(u.pk.value, Participation, TruncScale(d.expReward, m), Annotate(JoinText(d), m))
      && r.tables.punishments == t.punishments
  {
    var a := t.attendances[i];
    var joined := t.(attendances := t.attendances[i := a.(attended := true, participationExp := d.expReward)]);
    AddExpLedger(joined, u, d.expReward, Participation, JoinText(d), now);
  }

  /**
   * A join refused for low honor changes nothing at all: no EXP, no log, and
   * no absence check, however many absences the player has.
   */
  lemma RefusedJoinChangesNothing(t: Tables, u: UserRow, i: nat, d: Dungeon, actor: Option<nat>, now: int)
    requires u.pk.Some? && i < |t.attendances|
    requires !t.attendances[i].attended && u.honorPoints < 100
    ensures AttendanceStepSpec(t, u, i, true, d, actor, now) == After(t, u, false)
  {
  }

  /**
   * Leaving: the row becomes absent with no participation EXP, the reward
   * scaled by the current multiplier is taken back, and the absence check
   * runs on the result.
   */
  lemma LeaveRevokesReward(t: Tables, u: UserRow, i: nat, d: Dungeon, actor: Option<nat>, now: int)
    requires u.pk.Some? && i < |t.attendances|
    requires t.attendances[i].attended
    ensures var left := t.(attendances := t.attendances[i := t.attendances[i].(attended := false, participationExp := 0)]);
      var g := AddExpSpec(left, u, -d.expReward, Participation, LeaveText(d), now);
      var c := AbsenceSpec(g.tables, g.user, actor, now);
      var r := AttendanceStepSpec(t, u, i, false, d, actor, now);
      && g.user.totalExp == u.totalExp - TruncScale(d.expReward, CombinedMultiplier(t.effects, u.pk.value, now, u.honorPoints))
      && g.tables.attendances[i] == t.attendances[i].(attended := false, participationExp := 0)
      && r == After(c.tables, c.user, true)
  {
    var left := t.(attendances := t.attendances[i := t.attendances[i].(attended := false, participationExp := 0)]);
    var g := AddExpSpec(left, u, -d.expReward, Participation, LeaveText(d), now);
    assert MoveRowSpec(t, u, i, false, d, now) == After(g.tables, g.user, true);
    AddExpLedger(left, u, -d.expReward, Participation, LeaveText(d), now);
    TruncScaleOdd(d.expReward, CombinedMultiplier(t.effects, u.pk.value, now, u.honorPoints));
  }

  /**
   * A row whose state does not change moves no EXP: an attended row kept
   * attended changes nothing, an absent row kept absent only goes through the
   * absence check.
   */
  lemma UnchangedRowMovesNoExp(t: Tables, u: UserRow, i: nat, mark: bool, d: Dungeon, actor: Option<nat>, now: int)
    requires u.pk.Some? && i < |t.attendances|
    requires t.attendances[i].attended == mark
    ensures var r := AttendanceStepSpec(t, u, i, mark, d, actor, now);
      && !r.value
      && (mark ==> r == After(t, u, false))
      && (!mark ==> var c := AbsenceSpec(t, u, actor, now); r.tables == c.tables && r.user == c.user)
  {
  }

  // ---------------------------------------------------------------------
  // The whole loop

  datatype Batch = Batch(tables: Tables, rows: seq<UserRow>, updated: nat)

  /** Row k of the loop on a batch: only player k and the row at idxs[k] change. */
  function AdvanceBatch(b: Batch, idxs: seq<nat>, bulk: Option<string>, checked: set<nat>,
                        d: Dungeon, actor: Option<nat>, now: int, k: nat): (r: Batch)
    requires k < |b.rows| == |idxs| && idxs[k] < |b.tables.attendances| && b.rows[k].pk.Some?
    ensures |r.rows| == |b.rows| && |r.tables.attendances| == |b.tables.attendances| && r.tables.levels == b.tables.levels
    ensures forall j :: 0 <= j < |b.rows| ==> r.rows[j].pk == b.rows[j].pk
    ensures forall j :: 0 <= j < |b.rows| && j != k ==> r.rows[j] == b.rows[j]
    ensures forall j :: 0 <= j < |b.tables.attendances| && j != idxs[k] ==> r.tables.attendances[j] == b.tables.attendances[j]
    ensures RowFor(r.tables.attendances[idxs[k]], b.tables.attendances[idxs[k]].userId, b.tables.attendances[idxs[k]].dungeonId)
    ensures r.tables.attendances[idxs[k]].attended ==> MarkFor(bulk, checked, idxs[k])
    ensures r.updated <= b.updated + 1
  {
    var i := idxs[k];
    var s := AttendanceStepSpec(b.tables, b.rows[k], i, MarkFor(bulk, checked, i), d, actor, now);
    Batch(s.tables, b.rows[k := s.user], b.updated + if s.value then 1 else 0)
  }

  /**
   * Row k of the loop counts one update exactly when the row's attended flag
   * flips, and the row ends attended exactly when it is marked and the player
   * was already attending or may join.
   */
  lemma AdvanceBatchSettles(b: Batch, idxs: seq<nat>, bulk: Option<string>, checked: set<nat>,
                            d: Dungeon, actor: Option<nat>, now: int, k: nat)
    requires k < |b.rows| == |idxs| && idxs[k] < |b.tables.attendances| && b.rows[k].pk.Some?
    ensures var r := AdvanceBatch(b, idxs, bulk, checked, d, actor, now, k);
      && (r.tables.attendances[idxs[k]].attended <==>
          MarkFor(bulk, checked, idxs[k]) && (b.tables.attendances[idxs[k]].attended || CheckHonorPrivileges(b.rows[k].honorPoints).canJoinDungeon))
      && r.updated == b.updated + if r.tables.attendances[idxs[k]].attended != b.tables.attendances[idxs[k]].attended then 1 else 0
  {
  }

  /**
   * The first k rows of the loop, in order; `updated` counts the rows whose
   * EXP moved. Each row touches only its own player.
   */
  function ProcessPlayers(t: Tables, rows: seq<UserRow>, idxs: seq<nat>, bulk: Option<string>, checked: set<nat>,
                          d: Dungeon, actor: Option<nat>, now: int, k: nat): (b: Batch)
    requires |idxs| == |rows| && k <= |rows|
    requires forall j :: 0 <= j < |idxs| ==> idxs[j] < |t.attendances|
    requires forall j :: 0 <= j < |rows| ==> rows[j].pk.Some?
    ensures |b.rows| == |rows| && |b.tables.attendances| == |t.attendances| && b.tables.levels == t.levels
    ensures forall j :: 0 <= j < |rows| ==> b.rows[j].pk == rows[j].pk
    ensures b.updated <= k
    decreases k, 0
  {
    if k == 0 then Batch(t, rows, 0)
    else ProcessRow(t, rows, idxs, bulk, checked, d, actor, now, k - 1)
  }

  /** The first k rows of the loop and then row k. */
  function ProcessRow(t: Tables, rows: seq<UserRow>, idxs: seq<nat>, bulk: Option<string>, checked: set<nat>,
                      d: Dungeon, actor: Option<nat>, now: int, k: nat): (b: Batch)
    requires |idxs| == |rows| && k < |rows|
    requires forall j :: 0 <= j < |idxs| ==> idxs[j] < |t.attendances|
    requires forall j :: 0 <= j < |rows| ==> rows[j].pk.Some?
    ensures |b.rows| == |rows| && |b.tables.attendances| == |t.attendances| && b.tables.levels == t.levels
    ensures forall j :: 0 <= j < |rows| ==> b.rows[j].pk == rows[j].pk
    ensures b.updated <= k + 1
    decreases k, 1
  {
    AdvanceBatch(ProcessPlayers(t, rows, idxs, bulk, checked, d, actor, now, k), idxs, bulk, checked, d, actor, now, k)
  }

  /** The loop over k rows is the loop over k - 1 rows and one more row. */
  lemma ProcessPlayersUnfold(t: Tables, rows: seq<UserRow>, idxs: seq<nat>, bulk: Option<string>,
                             checked: set<nat>, d: Dungeon, actor: Option<nat>, now: int, k: nat)
    requires |idxs| == |rows| && 0 < k <= |rows|
    requires forall j :: 0 <= j < |idxs| ==> idxs[j] < |t.attendances|
    requires forall j :: 0 <= j < |rows| ==> rows[j].pk.Some?
    ensures ProcessPlayers(t, rows, idxs, bulk, checked, d, actor, now, k)
         == AdvanceBatch(ProcessPlayers(t, rows, idxs, bulk, checked, d, actor, now, k - 1), idxs, bulk, checked, d, actor, now, k - 1)
  {
  }

  /** Each of the first k rows at idxs is attended only if its mark was set. */
  predicate FollowsMarks(b: Batch, idxs: seq<nat>, bulk: Option<string>, checked: set<nat>, k: nat)
  {
    forall j :: 0 <= j < k && j < |idxs| && idxs[j] < |b.tables.attendances| && b.tables.attendances[idxs[j]].attended
      ==> MarkFor(bulk, checked, idxs[j])
  }

  /** One more row, the k-th, keeps every processed row in line with its mark. */
  lemma AdvanceKeepsMarks(prev: Batch, idxs: seq<nat>, bulk: Option<string>, checked: set<nat>,
                          d: Dungeon, actor: Option<nat>, now: int, k: nat)
    requires 0 < k <= |prev.rows| == |idxs| && idxs[k - 1] < |prev.tables.attendances| && prev.rows[k - 1].pk.Some?
    requires FollowsMarks(prev, idxs, bulk, checked, k - 1)
    ensures FollowsMarks(AdvanceBatch(prev, idxs, bulk, checked, d, actor, now, k - 1), idxs, bulk, checked, k)
  {
    var b := AdvanceBatch(prev, idxs, bulk, checked, d, actor, now, k - 1);
    forall j | 0 <= j < k && j < |idxs| && idxs[j] < |b.tables.attendances| && b.tables.attendances[idxs[j]].attended
      ensures MarkFor(bulk, checked, idxs[j])
    {
      if idxs[j] != idxs[k - 1] {
        assert b.tables.attendances[idxs[j]] == prev.tables.attendances[idxs[j]];
      }
    }
  }

  /**
   * No processed row ends attended unless its box was ticked (or bulk "all"
   * was chosen); in particular bulk "none" leaves every processed row absent.
   */
  lemma {:induction false} ProcessedRowsFollowMarks(t: Tables, rows: seq<UserRow>, idxs: seq<nat>, bulk: Option<string>,
                                                     checked: set<nat>, d: Dungeon, actor: Option<nat>, now: int, k: nat)
    requires |idxs| == |rows| && k <= |rows|
    requires forall j :: 0 <= j < |idxs| ==> idxs[j] < |t.attendances|
    requires forall j :: 0 <= j < |rows| ==> rows[j].pk.Some?
    ensures FollowsMarks(ProcessPlayers(t, rows, idxs, bulk, checked, d, actor, now, k), idxs, bulk, checked, k)
    decreases k
  {
    if k > 0 {
      ProcessedRowsFollowMarks(t, rows, idxs, bulk, checked, d, actor, now, k - 1);
      AdvanceKeepsMarks(ProcessPlayers(t, rows, idxs, bulk, checked, d, actor, now, k - 1), idxs, bulk, checked, d, actor, now, k);
      ProcessPlayersUnfold(t, rows, idxs, bulk, checked, d, actor, now, k);
    }
  }

  /** After bulk "none" no player's row for the dungeon is attended. */
  lemma BulkNoneLeavesAllAbsent(t: Tables, rows: seq<UserRow>, idxs: seq<nat>, checked: set<nat>,
                                d: Dungeon, actor: Option<nat>, now: int)
    requires |idxs| == |rows|
    requires forall j :: 0 <= j < |idxs| ==> idxs[j] < |t.attendances|
    requires forall j :: 0 <= j < |rows| ==> rows[j].pk.Some?
    ensures var b := ProcessPlayers(t, rows, idxs, Some("none"), checked, d, actor, now, |rows|);
      forall j :: 0 <= j < |rows| ==> !b.tables.attendances[idxs[j]].attended
  {
    ProcessedRowsFollowMarks(t, rows, idxs, Some("none"), checked, d, actor, now, |rows|);
  }

  /** The rows of `b` belong to the same users and dungeons as those of `a`. */
  predicate SameOwners(a: seq<Attendance>, b: seq<Attendance>)
  {
    |a| == |b| && forall j :: 0 <= j < |a| ==> RowFor(b[j], a[j].userId, a[j].dungeonId)
  }

  /** The loop only flips rows: no row changes its user or its dungeon. */
  lemma {:induction false} ProcessPlayersKeepsOwners(t: Tables, rows: seq<UserRow>, idxs: seq<nat>, bulk: Option<string>,
                                                      checked: set<nat>, d: Dungeon, actor: Option<nat>, now: int, k: nat)
    requires |idxs| == |rows| && k <= |rows|
    requires forall j :: 0 <= j < |idxs| ==> idxs[j] < |t.attendances|
    requires forall j :: 0 <= j < |rows| ==> rows[j].pk.Some?
    ensures SameOwners(t.attendances, ProcessPlayers(t, rows, idxs, bulk, checked, d, actor, now, k).tables.attendances)
    decreases k
  {
    if k > 0 {
      ProcessPlayersKeepsOwners(t, rows, idxs, bulk, checked, d, actor, now, k - 1);
      ProcessPlayersUnfold(t, rows, idxs, bulk, checked, d, actor, now, k);
      var prev := ProcessPlayers(t, rows, idxs, bulk, checked, d, actor, now, k - 1);
      var b := AdvanceBatch(prev, idxs, bulk, checked, d, actor, now, k - 1);
      forall j | 0 <= j < |t.attendances|
        ensures RowFor(b.tables.attendances[j], t.attendances[j].userId, t.attendances[j].dungeonId)
      {
        assert RowFor(prev.tables.attendances[j], t.attendances[j].userId, t.attendances[j].dungeonId);
      }
    }
  }

  /** No two players' rows are the same row. */
  predicate DistinctRows(idxs: seq<nat>)
  {
    forall j, l :: 0 <= j < l < |idxs| ==> idxs[j] != idxs[l]
  }

  /** How many of the rows at idxs[..k] have a different attended flag in `after` than in `before`. */
  function FlipCount(before: seq<Attendance>, after: seq<Attendance>, idxs: seq<nat>, k: nat): (n: nat)
    requires k <= |idxs|
    requires forall j :: 0 <= j < |idxs| ==> idxs[j] < |before| && idxs[j] < |after|
    ensures n <= k
  {
    if k == 0 then 0
    else FlipCount(before, after, idxs, k - 1) + if after[idxs[k - 1]].attended != before[idxs[k - 1]].attended then 1 else 0
  }

  /** The count only looks at the flags of the rows at idxs[..k]. */
  lemma {:induction false} FlipCountFrame(before: seq<Attendance>, a1: seq<Attendance>, a2: seq<Attendance>, idxs: seq<nat>, k: nat)
    requires k <= |idxs|
    requires forall j :: 0 <= j < |idxs| ==> idxs[j] < |before| && idxs[j] < |a1| && idxs[j] < |a2|
    requires forall j :: 0 <= j < k ==> a1[idxs[j]].attended == a2[idxs[j]].attended
    ensures FlipCount(before, a1, idxs, k) == FlipCount(before, a2, idxs, k)
  {
    if k > 0 {
      FlipCountFrame(before, a1, a2, idxs, k - 1);
    }
  }

  /**
   * Where the loop stands after its first k rows, against the rows `before`
   * it and the players as they were: the rows and players not yet reached are
   * untouched, each processed row is attended exactly when it is marked and
   * its player was attending already or may join, and `updated` counts the
   * processed rows whose attended flag flipped.
   */
  predicate LoopState(before: seq<Attendance>, rows: seq<UserRow>, idxs: seq<nat>, bulk: Option<string>,
                      checked: set<nat>, k: nat, b: Batch)
  {
    && k <= |idxs| == |rows| == |b.rows| && |b.tables.attendances| == |before|
    && (forall j :: 0 <= j < |idxs| ==> idxs[j] < |before|)
    && (forall j :: k <= j < |idxs| ==> b.tables.attendances[idxs[j]] == before[idxs[j]])
    && (forall j :: k <= j < |rows| ==> b.rows[j] == rows[j])
    && (forall j :: 0 <= j < k ==>
          (b.tables.attendances[idxs[j]].attended <==>
           MarkFor(bulk, checked, idxs[j]) && (before[idxs[j]].attended || CheckHonorPrivileges(rows[j].honorPoints).canJoinDungeon)))
    && b.updated == FlipCount(before, b.tables.attendances, idxs, k)
  }

  /** One more row, settled as AdvanceBatchSettles says, takes the loop state from k - 1 rows to k. */
  lemma LoopStateStep(before: seq<Attendance>, rows: seq<UserRow>, idxs: seq<nat>, bulk: Option<string>,
                      checked: set<nat>, k: nat, prev: Batch, b: Batch)
    requires 0 < k && DistinctRows(idxs)
    requires LoopState(before, rows, idxs, bulk, checked, k - 1, prev)
    requires k <= |prev.rows| && |b.rows| == |prev.rows| && |b.tables.attendances| == |prev.tables.attendances|
    requires forall j :: 0 <= j < |prev.rows| && j != k - 1 ==> b.rows[j] == prev.rows[j]
    requires forall j :: 0 <= j < |prev.tables.attendances| && j != idxs[k - 1] ==> b.tables.attendances[j] == prev.tables.attendances[j]
    requires b.tables.attendances[idxs[k - 1]].attended <==>
      MarkFor(bulk, checked, idxs[k - 1])
      && (prev.tables.attendances[idxs[k - 1]].attended || CheckHonorPrivileges(prev.rows[k - 1].honorPoints).canJoinDungeon)
    requires b.updated == prev.updated + if b.tables.attendances[idxs[k - 1]].attended != prev.tables.attendances[idxs[k - 1]].attended then 1 else 0
    ensures LoopState(before, rows, idxs, bulk, checked, k, b)
  {
    forall j | 0 <= j < |idxs| && j != k - 1
      ensures b.tables.attendances[idxs[j]] == prev.tables.attendances[idxs[j]]
    {
      assert idxs[j] != idxs[k - 1];
    }
    FlipCountFrame(before, prev.tables.attendances, b.tables.attendances, idxs, k - 1);
  }

  /** Row k - 1 of the loop takes the loop state from k - 1 rows to k. */
  lemma AdvanceKeepsLoopState(before: seq<Attendance>, rows: seq<UserRow>, idxs: seq<nat>, bulk: Option<string>,
                              checked: set<nat>, d: Dungeon, actor: Option<nat>, now: int, k: nat, prev: Batch)
    requires 0 < k <= |idxs| && DistinctRows(idxs)
    requires LoopState(before, rows, idxs, bulk, checked, k - 1, prev)
    requires forall j :: 0 <= j < |prev.rows| ==> prev.rows[j].pk.Some?
    ensures LoopState(before, rows, idxs, bulk, checked, k, AdvanceBatch(prev, idxs, bulk, checked, d, actor, now, k - 1))
  {
    AdvanceBatchSettles(prev, idxs, bulk, checked, d, actor, now, k - 1);
    LoopStateStep(before, rows, idxs, bulk, checked, k, prev, AdvanceBatch(prev, idxs, bulk, checked, d, actor, now, k - 1));
  }

  /** With distinct rows, the first k rows of the loop leave it in LoopState. */
  lemma {:induction false} ProcessPlayersState(t: Tables, rows: seq<UserRow>, idxs: seq<nat>, bulk: Option<string>,
                                                checked: set<nat>, d: Dungeon, actor: Option<nat>, now: int, k: nat)
    requires |idxs| == |rows| && k <= |rows|
    requires forall j :: 0 <= j < |idxs| ==> idxs[j] < |t.attendances|
    requires forall j :: 0 <= j < |rows| ==> rows[j].pk.Some?
    requires DistinctRows(idxs)
    ensures LoopState(t.attendances, rows, idxs, bulk, checked, k, ProcessPlayers(t, rows, idxs, bulk, checked, d, actor, now, k))
    decreases k
  {
    if k == 0 {
      assert ProcessPlayers(t, rows, idxs, bulk, checked, d, actor, now, k) == Batch(t, rows, 0);
    } else {
      ProcessPlayersState(t, rows, idxs, bulk, checked, d, actor, now, k - 1);
      ProcessPlayersUnfold(t, rows, idxs, bulk, checked, d, actor, now, k);
      AdvanceKeepsLoopState(t.attendances, rows, idxs, bulk, checked, d, actor, now, k,
                            ProcessPlayers(t, rows, idxs, bulk, checked, d, actor, now, k - 1));
    }
  }

  /**
   * With distinct rows, every processed row ends attended exactly when it
   * is marked and its player was already attending or may join with the
   * honor they had before the loop.
   */
  lemma ProcessedRowsAttend(t: Tables, rows: seq<UserRow>, idxs: seq<nat>, bulk: Option<string>,
                            checked: set<nat>, d: Dungeon, actor: Option<nat>, now: int, k: nat)
    requires |idxs| == |rows| && k <= |rows|
    requires forall j :: 0 <= j < |idxs| ==> idxs[j] < |t.attendances|
    requires forall j :: 0 <= j < |rows| ==> rows[j].pk.Some?
    requires DistinctRows(idxs)
    ensures var b := ProcessPlayers(t, rows, idxs, bulk, checked, d, actor, now, k);
      forall j :: 0 <= j < k ==>
        (b.tables.attendances[idxs[j]].attended <==>
         MarkFor(bulk, checked, idxs[j]) && (t.attendances[idxs[j]].attended || CheckHonorPrivileges(rows[j].honorPoints).canJoinDungeon))
  {
    ProcessPlayersState(t, rows, idxs, bulk, checked, d, actor, now, k);
  }

  /** With distinct rows, `updated` counts exactly the processed rows whose attended flag flipped. */
  lemma ProcessPlayersCountsFlips(t: Tables, rows: seq<UserRow>, idxs: seq<nat>, bulk: Option<string>,
                                  checked: set<nat>, d: Dungeon, actor: Option<nat>, now: int, k: nat)
    requires |idxs| == |rows| && k <= |rows|
    requires forall j :: 0 <= j < |idxs| ==> idxs[j] < |t.attendances|
    requires forall j :: 0 <= j < |rows| ==> rows[j].pk.Some?
    requires DistinctRows(idxs)
    ensures var b := ProcessPlayers(t, rows, idxs, bulk, checked, d, actor, now, k);
      b.updated == FlipCount(t.attendances, b.tables.attendances, idxs, k)
  {
    ProcessPlayersState(t, rows, idxs, bulk, checked, d, actor, now, k);
  }

  // ---------------------------------------------------------------------
  // The view

  /** A page view, or a submitted form with its bulk action and ticked attendance ids. */
  datatype AttendanceRequest = Show | Submit(bulk: Option<string>, checked: set<nat>)

  datatype AttendanceOutcome = AttendanceDenied | DungeonNotFound | AttendanceShown | BulkUpdated(updated: nat) | ItemsUpdated

  datatype AttendanceResult = AttendanceResult(tables: Tables, rows: seq<UserRow>, outcome: AttendanceOutcome)

  function Pks(rows: seq<UserRow>): (pks: seq<nat>)
    requires forall j :: 0 <= j < |rows| ==> rows[j].pk.Some?
    ensures |pks| == |rows| && forall j :: 0 <= j < |rows| ==> rows[j].pk == Some(pks[j])
  {
    seq(|rows|, j requires 0 <= j < |rows| => rows[j].pk.value)
  }

  /**
   * attendance_update: admins only; then every player gets a row for the
   * dungeon, even on a page view; a submitted form then runs the loop over
   * all players, and bulk "all" or "none" reports how many rows moved EXP.
   */
  function AttendanceUpdateSpec(t: Tables, actor: UserRow, rows: seq<UserRow>, dungeon: Option<Dungeon>,
                                req: AttendanceRequest, now: int): (r: AttendanceResult)
    requires forall j :: 0 <= j < |rows| ==> rows[j].pk.Some?
    ensures !actor.IsAdmin() ==> r == AttendanceResult(t, rows, AttendanceDenied)
    ensures actor.IsAdmin() && dungeon.None? ==> r == AttendanceResult(t, rows, DungeonNotFound)
    ensures actor.IsAdmin() && dungeon.Some? ==>
      && |r.rows| == |rows|
      && |r.tables.attendances| >= |t.attendances|
      && (forall j :: 0 <= j < |rows| ==> r.rows[j].pk == rows[j].pk)
    ensures req.Show? ==> r.rows == rows && r.tables.expLogs == t.expLogs && r.tables.punishments == t.punishments
    ensures r.outcome.BulkUpdated? ==> r.outcome.updated <= |rows|
  {
    if !actor.IsAdmin() then AttendanceResult(t, rows, AttendanceDenied)
    else if dungeon.None? then AttendanceResult(t, rows, DungeonNotFound)
    else
      var d := dungeon.value;
      var ensured := EnsureRows(t.attendances, Pks(rows), d.id);
      var t1 := t.(attendances := ensured.0);
      match req
      case Show => AttendanceResult(t1, rows, AttendanceShown)
      case Submit(bulk, checked) => SubmitSpec(t1, rows, ensured.1, bulk, checked, d, actor.pk, now)
  }

  /** A submitted form: the loop over all rows; bulk "all" or "none" reports how many rows moved EXP. */
  function SubmitSpec(t: Tables, rows: seq<UserRow>, idxs: seq<nat>, bulk: Option<string>, checked: set<nat>,
                      d: Dungeon, actor: Option<nat>, now: int): (r: AttendanceResult)
    requires |idxs| == |rows|
    requires forall j :: 0 <= j < |idxs| ==> idxs[j] < |t.attendances|
    requires forall j :: 0 <= j < |rows| ==> rows[j].pk.Some?
  {
    var b := ProcessPlayers(t, rows, idxs, bulk, checked, d, actor, now, |rows|);
    var outcome := if bulk == Some("all") || bulk == Some("none") then BulkUpdated(b.updated) else ItemsUpdated;
    AttendanceResult(b.tables, b.rows, outcome)
  }

  /** For an admin and an existing dungeon the page ensures the rows, then shows them or takes the form. */
  lemma OpenedPage(t: Tables, actor: UserRow, rows: seq<UserRow>, d: Dungeon, req: AttendanceRequest, now: int)
    requires actor.IsAdmin()
    requires forall j :: 0 <= j < |rows| ==> rows[j].pk.Some?
    ensures var e := EnsureRows(t.attendances, Pks(rows), d.id);
      AttendanceUpdateSpec(t, actor, rows, Some(d), req, now)
        == if req.Show? then AttendanceResult(t.(attendances := e.0), rows, AttendanceShown)
           else SubmitSpec(t.(attendances := e.0), rows, e.1, req.bulk, req.checked, d, actor.pk, now)
  {
  }

  /** Once an admin has opened or submitted the page, every player has a row for the dungeon. */
  lemma EveryPlayerHasARow(t: Tables, actor: UserRow, rows: seq<UserRow>, d: Dungeon, req: AttendanceRequest, now: int)
    requires forall j :: 0 <= j < |rows| ==> rows[j].pk.Some?
    requires actor.IsAdmin()
    ensures var r := AttendanceUpdateSpec(t, actor, rows, Some(d), req, now);
      forall j :: 0 <= j < |rows| ==>
        exists k :: 0 <= k < |r.tables.attendances| && RowFor(r.tables.attendances[k], rows[j].pk.value, d.id)
  {
    var ensured := EnsureRows(t.attendances, Pks(rows), d.id);
    var t1 := t.(attendances := ensured.0);
    var r := AttendanceUpdateSpec(t, actor, rows, Some(d), req, now);
    if req.Submit? {
      ProcessPlayersKeepsOwners(t1, rows, ensured.1, req.bulk, req.checked, d, actor.pk, now, |rows|);
    }
    forall j | 0 <= j < |rows|
      ensures exists k :: 0 <= k < |r.tables.attendances| && RowFor(r.tables.attendances[k], rows[j].pk.value, d.id)
    {
      assert RowFor(r.tables.attendances[ensured.1[j]], rows[j].pk.value, d.id);
    }
  }

  /**
   * A submitted form, for distinct players: each player's row for the
   * dungeon ends attended exactly when it is marked and the player was
   * already attending or may join, and bulk "all" or "none" reports exactly
   * how many of those rows flipped.
   */
  lemma AttendanceUpdateSettles(t: Tables, actor: UserRow, rows: seq<UserRow>, d: Dungeon,
                                bulk: Option<string>, checked: set<nat>, now: int)
    requires forall j :: 0 <= j < |rows| ==> rows[j].pk.Some?
    requires forall j, l :: 0 <= j < l < |rows| ==> rows[j].pk != rows[l].pk
    requires actor.IsAdmin()
    ensures var ensured := EnsureRows(t.attendances, Pks(rows), d.id);
      var r := AttendanceUpdateSpec(t, actor, rows, Some(d), Submit(bulk, checked), now);
      && |r.tables.attendances| == |ensured.0|
      && (forall j :: 0 <= j < |rows| ==>
            (r.tables.attendances[ensured.1[j]].attended <==>
             MarkFor(bulk, checked, ensured.1[j])
             && (ensured.0[ensured.1[j]].attended || CheckHonorPrivileges(rows[j].honorPoints).canJoinDungeon)))
      && (r.outcome.BulkUpdated? ==> r.outcome.updated == FlipCount(ensured.0, r.tables.attendances, ensured.1, |rows|))
  {
    var ensured := EnsureRows(t.attendances, Pks(rows), d.id);
    var t1 := t.(attendances := ensured.0);
    forall j, l | 0 <= j < l < |rows|
      ensures ensured.1[j] != ensured.1[l]
    {
      assert RowFor(ensured.0[ensured.1[j]], Pks(rows)[j], d.id);
      assert RowFor(ensured.0[ensured.1[l]], Pks(rows)[l], d.id);
    }
    ProcessPlayersState(t1, rows, ensured.1, bulk, checked, d, actor.pk, now, |rows|);
  }

  /** The get_or_create loop over the players' keys, on the rows of the table. */
  method EnsureRowsLoop(atts0: seq<Attendance>, pks: seq<nat>, did: nat) returns (atts: seq<Attendance>, idxs: seq<nat>)
    ensures (atts, idxs) == EnsureRows(atts0, pks, did)
  {
    atts, idxs := atts0, [];
    var k := 0;
    while k < |pks|
      invariant 0 <= k <= |pks|
      invariant (atts, idxs) == EnsureRows(atts0, pks[..k], did)
    {
      EnsureRowsStep(atts0, pks, did, k);
      var row := GetOrCreate(atts, pks[k], did);
      atts := row.0;
      idxs := idxs + [row.1];
      k := k + 1;
    }
    assert pks[..k] == pks;
  }

  /** The get_or_create loop over the players, written back to the store. */
  method EnsureAttendances(db: Store, players: seq<User>, did: nat) returns (idxs: seq<nat>)
    requires forall j :: 0 <= j < |players| ==> players[j].pk.Some?
    modifies db
    ensures var r := EnsureRows(old(db.attendances), Pks(old(Rows(players))), did);
      db.Snapshot() == old(db.Snapshot()).(attendances := r.0) && idxs == r.1
    ensures Rows(players) == old(Rows(players))
  {
    var atts;
    atts, idxs := EnsureRowsLoop(db.attendances, Pks(Rows(players)), did);
    db.attendances := atts;
  }

  /** `b` is where the loop stands after its first k rows. */
  predicate Reached(t: Tables, rows: seq<UserRow>, idxs: seq<nat>, bulk: Option<string>, checked: set<nat>,
                    d: Dungeon, actor: Option<nat>, now: int, k: nat, b: Batch)
    requires |idxs| == |rows| && k <= |rows|
    requires forall j :: 0 <= j < |idxs| ==> idxs[j] < |t.attendances|
    requires forall j :: 0 <= j < |rows| ==> rows[j].pk.Some?
  {
    ProcessPlayers(t, rows, idxs, bulk, checked, d, actor, now, k) == b
  }

  /** From where the loop stands after k rows, row k's step takes it to where it stands after k + 1. */
  lemma ReachedNext(t: Tables, rows: seq<UserRow>, idxs: seq<nat>, bulk: Option<string>, checked: set<nat>,
                    d: Dungeon, actor: Option<nat>, now: int, k: nat, b: Batch, s: After<bool>)
    requires |idxs| == |rows| && k < |rows|
    requires forall j :: 0 <= j < |idxs| ==> idxs[j] < |t.attendances|
    requires forall j :: 0 <= j < |rows| ==> rows[j].pk.Some?
    requires Reached(t, rows, idxs, bulk, checked, d, actor, now, k, b)
    ensures |b.rows| == |rows| && |b.tables.attendances| == |t.attendances| && b.rows[k].pk.Some?
    ensures s == AttendanceStepSpec(b.tables, b.rows[k], idxs[k], MarkFor(bulk, checked, idxs[k]), d, actor, now) ==>
      Reached(t, rows, idxs, bulk, checked, d, actor, now, k + 1,
              Batch(s.tables, b.rows[k := s.user], b.updated + if s.value then 1 else 0))
  {
    ProcessPlayersUnfold(t, rows, idxs, bulk, checked, d, actor, now, k + 1);
  }

  /** Row k of the loop on the store and the player objects. */
  method AdvanceStep(db: Store, players: seq<User>, idxs: seq<nat>, bulk: Option<string>, checked: set<nat>,
                     d: Dungeon, actor: Option<nat>, now: int, k: nat, ghost t1: Tables, ghost rows0: seq<UserRow>,
                     updated: nat)
    returns (count: nat)
    requires k < |players| == |idxs| == |rows0|
    requires forall j :: 0 <= j < |idxs| ==> idxs[j] < |t1.attendances|
    requires forall j :: 0 <= j < |rows0| ==> rows0[j].pk.Some?
    requires forall j, l :: 0 <= j < l < |rows0| ==> rows0[j].pk != rows0[l].pk
    requires Reached(t1, rows0, idxs, bulk, checked, d, actor, now, k, Batch(db.Snapshot(), Rows(players), updated))
    modifies db, players[k]
    ensures Reached(t1, rows0, idxs, bulk, checked, d, actor, now, k + 1, Batch(db.Snapshot(), Rows(players), count))
  {
    ghost var b := Batch(db.Snapshot(), Rows(players), updated);
    ReachedNext(t1, rows0, idxs, bulk, checked, d, actor, now, k, b, After(b.tables, b.rows[k], false));
    var u := players[k];
    assert forall j :: 0 <= j < |players| && j != k ==> players[j] != u;
    var i := idxs[k];
    var changed := AttendanceStep(db, u, i, MarkFor(bulk, checked, i), d, actor, now);
    ghost var s := After(db.Snapshot(), u.Row(), changed);
    ReachedNext(t1, rows0, idxs, bulk, checked, d, actor, now, k, b, s);
    assert Rows(players) == b.rows[k := u.Row()];
    count := updated + if changed then 1 else 0;
  }

  /** The loop over all rows of a submitted form. */
  method ProcessRows(db: Store, players: seq<User>, idxs: seq<nat>, bulk: Option<string>, checked: set<nat>,
                     d: Dungeon, actor: Option<nat>, now: int, ghost t1: Tables, ghost rows0: seq<UserRow>)
    returns (updated: nat)
    requires t1 == db.Snapshot() && rows0 == Rows(players) && |idxs| == |rows0|
    requires forall j :: 0 <= j < |idxs| ==> idxs[j] < |t1.attendances|
    requires forall j :: 0 <= j < |rows0| ==> rows0[j].pk.Some?
    requires forall j, l :: 0 <= j < l < |rows0| ==> rows0[j].pk != rows0[l].pk
    modifies db, players
    ensures Reached(t1, rows0, idxs, bulk, checked, d, actor, now, |players|, Batch(db.Snapshot(), Rows(players), updated))
  {
    updated := 0;
    var k := 0;
    while k < |players|
      invariant 0 <= k <= |players|
      invariant Reached(t1, rows0, idxs, bulk, checked, d, actor, now, k, Batch(db.Snapshot(), Rows(players), updated))
    {
      updated := AdvanceStep(db, players, idxs, bulk, checked, d, actor, now, k, t1, rows0, updated);
      k := k + 1;
    }
  }

  /**
   * attendance_update on the store and the player objects, which must be
   * distinct users (the query returns each player once).
   */
  method UpdateAttendance(db: Store, actor: UserRow, players: seq<User>, dungeon: Option<Dungeon>,
                          req: AttendanceRequest, now: int) returns (outcome: AttendanceOutcome)
    requires forall j :: 0 <= j < |players| ==> players[j].pk.Some?
    requires forall j, k :: 0 <= j < k < |players| ==> players[j].pk != players[k].pk
    modifies db, players
    ensures AttendanceResult(db.Snapshot(), Rows(players), outcome)
         == AttendanceUpdateSpec(old(db.Snapshot()), actor, old(Rows(players)), dungeon, req, now)
  {
    if !actor.IsAdmin() {
      return AttendanceDenied;
    }
    if dungeon.None? {
      return DungeonNotFound;
    }
    outcome := OpenAttendance(db, actor, players, dungeon.value, req, now);
  }

  /** The page for an admin and an existing dungeon: the rows are ensured, then shown or submitted. */
  method OpenAttendance(db: Store, actor: UserRow, players: seq<User>, d: Dungeon,
                        req: AttendanceRequest, now: int) returns (outcome: AttendanceOutcome)
    requires actor.IsAdmin()
    requires forall j :: 0 <= j < |players| ==> players[j].pk.Some?
    requires forall j, k :: 0 <= j < k < |players| ==> players[j].pk != players[k].pk
    modifies db, players
    ensures AttendanceResult(db.Snapshot(), Rows(players), outcome)
         == AttendanceUpdateSpec(old(db.Snapshot()), actor, old(Rows(players)), Some(d), req, now)
  {
    ghost var rows0 := Rows(players);
    assert forall j, l :: 0 <= j < l < |rows0| ==> rows0[j].pk != rows0[l].pk;
    OpenedPage(db.Snapshot(), actor, rows0, d, req, now);
    var idxs := EnsureAttendances(db, players, d.id);
    if req.Show? {
      return AttendanceShown;
    }
    outcome := SubmitAttendance(db, players, idxs, req.bulk, req.checked, d, actor.pk, now, rows0);
  }

  /** The submitted form on the store and the player objects. */
  method SubmitAttendance(db: Store, players: seq<User>, idxs: seq<nat>, bulk: Option<string>, checked: set<nat>,
                          d: Dungeon, actor: Option<nat>, now: int, ghost rows0: seq<UserRow>)
    returns (outcome: AttendanceOutcome)
    requires rows0 == Rows(players) && |idxs| == |rows0|
    requires forall j :: 0 <= j < |idxs| ==> idxs[j] < |db.attendances|
    requires forall j :: 0 <= j < |rows0| ==> rows0[j].pk.Some?
    requires forall j, l :: 0 <= j < l < |rows0| ==> rows0[j].pk != rows0[l].pk
    modifies db, players
    ensures AttendanceResult(db.Snapshot(), Rows(players), outcome)
         == SubmitSpec(old(db.Snapshot()), rows0, idxs, bulk, checked, d, actor, now)
  {
    var updated := ProcessRows(db, players, idxs, bulk, checked, d, actor, now, db.Snapshot(), rows0);
    if bulk == Some("all") || bulk == Some("none") {
      outcome := BulkUpdated(updated);
    } else {
      outcome := ItemsUpdated;
    }
  }
}
