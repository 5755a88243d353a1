/**
 * The periodic honor recovery command (core/management/commands/recover_honor.py):
 * every player below the command's ceiling gets the recovery of the punishment
 * service, and the command counts the players it recovered and the points it gave.
 */
module RecoverHonor {
  import opened Accounts
  import opened Punishments

  /** What one run of the command leaves behind: the user rows and its two counters. */
  datatype Run = Run(rows: seq<UserRow>, recoveredCount: nat, totalRecovered: int)

  /** A user the command hands to the service and counts: a player below both ceilings. */
  predicate Recovers(u: UserRow, maxHonor: int)
  {
    u.IsPlayer() && u.honorPoints < maxHonor && u.honorPoints < MaxHonor
  }

  /**
   * One user of the run: users that are not players are not selected, players at or
   * above the command's ceiling are skipped, the rest go through the service.
   */
  function Visit(u: UserRow, amount: int, maxHonor: int): (r: (UserRow, bool))
    ensures r.1 <==> Recovers(u, maxHonor)
    ensures !r.1 ==> r.0 == u
    ensures r.0 == u.(honorPoints := r.0.honorPoints)
    ensures r.1 && amount >= 0 ==> u.honorPoints <= r.0.honorPoints <= MaxHonor
  {
    if !u.IsPlayer() || u.honorPoints >= maxHonor then (u, false)
    else RecoverHonorSpec(u, amount)
  }

  /** The whole run over the users in order. */
  function RecoverRun(rows: seq<UserRow>, amount: int, maxHonor: int): (r: Run)
    ensures |r.rows| == |rows|
    ensures forall j :: 0 <= j < |rows| ==> r.rows[j] == Visit(rows[j], amount, maxHonor).0
    ensures r.recoveredCount <= |rows|
    decreases |rows|
  {
    if rows == [] then Run([], 0, 0)
    else
      var prev := RecoverRun(rows[..|rows| - 1], amount, maxHonor);
      var u := rows[|rows| - 1];
      var v := Visit(u, amount, maxHonor);
      Run(prev.rows + [v.0],
          prev.recoveredCount + (if v.1 then 1 else 0),
          prev.totalRecovered + (if v.1 then v.0.honorPoints - u.honorPoints else 0))
  }

  /** The sum of the honor points of some users. */
  function HonorSum(rows: seq<UserRow>): int
    decreases |rows|
  {
    if rows == [] then 0 else HonorSum(rows[..|rows| - 1]) + rows[|rows| - 1].honorPoints
  }

  /** The body of the handle loop for one user: the skip test, the service call and the gain. */
  method VisitUser(u: User, amount: int, maxHonor: int) returns (counted: bool, gained: int)
    modifies u
    ensures (u.Row(), counted) == Visit(old(u.Row()), amount, maxHonor)
    ensures gained == if counted then u.honorPoints - old(u.honorPoints) else 0
  {
    counted, gained := false, 0;
    if u.role == "player" && u.honorPoints < maxHonor {
      var oldHonor := u.honorPoints;
      counted := RecoverHonorPoints(u, amount);
      if counted {
        gained := u.honorPoints - oldHonor;
      }
    }
  }

  /** The run over one more user extends the counters by that user's visit. */
  lemma RecoverRunStep(rows: seq<UserRow>, i: nat, amount: int, maxHonor: int)
    requires i < |rows|
    ensures var v := Visit(rows[i], amount, maxHonor);
      var prev := RecoverRun(rows[..i], amount, maxHonor);
      var next := RecoverRun(rows[..i + 1], amount, maxHonor);
      next.recoveredCount == prev.recoveredCount + (if v.1 then 1 else 0)
      && next.totalRecovered == prev.totalRecovered + (if v.1 then v.0.honorPoints - rows[i].honorPoints else 0)
  {
    assert rows[..i + 1][..i] == rows[..i];
  }

  /** The state of the handle loop after the first `i` users. */
  ghost predicate Progress(users: seq<User>, rows0: seq<UserRow>, amount: int, maxHonor: int, i: nat,
                           recoveredCount: nat, totalRecovered: int)
    reads users
  {
    && |users| == |rows0| && i <= |users|
    && (forall j :: 0 <= j < i ==> users[j].Row() == Visit(rows0[j], amount, maxHonor).0)
    && (forall j :: i <= j < |users| ==> users[j].Row() == rows0[j])
    && recoveredCount == RecoverRun(rows0[..i], amount, maxHonor).recoveredCount
    && totalRecovered == RecoverRun(rows0[..i], amount, maxHonor).totalRecovered
  }

  /** One iteration of the handle loop. */
  method RecoverStep(users: seq<User>, amount: int, maxHonor: int, i: nat, recoveredCount: nat, totalRecovered: int,
                     ghost rows0: seq<UserRow>)
    returns (count: nat, total: int)
    requires forall j, l :: 0 <= j < l < |users| ==> users[j] != users[l]
    requires i < |users|
    requires Progress(users, rows0, amount, maxHonor, i, recoveredCount, totalRecovered)
    modifies users[i]
    ensures Progress(users, rows0, amount, maxHonor, i + 1, count, total)
  {
    RecoverRunStep(rows0, i, amount, maxHonor);
    var counted, gained := VisitUser(users[i], amount, maxHonor);
    count, total := recoveredCount, totalRecovered;
    if counted {
      count, total := count + 1, total + gained;
    }
  }

  /** The command's handle loop. */
  method RecoverAll(users: seq<User>, amount: int, maxHonor: int) returns (recoveredCount: nat, totalRecovered: int)
    requires forall j, l :: 0 <= j < l < |users| ==> users[j] != users[l]
    modifies users
    ensures Run(Rows(users), recoveredCount, totalRecovered) == RecoverRun(old(Rows(users)), amount, maxHonor)
  {
    ghost var rows0 := Rows(users);
    recoveredCount := 0;
    totalRecovered := 0;
    var i := 0;
    while i < |users|
      invariant Progress(users, rows0, amount, maxHonor, i, recoveredCount, totalRecovered)
    {
      recoveredCount, totalRecovered := RecoverStep(users, amount, maxHonor, i, recoveredCount, totalRecovered, rows0);
      i := i + 1;
    }
    assert rows0[..|users|] == rows0;
    assert Rows(users) == RecoverRun(rows0, amount, maxHonor).rows;
  }

  /** The total the command reports is exactly the honor the users gained. */
  lemma {:induction false} TotalIsHonorGained(rows: seq<UserRow>, amount: int, maxHonor: int)
    ensures RecoverRun(rows, amount, maxHonor).totalRecovered
         == HonorSum(RecoverRun(rows, amount, maxHonor).rows) - HonorSum(rows)
    decreases |rows|
  {
    if rows != [] {
      var r := RecoverRun(rows, amount, maxHonor);
      var init := rows[..|rows| - 1];
      TotalIsHonorGained(init, amount, maxHonor);
      assert r.rows[..|rows| - 1] == RecoverRun(init, amount, maxHonor).rows;
    }
  }

  /** Nothing is counted exactly when no user is a player below both ceilings. */
  lemma {:induction false} NothingRecoveredIffNoneEligible(rows: seq<UserRow>, amount: int, maxHonor: int)
    ensures RecoverRun(rows, amount, maxHonor).recoveredCount == 0
        <==> forall j :: 0 <= j < |rows| ==> !Recovers(rows[j], maxHonor)
    decreases |rows|
  {
    if rows != [] {
      var init := rows[..|rows| - 1];
      NothingRecoveredIffNoneEligible(init, amount, maxHonor);
      assert forall j :: 0 <= j < |init| ==> init[j] == rows[j];
    }
  }

  /** With a non-negative amount, each recovered user gains between 0 and `amount` points. */
  lemma {:induction false} TotalBounded(rows: seq<UserRow>, amount: int, maxHonor: int)
    requires amount >= 0
    ensures var r := RecoverRun(rows, amount, maxHonor);
      0 <= r.totalRecovered <= amount * r.recoveredCount
    decreases |rows|
  {
    if rows != [] {
      var prev := RecoverRun(rows[..|rows| - 1], amount, maxHonor);
      TotalBounded(rows[..|rows| - 1], amount, maxHonor);
      assert amount * (prev.recoveredCount + 1) == amount * prev.recoveredCount + amount;
    }
  }

  /** A ceiling above the service's own cap acts as the cap: the run is the same. */
  lemma {:induction false} CeilingAboveCapIsCap(rows: seq<UserRow>, amount: int, maxHonor: int)
    requires maxHonor >= MaxHonor
    ensures RecoverRun(rows, amount, maxHonor) == RecoverRun(rows, amount, MaxHonor)
    decreases |rows|
  {
    if rows != [] {
      CeilingAboveCapIsCap(rows[..|rows| - 1], amount, maxHonor);
    }
  }

  /**
   * A ceiling below the service's cap only decides who is visited: the service
   * still caps at its own maximum, so a visited player can end above the ceiling.
   */
  lemma LowCeilingIsNotACap(u: UserRow)
    requires u.IsPlayer() && u.honorPoints == 499
    ensures Visit(u, 10, 500).0.honorPoints == 509
  {
  }
}
