/**
 * The player record (accounts/models.py): the gamification fields of a user,
 * the two role predicates and the role-based landing page.
 */
module Accounts {
  import opened Common

  /** The value of a user row: everything the engine reads or writes. */
  datatype UserRow = UserRow(
    pk: Option<nat>,
    role: string,
    isStaff: bool,
    isSuperuser: bool,
    currentExp: int,
    currentLevel: int,
    totalExp: int,
    honorPoints: int)
  {
    /** Admin by role, or by either of the framework's staff flags. */
    predicate IsAdmin()
    {
      role == "admin" || isStaff || isSuperuser
    }

    /** Player by role only: a staff user whose role is "player" is both. */
    predicate IsPlayer()
    {
      role == "player"
    }

    /** The landing page of the user: admin is checked before player. */
    function AbsoluteUrl(): (r: Page)
      ensures r == AdminDashboard <==> IsAdmin()
      ensures r == PlayerDashboard <==> !IsAdmin() && IsPlayer()
      ensures r == LoginPage <==> !IsAdmin() && !IsPlayer()
    {
      if IsAdmin() then AdminDashboard
      else if IsPlayer() then PlayerDashboard
      else LoginPage
    }
  }

  /** The named pages users are sent to. */
  datatype Page = AdminDashboard | PlayerDashboard | LoginPage

  /** A user object; services and views update its fields in place. */
  class User {
    var pk: Option<nat>
    var role: string
    var isStaff: bool
    var isSuperuser: bool
    var currentExp: int
    var currentLevel: int
    var totalExp: int
    var honorPoints: int

    function Row(): UserRow
      reads this
    {
      UserRow(pk, role, isStaff, isSuperuser, currentExp, currentLevel, totalExp, honorPoints)
    }

    /** A new, unsaved user with the field defaults of the user model. */
    constructor ()
      ensures Row() == UserRow(None, "player", false, false, 0, 1, 0, 100)
    {
      pk := None;
      role := "player";
      isStaff := false;
      isSuperuser := false;
      currentExp := 0;
      currentLevel := 1;
      totalExp := 0;
      honorPoints := 100;
    }
  }

  /** The rows of a list of user objects, in order. */
  function Rows(users: seq<User>): (rows: seq<UserRow>)
    reads users
    ensures |rows| == |users| && forall j :: 0 <= j < |users| ==> rows[j] == users[j].Row()
  {
    seq(|users|, j requires 0 <= j < |users| reads users => users[j].Row())
  }

  /** A staff user whose role is "player" counts as both admin and player. */
  lemma StaffPlayerIsBoth(u: UserRow)
    requires u.role == "player" && (u.isStaff || u.isSuperuser)
    ensures u.IsAdmin() && u.IsPlayer()
    ensures u.AbsoluteUrl() == AdminDashboard
  {
  }

  /** A user with any role other than the two known ones and no staff flag lands on the login page. */
  lemma UnknownRoleGoesToLogin(u: UserRow)
    requires u.role != "admin" && u.role != "player" && !u.isStaff && !u.isSuperuser
    ensures !u.IsAdmin() && !u.IsPlayer()
    ensures u.AbsoluteUrl() == LoginPage
  {
  }
}
