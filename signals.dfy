/**
 * The user model's save hooks (core/signals/handlers.py): before a save, a user
 * that has never been stored is put at level 1; after a save, nothing happens,
 * so levels move only through the EXP service.
 */
module Signals {
  import opened Common
  import opened Accounts
  import opened Models
  import opened ExpLedger

  /**
   * The row a save stores: a new user (no primary key yet) gets the key the
   * database hands out and level 1; a stored user is written as it is.
   */
  function SavedRow(u: UserRow, newPk: nat): (r: UserRow)
    ensures u.pk.None? ==> r == u.(pk := Some(newPk), currentLevel := 1)
    ensures u.pk.Some? ==> r == u
  {
    if u.pk.None? then u.(pk := Some(newPk), currentLevel := 1) else u
  }

  /** The pre-save hook: only an unsaved user has its level changed, to 1. */
  method SetInitialLevel(u: User)
    modifies u
    ensures u.Row() == if old(u.pk).None? then old(u.Row()).(currentLevel := 1) else old(u.Row())
  {
    if u.pk.None? {
      u.currentLevel := 1;
    }
  }

  /** The post-save hook: returns at once for a new user and does nothing otherwise. */
  method AutoLevelUpOnExpChange(u: User, created: bool)
    ensures u.Row() == old(u.Row())
  {
    if created {
      return;
    }
  }

  /** A save: the pre-save hook, the write (which hands out a key to a new user), the post-save hook. */
  method Save(u: User, newPk: nat)
    modifies u
    ensures u.Row() == SavedRow(old(u.Row()), newPk)
  {
    var created := u.pk.None?;
    SetInitialLevel(u);
    if created {
      u.pk := Some(newPk);
    }
    AutoLevelUpOnExpChange(u, created);
  }

  /** A second save of a saved user changes nothing. */
  lemma SaveIdempotent(u: UserRow, pk1: nat, pk2: nat)
    ensures SavedRow(SavedRow(u, pk1), pk2) == SavedRow(u, pk1)
    ensures SavedRow(u, pk1).pk == Some(if u.pk.Some? then u.pk.value else pk1)
  {
  }

  /**
   * Saving never levels a stored user up: a total raised by hand past a
   * threshold leaves the level below what the EXP service would set.
   */
  lemma ManualExpEditDoesNotLevelUp()
    ensures var u := UserRow(Some(3), "player", false, false, 0, 1, 300, 100);
      && SavedRow(u, 9).currentLevel == 1
      && !LevelCeiling(SampleLevels(), SavedRow(u, 9))
      && CheckLevelUpSpec(SampleLevels(), u).0.currentLevel == 3
  {
    var u := UserRow(Some(3), "player", false, false, 0, 1, 300, 100);
    assert LevelRow(3, 250, None) in SampleLevels();
    var r := CheckLevelUpSpec(SampleLevels(), u).0;
    assert r.currentLevel >= 3;
  }

  /** A user stored for the first time starts at level 1 whatever level it was given. */
  lemma NewUserStartsAtLevelOne(u: UserRow, newPk: nat)
    requires u.pk.None?
    ensures SavedRow(u, newPk).currentLevel == 1
    ensures SavedRow(u, newPk).totalExp == u.totalExp && SavedRow(u, newPk).honorPoints == u.honorPoints
  {
  }
}
