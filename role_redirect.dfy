/**
 * The role-based redirect middleware (accounts/middleware/role_based_redirect.py):
 * requests to exempt prefixes and from anonymous visitors go through; a signed-in
 * user at the site root is sent to the dashboard of its role, and a user at the
 * dashboard of the other role is sent away from it.
 *
 * The function that follows the code line by line is `RouteAsWritten`; it sends a
 * signed-in user who is neither admin nor player back and forth between the two
 * dashboards. `Route` is the corrected decision, which sends such a user to its
 * landing page (`UserRow.AbsoluteUrl`) instead.
 */
module RoleRedirect {
  import opened Common
  import opened Accounts

  /** What the middleware does with a request. */
  datatype Response = PassThrough | Redirect(page: Page)

  /** The path prefixes the middleware never redirects. */
  const ExemptPaths: seq<string> :=
    ["/admin/", "/accounts/login/", "/accounts/register/", "/accounts/logout/", "/static/", "/media/"]

  const AdminDashboardPath: string := "/admin-dashboard/"
  const PlayerDashboardPath: string := "/player-dashboard/"

  /** The path a named page is served at. */
  function PagePath(p: Page): string
  {
    match p
    case AdminDashboard => AdminDashboardPath
    case PlayerDashboard => PlayerDashboardPath
    case LoginPage => "/accounts/login/"
  }

  predicate Exempt(path: string)
  {
    exists k :: 0 <= k < |ExemptPaths| && StartsWith(path, ExemptPaths[k])
  }

  /** A path that differs from a prefix at some position before the prefix ends does not start with it. */
  lemma NotPrefixAt(s: string, prefix: string, i: nat)
    requires i < |s| && i < |prefix| && s[i] != prefix[i]
    ensures !StartsWith(s, prefix)
  {
    if |prefix| <= |s| {
      assert s[..|prefix|][i] == s[i];
    }
  }

  /** No path is under both dashboards: the prefixes differ at their second character. */
  lemma DashboardsDisjoint(path: string)
    ensures !(StartsWith(path, AdminDashboardPath) && StartsWith(path, PlayerDashboardPath))
  {
    if StartsWith(path, AdminDashboardPath) {
      assert path[..|AdminDashboardPath|][1] == path[1];
      NotPrefixAt(path, PlayerDashboardPath, 1);
    }
  }

  /**
   * When the middleware steps in: a signed-in request to a non-exempt path that
   * is the root for a user of either role, or a dashboard of the other role.
   * Every other request, at any other path, passes through.
   */
  predicate RedirectsSomewhere(path: string, user: Option<UserRow>)
  {
    && !Exempt(path) && user.Some?
    && (|| (path == "/" && (user.value.IsAdmin() || user.value.IsPlayer()))
        || (StartsWith(path, AdminDashboardPath) && !user.value.IsAdmin())
        || (StartsWith(path, PlayerDashboardPath) && !user.value.IsPlayer()))
  }

  /** The middleware as written; `user` is None for an anonymous visitor. */
  function RouteAsWritten(path: string, user: Option<UserRow>): (r: Response)
    ensures Exempt(path) || user.None? ==> r == PassThrough
    ensures !Exempt(path) && user.Some? && path == "/" && (user.value.IsAdmin() || user.value.IsPlayer())
            ==> r == Redirect(user.value.AbsoluteUrl())
    ensures r.Redirect? ==> !Exempt(path) && user.Some? && r.page != LoginPage
    ensures !Exempt(path) && user.Some? && StartsWith(path, AdminDashboardPath) ==>
              (r == PassThrough <==> user.value.IsAdmin())
    ensures !Exempt(path) && user.Some? && StartsWith(path, PlayerDashboardPath) ==>
              (r == PassThrough <==> user.value.IsPlayer())
    ensures !Exempt(path) && user.Some? && StartsWith(path, AdminDashboardPath) && !user.value.IsAdmin()
            ==> r == Redirect(PlayerDashboard)
    ensures !Exempt(path) && user.Some? && StartsWith(path, PlayerDashboardPath) && !user.value.IsPlayer()
            ==> r == Redirect(AdminDashboard)
    ensures r.Redirect? <==> RedirectsSomewhere(path, user)
  {
    DashboardsDisjoint(path);
    if Exempt(path) then PassThrough
    else if user.None? then PassThrough
    else
      var u := user.value;
      if path == "/" && u.IsAdmin() then Redirect(AdminDashboard)
      else if path == "/" && u.IsPlayer() then Redirect(PlayerDashboard)
      else if StartsWith(path, AdminDashboardPath) && !u.IsAdmin() then Redirect(PlayerDashboard)
      else if StartsWith(path, PlayerDashboardPath) && !u.IsPlayer() then Redirect(AdminDashboard)
      else PassThrough
  }

  /**
   * The corrected middleware: a user at the wrong dashboard goes to its own
   * landing page, which for a user of neither role is the login page.
   */
  function Route(path: string, user: Option<UserRow>): (r: Response)
    ensures Exempt(path) || user.None? ==> r == PassThrough
    ensures r.Redirect? ==> !Exempt(path) && user.Some? && r.page == user.value.AbsoluteUrl()
    ensures !Exempt(path) && user.Some? && StartsWith(path, AdminDashboardPath) ==>
              (r == PassThrough <==> user.value.IsAdmin())
    ensures !Exempt(path) && user.Some? && StartsWith(path, PlayerDashboardPath) ==>
              (r == PassThrough <==> user.value.IsPlayer())
    ensures r.Redirect? <==> RedirectsSomewhere(path, user)
  {
    DashboardsDisjoint(path);
    if Exempt(path) then PassThrough
    else if user.None? then PassThrough
    else
      var u := user.value;
      if path == "/" && (u.IsAdmin() || u.IsPlayer()) then Redirect(u.AbsoluteUrl())
      else if StartsWith(path, AdminDashboardPath) && !u.IsAdmin() then Redirect(u.AbsoluteUrl())
      else if StartsWith(path, PlayerDashboardPath) && !u.IsPlayer() then Redirect(u.AbsoluteUrl())
      else PassThrough
  }

  /** None of the dashboard paths or the root falls under an exempt prefix. */
  lemma DashboardsNotExempt()
    ensures !Exempt(AdminDashboardPath) && !Exempt(PlayerDashboardPath) && !Exempt("/")
    ensures Exempt(PagePath(LoginPage))
  {
    forall k | 0 <= k < |ExemptPaths|
      ensures !StartsWith(AdminDashboardPath, ExemptPaths[k])
      ensures !StartsWith(PlayerDashboardPath, ExemptPaths[k])
      ensures !StartsWith("/", ExemptPaths[k])
    {
      if k == 0 {
        NotPrefixAt(AdminDashboardPath, ExemptPaths[k], 6);
      } else if k <= 3 {
        NotPrefixAt(AdminDashboardPath, ExemptPaths[k], 2);
      } else {
        NotPrefixAt(AdminDashboardPath, ExemptPaths[k], 1);
      }
      NotPrefixAt(PlayerDashboardPath, ExemptPaths[k], 1);
    }
    assert StartsWith(PagePath(LoginPage), ExemptPaths[1]);
  }

  /** A dashboard path starts with its own prefix and not with the other one. */
  lemma DashboardPrefixes()
    ensures StartsWith(AdminDashboardPath, AdminDashboardPath) && !StartsWith(AdminDashboardPath, PlayerDashboardPath)
    ensures StartsWith(PlayerDashboardPath, PlayerDashboardPath) && !StartsWith(PlayerDashboardPath, AdminDashboardPath)
  {
    assert AdminDashboardPath[1] != PlayerDashboardPath[1];
  }

  /**
   * As written, a signed-in user of neither role is sent from each dashboard to
   * the other one: the two redirects form a loop.
   */
  lemma AsWrittenLoops(u: UserRow)
    requires !u.IsAdmin() && !u.IsPlayer()
    ensures RouteAsWritten(AdminDashboardPath, Some(u)) == Redirect(PlayerDashboard)
    ensures RouteAsWritten(PagePath(PlayerDashboard), Some(u)) == Redirect(AdminDashboard)
    ensures RouteAsWritten(PagePath(AdminDashboard), Some(u)) == Redirect(PlayerDashboard)
  {
    DashboardsNotExempt();
    DashboardPrefixes();
  }

  /** A signed-in user of neither role is let through at the root by both versions. */
  lemma NeitherRolePassesAtRoot(u: UserRow)
    requires !u.IsAdmin() && !u.IsPlayer()
    ensures RouteAsWritten("/", Some(u)) == PassThrough
    ensures Route("/", Some(u)) == PassThrough
  {
    DashboardsNotExempt();
  }

  /** The corrected middleware never redirects a request to a page it would redirect again. */
  lemma RouteSettles(path: string, user: Option<UserRow>)
    requires Route(path, user).Redirect?
    ensures Route(PagePath(Route(path, user).page), user) == PassThrough
  {
    DashboardsNotExempt();
    DashboardPrefixes();
  }

  /** For users of either known role the two versions agree on every path. */
  lemma CorrectionOnlyAffectsUnknownRoles(path: string, u: UserRow)
    requires u.IsAdmin() || u.IsPlayer()
    ensures Route(path, Some(u)) == RouteAsWritten(path, Some(u))
  {
    if path != "/" && StartsWith(path, AdminDashboardPath) && !u.IsAdmin() {
      assert u.AbsoluteUrl() == PlayerDashboard;
    }
  }

  /** As written, the middleware settles after one redirect for users of a known role. */
  lemma AsWrittenSettlesForKnownRoles(path: string, u: UserRow)
    requires u.IsAdmin() || u.IsPlayer()
    requires RouteAsWritten(path, Some(u)).Redirect?
    ensures RouteAsWritten(PagePath(RouteAsWritten(path, Some(u)).page), Some(u)) == PassThrough
  {
    CorrectionOnlyAffectsUnknownRoles(path, u);
    RouteSettles(path, Some(u));
    CorrectionOnlyAffectsUnknownRoles(PagePath(RouteAsWritten(path, Some(u)).page), u);
  }
}
