/**
 * The client's top-level routing: the `ProtectedRoute` guard around the
 * admin and scorer areas and the redirect at the root path. The session is
 * what the authentication context provides: whether it is still loading and
 * the signed-in user's role, if any. Rendering is reduced to which page
 * shows; following a `<Navigate>` is one hop of `Settle`.
 */
module AppRoutes {
  import opened Common

  datatype Route = LoginPage | PublicBoard | AdminArea | ScorerArea | Home

  datatype Session = Session(loading: bool, role: Option<string>)

  /** What a route renders: the loading screen, a redirect, or the page itself. */
  datatype Screen = Loading | Redirect(to: Route) | Show(page: Route)

  /** `ProtectedRoute` with an optional `requiredRole` around the page `page`. */
  function Guard(s: Session, requiredRole: Option<string>, page: Route): (r: Screen)
    ensures s.loading ==> r == Loading
    ensures !s.loading && s.role.None? ==> r == Redirect(LoginPage)
    ensures r.Show? ==> r.page == page && s.role.Some?
    ensures r.Redirect? ==> r.to == LoginPage || r.to == Home
  {
    if s.loading then Loading
    else if s.role.None? then Redirect(LoginPage)
    else if Truthy(requiredRole) && s.role.value != requiredRole.value && !IsAdmin(s.role.value) then Redirect(Home)
    else Show(page)
  }

  /** A signed-in user passes a guard exactly when it names no role, names the user's role, or the user is an admin. */
  lemma {:induction false} GuardPasses(s: Session, requiredRole: Option<string>, page: Route)
    requires !s.loading && s.role.Some?
    ensures Guard(s, requiredRole, page) == Show(page) <==>
      !Truthy(requiredRole) || s.role.value == requiredRole.value || IsAdmin(s.role.value)
    ensures Guard(s, requiredRole, page) != Show(page) ==> Guard(s, requiredRole, page) == Redirect(Home)
  {
  }

  /** The redirect at `/`, which reads the user but not the loading flag. */
  function Root(s: Session): (r: Screen)
    ensures r.Redirect?
    ensures s.role.None? <==> r.to == LoginPage
    ensures r.to == AdminArea <==> s.role.Some? && IsAdmin(s.role.value)
  {
    if s.role.None? then Redirect(LoginPage)
    else if IsAdmin(s.role.value) then Redirect(AdminArea)
    else Redirect(ScorerArea)
  }

  /** The route table of `AppRoutes`. */
  function Page(s: Session, route: Route): Screen
  {
    match route
    case LoginPage => Show(LoginPage)
    case PublicBoard => Show(PublicBoard)
    case AdminArea => Guard(s, Some("admin"), AdminArea)
    case ScorerArea => Guard(s, Some("scorer"), ScorerArea)
    case Home => Root(s)
  }

  function AsWritten(s: Session): Route -> Screen
  {
    (route: Route) => Page(s, route)
  }

  /** Follows at most `hops` redirects from `route`; `None` when the last screen is still a redirect. */
  function Settle(pages: Route -> Screen, route: Route, hops: nat): (r: Option<Screen>)
    ensures r.Some? ==> !r.value.Redirect?
    decreases hops
  {
    var screen := pages(route);
    if !screen.Redirect? then Some(screen)
    else if hops == 0 then None
    else Settle(pages, screen.to, hops - 1)
  }

  /** An admin reaches both areas, and the root sends them to the admin area. */
  lemma {:induction false} AdminEverywhere(s: Session)
    requires !s.loading && s.role == Some("admin")
    ensures Settle(AsWritten(s), AdminArea, 0) == Some(Show(AdminArea))
    ensures Settle(AsWritten(s), ScorerArea, 0) == Some(Show(ScorerArea))
    ensures Settle(AsWritten(s), Home, 1) == Some(Show(AdminArea))
  {
  }

  /** A scorer who opens the admin area lands in the scorer area after two redirects. */
  lemma {:induction false} ScorerSentToScorerArea(s: Session)
    requires !s.loading && s.role == Some("scorer")
    ensures Settle(AsWritten(s), AdminArea, 2) == Some(Show(ScorerArea))
    ensures Settle(AsWritten(s), Home, 1) == Some(Show(ScorerArea))
  {
  }

  /**
   * A signed-in user whose role is neither `admin` nor `scorer` (registration
   * passes any role through, so this arises if the users table accepts such a
   * role) bounces between `/` and `/scorer` forever:
   * however many redirects are followed, no page is shown.
   */
  lemma {:induction false} OtherRoleLoops(s: Session, hops: nat)
    requires !s.loading && s.role.Some? && s.role.value != "admin" && s.role.value != "scorer"
    ensures Settle(AsWritten(s), Home, hops).None?
    ensures Settle(AsWritten(s), ScorerArea, hops).None?
    ensures Settle(AsWritten(s), AdminArea, hops).None?
    decreases hops
  {
    assert Page(s, Home) == Redirect(ScorerArea);
    assert Page(s, ScorerArea) == Redirect(Home);
    assert Page(s, AdminArea) == Redirect(Home);
    if hops > 0 {
      OtherRoleLoops(s, hops - 1);
    }
  }

  /** The root redirect with a landing place for every role: only scorers are sent to the scorer area. */
  function RootCorrected(s: Session): (r: Screen)
    ensures r.Redirect?
    ensures r.to == ScorerArea <==> s.role == Some("scorer")
    ensures r.to == AdminArea <==> s.role == Some("admin")
    ensures r.to == LoginPage <==> s.role != Some("scorer") && s.role != Some("admin")
  {
    if s.role.None? then Redirect(LoginPage)
    else if IsAdmin(s.role.value) then Redirect(AdminArea)
    else if s.role.value == "scorer" then Redirect(ScorerArea)
    else Redirect(LoginPage)
  }

  function Corrected(s: Session): Route -> Screen
  {
    (route: Route) => if route == Home then RootCorrected(s) else Page(s, route)
  }

  /** With the corrected root, every route settles on a page or the loading screen within two redirects. */
  lemma {:induction false} CorrectedSettles(s: Session, route: Route)
    ensures Settle(Corrected(s), route, 2).Some?
  {
    var pages := Corrected(s);
    assert pages(LoginPage) == Show(LoginPage);
    assert pages(Home) == RootCorrected(s);
    if !s.loading && s.role.Some? {
      var role := s.role.value;
      assert pages(AdminArea) == Guard(s, Some("admin"), AdminArea);
      assert pages(ScorerArea) == Guard(s, Some("scorer"), ScorerArea);
      if role == "scorer" || IsAdmin(role) {
        assert pages(ScorerArea) == Show(ScorerArea);
      }
      if IsAdmin(role) {
        assert pages(AdminArea) == Show(AdminArea);
      }
    }
  }
}
