/**
 * The application shell: the selected theme and the dashboard layout it
 * keeps, the two routes, and which back button the navigation bar offers.
 */
module App {
  import opened Wrappers
  import opened Text
  import opened Dashboard
  import Store

  /** The pages the router can show. */
  datatype Route = DashboardPage | LessonPage(id: string) | NoPage

  /** The two routes: `/` for the dashboard and `/lesson/:id` for a lesson,
      where the id is one non-empty path segment. */
  function RouteOf(path: string): (r: Route)
    ensures r.LessonPage? ==> path == "/lesson/" + r.id && r.id != "" && '/' !in r.id
    ensures r.DashboardPage? <==> path == "/"
    ensures forall id :: id != "" && '/' !in id && path == "/lesson/" + id ==> r == LessonPage(id)
  {
    if path == "/" then DashboardPage
    else if StartsWith(path, "/lesson/") && |path| > 8 && '/' !in path[8..] then
      LessonPage(path[8..])
    else NoPage
  }

  /** `isLessonView`: the path contains `/lesson/`. */
  predicate IsLessonView(path: string) {
    Contains(path, "/lesson/")
  }

  /** The lesson route is always a lesson view. */
  lemma LessonPageIsLessonView(path: string)
    requires RouteOf(path).LessonPage?
    ensures IsLessonView(path)
  {
    ContainsIff(path, "/lesson/");
    assert "/lesson/" <= path[0..];
  }

  /** A lesson card navigates to `/lesson/{id}`; for the store's ids that
      address is routed to the lesson page for that id. */
  lemma LessonCardRoute(i: nat)
    ensures RouteOf("/lesson/" + Store.LessonId(i)) == LessonPage(Store.LessonId(i))
  {
    var id := Store.LessonId(i);
    var path := "/lesson/" + id;
    assert path[8..] == id;
    assert "/lesson/" <= path;
    assert id == "lesson-" + Decimal(i + 1);
    var digits := Decimal(i + 1);
    assert '/' !in id by {
      assert forall k :: 0 <= k < |digits| ==> IsDigit(digits[k]);
    }
  }

  /** The button next to the logout button. */
  datatype BackButton = Retour | BackToThemesButton | NoButton

  /** In a lesson view the bar offers "Retour" to `/`; elsewhere it offers
      "Retour aux thèmes" only when a theme is selected. */
  function BackButtonOf(path: string, selected: Option<string>): (b: BackButton)
    ensures b == Retour <==> IsLessonView(path)
    ensures b == BackToThemesButton <==> !IsLessonView(path) && IsSelected(selected)
  {
    if IsLessonView(path) then Retour
    else if IsSelected(selected) then BackToThemesButton
    else NoButton
  }

  /** The state `App` keeps for the dashboard. */
  datatype Nav = Nav(selectedTheme: Option<string>, viewMode: ViewMode)

  const InitialNav := Nav(None, Themes)

  /** `handleBackToThemes`. */
  function BackToThemes(n: Nav): Nav {
    Nav(None, Themes)
  }

  /** Going back to the themes from any state is the initial state, so doing
      it twice is doing it once, and the dashboard then shows the theme
      grid. */
  lemma BackToThemesSpec(n: Nav, ls: seq<Store.Lesson>)
    ensures BackToThemes(n) == InitialNav
    ensures BackToThemes(BackToThemes(n)) == BackToThemes(n)
    ensures GridContent(ls, BackToThemes(n).viewMode, BackToThemes(n).selectedTheme).ThemeGrid?
  {
  }

  /** A theme chosen on the grid makes the dashboard show that theme's
      lessons in either layout, and the bar offer the way back. */
  lemma SelectedThemeShown(ls: seq<Store.Lesson>, mode: ViewMode, s: Store.Specialty,
                           path: string, l: Store.Lesson)
    requires !IsLessonView(path)
    ensures var theme := Some(Store.SpecialtyName(s));
      && GridContent(ls, mode, theme).LessonCards?
      && (l in GridContent(ls, mode, theme).lessons <==> l in ls && l.theme == Store.SpecialtyName(s))
      && BackButtonOf(path, theme) == BackToThemesButton
  {
    var theme := Some(Store.SpecialtyName(s));
    assert IsSelected(theme);
    GridShowsSelection(ls, mode, theme, l);
  }

  /** The shell: the selected theme, the layout and the current address. */
  class Shell {
    var selectedTheme: Option<string>
    var viewMode: ViewMode
    var path: string

    function NavState(): Nav
      reads this
    {
      Nav(selectedTheme, viewMode)
    }

    /** No theme is selected and the layout is the theme grid. */
    constructor (path: string)
      ensures NavState() == InitialNav && this.path == path
    {
      selectedTheme := None;
      viewMode := Themes;
      this.path := path;
    }

    /** "Retour aux thèmes". */
    method HandleBackToThemes()
      modifies this
      ensures NavState() == BackToThemes(old(NavState())) && path == old(path)
    {
      selectedTheme := None;
      viewMode := Themes;
    }

    /** A click on a theme card, offered while the grid shows the cards. */
    method SelectTheme(s: Store.Specialty)
      requires path == "/" && viewMode == Themes && !IsSelected(selectedTheme)
      modifies this
      ensures selectedTheme == Some(Store.SpecialtyName(s))
      ensures viewMode == old(viewMode) && path == old(path)
    {
      selectedTheme := Some(Store.SpecialtyName(s));
    }

    /** The layout toggle, offered only while no theme is selected. */
    method ToggleViewMode()
      requires path == "/" && !IsSelected(selectedTheme)
      modifies this
      ensures viewMode == if old(viewMode) == Themes then Lessons else Themes
      ensures selectedTheme == old(selectedTheme) && path == old(path)
    {
      viewMode := if viewMode == Themes then Lessons else Themes;
    }

    /** Following a link: a lesson card, or "Retour" to `/`. */
    method Navigate(to: string)
      modifies this
      ensures path == to && NavState() == old(NavState())
    {
      path := to;
    }
  }
}
