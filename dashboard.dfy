/**
 * The values the dashboard derives from the lessons: the lessons of one
 * theme, the rounded mean progress of a theme, the nine theme cards, the
 * lessons on display, the status marker of a lesson, and the per-lesson
 * menu that at most one lesson has open.
 */
module Dashboard {
  import opened Wrappers
  import opened Store

  /** The two layouts of the dashboard: theme cards or lesson cards. */
  datatype ViewMode = Themes | Lessons

  /** A theme counts as selected when it is set and not empty, as a
      JavaScript string is truthy. */
  predicate IsSelected(selected: Option<string>) {
    selected.Some? && selected.value != ""
  }

  // ---------------------------------------------------------------------
  // Lessons of a theme
  // ---------------------------------------------------------------------

  /** `lessons.filter(lesson => lesson.theme === theme)`. */
  function ThemeLessons(ls: seq<Lesson>, theme: string): (r: seq<Lesson>)
    ensures |r| <= |ls|
    ensures forall k :: 0 <= k < |r| ==> r[k].theme == theme
  {
    if ls == [] then []
    else (if ls[0].theme == theme then [ls[0]] else []) + ThemeLessons(ls[1..], theme)
  }

  /** A lesson is kept exactly when it is in the collection and has the
      theme. */
  lemma {:induction false} ThemeLessonsMembers(ls: seq<Lesson>, theme: string, l: Lesson)
    ensures l in ThemeLessons(ls, theme) <==> l in ls && l.theme == theme
  {
    if ls != [] {
      ThemeLessonsMembers(ls[1..], theme, l);
      assert ls == [ls[0]] + ls[1..];
    }
  }

  /** Filtering keeps the original order: the lessons of a concatenation are
      those of the first part followed by those of the second. */
  lemma {:induction false} ThemeLessonsAppend(a: seq<Lesson>, b: seq<Lesson>, theme: string)
    ensures ThemeLessons(a + b, theme) == ThemeLessons(a, theme) + ThemeLessons(b, theme)
  {
    if a == [] {
      assert a + b == b;
    } else {
      var head := if a[0].theme == theme then [a[0]] else [];
      calc {
        ThemeLessons(a + b, theme);
      == { assert a + b == [a[0]] + (a[1..] + b); ThemeLessonsCons(a[0], a[1..] + b, theme); }
        head + ThemeLessons(a[1..] + b, theme);
      == { ThemeLessonsAppend(a[1..], b, theme); }
        head + (ThemeLessons(a[1..], theme) + ThemeLessons(b, theme));
      ==
        (head + ThemeLessons(a[1..], theme)) + ThemeLessons(b, theme);
      == { assert a == [a[0]] + a[1..]; ThemeLessonsCons(a[0], a[1..], theme); }
        ThemeLessons(a, theme) + ThemeLessons(b, theme);
      }
    }
  }

  /** One step of the filter. */
  lemma ThemeLessonsCons(x: Lesson, rest: seq<Lesson>, theme: string)
    ensures ThemeLessons([x] + rest, theme) == (if x.theme == theme then [x] else []) + ThemeLessons(rest, theme)
  {
    assert ([x] + rest)[1..] == rest;
  }

  // ---------------------------------------------------------------------
  // Theme progress
  // ---------------------------------------------------------------------

  /** The sum of the lessons' progress, as the `reduce` computes it. */
  function ProgressSum(ls: seq<Lesson>): int {
    if ls == [] then 0 else ls[0].progress + ProgressSum(ls[1..])
  }

  /** `Math.round(sum / n)`: the integer nearest to the mean, halves rounded
      up. */
  function RoundedMean(sum: int, n: nat): (r: int)
    requires n > 0
    ensures 2 * n * r <= 2 * sum + n < 2 * n * r + 2 * n
  {
    (2 * sum + n) / (2 * n)
  }

  /** `getThemeProgress`: 0 for a theme without lessons, the rounded mean
      progress of its lessons otherwise. */
  function ThemeProgress(ls: seq<Lesson>, theme: string): (r: int)
    ensures ThemeLessons(ls, theme) == [] ==> r == 0
    ensures var t := ThemeLessons(ls, theme);
      t != [] ==> 2 * |t| * r <= 2 * ProgressSum(t) + |t| < 2 * |t| * r + 2 * |t|
  {
    var t := ThemeLessons(ls, theme);
    if t == [] then 0 else RoundedMean(ProgressSum(t), |t|)
  }

  /** Progress values within `lo..hi` sum to between `n * lo` and `n * hi`. */
  lemma {:induction false} ProgressSumBounds(ls: seq<Lesson>, lo: int, hi: int)
    requires forall k :: 0 <= k < |ls| ==> lo <= ls[k].progress <= hi
    ensures |ls| * lo <= ProgressSum(ls) <= |ls| * hi
  {
    if ls != [] {
      ProgressSumBounds(ls[1..], lo, hi);
      assert |ls| * lo == lo + |ls[1..]| * lo;
      assert |ls| * hi == hi + |ls[1..]| * hi;
    }
  }

  /** The rounded mean of values within `lo..hi` lies within `lo..hi`. */
  lemma RoundedMeanBounds(sum: int, n: nat, lo: int, hi: int)
    requires n > 0
    requires n * lo <= sum <= n * hi
    ensures lo <= RoundedMean(sum, n) <= hi
  {
    var r := RoundedMean(sum, n);
    assert 2 * n * r < 2 * n * (hi + 1) by {
      assert 2 * n * r <= 2 * sum + n;
      assert 2 * n * (hi + 1) == 2 * (n * hi) + 2 * n;
    }
    assert 2 * n * lo < 2 * n * (r + 1) by {
      assert 2 * sum + n < 2 * n * r + 2 * n;
      assert 2 * n * lo == 2 * (n * lo);
    }
    MulLess(2 * n, r, hi + 1);
    MulLess(2 * n, lo, r + 1);
  }

  /** Multiplying by a positive factor keeps a strict order. */
  lemma MulLess(c: int, a: int, b: int)
    requires c > 0 && c * a < c * b
    ensures a < b
  {
  }

  /** A theme's progress lies between the smallest and the largest progress
      of its lessons. */
  lemma ThemeProgressBounds(ls: seq<Lesson>, theme: string, lo: int, hi: int)
    requires ThemeLessons(ls, theme) != []
    requires forall k :: 0 <= k < |ThemeLessons(ls, theme)| ==>
      lo <= ThemeLessons(ls, theme)[k].progress <= hi
    ensures lo <= ThemeProgress(ls, theme) <= hi
  {
    var t := ThemeLessons(ls, theme);
    ProgressSumBounds(t, lo, hi);
    RoundedMeanBounds(ProgressSum(t), |t|, lo, hi);
  }

  // ---------------------------------------------------------------------
  // Theme cards
  // ---------------------------------------------------------------------

  /** One theme card: the theme, how many lessons it has, and its
      progress. */
  datatype Card = Card(theme: string, count: nat, progress: int)

  /** The nine cards' specialties, in the order the grid lists them. */
  const CardOrder: seq<Specialty> := [
    Cardiologie, ChirurgieGenerale, Gastrologie, Gynecologie,
    NeurologieNeurochirurgie, Orl, Ophtalmologie, PneumoAllergologie, Psychiatrie]

  function CardOf(ls: seq<Lesson>, s: Specialty): Card {
    var theme := SpecialtyName(s);
    Card(theme, |ThemeLessons(ls, theme)|, ThemeProgress(ls, theme))
  }

  function CardsFor(ls: seq<Lesson>, order: seq<Specialty>): (r: seq<Card>)
    ensures |r| == |order|
    ensures forall k :: 0 <= k < |order| ==> r[k] == CardOf(ls, order[k])
  {
    if order == [] then [] else [CardOf(ls, order[0])] + CardsFor(ls, order[1..])
  }

  /** The theme grid: one card per specialty, in the fixed order. */
  function Cards(ls: seq<Lesson>): (r: seq<Card>)
    ensures |r| == 9
  {
    CardsFor(ls, CardOrder)
  }

  /** The lessons counted on a list of cards. */
  function CardTotal(cards: seq<Card>): nat {
    if cards == [] then 0 else cards[0].count + CardTotal(cards[1..])
  }

  /** How many of the listed specialties carry the name `theme`. */
  function Hits(order: seq<Specialty>, theme: string): nat {
    if order == [] then 0
    else (if SpecialtyName(order[0]) == theme then 1 else 0) + Hits(order[1..], theme)
  }

  /** One more lesson adds one to the count of each card whose theme it
      has. */
  lemma {:induction false} CardTotalCons(x: Lesson, rest: seq<Lesson>, order: seq<Specialty>)
    ensures CardTotal(CardsFor([x] + rest, order)) == CardTotal(CardsFor(rest, order)) + Hits(order, x.theme)
  {
    if order != [] {
      CardTotalCons(x, rest, order[1..]);
      assert ([x] + rest)[1..] == rest;
    }
  }

  /** When each lesson's theme is named exactly once in `order`, the cards
      count every lesson once. */
  lemma {:induction false} CardTotalCounts(ls: seq<Lesson>, order: seq<Specialty>)
    requires forall k :: 0 <= k < |ls| ==> Hits(order, ls[k].theme) == 1
    ensures CardTotal(CardsFor(ls, order)) == |ls|
  {
    if ls == [] {
      CardTotalEmpty(order);
    } else {
      CardTotalCounts(ls[1..], order);
      CardTotalCons(ls[0], ls[1..], order);
      assert [ls[0]] + ls[1..] == ls;
    }
  }

  lemma {:induction false} CardTotalEmpty(order: seq<Specialty>)
    ensures CardTotal(CardsFor([], order)) == 0
  {
    if order != [] {
      CardTotalEmpty(order[1..]);
    }
  }

  /** A specialty's name is found as often as the specialty is listed. */
  lemma {:induction false} HitsCountSpecialty(order: seq<Specialty>, s: Specialty)
    ensures Hits(order, SpecialtyName(s)) == multiset(order)[s]
  {
    if order != [] {
      HitsCountSpecialty(order[1..], s);
      assert order == [order[0]] + order[1..];
      SameName(order[0], s);
    }
  }

  lemma SameName(a: Specialty, b: Specialty)
    ensures SpecialtyName(a) == SpecialtyName(b) <==> a == b
  {
    if SpecialtyName(a) == SpecialtyName(b) {
      SpecialtyNameInjective(a, b);
    }
  }

  /** Every specialty has exactly one card. */
  lemma CardOrderOnce(s: Specialty)
    ensures multiset(CardOrder)[s] == 1
  {
  }

  /** When every lesson carries one of the nine theme names, the nine cards
      together count every lesson exactly once. */
  lemma CardsCoverLessons(ls: seq<Lesson>)
    requires ThemesKnown(ls)
    ensures CardTotal(Cards(ls)) == |ls|
  {
    forall k | 0 <= k < |ls|
      ensures Hits(CardOrder, ls[k].theme) == 1
    {
      var s :| SpecialtyName(s) == ls[k].theme;
      HitsCountSpecialty(CardOrder, s);
      CardOrderOnce(s);
    }
    CardTotalCounts(ls, CardOrder);
  }

  // ---------------------------------------------------------------------
  // What the grid shows
  // ---------------------------------------------------------------------

  /** `displayedLessons`: the lessons of the selected theme, or all lessons
      when no theme is selected. */
  function DisplayedLessons(ls: seq<Lesson>, selected: Option<string>): (r: seq<Lesson>)
    ensures !IsSelected(selected) ==> r == ls
    ensures IsSelected(selected) ==> forall k :: 0 <= k < |r| ==> r[k].theme == selected.value
  {
    if IsSelected(selected) then ThemeLessons(ls, selected.value) else ls
  }

  /** The content of the grid: theme cards, or lesson cards. */
  datatype View = ThemeGrid(cards: seq<Card>) | LessonCards(lessons: seq<Lesson>)

  /** The grid shows the theme cards exactly when the mode is `themes` and no
      theme is selected, and the displayed lessons otherwise. */
  function GridContent(ls: seq<Lesson>, mode: ViewMode, selected: Option<string>): (r: View)
    ensures r.ThemeGrid? <==> mode == Themes && !IsSelected(selected)
    ensures r.ThemeGrid? ==> |r.cards| == 9
    ensures r.LessonCards? ==> r.lessons == DisplayedLessons(ls, selected)
  {
    if mode == Themes && !IsSelected(selected) then ThemeGrid(Cards(ls))
    else LessonCards(DisplayedLessons(ls, selected))
  }

  /** A selected theme shows its lessons, and only those, in either mode;
      the lesson view without a selection shows every lesson. */
  lemma GridShowsSelection(ls: seq<Lesson>, mode: ViewMode, selected: Option<string>, l: Lesson)
    ensures IsSelected(selected) ==>
      GridContent(ls, mode, selected).LessonCards? &&
      (l in GridContent(ls, mode, selected).lessons <==> l in ls && l.theme == selected.value)
    ensures mode == Lessons && !IsSelected(selected) ==> GridContent(ls, mode, selected) == LessonCards(ls)
  {
    if IsSelected(selected) {
      ThemeLessonsMembers(ls, selected.value, l);
    }
  }

  // ---------------------------------------------------------------------
  // Status marker
  // ---------------------------------------------------------------------

  /** The marker next to a lesson's title. */
  datatype Status = Check | Alert | NoMarker

  /** A check from 70 on, an alert for any progress above 0 below that,
      nothing otherwise. */
  function StatusOf(progress: int): (r: Status)
    ensures r == Check <==> progress >= 70
    ensures r == Alert <==> 0 < progress < 70
    ensures r == NoMarker <==> progress <= 0
  {
    if progress >= 70 then Check else if progress > 0 then Alert else NoMarker
  }

  function Rank(s: Status): nat {
    match s
    case NoMarker => 0
    case Alert => 1
    case Check => 2
  }

  /** More progress never shows a lesser marker. */
  lemma StatusMonotone(p: int, q: int)
    requires p <= q
    ensures Rank(StatusOf(p)) <= Rank(StatusOf(q))
  {
  }

  // ---------------------------------------------------------------------
  // Lesson menus
  // ---------------------------------------------------------------------

  /** The open menu after a click on lesson `id`'s menu button: the click
      closes that menu when it is the open one and opens it otherwise. */
  function AfterMenuClick(active: Option<string>, id: string): (r: Option<string>)
    ensures r == Some(id) <==> active != Some(id)
    ensures r.None? <==> active == Some(id)
  {
    if active == Some(id) then None else Some(id)
  }

  /** Two clicks on a closed menu open it and close it again. */
  lemma MenuClickTwice(active: Option<string>, id: string)
    requires active != Some(id)
    ensures AfterMenuClick(AfterMenuClick(active, id), id) == None
  {
  }

  /** `activeMenu`: the id of the one lesson whose menu is open, if any. */
  class Menus {
    var active: Option<string>

    constructor ()
      ensures active == None
    {
      active := None;
    }

    /** `handleMenuClick`; the click does not reach the background. */
    method Click(id: string)
      modifies this
      ensures active == AfterMenuClick(old(active), id)
    {
      active := if active == Some(id) then None else Some(id);
    }

    /** A click anywhere else on the page closes the open menu. */
    method BackgroundClick()
      modifies this
      ensures active == None
    {
      active := None;
    }
  }
}
