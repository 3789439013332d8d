/**
 * The lesson store: the `Lesson` record, the title-to-specialty mapping the
 * initial lessons are built from, and the two operations that rewrite the
 * `lessons` collection (`updateProgress`, `resetProgress`).
 */
module Store {
  import opened Wrappers
  import opened Text

  /** One lesson, field for field; the optional `pdfUrl` and `content` are
      `Option`s. */
  datatype Lesson = Lesson(
    id: string,
    title: string,
    progress: int,
    quizzesTaken: int,
    lastAttempt: string,
    pdfUrl: Option<string>,
    content: Option<string>,
    theme: string)

  /** The nine medical specialties the mapping assigns lessons to. */
  datatype Specialty =
    | Cardiologie | ChirurgieGenerale | Gastrologie | Gynecologie
    | NeurologieNeurochirurgie | Orl | Ophtalmologie | PneumoAllergologie | Psychiatrie

  /** The theme name a specialty is stored under in `Lesson.theme`. */
  function SpecialtyName(s: Specialty): string {
    match s
    case Cardiologie => "Cardiologie"
    case ChirurgieGenerale => "Chirurgie générale"
    case Gastrologie => "Gastrologie"
    case Gynecologie => "Gynécologie"
    case NeurologieNeurochirurgie => "Neurologie-Neurochirurgie"
    case Orl => "ORL"
    case Ophtalmologie => "Ophtalmologie"
    case PneumoAllergologie => "Pneumo-allergologie"
    case Psychiatrie => "Psychiatrie"
  }

  /** The theme names a lesson may carry. */
  predicate IsThemeName(theme: string) {
    exists s: Specialty :: SpecialtyName(s) == theme
  }

  /** Different specialties have different names, so a theme name determines
      its specialty. */
  lemma SpecialtyNameInjective(a: Specialty, b: Specialty)
    requires SpecialtyName(a) == SpecialtyName(b)
    ensures a == b
  {
    var x, y := SpecialtyName(a), SpecialtyName(b);
    assert x[0] == y[0] && |x| == |y|;
    if |x| > 1 {
      assert x[1] == y[1];
    }
  }

  // ---------------------------------------------------------------------
  // The theme mapping, with the semantics of a JavaScript object literal
  // ---------------------------------------------------------------------

  /** One `"title": "theme"` property of the mapping's object literal. */
  datatype Entry = Entry(title: string, specialty: Specialty)

  /** The object literal has a property named `t`. */
  predicate HasKey(m: seq<Entry>, t: string) {
    exists j :: 0 <= j < |m| && m[j].title == t
  }

  /** The position of the first property named `t`. */
  function FirstIndex(m: seq<Entry>, t: string): (j: nat)
    requires HasKey(m, t)
    ensures j < |m| && m[j].title == t
    ensures forall k :: 0 <= k < j ==> m[k].title != t
  {
    var init := m[..|m| - 1];
    if HasKey(init, t) then
      var j := FirstIndex(init, t);
      assert m[j] == init[j];
      assert forall k :: 0 <= k < j ==> m[k] == init[k];
      j
    else
      assert forall k :: 0 <= k < |m| - 1 ==> m[k] == init[k];
      |m| - 1
  }

  /** A property named before the last one keeps its first position. */
  lemma FirstIndexOfInit(m: seq<Entry>, t: string)
    requires m != [] && HasKey(m[..|m| - 1], t)
    ensures HasKey(m, t) && FirstIndex(m, t) == FirstIndex(m[..|m| - 1], t) < |m| - 1
  {
    var j :| 0 <= j < |m| - 1 && m[..|m| - 1][j].title == t;
    assert m[j] == m[..|m| - 1][j];
  }

  /** `Object.keys` of the literal: each title once, at the place it first
      appears (a repeated property keeps its first position). */
  function Keys(m: seq<Entry>): (r: seq<string>)
    ensures forall t :: t in r <==> HasKey(m, t)
    ensures forall a, b :: 0 <= a < b < |r| ==> r[a] != r[b]
  {
    if m == [] then []
    else
      var init := m[..|m| - 1];
      var prev := Keys(init);
      var t := m[|m| - 1].title;
      assert forall u :: HasKey(init, u) ==> HasKey(m, u) by {
        forall u, j | 0 <= j < |init| && init[j].title == u
          ensures HasKey(m, u)
        {
          assert m[j] == init[j];
        }
      }
      assert forall u :: HasKey(m, u) ==> HasKey(init, u) || u == t by {
        forall u, j | 0 <= j < |m| && m[j].title == u && u != t
          ensures HasKey(init, u)
        {
          assert init[j] == m[j];
        }
      }
      if t in prev then prev else prev + [t]
  }

  /** The keys come in the order of their first properties. */
  lemma {:induction false} KeysInOrder(m: seq<Entry>)
    ensures forall a, b :: 0 <= a < b < |Keys(m)| ==> FirstIndex(m, Keys(m)[a]) < FirstIndex(m, Keys(m)[b])
  {
    if m != [] {
      var init := m[..|m| - 1];
      KeysInOrder(init);
      var prev := Keys(init);
      forall u | u in prev
        ensures FirstIndex(m, u) == FirstIndex(init, u) < |init|
      {
        FirstIndexOfInit(m, u);
      }
    }
  }

  /** `mapping[t]`: the value of the last property named `t` (a repeated
      property overwrites the earlier value). */
  function Lookup(m: seq<Entry>, t: string): Specialty
    requires HasKey(m, t)
  {
    var last := m[|m| - 1];
    if last.title == t then last.specialty
    else
      var init := m[..|m| - 1];
      assert HasKey(init, t) by {
        var j :| 0 <= j < |m| && m[j].title == t;
        assert init[j] == m[j];
      }
      Lookup(init, t)
  }

  /** The looked-up value belongs to the last property with that name. */
  lemma {:induction false} LookupIsLast(m: seq<Entry>, t: string)
    requires HasKey(m, t)
    ensures exists j :: 0 <= j < |m| && m[j].title == t && m[j].specialty == Lookup(m, t)
              && forall k :: j < k < |m| ==> m[k].title != t
  {
    var last := m[|m| - 1];
    if last.title != t {
      var init := m[..|m| - 1];
      assert HasKey(init, t) by {
        var j :| 0 <= j < |m| && m[j].title == t;
        assert init[j] == m[j];
      }
      LookupIsLast(init, t);
      var j :| 0 <= j < |init| && init[j].title == t && init[j].specialty == Lookup(init, t)
               && forall k :: j < k < |init| ==> init[k].title != t;
      assert m[j] == init[j];
      forall k | j < k < |m|
        ensures m[k].title != t
      {
        if k < |init| {
          assert m[k] == init[k];
        }
      }
    }
  }

  /** The titles of the properties, in the order they are written. */
  function Titles(m: seq<Entry>): (r: seq<string>)
    ensures |r| == |m|
    ensures forall j :: 0 <= j < |m| ==> r[j] == m[j].title
  {
    if m == [] then [] else Titles(m[..|m| - 1]) + [m[|m| - 1].title]
  }

  predicate DistinctStrings(s: seq<string>) {
    forall a, b :: 0 <= a < b < |s| ==> s[a] != s[b]
  }

  /** When no title is repeated, the keys are the titles as written and each
      title looks up the specialty written beside it. */
  lemma {:induction false} DistinctTitles(m: seq<Entry>)
    requires DistinctStrings(Titles(m))
    ensures Keys(m) == Titles(m)
    ensures forall j :: 0 <= j < |m| ==> Lookup(m, m[j].title) == m[j].specialty
  {
    if m != [] {
      var init := m[..|m| - 1];
      assert Titles(m) == Titles(init) + [m[|m| - 1].title];
      assert DistinctStrings(Titles(init)) by {
        forall a, b | 0 <= a < b < |init|
          ensures Titles(init)[a] != Titles(init)[b]
        {
          assert Titles(m)[a] != Titles(m)[b];
        }
      }
      DistinctTitles(init);
      assert m[|m| - 1].title !in Keys(init) by {
        forall a | 0 <= a < |init|
          ensures Titles(init)[a] != m[|m| - 1].title
        {
          assert Titles(m)[a] != Titles(m)[|m| - 1];
        }
      }
      forall j | 0 <= j < |m|
        ensures Lookup(m, m[j].title) == m[j].specialty
      {
        assert HasKey(m, m[j].title);
        if j < |init| {
          assert m[j] == init[j];
          assert Titles(m)[j] != Titles(m)[|m| - 1];
          assert HasKey(init, m[j].title);
        }
      }
    }
  }

  /** The `themeMapping` object literal, property by property. */
  const ThemeMapping: seq<Entry> :=
    [
      Entry("Les Accidents Vasculaires Cérébraux", NeurologieNeurochirurgie),
      Entry("Adénopathies superficielles", ChirurgieGenerale),
      Entry("Les Anémies", Gastrologie),
      Entry("Appendicite Aigue", ChirurgieGenerale),
      Entry("Arrêt cardio-circulatoire", Cardiologie),
      Entry("Arthrite septique", ChirurgieGenerale),
      Entry("Asthme de l'adulte et de l'enfant", PneumoAllergologie),
      Entry("Bronchiolite du nourrisson", PneumoAllergologie),
      Entry("Broncho pneumopathie chronique obstructive", PneumoAllergologie),
      Entry("Brûlures Cutanées Récentes", ChirurgieGenerale),
      Entry("Les cancers broncho-pulmonaires primitifs", PneumoAllergologie),
      Entry("Cancer du cavum", Orl),
      Entry("Cancer du col de l'utérus", Gynecologie),
      Entry("Cancer du sein", Gynecologie),
      Entry("Cancers colorectaux", Gastrologie),
      Entry("Céphalées", NeurologieNeurochirurgie),
      Entry("Coma", NeurologieNeurochirurgie),
      Entry("Déshydratations aigues de l'enfant", Gastrologie),
      Entry("Contraception", Gynecologie),
      Entry("Diabète sucré", Gastrologie),
      Entry("Diarrhées chroniques", Gastrologie),
      Entry("Douleurs thoraciques aigues", Cardiologie),
      Entry("Les dyslipidémies", Cardiologie),
      Entry("Dysphagies", Orl),
      Entry("L'endocardite infectieuse", Cardiologie),
      Entry("Epilepsies", NeurologieNeurochirurgie),
      Entry("Choc cardiogénique", Cardiologie),
      Entry("L'état de choc hémorragique", ChirurgieGenerale),
      Entry("Les états confusionnels", Psychiatrie),
      Entry("Les états septiques graves", ChirurgieGenerale),
      Entry("Fractures ouvertes de la jambe", ChirurgieGenerale),
      Entry("Grossesse extra-utérine", Gynecologie),
      Entry("Les hématuries", ChirurgieGenerale),
      Entry("Les hémorragies digestives", Gastrologie),
      Entry("Hépatites virales", Gastrologie),
      Entry("Hydatidoses hépatiques et pulmonaires", PneumoAllergologie),
      Entry("Hypercalcémies", Gastrologie),
      Entry("Hypertension artérielle", Cardiologie),
      Entry("Les hyperthyroïdies", Gastrologie),
      Entry("Les hypothyroidies de l'adulte et de l'enfant", Gastrologie),
      Entry("Les ictères", Gastrologie),
      Entry("Infection des voies aériennes supérieures", Orl),
      Entry("Infections respiratoires basses communautaires", PneumoAllergologie),
      Entry("Infections sexuellement transmissibles", Gynecologie),
      Entry("Infections Urinaires", ChirurgieGenerale),
      Entry("Insuffisance rénale aigue", ChirurgieGenerale),
      Entry("L'insuffisance surrénalienne aigue", Gastrologie),
      Entry("Intoxications par le CO, les organophosphorés et les psychotropes", Psychiatrie),
      Entry("Ischémie aiguë des membres", ChirurgieGenerale),
      Entry("Lithiase urinaire", ChirurgieGenerale),
      Entry("Maladies veineuses thrombo-emboliques", Cardiologie),
      Entry("Méningites bactériennes et virales", NeurologieNeurochirurgie),
      Entry("Diagnostic des métrorragies", Gynecologie),
      Entry("Occlusions intestinales aiguës", ChirurgieGenerale),
      Entry("Les oedèmes", Cardiologie),
      Entry("OEil rouge", Ophtalmologie),
      Entry("Péritonites aigues", ChirurgieGenerale),
      Entry("Polyarthrite Rhumatoïde", ChirurgieGenerale),
      Entry("Polytraumatisme", ChirurgieGenerale),
      Entry("Préeclampsie et éclampsie", Gynecologie),
      Entry("Prise en charge de la douleur aigue", ChirurgieGenerale),
      Entry("Les Purpuras", Gastrologie),
      Entry("Schizophrénie", Psychiatrie),
      Entry("Splénomégalies", Gastrologie),
      Entry("Syndromes coronariens aigus", Cardiologie),
      Entry("Transfusion sanguine", Gastrologie),
      Entry("Traumatismes crâniens", NeurologieNeurochirurgie),
      Entry("Troubles acido-basiques", Gastrologie),
      Entry("Troubles anxieux", Psychiatrie),
      Entry("Trouble de l'humeur", Psychiatrie),
      Entry("Les troubles de l'hydratation", Gastrologie),
      Entry("Dyskaliémies", Gastrologie),
      Entry("Tuberculose pulmonaire commune", PneumoAllergologie),
      Entry("Les Tumeurs de la prostate", ChirurgieGenerale),
      Entry("L'ulcère gastrique et duodénal", Gastrologie),
      Entry("Vaccinations", Gastrologie)
    ]

  // ---------------------------------------------------------------------
  // The initial lessons
  // ---------------------------------------------------------------------

  /** `Math.random()` is modelled as a draw `x / RandomScale` with
      `0 <= x < RandomScale` (a double in [0, 1) with 53 random bits). */
  const RandomScale: nat := 0x20_0000_0000_0000

  /** `Math.floor(Math.random() * n)` for the draw `x`: a draw strictly below
      one gives a value strictly below `n`. */
  function FloorScaled(x: nat, n: nat): (r: nat)
    requires x < RandomScale
    ensures n > 0 ==> r < n
  {
    FloorScaledBelow(x, n);
    x * n / RandomScale
  }

  lemma FloorScaledBelow(x: nat, n: nat)
    requires x < RandomScale
    ensures n > 0 ==> x * n / RandomScale < n
  {
  }

  /** The values the initial state draws for one lesson: the two random
      draws and the rendered date of its last attempt. */
  datatype Seed = Seed(progressDraw: nat, quizzesDraw: nat, lastAttempt: string)

  predicate SeedInRange(s: Seed) {
    s.progressDraw < RandomScale && s.quizzesDraw < RandomScale
  }

  /** The start and the end of the placeholder text, around the title. */
  const ContentHead := "OBJECTIFS\n\n1- Définir "
  const ContentTail :=
    "\n2- Reconnaître les caractéristiques cliniques\n3- " +
    "Établir le diagnostic différentiel\n4- Identifier " +
    "les signes de gravité\n5- Hiérarchiser les examens " +
    "complémentaires\n6- Établir le diagnostic étiologique" +
    "\n\nIntroduction :\n✓ Définition et physiopathologie" +
    "\n✓ Aspects cliniques principaux\n✓ Démarche " +
    "diagnostique\n✓ Principes thérapeutiques"

  /** `createPlaceholderContent(title)`. */
  function PlaceholderContent(title: string): string {
    ContentHead + title + ContentTail
  }

  /** The title can be read back at a fixed place of the placeholder text, so
      different titles get different contents. */
  lemma PlaceholderNamesTitle(title: string)
    ensures var c := PlaceholderContent(title);
      |ContentHead| + |title| <= |c| && c[|ContentHead|..|ContentHead| + |title|] == title
  {
  }

  lemma PlaceholderInjective(a: string, b: string)
    requires PlaceholderContent(a) == PlaceholderContent(b)
    ensures a == b
  {
    var c := PlaceholderContent(a);
    assert |a| == |b|;
    PlaceholderNamesTitle(a);
    PlaceholderNamesTitle(b);
  }

  /** The id of the lesson at index `i`: `lesson-{i + 1}`. */
  function LessonId(i: nat): string {
    "lesson-" + Decimal(i + 1)
  }

  lemma LessonIdInjective(i: nat, j: nat)
    requires LessonId(i) == LessonId(j)
    ensures i == j
  {
    var a, b := LessonId(i), LessonId(j);
    assert a[7..] == Decimal(i + 1);
    assert b[7..] == Decimal(j + 1);
    DecimalInjective(i + 1, j + 1);
  }

  /** The lesson built for the `i`-th key `title` of mapping `m`. */
  function NewLesson(m: seq<Entry>, i: nat, title: string, seed: Seed): Lesson
    requires HasKey(m, title) && SeedInRange(seed)
  {
    Lesson(
      LessonId(i),
      title,
      FloorScaled(seed.progressDraw, 100),
      FloorScaled(seed.quizzesDraw, 5),
      seed.lastAttempt,
      None,
      Some(PlaceholderContent(title)),
      SpecialtyName(Lookup(m, title)))
  }

  /** `Object.keys(mapping).map(...)`: one lesson per key, in key order. */
  function LessonsFrom(m: seq<Entry>, seeds: seq<Seed>): (r: seq<Lesson>)
    requires |seeds| == |Keys(m)|
    requires forall k :: 0 <= k < |seeds| ==> SeedInRange(seeds[k])
    ensures |r| == |Keys(m)|
  {
    var keys := Keys(m);
    seq(|keys|, i requires 0 <= i < |keys| => NewLesson(m, i, keys[i], seeds[i]))
  }

  /** `initialLessons`. */
  function InitialLessons(seeds: seq<Seed>): seq<Lesson>
    requires |seeds| == |Keys(ThemeMapping)|
    requires forall k :: 0 <= k < |seeds| ==> SeedInRange(seeds[k])
  {
    LessonsFrom(ThemeMapping, seeds)
  }

  predicate IdsDistinct(ls: seq<Lesson>) {
    forall a, b :: 0 <= a < b < |ls| ==> ls[a].id != ls[b].id
  }

  predicate ThemesKnown(ls: seq<Lesson>) {
    forall k :: 0 <= k < |ls| ==> IsThemeName(ls[k].theme)
  }

  /** The lessons built from any mapping: the `i`-th follows the `i`-th key,
      with id `lesson-{i + 1}` and the theme the mapping gives its title;
      ids are pairwise distinct, every theme is one of the nine specialty
      names, progress lies in 0..99 and quizzesTaken in 0..4, there is no
      PDF and the content is the placeholder built from the title. */
  lemma LessonsFromSpec(m: seq<Entry>, seeds: seq<Seed>)
    requires |seeds| == |Keys(m)|
    requires forall k :: 0 <= k < |seeds| ==> SeedInRange(seeds[k])
    ensures var ls := LessonsFrom(m, seeds);
      && IdsDistinct(ls)
      && ThemesKnown(ls)
      && forall i :: 0 <= i < |ls| ==>
           && ls[i].id == LessonId(i)
           && ls[i].title == Keys(m)[i]
           && HasKey(m, ls[i].title)
           && ls[i].theme == SpecialtyName(Lookup(m, ls[i].title))
           && 0 <= ls[i].progress < 100
           && 0 <= ls[i].quizzesTaken < 5
           && ls[i].lastAttempt == seeds[i].lastAttempt
           && ls[i].pdfUrl == None
           && ls[i].content == Some(PlaceholderContent(ls[i].title))
  {
    var ls := LessonsFrom(m, seeds);
    forall a, b | 0 <= a < b < |ls|
      ensures ls[a].id != ls[b].id
    {
      if ls[a].id == ls[b].id {
        LessonIdInjective(a, b);
      }
    }
    forall i | 0 <= i < |ls|
      ensures 0 <= ls[i].progress < 100 && 0 <= ls[i].quizzesTaken < 5
    {
      assert SeedInRange(seeds[i]);
    }
  }

  /** With titles that are not repeated, the `i`-th lesson is the `i`-th
      property of the literal: its title and its specialty. */
  lemma LessonsFollowEntries(m: seq<Entry>, seeds: seq<Seed>)
    requires DistinctStrings(Titles(m))
    requires |seeds| == |m|
    requires forall k :: 0 <= k < |seeds| ==> SeedInRange(seeds[k])
    ensures |Keys(m)| == |m|
    ensures forall i :: 0 <= i < |m| ==>
      && LessonsFrom(m, seeds)[i].title == m[i].title
      && LessonsFrom(m, seeds)[i].theme == SpecialtyName(m[i].specialty)
  {
    DistinctTitles(m);
  }

  // ---------------------------------------------------------------------
  // Updates
  // ---------------------------------------------------------------------

  /** `lessons.map(l => l.id === id ? { ...l, progress } : l)`. */
  function SetProgress(ls: seq<Lesson>, id: string, progress: int): (r: seq<Lesson>)
    ensures |r| == |ls|
    ensures forall k :: 0 <= k < |ls| ==>
      r[k] == if ls[k].id == id then ls[k].(progress := progress) else ls[k]
  {
    if ls == [] then []
    else
      var l := ls[0];
      [if l.id == id then l.(progress := progress) else l] + SetProgress(ls[1..], id, progress)
  }

  /** `lessons.map(l => l.id === id ? { ...l, progress: 0, quizzesTaken: 0 } : l)`. */
  function ClearProgress(ls: seq<Lesson>, id: string): (r: seq<Lesson>)
    ensures |r| == |ls|
    ensures forall k :: 0 <= k < |ls| ==>
      r[k] == if ls[k].id == id then ls[k].(progress := 0, quizzesTaken := 0) else ls[k]
  {
    if ls == [] then []
    else
      var l := ls[0];
      [if l.id == id then l.(progress := 0, quizzesTaken := 0) else l] + ClearProgress(ls[1..], id)
  }

  /** Neither operation touches the ids, the titles or the themes. */
  lemma UpdatesKeepIdentity(ls: seq<Lesson>, id: string, progress: int)
    ensures forall k :: 0 <= k < |ls| ==>
      && SetProgress(ls, id, progress)[k].id == ls[k].id
      && SetProgress(ls, id, progress)[k].title == ls[k].title
      && SetProgress(ls, id, progress)[k].theme == ls[k].theme
      && ClearProgress(ls, id)[k].id == ls[k].id
      && ClearProgress(ls, id)[k].title == ls[k].title
      && ClearProgress(ls, id)[k].theme == ls[k].theme
  {
  }

  /** An id no lesson carries leaves the collection as it was, for both
      operations. */
  lemma UnknownIdIsNoOp(ls: seq<Lesson>, id: string, progress: int)
    requires forall k :: 0 <= k < |ls| ==> ls[k].id != id
    ensures SetProgress(ls, id, progress) == ls
    ensures ClearProgress(ls, id) == ls
  {
  }

  /** Resetting twice is resetting once. */
  lemma ClearIdempotent(ls: seq<Lesson>, id: string)
    ensures ClearProgress(ClearProgress(ls, id), id) == ClearProgress(ls, id)
  {
  }

  /** The last progress written wins. */
  lemma SetProgressOverwrites(ls: seq<Lesson>, id: string, p: int, q: int)
    ensures SetProgress(SetProgress(ls, id, p), id, q) == SetProgress(ls, id, q)
  {
  }

  /** A reset after an update of the same id undoes the progress written. */
  lemma ClearAfterSet(ls: seq<Lesson>, id: string, p: int)
    ensures ClearProgress(SetProgress(ls, id, p), id) == ClearProgress(ls, id)
  {
  }

  /** The store: a `lessons` collection the two operations replace. */
  class LessonStore {
    var lessons: seq<Lesson>

    /** Ids stay pairwise distinct and themes stay among the nine names. */
    predicate Valid()
      reads this
    {
      IdsDistinct(lessons) && ThemesKnown(lessons)
    }

    constructor (seeds: seq<Seed>)
      requires |seeds| == |Keys(ThemeMapping)|
      requires forall k :: 0 <= k < |seeds| ==> SeedInRange(seeds[k])
      ensures lessons == InitialLessons(seeds)
      ensures Valid()
    {
      lessons := InitialLessons(seeds);
      LessonsFromSpec(ThemeMapping, seeds);
    }

    /** `updateProgress(id, progress)`; the value is stored as given. */
    method UpdateProgress(id: string, progress: int)
      requires Valid()
      modifies this
      ensures lessons == SetProgress(old(lessons), id, progress)
      ensures Valid()
    {
      lessons := SetProgress(lessons, id, progress);
    }

    /** `resetProgress(id)`. */
    method ResetProgress(id: string)
      requires Valid()
      modifies this
      ensures lessons == ClearProgress(old(lessons), id)
      ensures Valid()
    {
      lessons := ClearProgress(lessons, id);
    }
  }
}
