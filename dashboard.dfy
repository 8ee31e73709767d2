/** The member dashboard: the fixed table of the seven modules, each joined
    with the user's release row, the click that opens a released module or
    explains when a locked one opens, and the statistics strip. The user's
    module rows and statistics row are inputs. */
module Dashboard {
  import opened Common
  import Lessons
  import ModuleCard

  /** One entry of the dashboard's module table (display texts left out). */
  datatype ModuleInfo = ModuleInfo(id: int, number: int, lessons: int, progress: int, badge: string)

  const ModulesData: seq<ModuleInfo> := [
    ModuleInfo(1, 1, 8, 0, "MAIS VISTO"),
    ModuleInfo(2, 2, 8, 0, "RECOMENDADO"),
    ModuleInfo(3, 3, 4, 0, "NOVO"),
    ModuleInfo(4, 4, 4, 0, "POPULAR"),
    ModuleInfo(5, 5, 3, 0, "NOVO"),
    ModuleInfo(6, 6, 6, 0, "POPULAR"),
    ModuleInfo(7, 7, 6, 0, "MAIS VISTO")
  ]

  /** The table lists modules 1..7 in order, and its hard-coded lesson
      counts are those of the lesson catalog. */
  lemma ModuleTableMatchesCatalog()
    ensures |ModulesData| == 7
    ensures forall i :: 0 <= i < 7 ==> ModulesData[i].number == i + 1 && ModulesData[i].id == i + 1
    ensures forall i :: 0 <= i < 7 ==>
      ModulesData[i].lessons == |Lessons.GetModuleLessons(ModulesData[i].number)|
  {
    forall i | 0 <= i < 7
      ensures ModulesData[i].number == i + 1 && ModulesData[i].id == i + 1
      ensures ModulesData[i].lessons == |Lessons.GetModuleLessons(ModulesData[i].number)|
    {
      TableEntryMatches(i);
    }
  }

  lemma TableEntryMatches(i: int)
    requires 0 <= i < 7
    ensures ModulesData[i].number == i + 1 && ModulesData[i].id == i + 1
    ensures ModulesData[i].lessons == |Lessons.GetModuleLessons(i + 1)|
  {
    Lessons.CatalogNumbered();
    var sizes := [8, 8, 4, 4, 3, 6, 6];
    assert |Lessons.ModuleBlock(i + 1)| == sizes[i];
    assert ModulesData[i].lessons == sizes[i];
  }

  /** A row of the user's module release table (`useUserModules`). */
  datatype UserModule = UserModule(moduleNumber: int, isReleased: Option<bool>, releaseDate: Option<string>)

  /** `userModules.find(m => m.module_number === n)`. */
  function FindUserModule(userModules: seq<UserModule>, n: int): (r: Option<UserModule>)
    ensures r.Some? ==> r.value in userModules && r.value.moduleNumber == n
    ensures r.None? <==> forall j :: 0 <= j < |userModules| ==> userModules[j].moduleNumber != n
    ensures r.Some? ==> exists j :: 0 <= j < |userModules| && userModules[j] == r.value &&
                                    forall k :: 0 <= k < j ==> userModules[k].moduleNumber != n
  {
    if userModules == [] then None
    else if userModules[0].moduleNumber == n then Some(userModules[0])
    else
      var r := FindUserModule(userModules[1..], n);
      assert forall k :: 1 <= k < |userModules| ==> userModules[k] == userModules[1..][k - 1];
      r
  }

  /** `userModule?.is_released || false`: released only on an explicit true
      in the first matching row. */
  predicate IsReleased(userModules: seq<UserModule>, n: int)
    ensures IsReleased(userModules, n) ==>
      exists j :: 0 <= j < |userModules| && userModules[j].moduleNumber == n &&
        userModules[j].isReleased == Some(true) &&
        forall k :: 0 <= k < j ==> userModules[k].moduleNumber != n
  {
    var row := FindUserModule(userModules, n);
    row.Some? && row.value.isReleased == Some(true)
  }

  /** The release check fails closed: a module without a row, or whose row
      holds null, is locked. */
  lemma ReleaseFailsClosed(userModules: seq<UserModule>, n: int)
    ensures (forall j :: 0 <= j < |userModules| ==> userModules[j].moduleNumber != n) ==> !IsReleased(userModules, n)
    ensures IsReleased(userModules, n) ==>
      exists j :: 0 <= j < |userModules| && userModules[j].moduleNumber == n && userModules[j].isReleased == Some(true)
  {
  }

  datatype ModuleStatus = ModuleStatus(info: ModuleInfo, isReleased: bool, releaseDate: Option<string>, totalLessons: int)

  /** modulesWithStatus: one entry per table entry, in the same order, with
      its release flag and date from the user's rows and its lesson count
      from the catalog. */
  function ModulesWithStatus(userModules: seq<UserModule>): (r: seq<ModuleStatus>)
    ensures |r| == |ModulesData|
    ensures forall i :: 0 <= i < |r| ==> r[i].info == ModulesData[i]
    ensures forall i :: 0 <= i < |r| ==> (r[i].isReleased <==> IsReleased(userModules, ModulesData[i].number))
    ensures forall i :: 0 <= i < |r| ==> r[i].totalLessons == |Lessons.GetModuleLessons(ModulesData[i].number)|
    ensures forall i :: 0 <= i < |r| ==> r[i].totalLessons == ModulesData[i].lessons
  {
    ModuleTableMatchesCatalog();
    seq(|ModulesData|, i requires 0 <= i < |ModulesData| =>
      var info := ModulesData[i];
      var row := FindUserModule(userModules, info.number);
      ModuleStatus(info, IsReleased(userModules, info.number),
                   if row.Some? then row.value.releaseDate else None,
                   |Lessons.GetModuleLessons(info.number)|))
  }

  /** `/modulo/${n}/aula/1`. */
  function FirstLessonRoute(n: int): string
  {
    "/modulo/" + IntToString(n) + "/aula/1"
  }

  /** Different modules lead to different routes. */
  lemma FirstLessonRouteInjective(a: int, b: int)
    requires FirstLessonRoute(a) == FirstLessonRoute(b)
    ensures a == b
  {
    var pa := IntToString(a) + "/aula/1";
    var pb := IntToString(b) + "/aula/1";
    assert "/modulo/" + pa == FirstLessonRoute(a);
    assert "/modulo/" + pb == FirstLessonRoute(b);
    assert pa == FirstLessonRoute(a)[8..] == pb;
    ParseIntPrinted(a, "/aula/1");
    ParseIntPrinted(b, "/aula/1");
  }

  datatype ClickResult =
    | Navigate(route: string)
    /** The "this module opens on ..." toast, with the row's release date
        (absent when there is no row). */
    | LockedToast(releaseDate: Option<string>)

  /** handleModuleClick: an unreleased module never navigates; a released
      one opens its first lesson. */
  function HandleModuleClick(userModules: seq<UserModule>, n: int): (r: ClickResult)
    ensures r.Navigate? <==> IsReleased(userModules, n)
    ensures r.Navigate? ==> r.route == FirstLessonRoute(n)
    ensures r.LockedToast? ==>
      r.releaseDate == var row := FindUserModule(userModules, n); if row.Some? then row.value.releaseDate else None
  {
    var row := FindUserModule(userModules, n);
    if !IsReleased(userModules, n) then LockedToast(if row.Some? then row.value.releaseDate else None)
    else Navigate(FirstLessonRoute(n))
  }

  /** The card's click AS WRITTEN: the dashboard renders each card with only
      its `module` prop, and the handler travels inside the module object,
      where the card never looks; the card's `onClick?.()` finds no prop. */
  function DashboardCardClick(userModules: seq<UserModule>, n: int): Option<ClickResult>
  {
    ModuleCard.ButtonClick<ClickResult>(None)
  }

  /** So clicking a released module's button does nothing at all. */
  lemma DashboardCardClickIsInert(userModules: seq<UserModule>, n: int)
    ensures DashboardCardClick(userModules, n) == None
    ensures IsReleased(userModules, n) ==> HandleModuleClick(userModules, n).Navigate?
  {
  }

  /** The card's click as intended: the handler passed as the card's
      `onClick` prop. */
  function WiredCardClick(userModules: seq<UserModule>, n: int): Option<ClickResult>
  {
    ModuleCard.ButtonClick(Some(HandleModuleClick(userModules, n)))
  }

  /** Wired up, a click always reaches the release gate: it opens the first
      lesson exactly for released modules. */
  lemma WiredCardClickGates(userModules: seq<UserModule>, n: int)
    ensures WiredCardClick(userModules, n).Some?
    ensures WiredCardClick(userModules, n).value.Navigate? <==> IsReleased(userModules, n)
    ensures WiredCardClick(userModules, n).value.Navigate? ==>
      WiredCardClick(userModules, n).value.route == FirstLessonRoute(n)
  {
  }

  /** The badges the cards show, after the per-module overrides. */
  lemma DashboardBadges()
    ensures ModuleCard.BadgeConfig(ModuleCard.BadgeOverride(1, Some(ModulesData[0].badge))).value.kind == ModuleCard.MostViewed
    ensures ModuleCard.BadgeConfig(ModuleCard.BadgeOverride(2, Some(ModulesData[1].badge))).value.kind == ModuleCard.Recommended
    ensures ModuleCard.BadgeConfig(ModuleCard.BadgeOverride(3, Some(ModulesData[2].badge))).value.kind == ModuleCard.New
    ensures ModuleCard.BadgeConfig(ModuleCard.BadgeOverride(4, Some(ModulesData[3].badge))).value.kind == ModuleCard.Popular
    ensures ModuleCard.BadgeConfig(ModuleCard.BadgeOverride(5, Some(ModulesData[4].badge))).value.kind == ModuleCard.MostViewed
    ensures ModuleCard.BadgeConfig(ModuleCard.BadgeOverride(6, Some(ModulesData[5].badge))).value.kind == ModuleCard.Recommended
    ensures ModuleCard.BadgeConfig(ModuleCard.BadgeOverride(7, Some(ModulesData[6].badge))).value.kind == ModuleCard.New
  {
    assert ModuleCard.Upper("NOVO") == "NOVO";
    assert ModuleCard.Upper("POPULAR") == "POPULAR";
  }

  datatype UserStats = UserStats(globalProgress: int, achievements: int, streak: int)

  /** The user's statistics row (`user_stats`). */
  datatype StatsRow = StatsRow(lessonsCompleted: nat, currentStreakDays: Option<int>)

  /** The strip before any statistics arrive. */
  const DefaultStats := UserStats(0, 0, 1)

  /** The strip from the statistics row: with no row it keeps its defaults;
      otherwise the global progress is Math.round(completed / 39 * 100), the
      achievements are the completed lessons and the streak is
      `current_streak_days || 1`. */
  function StatsFrom(row: Option<StatsRow>): (s: UserStats)
    ensures row.None? ==> s == DefaultStats
    ensures row.Some? ==> s.achievements == row.value.lessonsCompleted
    ensures row.Some? ==>
              Lessons.GetTotalLessons(None) == 39 &&
              IsRoundedPercent(s.globalProgress, row.value.lessonsCompleted, Lessons.GetTotalLessons(None))
    ensures row.Some? ==> s.streak == if row.value.currentStreakDays.Some? && row.value.currentStreakDays.value != 0
                                      then row.value.currentStreakDays.value else 1
    ensures s.streak != 0
  {
    if row.None? then DefaultStats
    else
      var t := Lessons.GetTotalLessons(None);
      Lessons.CatalogSize();
      PercentIsRounded(row.value.lessonsCompleted, t);
      UserStats(RoundRatio(100 * row.value.lessonsCompleted, t), row.value.lessonsCompleted,
                OrInt(row.value.currentStreakDays, Some(1)).value)
  }

  /** Within the course the global progress reads 0..100, and 100 exactly
      when all 39 lessons are done; a count above 39 is not capped. */
  lemma GlobalProgressRange(row: StatsRow)
    ensures row.lessonsCompleted <= 39 ==> 0 <= StatsFrom(Some(row)).globalProgress <= 100
    ensures row.lessonsCompleted <= 39 ==> (StatsFrom(Some(row)).globalProgress == 100 <==> row.lessonsCompleted == 39)
    ensures StatsFrom(Some(StatsRow(40, None))).globalProgress == 103
  {
    Lessons.CatalogSize();
    if row.lessonsCompleted <= 39 {
      RoundPercent(row.lessonsCompleted, 39);
    }
  }
}
