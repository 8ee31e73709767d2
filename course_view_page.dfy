/** The overview page of one course: the access checks run on load, the
    modules with their lessons and the user's progress merged in, the
    course-wide completion percentage and each module's completion. Query
    results are inputs. */
module CourseViewPage {
  import opened Common

  datatype ModuleRow = ModuleRow(id: string, moduleNumber: int)
  datatype LessonRow = LessonRow(id: string, lessonNumber: int)

  /** The user's progress row for one lesson; its columns may be null. */
  datatype ProgressRow = ProgressRow(isCompleted: Option<bool>, watchPercentage: Option<int>)

  datatype CourseLesson = CourseLesson(id: string, lessonNumber: int, isCompleted: bool, watchPercentage: int)
  datatype CourseModule = CourseModule(id: string, moduleNumber: int, lessons: seq<CourseLesson>)

  /** A lesson with its progress merged in: `is_completed || false` and
      `watch_percentage || 0`. */
  function WithProgress(row: LessonRow, progress: Option<ProgressRow>): (l: CourseLesson)
    ensures l.id == row.id && l.lessonNumber == row.lessonNumber
    ensures l.isCompleted <==> progress.Some? && progress.value.isCompleted == Some(true)
    ensures l.watchPercentage ==
      if progress.Some? && progress.value.watchPercentage.Some? then progress.value.watchPercentage.value else 0
  {
    var done := progress.Some? && progress.value.isCompleted == Some(true);
    var watch := if progress.Some? then OrInt(progress.value.watchPercentage, Some(0)).value else 0;
    CourseLesson(row.id, row.lessonNumber, done, watch)
  }

  /** A lesson nobody has watched yet counts as not completed, at 0%, and
      shows no "% assistido" badge. */
  lemma NoProgressDefaults(row: LessonRow)
    ensures var l := WithProgress(row, None);
      !l.isCompleted && l.watchPercentage == 0 && !ShowsWatchedBadge(l)
  {
  }

  /** One module's lessons, each paired with its progress query result;
      a null lesson list counts as empty (`lessonsData || []`). */
  function MergeLessons(lessons: Option<seq<(LessonRow, Option<ProgressRow>)>>): (r: seq<CourseLesson>)
    ensures lessons.None? ==> r == []
    ensures lessons.Some? ==> |r| == |lessons.value|
    ensures lessons.Some? ==>
      forall k :: 0 <= k < |r| ==> r[k] == WithProgress(lessons.value[k].0, lessons.value[k].1)
  {
    if lessons.None? then []
    else seq(|lessons.value|, k requires 0 <= k < |lessons.value| => WithProgress(lessons.value[k].0, lessons.value[k].1))
  }

  /** The modules as the page keeps them: the module query result in order
      (`modulesData || []`), each with its merged lessons. */
  function AssembleModules(rows: Option<seq<ModuleRow>>,
                           lessonsOf: seq<Option<seq<(LessonRow, Option<ProgressRow>)>>>): (r: seq<CourseModule>)
    requires |lessonsOf| == if rows.None? then 0 else |rows.value|
    ensures rows.None? ==> r == []
    ensures rows.Some? ==> |r| == |rows.value| && forall i :: 0 <= i < |r| ==>
      r[i] == CourseModule(rows.value[i].id, rows.value[i].moduleNumber, MergeLessons(lessonsOf[i]))
  {
    if rows.None? then []
    else
      seq(|rows.value|, i requires 0 <= i < |rows.value| =>
        CourseModule(rows.value[i].id, rows.value[i].moduleNumber, MergeLessons(lessonsOf[i])))
  }

  /** The number of completed lessons in a list (`filter(is_completed).length`). */
  function CompletedCount(lessons: seq<CourseLesson>): (n: nat)
    ensures n <= |lessons|
    ensures n == |lessons| <==> forall k :: 0 <= k < |lessons| ==> lessons[k].isCompleted
    ensures n == 0 <==> forall k :: 0 <= k < |lessons| ==> !lessons[k].isCompleted
  {
    if lessons == [] then 0
    else
      var rest := CompletedCount(lessons[1..]);
      assert forall k :: 1 <= k < |lessons| ==> lessons[k] == lessons[1..][k - 1];
      (if lessons[0].isCompleted then 1 else 0) + rest
  }

  /** The number of lessons over all modules (the first reduce). */
  function TotalLessons(modules: seq<CourseModule>): nat
  {
    if modules == [] then 0 else |modules[0].lessons| + TotalLessons(modules[1..])
  }

  /** The completed lessons over all modules (the second reduce); never
      more than there are lessons, and all of them exactly when every
      lesson of every module is completed. */
  function CompletedLessons(modules: seq<CourseModule>): (c: nat)
    ensures c <= TotalLessons(modules)
    ensures c == TotalLessons(modules) <==>
      forall i, k :: 0 <= i < |modules| && 0 <= k < |modules[i].lessons| ==> modules[i].lessons[k].isCompleted
  {
    if modules == [] then 0
    else
      var rest := CompletedLessons(modules[1..]);
      assert forall i :: 1 <= i < |modules| ==> modules[i] == modules[1..][i - 1];
      CompletedCount(modules[0].lessons) + rest
  }

  /** The course-wide percentage: Math.round(completed / total * 100), or 0
      for a course without lessons. It never leaves 0..100 and reads 100
      once every lesson is completed. */
  function OverallProgress(modules: seq<CourseModule>): (p: nat)
    ensures p <= 100
    ensures TotalLessons(modules) == 0 ==> p == 0
    ensures TotalLessons(modules) > 0 ==> IsRoundedPercent(p, CompletedLessons(modules), TotalLessons(modules))
    ensures CompletedLessons(modules) == TotalLessons(modules) && TotalLessons(modules) > 0 ==> p == 100
    ensures CompletedLessons(modules) == 0 ==> p == 0
  {
    var t := TotalLessons(modules);
    var c := CompletedLessons(modules);
    if t > 0 then
      OverallBounds(c, t);
      PercentIsRounded(c, t);
      RoundRatio(100 * c, t)
    else 0
  }

  /** The rounding bounds that hold however many lessons there are. */
  lemma OverallBounds(c: nat, t: nat)
    requires 0 < t && c <= t
    ensures RoundRatio(100 * c, t) <= 100
    ensures c == t ==> RoundRatio(100 * c, t) == 100
    ensures c == 0 ==> RoundRatio(100 * c, t) == 0
  {
    var r := RoundRatio(100 * c, t);
    var x := 2 * r * t;
    assert 2 * (r + 1) * t == x + 2 * t;
    assert x < 202 * t;
    MulStrictlyOrdered(2 * r, 202, t);
    if c == t {
      assert (2 * r + 2) * t == x + 2 * t;
      MulStrictlyOrdered(201, 2 * r + 2, t);
    }
    if c == 0 {
      MulStrictlyOrdered(2 * r, 2, t);
    }
  }

  /** With fewer than 200 lessons the course reads 100% only when every
      lesson is completed (from 200 lessons on, one missing lesson already
      rounds up to 100). */
  lemma OverallFullIffAllCompleted(modules: seq<CourseModule>)
    requires 0 < TotalLessons(modules) < 200
    ensures OverallProgress(modules) == 100 <==> CompletedLessons(modules) == TotalLessons(modules)
  {
    RoundPercent(CompletedLessons(modules), TotalLessons(modules));
  }

  /** One module's progress bar: completed / lessons * 100 as an exact
      ratio, 0 for a module without lessons. */
  function ModuleProgress(mod: CourseModule): (p: real)
    ensures 0.0 <= p <= 100.0
    ensures |mod.lessons| > 0 ==> IsPercentage(p, CompletedCount(mod.lessons), |mod.lessons|)
    ensures p == 100.0 <==> |mod.lessons| > 0 && CompletedCount(mod.lessons) == |mod.lessons|
  {
    var n := |mod.lessons|;
    if n > 0 then Percentage(CompletedCount(mod.lessons), n) else 0.0
  }

  datatype BadgeVariant = Default | Secondary

  /** The "k/n Concluídas" badge is highlighted when the module reads 100%,
      that is exactly for a non-empty module whose lessons are all
      completed; an empty module reads 0% and is not. */
  function ModuleBadge(mod: CourseModule): (b: BadgeVariant)
    ensures b == Default <==>
      |mod.lessons| > 0 && forall k :: 0 <= k < |mod.lessons| ==> mod.lessons[k].isCompleted
  {
    if ModuleProgress(mod) == 100.0 then Default else Secondary
  }

  /** The "% assistido" badge of a lesson. */
  predicate ShowsWatchedBadge(lesson: CourseLesson)
    ensures lesson.isCompleted ==> !ShowsWatchedBadge(lesson)
    ensures lesson.watchPercentage <= 0 ==> !ShowsWatchedBadge(lesson)
  {
    lesson.watchPercentage > 0 && !lesson.isCompleted
  }

  /** A completed lesson never shows the badge; an incomplete one shows it
      exactly when part of it was watched. */
  lemma WatchedBadgeCases(row: LessonRow, progress: Option<ProgressRow>)
    ensures var l := WithProgress(row, progress);
      ShowsWatchedBadge(l) <==>
        progress.Some? && progress.value.isCompleted != Some(true) &&
        progress.value.watchPercentage.Some? && progress.value.watchPercentage.value > 0
  {
  }

  datatype LoadOutcome =
    | RedirectLogin
    | RedirectCourses
    /** The module query failed: the error is thrown and caught after the
        product is set, so the modules and the progress keep their earlier
        values (none and 0% on a first load). */
    | ModulesFailed
    | Loaded(modules: seq<CourseModule>, overallProgress: nat)

  /** loadCourseData: user, then product (an error or no row), then active
      access; the first failure redirects before any module is read. */
  function LoadCourse(user: Option<string>, productError: bool, product: Option<string>, activeAccess: bool,
                      modulesError: bool, rows: Option<seq<ModuleRow>>,
                      lessonsOf: seq<Option<seq<(LessonRow, Option<ProgressRow>)>>>): (r: LoadOutcome)
    requires |lessonsOf| == if rows.None? then 0 else |rows.value|
    ensures r == RedirectLogin <==> user.None?
    ensures r == RedirectCourses <==> user.Some? && (productError || product.None? || !activeAccess)
    ensures r == ModulesFailed <==> user.Some? && !productError && product.Some? && activeAccess && modulesError
    ensures r.Loaded? <==> user.Some? && !productError && product.Some? && activeAccess && !modulesError
    ensures r.Loaded? ==> r.modules == AssembleModules(rows, lessonsOf)
    ensures r.Loaded? ==> r.overallProgress == OverallProgress(r.modules) && r.overallProgress <= 100
  {
    if user.None? then RedirectLogin
    else if productError || product.None? then RedirectCourses
    else if !activeAccess then RedirectCourses
    else if modulesError then ModulesFailed
    else
      var modules := AssembleModules(rows, lessonsOf);
      Loaded(modules, OverallProgress(modules))
  }
}
