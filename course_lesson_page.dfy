/** The lesson page of a purchased course: the ordered access checks run
    when it loads, the flat navigation list behind "Aula Anterior" and
    "Próxima Aula", and the periodic progress sample written to the
    user's lesson-progress table. Query results and the player's readings
    are inputs; the page's state is a class. */
module CourseLessonPage {
  import opened Common
  import Lessons

  /** (module number, lesson number). */
  type Key = (int, int)

  /** The row of `course_lessons` that the page loads. */
  datatype LessonRow = LessonRow(id: string, lessonNumber: int, videoId: string)

  /** The user's `user_lesson_progress` row as read; its columns may be null. */
  datatype ProgressRow = ProgressRow(watchPercentage: Option<int>, isCompleted: Option<bool>)

  /** The lesson as the page holds it, with progress merged in. */
  datatype LessonState = LessonState(id: string, lessonNumber: int, videoId: string,
                                     watchPercentage: int, isCompleted: bool)

  datatype LoadOutcome =
    | RedirectLogin
    | RedirectCourses
    | RedirectCourse(slug: string)
    | Loaded(lesson: LessonState)

  /** The number a route parameter asks for: `parseInt(param || '1')`. */
  function RouteNumber(param: Option<string>): (r: Option<int>)
    ensures param.None? || param.value == [] ==> r == ParseInt("1")
    ensures param.Some? && param.value != [] ==> r == ParseInt(param.value)
  {
    ParseInt(OrString(param, Some("1")).value)
  }

  /** A missing parameter means 1; a printed number reads back as itself. */
  lemma RouteNumberReadsBack(n: int)
    ensures RouteNumber(None) == Some(1)
    ensures RouteNumber(Some([])) == Some(1)
    ensures RouteNumber(Some(IntToString(n))) == Some(n)
  {
    ParseIntPrinted(1, []);
    assert IntToString(1) + [] == "1";
    ParseIntPrinted(n, []);
    assert IntToString(n) + [] == IntToString(n);
    assert OrString(Some(IntToString(n)), Some("1")) == Some(IntToString(n));
  }

  /** The lesson with its progress merged in: `watch_percentage || 0` and
      `is_completed || false`. */
  function WithProgress(row: LessonRow, progress: Option<ProgressRow>): (s: LessonState)
    ensures s.id == row.id && s.lessonNumber == row.lessonNumber && s.videoId == row.videoId
    ensures progress.None? ==> s.watchPercentage == 0 && !s.isCompleted
    ensures s.watchPercentage ==
      if progress.Some? && progress.value.watchPercentage.Some? then progress.value.watchPercentage.value else 0
    ensures s.isCompleted <==> progress.Some? && progress.value.isCompleted == Some(true)
  {
    var watch := if progress.Some? then OrInt(progress.value.watchPercentage, Some(0)).value else 0;
    var done := progress.Some? && progress.value.isCompleted == Some(true);
    LessonState(row.id, row.lessonNumber, row.videoId, watch, done)
  }

  /** loadLessonData: the checks run in order and the first failure decides
      the redirect. `user`, `product`, `module` and `lesson` are the query
      results (null as None), `activeAccess` whether an active access row
      for the product exists. */
  function LoadLesson(slug: string, user: Option<string>, product: Option<string>, activeAccess: bool,
                      moduleRow: Option<string>, lesson: Option<LessonRow>,
                      progress: Option<ProgressRow>): (r: LoadOutcome)
    ensures r == RedirectLogin <==> user.None?
    ensures r == RedirectCourses <==> user.Some? && (product.None? || !activeAccess)
    ensures r.RedirectCourse? <==> user.Some? && product.Some? && activeAccess && (moduleRow.None? || lesson.None?)
    ensures r.RedirectCourse? ==> r.slug == slug
    ensures r.Loaded? <==> user.Some? && product.Some? && activeAccess && moduleRow.Some? && lesson.Some?
    ensures r.Loaded? ==> r.lesson == WithProgress(lesson.value, progress)
  {
    if user.None? then RedirectLogin
    else if product.None? then RedirectCourses
    else if !activeAccess then RedirectCourses
    else if moduleRow.None? then RedirectCourse(slug)
    else if lesson.None? then RedirectCourse(slug)
    else Loaded(WithProgress(lesson.value, progress))
  }

  // ---------------------------------------------------------------
  // The navigation list
  // ---------------------------------------------------------------

  /** A module of the course as the navigation query returns it. */
  datatype ModuleRef = ModuleRef(id: string, moduleNumber: int)

  datatype NavEntry = NavEntry(moduleNumber: int, lessonNumber: int, moduleId: string)

  /** The entries pushed for one module: one per lesson number returned,
      none when the lesson query gave null. */
  function Entries(mod: ModuleRef, lessons: Option<seq<int>>): (r: seq<NavEntry>)
    ensures lessons.None? ==> r == []
    ensures lessons.Some? ==> |r| == |lessons.value|
    ensures lessons.Some? ==> forall k :: 0 <= k < |r| ==> r[k] == NavEntry(mod.moduleNumber, lessons.value[k], mod.id)
  {
    if lessons.None? then []
    else seq(|lessons.value|, k requires 0 <= k < |lessons.value| => NavEntry(mod.moduleNumber, lessons.value[k], mod.id))
  }

  /** The flat list of every lesson: the modules in the order given, and
      within each module its lessons in the order given. */
  function NavList(modules: seq<ModuleRef>, lessonsOf: seq<Option<seq<int>>>): seq<NavEntry>
    requires |modules| == |lessonsOf|
  {
    if modules == [] then []
    else Entries(modules[0], lessonsOf[0]) + NavList(modules[1..], lessonsOf[1..])
  }

  lemma {:induction false} NavListAppend(m1: seq<ModuleRef>, l1: seq<Option<seq<int>>>,
                                         m2: seq<ModuleRef>, l2: seq<Option<seq<int>>>)
    requires |m1| == |l1| && |m2| == |l2|
    ensures NavList(m1 + m2, l1 + l2) == NavList(m1, l1) + NavList(m2, l2)
  {
    if m1 == [] {
      assert m1 + m2 == m2 && l1 + l2 == l2;
    } else {
      assert (m1 + m2)[1..] == m1[1..] + m2;
      assert (l1 + l2)[1..] == l1[1..] + l2;
      NavListAppend(m1[1..], l1[1..], m2, l2);
    }
  }

  lemma NavListSnoc(modules: seq<ModuleRef>, lessonsOf: seq<Option<seq<int>>>, i: nat)
    requires |modules| == |lessonsOf| && i < |modules|
    ensures NavList(modules[..i + 1], lessonsOf[..i + 1]) ==
      NavList(modules[..i], lessonsOf[..i]) + Entries(modules[i], lessonsOf[i])
  {
    assert modules[..i + 1] == modules[..i] + [modules[i]];
    assert lessonsOf[..i + 1] == lessonsOf[..i] + [lessonsOf[i]];
    NavListAppend(modules[..i], lessonsOf[..i], [modules[i]], [lessonsOf[i]]);
    assert NavList([modules[i]], [lessonsOf[i]]) == Entries(modules[i], lessonsOf[i]) + [];
  }

  /** loadNavigation's nested loops: push every lesson of every module.
      `lessonsOf[i]` is the result of the lesson query for `modules[i]`. */
  method BuildNavigation(modules: seq<ModuleRef>, lessonsOf: seq<Option<seq<int>>>)
    returns (all: seq<NavEntry>)
    requires |modules| == |lessonsOf|
    ensures all == NavList(modules, lessonsOf)
  {
    all := [];
    var i := 0;
    while i < |modules|
      invariant 0 <= i <= |modules|
      invariant all == NavList(modules[..i], lessonsOf[..i])
    {
      var mod := modules[i];
      if lessonsOf[i].Some? {
        var lessons := lessonsOf[i].value;
        var j := 0;
        while j < |lessons|
          invariant 0 <= j <= |lessons|
          invariant all == NavList(modules[..i], lessonsOf[..i]) + Entries(mod, Some(lessons[..j]))
        {
          assert Entries(mod, Some(lessons[..j + 1])) ==
            Entries(mod, Some(lessons[..j])) + [NavEntry(mod.moduleNumber, lessons[j], mod.id)];
          all := all + [NavEntry(mod.moduleNumber, lessons[j], mod.id)];
          j := j + 1;
        }
        assert lessons[..j] == lessons;
      }
      NavListSnoc(modules, lessonsOf, i);
      i := i + 1;
    }
    assert modules[..i] == modules && lessonsOf[..i] == lessonsOf;
  }

  /** The (module, lesson) keys of a list, in order. */
  function Keys<T>(xs: seq<T>, key: T -> Key): (keys: seq<Key>)
    ensures |keys| == |xs|
    ensures forall i :: 0 <= i < |xs| ==> keys[i] == key(xs[i])
  {
    seq(|xs|, i requires 0 <= i < |xs| => key(xs[i]))
  }

  function NavKeys(list: seq<NavEntry>): seq<Key>
  {
    Keys(list, (e: NavEntry) => (e.moduleNumber, e.lessonNumber))
  }

  predicate LexBefore(a: Key, b: Key)
  {
    a.0 < b.0 || (a.0 == b.0 && a.1 < b.1)
  }

  predicate StrictlyOrdered(keys: seq<Key>)
  {
    forall i, j :: 0 <= i < j < |keys| ==> LexBefore(keys[i], keys[j])
  }

  predicate Increasing(xs: seq<int>)
  {
    forall i, j :: 0 <= i < j < |xs| ==> xs[i] < xs[j]
  }

  lemma {:induction false} NavListAbove(modules: seq<ModuleRef>, lessonsOf: seq<Option<seq<int>>>, bound: int)
    requires |modules| == |lessonsOf|
    requires forall j :: 0 <= j < |modules| ==> modules[j].moduleNumber > bound
    ensures forall k :: 0 <= k < |NavList(modules, lessonsOf)| ==> NavList(modules, lessonsOf)[k].moduleNumber > bound
  {
    if modules != [] {
      NavListAbove(modules[1..], lessonsOf[1..], bound);
    }
  }

  /** With modules in increasing number order (`.order('module_number')`)
      and each module's lessons in increasing order (`.order('lesson_number')`),
      the list is strictly ordered by (module, lesson): no key repeats. */
  lemma {:induction false} NavListOrdered(modules: seq<ModuleRef>, lessonsOf: seq<Option<seq<int>>>)
    requires |modules| == |lessonsOf|
    requires forall i, j :: 0 <= i < j < |modules| ==> modules[i].moduleNumber < modules[j].moduleNumber
    requires forall i :: 0 <= i < |lessonsOf| && lessonsOf[i].Some? ==> Increasing(lessonsOf[i].value)
    ensures StrictlyOrdered(NavKeys(NavList(modules, lessonsOf)))
  {
    if modules != [] {
      var head := Entries(modules[0], lessonsOf[0]);
      var tail := NavList(modules[1..], lessonsOf[1..]);
      NavListOrdered(modules[1..], lessonsOf[1..]);
      NavListAbove(modules[1..], lessonsOf[1..], modules[0].moduleNumber);
      var all := head + tail;
      var keys := NavKeys(all);
      forall i, j | 0 <= i < j < |keys| ensures LexBefore(keys[i], keys[j])
      {
        if j < |head| {
          assert lessonsOf[0].Some?;
        } else if i < |head| {
          assert all[j] == tail[j - |head|];
        } else {
          assert all[i] == tail[i - |head|] && all[j] == tail[j - |head|];
          assert NavKeys(tail)[i - |head|] == keys[i];
          assert NavKeys(tail)[j - |head|] == keys[j];
        }
      }
    }
  }

  // ---------------------------------------------------------------
  // Previous and next
  // ---------------------------------------------------------------

  /** findIndex over the keys of the list, or -1. */
  function KeyIndex(keys: seq<Key>, k: Key): (i: int)
    ensures -1 <= i < |keys|
    ensures 0 <= i ==> keys[i] == k && forall j :: 0 <= j < i ==> keys[j] != k
    ensures i == -1 <==> k !in keys
  {
    if keys == [] then -1
    else if keys[0] == k then 0
    else
      var j := KeyIndex(keys[1..], k);
      if j == -1 then -1 else j + 1
  }

  datatype Neighbours = Neighbours(previous: Option<Key>, next: Option<Key>)

  /** The page's previous/next after loadNavigation AS WRITTEN: each is set
      only when a neighbour exists, so otherwise the value from before the
      load stays. An unknown key has index -1, whose "next" is the first
      entry of a non-empty list. */
  function NeighboursAfterLoad(before: Neighbours, keys: seq<Key>, current: Key): (n: Neighbours)
    ensures var i := KeyIndex(keys, current);
      (n.previous == if i > 0 then Some(keys[i - 1]) else before.previous) &&
      (n.next == if i < |keys| - 1 then Some(keys[i + 1]) else before.next)
  {
    var i := KeyIndex(keys, current);
    Neighbours(if i > 0 then Some(keys[i - 1]) else before.previous,
               if i < |keys| - 1 then Some(keys[i + 1]) else before.next)
  }

  /** The neighbours as they are evidently intended: computed afresh from the
      list, with nothing left over from an earlier lesson. */
  function FreshNeighbours(keys: seq<Key>, current: Key): (n: Neighbours)
    ensures var i := KeyIndex(keys, current);
      (n.previous.Some? <==> i > 0) && (n.next.Some? <==> i < |keys| - 1)
    ensures current in keys ==> (n.previous.Some? <==> current != keys[0])
    ensures current in keys && current != keys[|keys| - 1] ==> n.next.Some?
  {
    NeighboursAfterLoad(Neighbours(None, None), keys, current)
  }

  /** Moving in place from lesson (1, 2) to lesson (1, 1) keeps the
      "previous" link of the earlier visit, pointing at (1, 1) itself. */
  lemma StaleNeighboursExample()
    ensures var keys := [(1, 1), (1, 2), (1, 3)];
      var atSecond := NeighboursAfterLoad(Neighbours(None, None), keys, (1, 2));
      var atFirst := NeighboursAfterLoad(atSecond, keys, (1, 1));
      atFirst.previous == Some((1, 1)) && FreshNeighbours(keys, (1, 1)).previous == None
  {
    var keys := [(1, 1), (1, 2), (1, 3)];
    assert KeyIndex(keys, (1, 2)) == 1;
    assert KeyIndex(keys, (1, 1)) == 0;
  }

  /** A key the list does not hold gets no "previous", and the first lesson
      of the course as "next". */
  lemma UnknownLessonNextIsFirst(keys: seq<Key>, current: Key)
    requires current !in keys && keys != []
    ensures FreshNeighbours(keys, current) == Neighbours(None, Some(keys[0]))
  {
  }

  function CatalogKeys(c: seq<Lessons.LessonData>): seq<Key>
  {
    Keys(c, (d: Lessons.LessonData) => (d.moduleNumber, d.lessonNumber))
  }

  function OptKey(e: Option<Lessons.LessonData>): Option<Key>
  {
    if e.None? then None else Some((e.value.moduleNumber, e.value.lessonNumber))
  }

  lemma {:induction false} KeyIndexMatchesFindIndex(c: seq<Lessons.LessonData>, m: int, l: int)
    ensures KeyIndex(CatalogKeys(c), (m, l)) == Lessons.FindIndex(c, m, l)
  {
    if c != [] {
      KeyIndexMatchesFindIndex(c[1..], m, l);
      assert CatalogKeys(c)[1..] == CatalogKeys(c[1..]);
    }
  }

  /** The lesson numbers 1..n, as the lesson query returns them for a
      module of n lessons. */
  function OneTo(n: nat): (r: seq<int>)
    ensures |r| == n && forall k :: 0 <= k < n ==> r[k] == k + 1
  {
    seq(n, k requires 0 <= k < n => k + 1)
  }

  /** The course tables mirror the catalog: modules 1..|bs| in order, module
      j holding lessons 1..|bs[j]|. */
  predicate MirrorsBlocks(modules: seq<ModuleRef>, lessonsOf: seq<Option<seq<int>>>,
                          bs: seq<seq<Lessons.LessonData>>, base: int)
  {
    |modules| == |lessonsOf| == |bs| &&
    (forall j :: 0 <= j < |bs| ==> modules[j].moduleNumber == base + j) &&
    (forall j :: 0 <= j < |bs| ==> lessonsOf[j] == Some(OneTo(|bs[j]|)))
  }

  lemma {:induction false} MirroredKeys(modules: seq<ModuleRef>, lessonsOf: seq<Option<seq<int>>>,
                                        bs: seq<seq<Lessons.LessonData>>, base: int)
    requires Lessons.Numbered(bs, base)
    requires MirrorsBlocks(modules, lessonsOf, bs, base)
    ensures NavKeys(NavList(modules, lessonsOf)) == CatalogKeys(Lessons.Flatten(bs))
  {
    if bs != [] {
      Lessons.NumberedTail(bs, base);
      assert MirrorsBlocks(modules[1..], lessonsOf[1..], bs[1..], base + 1);
      MirroredKeys(modules[1..], lessonsOf[1..], bs[1..], base + 1);
      var head := Entries(modules[0], lessonsOf[0]);
      var tail := NavList(modules[1..], lessonsOf[1..]);
      var rest := Lessons.Flatten(bs[1..]);
      assert Lessons.Flatten(bs) == bs[0] + rest;
      assert |head| == |bs[0]|;
      forall i | 0 <= i < |head| + |tail|
        ensures NavKeys(head + tail)[i] == CatalogKeys(bs[0] + rest)[i]
      {
        if i < |head| {
          assert (bs[0] + rest)[i] == bs[0][i];
        } else {
          assert (head + tail)[i] == tail[i - |head|];
          assert (bs[0] + rest)[i] == rest[i - |head|];
          assert NavKeys(tail)[i - |head|] == CatalogKeys(rest)[i - |head|];
        }
      }
    }
  }

  /** When the course tables mirror the catalog, the fresh neighbours of any
      catalog lesson are exactly getPreviousLesson and getNextLesson. */
  lemma CatalogNeighbours(modules: seq<ModuleRef>, lessonsOf: seq<Option<seq<int>>>, m: int, l: int)
    requires MirrorsBlocks(modules, lessonsOf, Lessons.Blocks, 1)
    requires Lessons.ValidKey(m, l)
    ensures FreshNeighbours(NavKeys(NavList(modules, lessonsOf)), (m, l)) ==
      Neighbours(OptKey(Lessons.GetPreviousLesson(m, l)), OptKey(Lessons.GetNextLesson(m, l)))
  {
    Lessons.CatalogLayout();
    MirroredKeys(modules, lessonsOf, Lessons.Blocks, 1);
    Lessons.KeyExists(m, l);
    FreshNeighboursAt(Lessons.LessonsData, m, l);
  }

  /** Over the keys of any lesson list, the fresh neighbours of a listed
      key are the keys of the entries around its first occurrence. */
  lemma FreshNeighboursAt(c: seq<Lessons.LessonData>, m: int, l: int)
    requires Lessons.FindIndex(c, m, l) >= 0
    ensures var i := Lessons.FindIndex(c, m, l);
      FreshNeighbours(CatalogKeys(c), (m, l)) ==
      Neighbours(if i > 0 then OptKey(Some(c[i - 1])) else None,
                 if i < |c| - 1 then OptKey(Some(c[i + 1])) else None)
  {
    KeyIndexMatchesFindIndex(c, m, l);
  }

  // ---------------------------------------------------------------
  // Progress sampling
  // ---------------------------------------------------------------

  /** The share of the video watched, in percent: `currentTime || 0` over
      `duration || 1`, times 100. */
  function WatchedShare(currentTime: real, duration: real): real
  {
    100.0 * currentTime / (if duration == 0.0 then 1.0 else duration)
  }

  /** The sample: the share rounded to the nearest integer (Math.round),
      capped at 100. */
  function SamplePercentage(currentTime: real, duration: real): (p: int)
    ensures p <= 100
    ensures p < 100 ==> p as real <= WatchedShare(currentTime, duration) + 0.5 < p as real + 1.0
    ensures p == 100 <==> WatchedShare(currentTime, duration) >= 99.5
  {
    var r := RoundReal(WatchedShare(currentTime, duration));
    if r < 100 then r else 100
  }

  /** The row a tick upserts. */
  datatype ProgressRecord = ProgressRecord(watchPercentage: int, isCompleted: bool,
                                           lastWatchedAt: int, completedAt: Option<int>)

  function SampleRecord(currentTime: real, duration: real, now: int): (r: ProgressRecord)
    ensures r.watchPercentage == SamplePercentage(currentTime, duration)
    ensures r.isCompleted <==> r.watchPercentage >= 90
    ensures r.completedAt.Some? <==> r.isCompleted
    ensures r.completedAt.Some? ==> r.completedAt.value == now
    ensures r.lastWatchedAt == now
  {
    var p := SamplePercentage(currentTime, duration);
    ProgressRecord(p, p >= 90, now, if p >= 90 then Some(now) else None)
  }

  /** With a known duration, a sample counts as completed exactly when at
      least 89.5% of the video was watched, i.e. 200 t >= 179 d. */
  lemma SampleCompletedIff(currentTime: real, duration: real, now: int)
    requires duration > 0.0
    ensures SampleRecord(currentTime, duration, now).isCompleted <==> 200.0 * currentTime >= 179.0 * duration
  {
    var x := WatchedShare(currentTime, duration);
    var p := SamplePercentage(currentTime, duration);
    assert x == 100.0 * currentTime / duration;
    assert x * duration == 100.0 * currentTime;
    if x >= 89.5 {
      assert 100.0 * currentTime >= 89.5 * duration;
    } else {
      assert 100.0 * currentTime < 89.5 * duration;
    }
    assert p >= 90 <==> x >= 89.5;
  }

  /** A page showing one lesson. `progressTable` stands for the
      `user_lesson_progress` table, keyed by (user id, lesson id). */
  class LessonPage {
    var userId: Option<string>
    var lesson: Option<LessonState>
    var previousLesson: Option<Key>
    var nextLesson: Option<Key>
    var progressTable: map<(string, string), ProgressRecord>

    constructor (table: map<(string, string), ProgressRecord>)
      ensures userId.None? && lesson.None? && previousLesson.None? && nextLesson.None?
      ensures progressTable == table
    {
      userId := None;
      lesson := None;
      previousLesson := None;
      nextLesson := None;
      progressTable := table;
    }

    /** loadLessonData: the user id is remembered as soon as a user is
        known; the lesson is set only when every check passes. */
    method LoadLessonData(slug: string, user: Option<string>, product: Option<string>, activeAccess: bool,
                          moduleRow: Option<string>, lessonRow: Option<LessonRow>, progress: Option<ProgressRow>)
      returns (r: LoadOutcome)
      modifies this
      ensures r == LoadLesson(slug, user, product, activeAccess, moduleRow, lessonRow, progress)
      ensures userId == if user.Some? then user else old(userId)
      ensures lesson == if r.Loaded? then Some(r.lesson) else old(lesson)
      ensures previousLesson == old(previousLesson) && nextLesson == old(nextLesson)
      ensures progressTable == old(progressTable)
    {
      r := LoadLesson(slug, user, product, activeAccess, moduleRow, lessonRow, progress);
      if user.Some? {
        userId := user;
      }
      if r.Loaded? {
        lesson := Some(r.lesson);
      }
    }

    /** loadNavigation as written: nothing happens when the module query
        gave null; otherwise previous/next are set only where a neighbour
        exists. */
    method LoadNavigation(allModules: Option<seq<ModuleRef>>, lessonsOf: seq<Option<seq<int>>>, current: Key)
      modifies this
      requires allModules.Some? ==> |allModules.value| == |lessonsOf|
      ensures allModules.None? ==> previousLesson == old(previousLesson) && nextLesson == old(nextLesson)
      ensures allModules.Some? ==>
        Neighbours(previousLesson, nextLesson) ==
        NeighboursAfterLoad(Neighbours(old(previousLesson), old(nextLesson)),
                            NavKeys(NavList(allModules.value, lessonsOf)), current)
      ensures userId == old(userId) && lesson == old(lesson) && progressTable == old(progressTable)
    {
      if allModules.None? {
        return;
      }
      var all := BuildNavigation(allModules.value, lessonsOf);
      SetNeighbours(NavKeys(all), current);
    }

    /** The end of loadNavigation: find the current lesson in the flat list
        and set each neighbour that exists, leaving the other as it was. */
    method SetNeighbours(keys: seq<Key>, current: Key)
      modifies this
      ensures Neighbours(previousLesson, nextLesson) ==
        NeighboursAfterLoad(Neighbours(old(previousLesson), old(nextLesson)), keys, current)
      ensures userId == old(userId) && lesson == old(lesson) && progressTable == old(progressTable)
    {
      ghost var expected := NeighboursAfterLoad(Neighbours(previousLesson, nextLesson), keys, current);
      var i := KeyIndex(keys, current);
      if i > 0 {
        previousLesson := Some(keys[i - 1]);
      }
      if i < |keys| - 1 {
        nextLesson := Some(keys[i + 1]);
      }
      assert previousLesson == expected.previous && nextLesson == expected.next;
    }

    /** One tick of the progress timer. Without a player, a lesson or a user
        id nothing happens. Otherwise the sample is upserted under (user,
        lesson), replacing whatever the row held, and the page's lesson
        takes the sample; a failed upsert is ignored, so then only the page
        changes. */
    method Tick(playerReady: bool, currentTime: real, duration: real, now: int, upsertFails: bool)
      modifies this
      ensures !playerReady || old(lesson).None? || old(userId).None? ==>
        lesson == old(lesson) && progressTable == old(progressTable)
      ensures playerReady && old(lesson).Some? && old(userId).Some? ==>
        var rec := SampleRecord(currentTime, duration, now);
        lesson == Some(old(lesson).value.(watchPercentage := rec.watchPercentage, isCompleted := rec.isCompleted)) &&
        progressTable == if upsertFails then old(progressTable)
                         else old(progressTable)[(old(userId).value, old(lesson).value.id) := rec]
      ensures userId == old(userId) && previousLesson == old(previousLesson) && nextLesson == old(nextLesson)
    {
      if !playerReady || lesson.None? || userId.None? {
        return;
      }
      var rec := SampleRecord(currentTime, duration, now);
      if !upsertFails {
        progressTable := progressTable[(userId.value, lesson.value.id) := rec];
      }
      lesson := Some(lesson.value.(watchPercentage := rec.watchPercentage, isCompleted := rec.isCompleted));
    }
  }

  /** Each upsert replaces the row: a later, lower sample (the viewer
      seeked back) takes the place of a completed one and clears it. */
  lemma LowerSampleClearsCompletion(table: map<(string, string), ProgressRecord>, key: (string, string),
                                    duration: real, first: real, second: real, t1: int, t2: int)
    requires duration > 0.0
    requires 200.0 * first >= 179.0 * duration && 200.0 * second < 179.0 * duration
    ensures var after := table[key := SampleRecord(first, duration, t1)][key := SampleRecord(second, duration, t2)];
      after[key] == SampleRecord(second, duration, t2) && !after[key].isCompleted && after[key].completedAt.None?
      && SampleRecord(first, duration, t1).isCompleted
  {
    SampleCompletedIff(first, duration, t1);
    SampleCompletedIff(second, duration, t2);
  }
}
