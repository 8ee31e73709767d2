/** The stand-alone lesson player page: the lesson named by the route's
    two parameters is looked up in the catalog (an unknown one sends the
    user to the dashboard), the player's progress is shown as reported,
    and a "next lesson" button leads to the catalog successor. */
module Lesson {
  import opened Common
  import Lessons

  /** `parseInt(param || '0', 10)`: a missing or empty parameter reads as 0;
      None stands for NaN. */
  function ParamNumber(param: Option<string>): (r: Option<int>)
    ensures param.None? || param.value == [] ==> r == Some(0)
  {
    ParseIntPrinted(0, []);
    assert IntToString(0) + [] == "0";
    ParseInt(OrString(param, Some("0")).value)
  }

  /** getLessonData on the parsed parameters; NaN matches no catalog key. */
  function Lookup(moduleId: Option<string>, lessonId: Option<string>): (r: Option<Lessons.LessonData>)
    ensures r.Some? ==> r.value in Lessons.LessonsData
    ensures r.Some? <==> ParamNumber(moduleId).Some? && ParamNumber(lessonId).Some? &&
                         Lessons.ValidKey(ParamNumber(moduleId).value, ParamNumber(lessonId).value)
    ensures r.Some? ==> r.value.moduleNumber == ParamNumber(moduleId).value &&
                        r.value.lessonNumber == ParamNumber(lessonId).value
  {
    var m := ParamNumber(moduleId);
    var l := ParamNumber(lessonId);
    if m.Some? && l.Some? then Lessons.GetLessonData(m.value, l.value) else None
  }

  /** A route with a parameter missing never finds a lesson: it reads as
      0, and no module or lesson is numbered 0. */
  lemma MissingParamNotFound(moduleId: Option<string>, lessonId: Option<string>)
    requires moduleId.None? || lessonId.None?
    ensures Lookup(moduleId, lessonId).None?
  {
  }

  /** A printed number read back from the route is that number. */
  lemma ParamPrinted(n: int)
    ensures ParamNumber(Some(IntToString(n))) == Some(n)
  {
    ParseIntPrinted(n, []);
    assert IntToString(n) + [] == IntToString(n);
  }

  /** Printing a catalog key into the route and reading it back finds that
      very lesson. */
  lemma LookupPrinted(e: Lessons.LessonData)
    requires e in Lessons.LessonsData
    ensures Lookup(Some(IntToString(e.moduleNumber)), Some(IntToString(e.lessonNumber))) == Some(e)
  {
    ParamPrinted(e.moduleNumber);
    ParamPrinted(e.lessonNumber);
    var i :| 0 <= i < |Lessons.LessonsData| && Lessons.LessonsData[i] == e;
    var r := Lessons.GetLessonData(e.moduleNumber, e.lessonNumber);
    assert Lessons.HasKey(Lessons.LessonsData[i], e.moduleNumber, e.lessonNumber);
    assert r == Some(e);
  }

  /** The route of a lesson page, `/modulo/:moduleId/aula/:lessonId`, by its
      two parameters. */
  datatype Route = LessonRoute(moduleId: string, lessonId: string)

  /** The route the "next lesson" button navigates to. */
  function RouteTo(e: Lessons.LessonData): Route
  {
    LessonRoute(IntToString(e.moduleNumber), IntToString(e.lessonNumber))
  }

  /** What the page renders: a spinner until a lesson is set, otherwise the
      player for its video, the reported progress and, when there is a next
      lesson, the button's route. */
  datatype Screen =
    | Spinner
    | Player(videoId: string, progress: int, next: Option<Route>)

  class LessonView {
    var lesson: Option<Lessons.LessonData>
    var progress: int

    /** A lesson on screen is always one of the catalog's. */
    predicate Valid()
      reads this
    {
      lesson.Some? ==> lesson.value in Lessons.LessonsData
    }

    /** `useState(null)` and `useState(0)`. */
    constructor()
      ensures Valid()
      ensures lesson == None && progress == 0
    {
      lesson := None;
      progress := 0;
    }

    /** The effect on the route parameters: a lesson that is not found
        redirects to the dashboard and leaves the state alone; a found one
        is shown. */
    method Load(moduleId: Option<string>, lessonId: Option<string>) returns (redirect: Option<string>)
      requires Valid()
      modifies this
      ensures Valid()
      ensures Lookup(moduleId, lessonId).None? ==> redirect == Some("/dashboard") && lesson == old(lesson)
      ensures Lookup(moduleId, lessonId).Some? ==> redirect == None && lesson == Lookup(moduleId, lessonId)
      ensures progress == old(progress)
    {
      var data := Lookup(moduleId, lessonId);
      if data.None? {
        redirect := Some("/dashboard");
        return;
      }
      redirect := None;
      lesson := data;
    }

    /** handleProgress: the player's last report is what the bar shows. */
    method HandleProgress(percentage: int)
      modifies this
      ensures progress == percentage
      ensures lesson == old(lesson)
    {
      progress := percentage;
    }

    /** The rendered page: a spinner exactly while no lesson is set; the
        player plays the lesson's video; the next button shows for every
        lesson but the catalog's last, and its route reads back as the
        catalog successor. */
    function View(): (s: Screen)
      requires Valid()
      reads this
      ensures s.Spinner? <==> lesson.None?
      ensures s.Player? ==> s.videoId == lesson.value.videoId && s.progress == progress
      ensures s.Player? ==> (s.next.None? <==> lesson.value == Lessons.LessonsData[|Lessons.LessonsData| - 1])
      ensures s.Player? && s.next.Some? ==>
        Lookup(Some(s.next.value.moduleId), Some(s.next.value.lessonId)) ==
          Lessons.GetNextLesson(lesson.value.moduleNumber, lesson.value.lessonNumber)
    {
      if lesson.None? then Spinner
      else
        var e := lesson.value;
        var next := Lessons.GetNextLesson(e.moduleNumber, e.lessonNumber);
        NextButton(e);
        Player(e.videoId, progress, if next.Some? then Some(RouteTo(next.value)) else None)
    }
  }

  /** The next button of a catalog lesson exists unless it is the last one,
      and leads back into the catalog. */
  lemma NextButton(e: Lessons.LessonData)
    requires e in Lessons.LessonsData
    ensures Lessons.GetNextLesson(e.moduleNumber, e.lessonNumber).None? <==>
      e == Lessons.LessonsData[|Lessons.LessonsData| - 1]
    ensures Lessons.GetNextLesson(e.moduleNumber, e.lessonNumber).Some? ==>
      var n := Lessons.GetNextLesson(e.moduleNumber, e.lessonNumber).value;
      Lookup(Some(RouteTo(n).moduleId), Some(RouteTo(n).lessonId)) == Some(n)
  {
    Lessons.CatalogShape();
    var i :| 0 <= i < |Lessons.LessonsData| && Lessons.LessonsData[i] == e;
    assert Lessons.HasKey(Lessons.LessonsData[i], e.moduleNumber, e.lessonNumber);
    if i < |Lessons.LessonsData| - 1 {
      var n := Lessons.LessonsData[i + 1];
      assert Lessons.GetNextLesson(e.moduleNumber, e.lessonNumber) == Some(n);
      LookupPrinted(n);
      assert !Lessons.HasKey(Lessons.LessonsData[|Lessons.LessonsData| - 1], e.moduleNumber, e.lessonNumber);
    } else {
      forall j | 0 <= j < |Lessons.LessonsData| - 1 && Lessons.HasKey(Lessons.LessonsData[j], e.moduleNumber, e.lessonNumber)
        ensures false
      {
      }
    }
  }
}
