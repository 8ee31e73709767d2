/** The journey strip component (no page in this repository renders it):
    which module the user is
    "at", how far the progress line reaches, and the icon, date and marker
    drawn for each module. The user's module rows are the input. */
module JourneyMap {
  import opened Common

  /** A row of the user's module table as the strip reads it. */
  datatype JourneyModule = JourneyModule(moduleNumber: int, isReleased: bool, isCompleted: bool, releaseDate: string)

  /** The first module in list order that is open and not yet finished. */
  function CurrentModule(modules: seq<JourneyModule>): (r: int)
    ensures -1 <= r < |modules|
    ensures r >= 0 ==> modules[r].isReleased && !modules[r].isCompleted
    ensures r >= 0 ==> forall j :: 0 <= j < r ==> !(modules[j].isReleased && !modules[j].isCompleted)
    ensures r == -1 <==> forall j :: 0 <= j < |modules| ==> !(modules[j].isReleased && !modules[j].isCompleted)
  {
    if modules == [] then -1
    else if modules[0].isReleased && !modules[0].isCompleted then 0
    else
      var r := CurrentModule(modules[1..]);
      if r == -1 then -1 else r + 1
  }

  /** `currentModule?.module_number || 1`: the number of that module, or 1
      when there is none (or its number is 0). */
  function CurrentModuleNumber(modules: seq<JourneyModule>): (n: int)
    ensures CurrentModule(modules) == -1 ==> n == 1
    ensures CurrentModule(modules) >= 0 && modules[CurrentModule(modules)].moduleNumber != 0 ==>
      n == modules[CurrentModule(modules)].moduleNumber
    ensures n != 0
  {
    var i := CurrentModule(modules);
    if i >= 0 && modules[i].moduleNumber != 0 then modules[i].moduleNumber else 1
  }

  function CompletedCount(modules: seq<JourneyModule>): (c: nat)
    ensures c <= |modules|
  {
    if modules == [] then 0
    else (if modules[0].isCompleted then 1 else 0) + CompletedCount(modules[1..])
  }

  /** The width of the progress line in percent: completed modules over all
      modules. With no modules at all it is 0/0, NaN, modelled as None. */
  function ProgressWidth(modules: seq<JourneyModule>): (w: Option<real>)
    ensures w.None? <==> modules == []
    ensures w.Some? ==> 0.0 <= w.value <= 100.0
    ensures w.Some? ==> IsPercentage(w.value, CompletedCount(modules), |modules|)
    ensures w.Some? ==> (w.value == 100.0 <==> CompletedCount(modules) == |modules|)
    ensures w.Some? ==> (w.value == 0.0 <==> CompletedCount(modules) == 0)
  {
    if modules == [] then None
    else Some(Percentage(CompletedCount(modules), |modules|))
  }

  datatype IconState = Completed | InProgress | Locked

  /** The icon: completed before released before locked. */
  function Icon(m: JourneyModule): (i: IconState)
    ensures i == InProgress <==> m.isReleased && !m.isCompleted
    ensures i == Locked <==> !m.isReleased && !m.isCompleted
  {
    if m.isCompleted then Completed else if m.isReleased then InProgress else Locked
  }

  /** The release date is printed under every module that is not released,
      even one already marked completed. */
  predicate ShowsReleaseDate(m: JourneyModule)
    ensures Icon(m) == Locked ==> ShowsReleaseDate(m)
    ensures Icon(m) == InProgress ==> !ShowsReleaseDate(m)
    ensures Icon(m) == Completed && ShowsReleaseDate(m) <==> m.isCompleted && !m.isReleased
  {
    !m.isReleased
  }

  /** The current module is the first one drawn with the in-progress icon,
      and there is none exactly when no module has that icon. */
  lemma IconMarksCurrent(modules: seq<JourneyModule>)
    ensures CurrentModule(modules) == -1 <==> forall j :: 0 <= j < |modules| ==> Icon(modules[j]) != InProgress
    ensures CurrentModule(modules) >= 0 ==>
      Icon(modules[CurrentModule(modules)]) == InProgress &&
      forall j :: 0 <= j < CurrentModule(modules) ==> Icon(modules[j]) != InProgress
  {
  }

  /** The "você está aqui" marker goes under every module whose number is
      the current module number. */
  predicate ShowsMarker(modules: seq<JourneyModule>, m: JourneyModule)
  {
    m.moduleNumber == CurrentModuleNumber(modules)
  }

  /** When a current module exists, it carries the marker and the
      in-progress icon; with module numbers distinct, no other does. */
  lemma MarkerOnCurrentModule(modules: seq<JourneyModule>)
    requires CurrentModule(modules) >= 0 && modules[CurrentModule(modules)].moduleNumber != 0
    requires forall i, j :: 0 <= i < j < |modules| ==> modules[i].moduleNumber != modules[j].moduleNumber
    ensures var c := CurrentModule(modules);
      ShowsMarker(modules, modules[c]) && Icon(modules[c]) == InProgress &&
      forall j :: 0 <= j < |modules| && j != c ==> !ShowsMarker(modules, modules[j])
  {
  }

  /** Once every module is completed there is no current module, so the
      header falls back to module 1 and the marker to the (completed)
      module numbered 1. */
  lemma AllCompletedFallsBackToOne(modules: seq<JourneyModule>)
    requires forall j :: 0 <= j < |modules| ==> modules[j].isCompleted
    ensures CurrentModuleNumber(modules) == 1
    ensures forall j :: 0 <= j < |modules| ==>
      (ShowsMarker(modules, modules[j]) <==> modules[j].moduleNumber == 1) && Icon(modules[j]) == Completed
  {
  }

  /** The line is full exactly when every module is completed, and empty
      exactly when none is. */
  lemma ProgressWidthEnds(modules: seq<JourneyModule>)
    requires modules != []
    ensures ProgressWidth(modules).value == 100.0 <==> forall j :: 0 <= j < |modules| ==> modules[j].isCompleted
    ensures ProgressWidth(modules).value == 0.0 <==> forall j :: 0 <= j < |modules| ==> !modules[j].isCompleted
  {
    CompletedCountEnds(modules);
  }

  lemma {:induction false} CompletedCountEnds(modules: seq<JourneyModule>)
    ensures CompletedCount(modules) == |modules| <==> forall j :: 0 <= j < |modules| ==> modules[j].isCompleted
    ensures CompletedCount(modules) == 0 <==> forall j :: 0 <= j < |modules| ==> !modules[j].isCompleted
  {
    if modules != [] {
      CompletedCountEnds(modules[1..]);
      assert forall j :: 1 <= j < |modules| ==> modules[j] == modules[1..][j - 1];
    }
  }
}
