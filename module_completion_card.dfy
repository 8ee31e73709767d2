/** The card for a finished module (no page in this repository renders
    it): nothing until the module
    reads 100%, then the next module (its number, name and first lesson) or,
    after module 7, the way back to the dashboard. */
module ModuleCompletionCard {
  import opened Common
  import Dashboard

  /** The names of the modules that can come next. */
  const ModuleNames: map<int, string> := map[
    2 := "Mapa da Mente Masculina",
    3 := "Gatilhos da Mem\U{00F3}ria Emocional",
    4 := "A Frase de 5 Palavras",
    5 := "Primeiro Contato Estrat\U{00E9}gico",
    6 := "Dom\U{00ED}nio da Conversa",
    7 := "Conquista Duradoura"
  ]

  /** What the card shows: the next module, with the name looked up for it
      (undefined outside the table), or the course-complete ending; and
      where its button leads. */
  datatype CompletionView =
    | NextModule(number: int, name: Option<string>, target: string)
    | CourseComplete(target: string)

  /** The card for `currentModule` at `completedPercentage`. */
  function Render(currentModule: int, completedPercentage: int): (r: Option<CompletionView>)
    ensures r.None? <==> completedPercentage < 100
    ensures r.Some? ==> (r.value.NextModule? <==> currentModule + 1 <= 7)
    ensures r.Some? && r.value.NextModule? ==>
      r.value.number == currentModule + 1 && r.value.target == Dashboard.FirstLessonRoute(currentModule + 1)
    ensures r.Some? && r.value.CourseComplete? ==> r.value.target == "/dashboard"
  {
    if completedPercentage < 100 then None
    else
      var next := currentModule + 1;
      if next <= 7 then
        Some(NextModule(next, if next in ModuleNames then Some(ModuleNames[next]) else None,
                        Dashboard.FirstLessonRoute(next)))
      else Some(CourseComplete("/dashboard"))
  }

  /** For a real module (1..6) the next module always has a name; only a
      number below 1 asks for a missing one. */
  lemma NextModuleNamed(currentModule: int, completedPercentage: int)
    requires completedPercentage >= 100
    ensures 1 <= currentModule <= 6 ==> Render(currentModule, completedPercentage).value.name.Some?
    ensures currentModule <= 0 ==> Render(currentModule, completedPercentage).value.name.None?
    ensures currentModule >= 7 ==> Render(currentModule, completedPercentage).value.CourseComplete?
  {
  }
}
