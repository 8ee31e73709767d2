# A verified model of the "Código da Reconquista" members' area

The members' area of an online course platform. Buyers of a course get an
account, and a fixed catalog of 39 video lessons in seven modules opens to
them. They work through the lessons one by one, with progress recorded per
lesson and a dashboard that shows which modules are released.

This project models the decision logic of that system and proves what it
promises:

- **Catalog:** the lesson catalog and its lookups (lesson by key, module
  lessons, previous/next, totals, module progress).
- **Pages:**
  - the stand-alone lesson page;
  - the course overview and lesson pages of a purchased course, with their
    ordered access checks, the navigation list and the periodic progress
    sample;
  - the dashboard, with its module table, release gate and statistics;
  - the journey strip and the module cards;
  - the module-completion card;
  - the password-reset page;
  - the subscription page;
  - the course list.
- **Payment webhooks:**
  - the two course webhooks, which find or create the buyer's account and
    grant access;
  - the manual payment processor, which updates the profile, releases
    modules and records a transaction.
- **Push and weekly challenge:** the push-notification key conversion and
  permission state, and the weekly challenge card.

The model has three kinds of parts:

- **Pure functions.** Pure computations become Dafny functions with
  contracts.
- **Classes.** Page and store state that the code updates in place becomes
  a class whose methods state the whole new state.
- **Inputs.** Everything the code gets from outside becomes a parameter:
  database query results, the auth service's answers, the clock, the
  browser's base64 decoder, its permission prompt and the calendar's "add
  one month".

JavaScript semantics that matter to the decisions are written out:

- `||` on strings and numbers, where `""` and `0` are falsy.
- `parseInt`.
- `Math.round`.
- The truncating `%`.
- The `\s` class.
- `Uint8Array`'s eight-bit truncation.

## Model

| member | source | states |
|---|---|---|
| Lessons.CatalogShape | src/data/lessons.ts:10-325 | the catalog has 39 lessons and no (module, lesson) pair occurs twice |
| Lessons.CatalogNumbered | src/data/lessons.ts:10-325 | the catalog is seven consecutive module blocks of 8, 8, 4, 4, 3, 6 and 6 lessons; block j holds module j+1, numbered 1..n in order |
| Lessons.KeyExists | src/data/lessons.ts:10-325 | a (module, lesson) pair occurs in the catalog exactly when the module is 1..7 and the lesson is 1..size of that module |
| Lessons.FindIndex | src/data/lessons.ts:356-358 | findIndex: -1 exactly when no entry has the key, otherwise the first index whose entry has it |
| Lessons.CatalogFindIndex | src/data/lessons.ts:356-358 | in the catalog the index of a valid key is its module's start plus lesson - 1, and -1 for any other key |
| Lessons.GetLessonData | src/data/lessons.ts:331-339 | found exactly when the pair occurs in the catalog; the result is the catalog entry with that pair |
| Lessons.GetModuleLessons | src/data/lessons.ts:341-349 | exactly the catalog entries of the module, in catalog order, numbered 1..n; empty for an unknown module |
| Lessons.GetNextLesson | src/data/lessons.ts:355-365 | present exactly when the key is found before the last entry, and then the entry right after it |
| Lessons.GetPreviousLesson | src/data/lessons.ts:367-377 | present exactly when the key is found after the first entry, and then the entry right before it |
| Lessons.NextLessonByKey | src/data/lessons.ts:355-365 | in key terms, the next lesson of the same module, else lesson 1 of the next module, else nothing after module 7 |
| Lessons.NextWithinModule | src/data/lessons.ts:355-365 | inside a module, next is lesson l+1 of the same module |
| Lessons.NextAcrossModules | src/data/lessons.ts:355-365 | after a module's last lesson comes lesson 1 of the following module |
| Lessons.NextAfterLast | src/data/lessons.ts:355-365 | the last lesson (7, 6) has no next lesson |
| Lessons.PreviousLessonByKey | src/data/lessons.ts:367-377 | in key terms, lesson l-1 of the same module, else the last lesson of the previous module, else nothing before (1, 1) |
| Lessons.PreviousWithinModule | src/data/lessons.ts:367-377 | inside a module, previous is lesson l-1 of the same module |
| Lessons.PreviousAcrossModules | src/data/lessons.ts:367-377 | before lesson 1 of a module comes the last lesson of the module before it |
| Lessons.PreviousBeforeFirst | src/data/lessons.ts:367-377 | the first lesson (1, 1) has no previous lesson |
| Lessons.PreviousUndoesNext | src/data/lessons.ts:355-377 | going to the next lesson and then back returns to the same lesson |
| Lessons.NextUndoesPrevious | src/data/lessons.ts:355-377 | going to the previous lesson and then forward returns to the same lesson |
| Lessons.NavigationEnds | src/data/lessons.ts:355-377 | (1, 1) has no previous lesson, (7, 6) has no next one, and (1, 8) and (2, 1) are neighbours |
| Lessons.GetTotalLessons | src/data/lessons.ts:379-384 | with a truthy module number, the size of that module; absent or 0, the size of the whole catalog |
| Lessons.CatalogSize | src/data/lessons.ts:10-325 | the catalog holds 39 lessons |
| Lessons.ModuleTotal | src/data/lessons.ts:379-384 | getTotalLessons(m) is 8, 8, 4, 4, 3, 6, 6 for modules 1..7 and 0 for a module that does not exist |
| Lessons.TotalLessonsSum | src/data/lessons.ts:379-384 | the course total is 39, the sum of the seven module sizes; 0 counts as no module, and an unknown module has 0 |
| Lessons.CompletedInAll | src/data/lessons.ts:388-390 | the completed count of a module equals its size exactly when every one of its lesson numbers is in the completed list |
| Lessons.CompletedInSameSet | src/data/lessons.ts:388-390 | the completed count depends only on which numbers the list holds, not on their order or repeats |
| Lessons.GetModuleProgress | src/data/lessons.ts:386-393 | Math.round(completed / size * 100), within 0..100; NaN (None) exactly for a module without lessons |
| Lessons.ModuleProgressFullIffAllCompleted | src/data/lessons.ts:386-393 | a catalog module reads 100 exactly when lessons 1..n are all completed, and 0 exactly when none is |
| Common.ParseIntNoDigits | src/pages/Lesson.tsx:17-18 | parseInt is NaN exactly when no digit follows the leading white space and the sign |
| Common.ParseIntPrinted | src/pages/Lesson.tsx:17-18 | parseInt(…, 10) reads a printed integer back as itself, also when non-digit text follows it |
| Common.RoundPercent | src/pages/CourseViewPage.tsx:157-158 | a rounded percentage of c out of n < 200 lies in 0..100, is 100 exactly when c == n and 0 exactly when c == 0 |
| Common.Percentage | src/components/JourneyMap.tsx:26 | c / n · 100 is exactly the share of c in n as a percentage, within 0..100 while c ≤ n, 100 exactly when c == n and 0 exactly when c == 0 |
| Lesson.ParamNumber | src/pages/Lesson.tsx:17-18 | a missing or empty route parameter reads as 0 |
| Lesson.Lookup | src/pages/Lesson.tsx:17-22 | a lesson is found exactly when both parameters parse to a catalog key, and it is the entry with that key |
| Lesson.MissingParamNotFound | src/pages/Lesson.tsx:17-28 | a route with a parameter missing never finds a lesson |
| Lesson.LookupPrinted | src/pages/Lesson.tsx:17-22 | printing a catalog key into the route and reading it back finds that same lesson |
| Lesson.LessonView.constructor | src/pages/Lesson.tsx:13-14 | no lesson and progress 0 at first |
| Lesson.LessonView.Load | src/pages/Lesson.tsx:16-32 | an unknown lesson redirects to /dashboard and leaves the page as it was; a found one becomes the page's lesson; the page only ever holds catalog lessons |
| Lesson.LessonView.HandleProgress | src/pages/Lesson.tsx:34-37 | the reported percentage becomes the shown progress and nothing else changes |
| Lesson.LessonView.View | src/pages/Lesson.tsx:44-52 | a spinner exactly while no lesson is set; the next button is missing only on the catalog's last lesson, and its route reads back as getNextLesson |
| Lesson.NextButton | src/pages/Lesson.tsx:118-126 | every catalog lesson but the last has a next button, whose route leads back to a catalog lesson |
| CourseLessonPage.RouteNumber | src/pages/CourseLessonPage.tsx:124 | a missing or empty parameter reads as "1"; any other is parsed as given |
| CourseLessonPage.RouteNumberReadsBack | src/pages/CourseLessonPage.tsx:124 | parseInt(param \|\| '1') gives 1 for a missing or empty parameter and reads a printed number back |
| CourseLessonPage.WithProgress | src/pages/CourseLessonPage.tsx:154-158 | the lesson keeps its row and takes the progress row's percentage (else 0) and completion (else false) |
| CourseLessonPage.LoadLesson | src/pages/CourseLessonPage.tsx:81-158 | checks in order: no user → /login; no product or no active access → /cursos; no module or lesson → /cursos/slug; otherwise the lesson with its progress |
| CourseLessonPage.Entries | src/pages/CourseLessonPage.tsx:190-204 | one navigation entry per returned lesson of the module, in order; none when the query gave null |
| CourseLessonPage.BuildNavigation | src/pages/CourseLessonPage.tsx:187-205 | the nested loops build exactly the flat list: modules in order, each module's lessons in order |
| CourseLessonPage.NavListAppend | src/pages/CourseLessonPage.tsx:189-205 | the list of two runs of modules is the concatenation of their lists |
| CourseLessonPage.NavListOrdered | src/pages/CourseLessonPage.tsx:179-194 | with modules and lessons ordered by number, the list is strictly ordered by (module, lesson), so no key repeats |
| CourseLessonPage.KeyIndex | src/pages/CourseLessonPage.tsx:208-211 | findIndex: -1 exactly for an absent key, otherwise the first index holding it |
| CourseLessonPage.NeighboursAfterLoad | src/pages/CourseLessonPage.tsx:213-225 | as written: previous/next are set only where a neighbour exists, otherwise the earlier values stay |
| CourseLessonPage.FreshNeighbours | src/pages/CourseLessonPage.tsx:213-225 | corrected: previous exists exactly after the first entry and next exactly before the last |
| CourseLessonPage.StaleNeighboursExample | src/pages/CourseLessonPage.tsx:213-218 | moving from lesson (1, 2) to (1, 1) keeps "previous" pointing at (1, 1) itself |
| CourseLessonPage.UnknownLessonNextIsFirst | src/pages/CourseLessonPage.tsx:208-225 | a key not in the list (index -1) gets the course's first lesson as "next" |
| CourseLessonPage.KeyIndexMatchesFindIndex | src/pages/CourseLessonPage.tsx:208-211 | the page's findIndex over keys agrees with the catalog's findIndex |
| CourseLessonPage.FreshNeighboursAt | src/pages/CourseLessonPage.tsx:208-225 | over any lesson list, the fresh neighbours of a listed key are the keys of the entries around its first occurrence |
| CourseLessonPage.MirroredKeys | src/pages/CourseLessonPage.tsx:187-205 | when the course tables mirror the catalog, the list's keys are the catalog's keys in order |
| CourseLessonPage.CatalogNeighbours | src/pages/CourseLessonPage.tsx:207-225 | with the tables mirroring the catalog, the corrected neighbours are exactly getPreviousLesson and getNextLesson |
| CourseLessonPage.SamplePercentage | src/pages/CourseLessonPage.tsx:271-273 | Math.round of currentTime / (duration \|\| 1) * 100, capped at 100; 100 exactly from 99.5% on |
| CourseLessonPage.SampleRecord | src/pages/CourseLessonPage.tsx:273-287 | the upserted row: completed exactly from 90%, completed_at set exactly when completed, last_watched_at now |
| CourseLessonPage.SampleCompletedIff | src/pages/CourseLessonPage.tsx:271-276 | with a known duration, completed exactly when 200·t ≥ 179·d (at least 89.5% watched) |
| CourseLessonPage.LowerSampleClearsCompletion | src/pages/CourseLessonPage.tsx:279-289 | the upsert replaces the row, so a later lower sample clears an earlier completion |
| CourseLessonPage.LessonPage.constructor | src/pages/CourseLessonPage.tsx:56-65 | nothing loaded, no neighbours |
| CourseLessonPage.LessonPage.LoadLessonData | src/pages/CourseLessonPage.tsx:81-158 | the outcome is LoadLesson's; the user id is remembered as soon as a user exists; the lesson is set only on success |
| CourseLessonPage.LessonPage.LoadNavigation | src/pages/CourseLessonPage.tsx:172-226 | nothing when the module query gave null; otherwise previous/next as NeighboursAfterLoad of the built list |
| CourseLessonPage.LessonPage.SetNeighbours | src/pages/CourseLessonPage.tsx:208-225 | previous/next become NeighboursAfterLoad of the key list; nothing else on the page changes |
| CourseLessonPage.LessonPage.Tick | src/pages/CourseLessonPage.tsx:267-304 | without player, lesson or user nothing changes; otherwise the sample is upserted under (user, lesson) unless the upsert fails, and the page takes it |
| CourseViewPage.WithProgress | src/pages/CourseViewPage.tsx:131-135 | a lesson takes is_completed \|\| false and watch_percentage \|\| 0 from its progress row |
| CourseViewPage.NoProgressDefaults | src/pages/CourseViewPage.tsx:131-135 | an unwatched lesson is incomplete at 0% and shows no "% assistido" badge |
| CourseViewPage.MergeLessons | src/pages/CourseViewPage.tsx:122-137 | one merged lesson per returned lesson, in order; none for a null result |
| CourseViewPage.AssembleModules | src/pages/CourseViewPage.tsx:112-144 | one module per returned module, in order, each with its merged lessons |
| CourseViewPage.CompletedCount | src/pages/CourseViewPage.tsx:154 | at most the lesson count; equal to it exactly when all are completed, 0 exactly when none is |
| CourseViewPage.CompletedLessons | src/pages/CourseViewPage.tsx:149-156 | the completed total never exceeds the lesson total and equals it exactly when every lesson is completed |
| CourseViewPage.OverallProgress | src/pages/CourseViewPage.tsx:149-158 | Math.round(completed / total * 100), 0 without lessons, always 0..100, 100 once all are completed |
| CourseViewPage.OverallBounds | src/pages/CourseViewPage.tsx:157-158 | the rounded percentage stays within 0..100 for any lesson count |
| CourseViewPage.OverallFullIffAllCompleted | src/pages/CourseViewPage.tsx:149-158 | below 200 lessons the course reads 100% exactly when every lesson is completed |
| CourseViewPage.ModuleProgress | src/pages/CourseViewPage.tsx:249-253 | the module bar is exactly completed / lessons · 100 within 0..100, 0 for an empty module, and full exactly when the module has lessons and all are completed |
| CourseViewPage.ModuleBadge | src/pages/CourseViewPage.tsx:269-270 | the "k/n Concluídas" badge is highlighted exactly for a non-empty module with all lessons completed |
| CourseViewPage.ShowsWatchedBadge | src/pages/CourseViewPage.tsx:310-314 | never on a completed lesson, never on one with no watched percentage |
| CourseViewPage.WatchedBadgeCases | src/pages/CourseViewPage.tsx:310-313 | the "% assistido" badge shows exactly for a watched, not completed lesson |
| CourseViewPage.LoadCourse | src/pages/CourseViewPage.tsx:57-164 | no user → /login; product error, no product or no access → /cursos; a module error is caught; otherwise the modules and their overall percentage |
| Dashboard.ModuleTableMatchesCatalog | src/pages/Dashboard.tsx:22-107 | the table lists modules 1..7 in order, and its lesson counts are the catalog's |
| Dashboard.FindUserModule | src/pages/Dashboard.tsx:196 | the first of the user's rows for that module number, or none exactly when no row has it |
| Dashboard.IsReleased | src/pages/Dashboard.tsx:254 | released only when the first row for the module holds an explicit true |
| Dashboard.ReleaseFailsClosed | src/pages/Dashboard.tsx:199 | a module without a row, or whose row does not say true, is locked |
| Dashboard.ModulesWithStatus | src/pages/Dashboard.tsx:248-259 | one entry per table module, in order, with its release flag from the user's rows and its catalog lesson count |
| Dashboard.FirstLessonRouteInjective | src/pages/Dashboard.tsx:212 | different modules lead to different first-lesson routes |
| Dashboard.HandleModuleClick | src/pages/Dashboard.tsx:193-213 | navigates exactly for a released module, to its first lesson; otherwise the release-date toast |
| Dashboard.DashboardCardClickIsInert | src/pages/Dashboard.tsx:401-406 | as written, a card's button does nothing even for a released module |
| Dashboard.WiredCardClickGates | src/pages/Dashboard.tsx:193-213 | with the handler passed to the card, a click navigates exactly for released modules, to the first lesson |
| Dashboard.DashboardBadges | src/pages/Dashboard.tsx:22-107 | after the card's overrides, modules 1..7 show the most-viewed, recommended, new, popular, most-viewed, recommended and new badges |
| Dashboard.StatsFrom | src/pages/Dashboard.tsx:160-188 | no stats row keeps the defaults; otherwise Math.round(completed / 39 · 100), achievements = completed, streak = current_streak_days \|\| 1 |
| Dashboard.GlobalProgressRange | src/pages/Dashboard.tsx:171-179 | within the course the global progress is 0..100 and 100 exactly at 39 lessons; a count of 40 reads 103 |
| ModuleCard.UpperChar | src/components/ModuleCard.tsx:53 | toUpperCase on a character: a-z shifted to A-Z, everything else unchanged |
| ModuleCard.UpperIdempotent | src/components/ModuleCard.tsx:53 | upper-casing twice changes nothing more |
| ModuleCard.BadgeConfig | src/components/ModuleCard.tsx:50-87 | no badge exactly for an absent or empty text; a known badge in any case shows its upper-case text; other text shows unchanged, without an icon |
| ModuleCard.BadgeConfigIgnoresCase | src/components/ModuleCard.tsx:53-86 | a text and its upper-case form get the same badge kind, and a known one the same badge |
| ModuleCard.KnownBadgeTexts | src/components/ModuleCard.tsx:55-79 | a known badge always shows one of the four canonical texts |
| ModuleCard.BadgeOverride | src/components/ModuleCard.tsx:30-43 | modules 1, 2, 5, 6, 7 get a fixed known badge; others keep their own |
| ModuleCard.HasStarted | src/components/ModuleCard.tsx:24 | started exactly when a positive progress is reported |
| ModuleCard.IsCompleted | src/components/ModuleCard.tsx:25 | completed exactly when a progress of 100 or more is reported; a completed module has started |
| ModuleCard.ButtonText | src/components/ModuleCard.tsx:94-98 | "Rever Módulo" from 100, "Continuar Módulo" strictly between 0 and 100, "Começar Módulo" at 0 or below, a missing progress counting as 0 |
| ModuleCard.ButtonIcon | src/components/ModuleCard.tsx:100-104 | the arrow from 100, the play icon strictly between 0 and 100, the play-circle at 0 or below |
| ModuleCard.ShowsOverlay | src/components/ModuleCard.tsx:137 | the progress overlay shows exactly for a reported progress strictly between 0 and 100 |
| ModuleCard.OverlayMatchesButton | src/components/ModuleCard.tsx:137-165 | the progress overlay goes with "Continuar", the completed mark with "Rever", never both |
| ModuleCard.ButtonClick | src/components/ModuleCard.tsx:201-205 | the click runs the passed handler when there is one and does nothing otherwise |
| JourneyMap.CurrentModule | src/components/JourneyMap.tsx:11 | the first module that is released and not completed, or none exactly when no such module exists |
| JourneyMap.CurrentModuleNumber | src/components/JourneyMap.tsx:12 | that module's number, else 1 |
| JourneyMap.ProgressWidth | src/components/JourneyMap.tsx:26 | completed / all · 100, within 0..100, full exactly when all modules are completed and empty exactly when none is; NaN (None) exactly without modules |
| JourneyMap.ProgressWidthEnds | src/components/JourneyMap.tsx:26 | the line is full exactly when all modules are completed, empty exactly when none is |
| JourneyMap.Icon | src/components/JourneyMap.tsx:41-55 | the book (in-progress) icon exactly for a released, uncompleted module; the lock exactly for an unreleased, uncompleted one |
| JourneyMap.IconMarksCurrent | src/components/JourneyMap.tsx:11-55 | the current module is the first one drawn with the in-progress icon, and there is none exactly when no module has it |
| JourneyMap.ShowsReleaseDate | src/components/JourneyMap.tsx:64-68 | every locked module shows its release date, no in-progress one does, and a completed one does exactly when it is not released |
| JourneyMap.MarkerOnCurrentModule | src/components/JourneyMap.tsx:11-71 | the current module carries the marker and the in-progress icon, and with distinct numbers no other module carries the marker |
| JourneyMap.AllCompletedFallsBackToOne | src/components/JourneyMap.tsx:11-71 | once all modules are completed the header says module 1 and the marker sits on module 1 |
| ModuleCompletionCard.Render | src/components/ModuleCompletionCard.tsx:16-87 | nothing below 100%; then the next module and its first-lesson route while it is ≤ 7, else the way back to /dashboard |
| ModuleCompletionCard.NextModuleNamed | src/components/ModuleCompletionCard.tsx:20-27 | modules 1..6 get a named successor; a number below 1 looks up a missing name |
| ResetPassword.ValidEmail | src/pages/ResetPassword.tsx:39 | `!email || !regex.test(email)` accepts exactly the texts with the structural email shape (the empty text never has it) |
| ResetPassword.EmailRegexIsShape | src/pages/ResetPassword.tsx:39 | /\S+@\S+\.\S+/ matches exactly when some '@' and a later '.' are separated by a non-space and each has a non-space on its outer side |
| ResetPassword.EmailAccepted | src/pages/ResetPassword.tsx:39 | "a@b.c" passes, and so does "nome a@b.c", because the pattern is not anchored |
| ResetPassword.EmailRefused | src/pages/ResetPassword.tsx:39 | "", "a@b.", "a@.c", "@b.c" and "a @b.c" are refused |
| ResetPassword.PasswordCheck | src/pages/ResetPassword.tsx:73-96 | the update goes ahead exactly when the password has at least 8 characters, an upper-case letter, a lower-case letter and a digit, and equals the confirmation; "too short" exactly below 8 characters, the empty-password test being subsumed; a mismatch is reported only for an otherwise valid password |
| ResetPassword.Checklist | src/pages/ResetPassword.tsx:266-285 | five items; all green exactly when the password meets the four rules and equals the confirmation |
| ResetPassword.CheckMatchesChecklist | src/pages/ResetPassword.tsx:73-96 | the update is sent exactly when every checklist item is green, and a refusal names the first item that is not |
| ResetPassword.PasswordExamples | src/pages/ResetPassword.tsx:73-96 | the rules are checked in order: length, upper case, lower case, digit, match |
| ResetPassword.InitialStep | src/pages/ResetPassword.tsx:24-31 | the new-password step exactly for a non-empty token with type=recovery |
| ResetPassword.ResetPasswordPage.constructor | src/pages/ResetPassword.tsx:19-31 | the step from the link, not loading, no email sent |
| ResetPassword.ResetPasswordPage.SendResetEmail | src/pages/ResetPassword.tsx:36-64 | an invalid address sends nothing; a valid one requests a link back to origin/reset-password, and the page shows the confirmation only when the service accepts |
| ResetPassword.ResetPasswordPage.SubmitNewPassword | src/pages/ResetPassword.tsx:69-121 | a rule-breaking password is refused with that rule; otherwise it is sent, and the user goes to /login exactly when the service accepts |
| ResetPassword.ResetPasswordPage.View | src/pages/ResetPassword.tsx:126-141 | the reset step shows the new-password form; the email step shows the confirmation exactly once a link was sent |
| MyPlan.IdOf | src/pages/MyPlan.tsx:58 | each plan's stored id is "mensal" or "vitalicio" |
| MyPlan.CheckoutUrlsDistinct | src/pages/MyPlan.tsx:71-74 | the two plans have different payment links |
| MyPlan.CheckoutUrl | src/pages/MyPlan.tsx:71-74 | both links go to the same payment host |
| MyPlan.IsCurrentPlan | src/pages/MyPlan.tsx:211 | a card is current only for a known stored tier, and at most one of the two cards is |
| MyPlan.ButtonDisabled | src/pages/MyPlan.tsx:309 | every card is disabled while a checkout is under way; otherwise exactly the current plan's card is, so the upgrade offer can be clicked |
| MyPlan.CanUpgrade | src/pages/MyPlan.tsx:212 | the upgrade is offered only from the monthly to the lifetime plan, never on the current plan's card |
| MyPlan.Label | src/pages/MyPlan.tsx:317-337 | "Processando" exactly during this plan's checkout, then "Plano Atual", then "Fazer Upgrade", else the plan's own call to action |
| MyPlan.LabelAgreesWithDisabled | src/pages/MyPlan.tsx:309-337 | "Processando" and "Plano Atual" only show on disabled buttons; with no checkout under way, disabled exactly on the current plan |
| MyPlan.TierName | src/pages/MyPlan.tsx:192 | every tier but the lifetime one is shown as "Mensal" |
| MyPlan.ExpiryText | src/pages/MyPlan.tsx:87-98 | no text without a (non-empty) expiry date |
| MyPlan.ExpiryVisibility | src/pages/MyPlan.tsx:187-197 | the expiry line needs an expiry date and never shows for the lifetime tier |
| MyPlan.OnAuth | src/pages/MyPlan.tsx:30-36 | to /login exactly when auth has settled without a user; the profile is fetched exactly when signed in |
| MyPlan.MyPlanPage.constructor | src/pages/MyPlan.tsx:26-28 | no profile, loading, no checkout under way |
| MyPlan.MyPlanPage.ProfileLoaded | src/pages/MyPlan.tsx:38-56 | a failed query keeps the previous profile; the spinner stops either way |
| MyPlan.MyPlanPage.Checkout | src/pages/MyPlan.tsx:58-85 | nothing without a user; a lifetime subscriber is refused; otherwise the plan is marked loading and the browser goes to its link |
| MyPlan.MyPlanPage.CheckoutTimerFired | src/pages/MyPlan.tsx:83 | the timer clears the loading mark |
| CoursesPage.AccessedIds | src/pages/CoursesPage.tsx:60 | the ids of the user's access rows, empty without rows |
| CoursesPage.WithAccess | src/pages/CoursesPage.tsx:60-66 | the products in query order, each marked as owned exactly when an access row names its id |
| CoursesPage.AccessIgnoresRowOrder | src/pages/CoursesPage.tsx:60-66 | only which products are held matters, not the order or repetition of access rows |
| CoursesPage.LoadProducts | src/pages/CoursesPage.tsx:29-74 | no user → /login; a product error is caught; otherwise the marked products |
| CoursesPage.ProductClick | src/pages/CoursesPage.tsx:76-82 | an owned course opens /cursos/slug; otherwise a non-empty checkout link opens; otherwise nothing |
| CoursesPage.ShowsPrice | src/pages/CoursesPage.tsx:162 | the price shows exactly on the cards whose click does not open the course, and such a click at most opens the checkout |
| CoursesPage.ClickFollowsAccess | src/pages/CoursesPage.tsx:76-82 | a listed product opens its course exactly when an access row names it, and shows its price exactly otherwise |
| CoursesPage.EmptyStateIffNoProducts | src/pages/CoursesPage.tsx:198 | the empty state shows exactly when the query returned no product |
| Billing.PlanExpiry | supabase/functions/payment-webhook/index.ts:55-65 | semanal ends a week later, mensal one calendar month later, and any other plan never ends |
| Billing.PlanExpiryCases | supabase-setup/functions/webhook-codigo-reconquista.ts:94-106 | a weekly plan ends after the purchase; vitalicio and unknown plans have no end |
| GrantWebhook.EventOf | supabase-setup/functions/webhook-codigo-reconquista.ts:27 | a non-empty `event` is the event; otherwise `type` is |
| GrantWebhook.IsPaidEvent | supabase-setup/functions/webhook-codigo-reconquista.ts:27-28 | a payment event exactly when the non-empty `event`, or else `type`, is one of the three paid event names |
| GrantWebhook.CustomerOf | supabase-setup/functions/webhook-codigo-reconquista.ts:37 | the buyer is read from `data` when present, else from `customer`, else from the top level |
| GrantWebhook.EventTakesPriority | supabase-setup/functions/webhook-codigo-reconquista.ts:27-28 | a non-empty `event` wins over `type`; an empty one falls back to `type` |
| GrantWebhook.OrReal | supabase-setup/functions/webhook-codigo-reconquista.ts:40 | `a \|\| b` on amounts: a missing or zero amount falls back |
| GrantWebhook.LocalPart | supabase-setup/functions/webhook-codigo-reconquista.ts:39 | split('@')[0]: the longest prefix without '@', followed by '@' unless it is the whole text |
| GrantWebhook.PurchaseOf | supabase-setup/functions/webhook-codigo-reconquista.ts:37-46 | no purchase exactly without a (non-empty) email; name, amount, transaction id and plan each take the first truthy operand of their `||` chain, so an empty or zero field falls through to the next one and finally to the local part, the default amount, the prefix and the clock, or `vitalicio` |
| GrantWebhook.EmptyFieldsFallThrough | supabase-setup/functions/webhook-codigo-reconquista.ts:39-41 | an empty buyer_name and payment_id give the name "a" from "a@b.c" and the transaction id `codigo_5` |
| GrantWebhook.FindUser | supabase-setup/functions/webhook-codigo-reconquista.ts:59-60 | the first account with exactly that email, none exactly when no account has it |
| GrantWebhook.FindUserAppend | supabase-setup/functions/webhook-codigo-reconquista.ts:59-79 | an account added after the others is found only when no earlier account has the email |
| GrantWebhook.ExpiryFor | supabase-setup/functions/webhook-deusa-na-cama.ts:101 | the second course never expires; the first follows the plan |
| GrantWebhook.HandlerExpiries | supabase-setup/functions/webhook-codigo-reconquista.ts:94-106 | semanal gives a week, mensal a month, vitalicio no end; the other course gives no end for any plan |
| GrantWebhook.GrantStore.constructor | supabase-setup/functions/webhook-codigo-reconquista.ts:50-53 | the store holds the given accounts, products and access rows |
| GrantWebhook.GrantStore.Handle | supabase-setup/functions/webhook-codigo-reconquista.ts:15-162 | an unpaid event writes nothing; no email is a 500 with nothing written; the account is reused or created, and a failed listing (whose error is ignored) finds no account, so an existing buyer goes on to the creation, which fails for the duplicate with a 500 and nothing written; a missing product or failed upsert is a 500 with no access row; otherwise (user, product) holds this purchase |
| GrantWebhook.Redelivery | supabase-setup/functions/webhook-codigo-reconquista.ts:58-124 | when the auth service lists an address exactly as it was sent, a redelivered payment reuses the account and product of the first, adding only one access key, and that row holds the second delivery's purchase |
| PaymentWebhook.ReleaseAll | supabase/functions/payment-webhook/index.ts:79-87 | the user's module rows are released as of now; everybody else's stay as they were |
| PaymentWebhook.ReleaseAllOpensEverything | supabase/functions/payment-webhook/index.ts:79-87 | after the release all the user's modules are open, none is closed, and releasing again changes nothing |
| PaymentWebhook.PaymentStore.constructor | supabase/functions/payment-webhook/index.ts:16-19 | the store holds the given tables |
| PaymentWebhook.PaymentStore.ProcessPayment | supabase/functions/payment-webhook/index.ts:21-105 | a failed profile update is a 400 with nothing written; otherwise 200, the profile gets tier and expiry, vitalicio releases the modules, and a completed MZN transaction is appended |
| PushNotifications.Padding | src/hooks/usePushNotifications.ts:157 | at most three '=' characters, filling to a multiple of four, none exactly when already a multiple |
| PushNotifications.PaddingIsShortest | src/hooks/usePushNotifications.ts:157 | no shorter padding fills the last group |
| PushNotifications.Translate | src/hooks/usePushNotifications.ts:158-160 | the same length, each character translated in place |
| PushNotifications.Base64Of | src/hooks/usePushNotifications.ts:157-160 | a multiple of four long, the key's length plus at most three '=', with no '-' or '_' left |
| PushNotifications.TranslationIsAlphabetChange | src/hooks/usePushNotifications.ts:157-160 | a key in the URL-safe alphabet of section 5 of RFC 4648 becomes text in the alphabet of section 4, and translating back gives the key |
| PushNotifications.CharByte | src/hooks/usePushNotifications.ts:166 | a character code below 256 is stored unchanged |
| PushNotifications.UrlBase64ToBytes | src/hooks/usePushNotifications.ts:156-169 | fails exactly when the decoder throws; otherwise one byte per decoded character, in order |
| PushNotifications.LatinBytes | src/hooks/usePushNotifications.ts:162-167 | for Latin-1 decoder output, each byte is the character code |
| PushNotifications.IsEnabled | src/hooks/usePushNotifications.ts:151 | notifications are never on without a granted permission, nor without a subscription |
| PushNotifications.PushState.constructor | src/hooks/usePushNotifications.ts:8-18 | supported exactly when the browser has push; the browser's permission is read only then |
| PushNotifications.PushState.RequestPermission | src/hooks/usePushNotifications.ts:31-100 | unsupported browsers are never asked; the answer is stored; true exactly when granted and the subscription after it does not throw; a signed-in user who gets true is subscribed and enabled; a failed subscription answers false with the permission granted; a refusal leaves notifications disabled |
| WeeklyChallenge.JsRem | src/components/WeeklyChallengeCard.tsx:17 | JavaScript's `%`: Dafny's for non-negative dividends, in -b..0 for negative ones |
| WeeklyChallenge.WeekIndex | src/components/WeeklyChallengeCard.tsx:17 | a valid challenge index from the epoch on, a non-positive one before it |
| WeeklyChallenge.ChallengeAt | src/components/WeeklyChallengeCard.tsx:17-18 | a challenge always shows from the epoch on, and it is the week's |
| WeeklyChallenge.BeforeEpochShowsNothing | src/components/WeeklyChallengeCard.tsx:17-18 | just before the epoch the index is -1 and no challenge shows |
| WeeklyChallenge.SameWeekSameChallenge | src/components/WeeklyChallengeCard.tsx:17 | all moments of one week show the same challenge |
| WeeklyChallenge.NextWeekNextChallenge | src/components/WeeklyChallengeCard.tsx:17 | one week later the next challenge shows, wrapping from the fifth to the first |
| WeeklyChallenge.ChallengeCard.constructor | src/components/WeeklyChallengeCard.tsx:16 | not accepted at first |
| WeeklyChallenge.ChallengeCard.Accept | src/components/WeeklyChallengeCard.tsx:20-23 | accepting sets the flag, and the button is then disabled |

## Left out

- Network, database and auth calls are not performed. Their results and errors are parameters of the operations, and the tables are fields of the store classes.
- Loading flags while a request is in flight are not observable: each handler is modelled as one atomic step.
- Toast messages, console logs, titles, descriptions, images, styling and other display text are not modelled. Badge and button texts that decide behaviour are modelled.
- Date formatting is not modelled (toLocaleDateString, format, toISOString, formatDistanceToNow). Times are milliseconds since the epoch, and the relative-date formatter is an input.
- NaN and non-number JSON values are not modelled beyond parseInt's "no digits" case (None).
- parseInt without a radix in CourseLessonPage.tsx is modelled as radix 10, so a "0x" prefix is not read as hexadecimal.
- ModuleCard.UpperChar only upper-cases ASCII letters; other letters keep their case.
- CourseLessonPage.LessonPage.Tick reads the current lesson. The source's interval callback captures `lesson` when the player starts, and that stale capture is not modelled.
- The player itself is not modelled: Plyr, its setup, the 100 ms and 5 s timers and the cleanup on unmount.
- Lesson.tsx: the celebration callback and the debug panel are not modelled.
- The Dashboard logout, the profile greeting and the carousels and cards it embeds are not modelled, except WeeklyChallengeCard.
- The Dashboard's days-remaining count for a locked module is not modelled; the locked toast carries only the release date.
- ResetPassword.ResetPasswordPage.constructor: the source's useState-as-effect runs once, on the first render. The model takes the step from the URL in the constructor only.
- ResetPassword.ResetPasswordPage.SubmitNewPassword counts the password length in characters, not in UTF-16 code units.
- ResetPassword.ResetPasswordPage.SubmitNewPassword does not model the two-second delay before going to /login; it returns `goToLogin`.
- MyPlan: the plan cards' prices and feature lists are display text and are not modelled.
- MyPlan.MyPlanPage.Checkout: the two-second timer that clears the loading mark is modelled as a separate method, MyPlan.MyPlanPage.CheckoutTimerFired.
- GrantWebhook.GrantStore.Handle looks accounts up only in the first page that listUsers returns; pagination is not modelled.
- GrantWebhook.GrantStore.Handle models creating an account for an email that already exists (beyond that first page, or after a failed listing) as a plain creation failure (`createFails`); the auth service's duplicate check is not modelled.
- GrantWebhook.GrantStore.Handle: a body that is not JSON makes `req.json()` throw, which these handlers answer with 500 (payment-webhook answers 400); request parsing is not modelled, and the payload arrives already parsed.
- GrantWebhook.GrantStore.Handle: the id of a newly created account is an input (`newUserId`), and so is the address the auth service stores for it (`storeEmail`), since the handler does not control it.
- GrantWebhook.Redelivery assumes the auth service stores and lists the address exactly as it was sent (`storeEmail` is the identity on it). The lookup compares emails exactly, so a service that normalised addresses would make the second delivery miss the account and, on the duplicate creation, answer 500.
- GrantWebhook.GrantStore.Handle: the TypeError thrown by `email.split` when no email and no name are given is caught like the missing-email error. Both give the same 500, so the model has one path for both.
- GrantWebhook.GrantStore.Handle: amounts are exact reals. JSON field values of the wrong type are not modelled.
- The CORS preflight (OPTIONS) and the JSON response bodies of the three webhooks are not modelled. The model has only the status and the outcome.
- Billing.PlanExpiry adds seven days of 24 hours. Daylight-saving shifts of `setDate` in local time are not modelled, and "one calendar month later" is the input `addMonth`.
- PaymentWebhook.PaymentStore.ProcessPayment models only the columns it writes. A payload with missing fields is not modelled (the source passes `undefined` through).
- PaymentWebhook.PaymentStore.ProcessPayment: an update for a user with no profile row changes no row, as the database would.
- PushNotifications: the steps inside subscribeUser (registerServiceWorker, getSubscription, pushManager.subscribe, the push_subscriptions upsert) are not modelled one by one; RequestPermission takes whether the user is signed in and whether subscribing throws as inputs. unsubscribe and sendTestNotification are not modelled: they call the browser's push service and the database.
- PushNotifications.UrlBase64ToBytes: `window.atob` is an input.
- WeeklyChallenge: the five challenge texts are not modelled; a challenge is its index in the list.
- WeeklyChallenge: the accept toast is not modelled.

## Findings

| source | as written | input that shows it | evidently intended | confidence | as-written member | corrected member |
|---|---|---|---|---|---|---|
| src/pages/Dashboard.tsx:401-406 | each ModuleCard is given only `module`; the click handler sits inside the module object, where the card never looks, so the card's `onClick?.()` finds nothing | any released module: its "Começar Módulo" button does nothing | pass `onClick={module.onClick}` so a click reaches handleModuleClick and its release gate | high, not executed | Dashboard.DashboardCardClickIsInert | Dashboard.WiredCardClickGates |
| src/pages/CourseLessonPage.tsx:213-225 | previous/next are only ever set, never cleared, so moving between lessons on the same page keeps links from the earlier lesson | open lesson (1, 2), then go to (1, 1): "Aula Anterior" still points at (1, 1) itself | reset both links on each load, giving previous = getPreviousLesson and next = getNextLesson | high, not executed | CourseLessonPage.StaleNeighboursExample | CourseLessonPage.FreshNeighbours |
