/** The dashboard card of one module: its badge (a per-module override,
    then a case-insensitive match against the four known badges), the
    started / completed state read from the progress, the button label
    and icon chosen from it, and the click that is handed to the caller. */
module ModuleCard {
  import opened Common

  /** String.prototype.toUpperCase on one character, ASCII letters only. */
  function UpperChar(c: char): (u: char)
    ensures 'a' <= c <= 'z' ==> u as int == c as int - 32
    ensures !('a' <= c <= 'z') ==> u == c
    ensures !('a' <= u <= 'z')
  {
    if 'a' <= c <= 'z' then (c as int - 32) as char else c
  }

  function Upper(s: string): (u: string)
    ensures |u| == |s|
    ensures forall i :: 0 <= i < |s| ==> u[i] == UpperChar(s[i])
  {
    seq(|s|, i requires 0 <= i < |s| => UpperChar(s[i]))
  }

  /** Upper-casing twice changes nothing more. */
  lemma UpperIdempotent(s: string)
    ensures Upper(Upper(s)) == Upper(s)
  {
  }

  datatype BadgeKind = New | Recommended | Popular | MostViewed | Plain

  /** The badge drawn on the card: its text and which icon goes with it
      (`Plain` has none). */
  datatype Badge = Badge(text: string, kind: BadgeKind)

  /** The `switch` on the upper-cased badge text. */
  function KindOf(upper: string): BadgeKind
  {
    if upper == "NOVO" then New
    else if upper == "RECOMENDADO" then Recommended
    else if upper == "POPULAR" then Popular
    else if upper == "MAIS VISTO" then MostViewed
    else Plain
  }

  /** getBadgeConfig: no badge for an absent or empty text; a known badge,
      whatever its case, shows its canonical upper-case text with its icon;
      any other text is shown unchanged without an icon. */
  function BadgeConfig(badge: Option<string>): (r: Option<Badge>)
    ensures r.None? <==> badge.None? || badge.value == []
    ensures r.Some? ==> r.value.kind == KindOf(Upper(badge.value))
    ensures r.Some? && r.value.kind != Plain ==> r.value.text == Upper(badge.value)
    ensures r.Some? && r.value.kind == Plain ==> r.value.text == badge.value
  {
    if badge.None? || badge.value == [] then None
    else
      var upper := Upper(badge.value);
      var kind := KindOf(upper);
      Some(Badge(if kind == Plain then badge.value else upper, kind))
  }

  /** Matching ignores case: a text and its upper-case form get the same
      icon, and a known badge the same canonical text. */
  lemma BadgeConfigIgnoresCase(s: string)
    requires s != []
    ensures BadgeConfig(Some(s)).value.kind == BadgeConfig(Some(Upper(s))).value.kind
    ensures BadgeConfig(Some(s)).value.kind != Plain ==> BadgeConfig(Some(s)) == BadgeConfig(Some(Upper(s)))
  {
    UpperIdempotent(s);
  }

  /** Known badges are shown only with one of the four canonical texts. */
  lemma KnownBadgeTexts(badge: Option<string>)
    requires BadgeConfig(badge).Some? && BadgeConfig(badge).value.kind != Plain
    ensures BadgeConfig(badge).value.text in {"NOVO", "RECOMENDADO", "POPULAR", "MAIS VISTO"}
  {
  }

  /** The fixed badges of modules 1, 2, 5, 6 and 7. */
  const Overrides: map<int, string> :=
    map[1 := "MAIS VISTO", 2 := "RECOMENDADO", 5 := "MAIS VISTO", 6 := "RECOMENDADO", 7 := "NOVO"]

  /** getBadgeOverride: the fixed badge where there is one, otherwise the
      module's own. Every fixed badge is one of the known ones. */
  function BadgeOverride(moduleNumber: int, original: Option<string>): (b: Option<string>)
    ensures moduleNumber !in Overrides ==> b == original
    ensures moduleNumber in Overrides ==> BadgeConfig(b).Some? && BadgeConfig(b).value.kind != Plain
  {
    if moduleNumber in Overrides then
      var s := Overrides[moduleNumber];
      assert Upper(s) == s;
      Some(s)
    else original
  }

  /** `(progress || 0) > 0`: a missing or zero progress has not started. */
  predicate HasStarted(progress: Option<int>)
    ensures HasStarted(progress) <==> progress.Some? && progress.value > 0
  {
    OrInt(progress, Some(0)).value > 0
  }

  /** `(progress || 0) >= 100`: only a reported progress can complete. */
  predicate IsCompleted(progress: Option<int>)
    ensures IsCompleted(progress) <==> progress.Some? && progress.value >= 100
    ensures IsCompleted(progress) ==> HasStarted(progress)
  {
    OrInt(progress, Some(0)).value >= 100
  }

  /** getButtonText: completed first, then started. The label follows the
      progress in three bands, a missing progress counting as 0. */
  function ButtonText(progress: Option<int>): (t: string)
    ensures var p := if progress.Some? then progress.value else 0;
      (t == "Rever M\U{00F3}dulo" <==> p >= 100) &&
      (t == "Continuar M\U{00F3}dulo" <==> 0 < p < 100) &&
      (t == "Come\U{00E7}ar M\U{00F3}dulo" <==> p <= 0)
  {
    if IsCompleted(progress) then "Rever M\U{00F3}dulo"
    else if HasStarted(progress) then "Continuar M\U{00F3}dulo"
    else "Come\U{00E7}ar M\U{00F3}dulo"
  }

  datatype Icon = ArrowRight | Play | PlayCircle

  /** getButtonIcon: the same bands as the label. */
  function ButtonIcon(progress: Option<int>): (i: Icon)
    ensures var p := if progress.Some? then progress.value else 0;
      (i == ArrowRight <==> p >= 100) && (i == Play <==> 0 < p < 100) && (i == PlayCircle <==> p <= 0)
  {
    if IsCompleted(progress) then ArrowRight
    else if HasStarted(progress) then Play
    else PlayCircle
  }

  /** The progress overlay shows while a module is started but not done. */
  predicate ShowsOverlay(progress: Option<int>)
    ensures ShowsOverlay(progress) <==> progress.Some? && 0 < progress.value < 100
  {
    HasStarted(progress) && !IsCompleted(progress)
  }

  /** The overlay, the "Concluído" mark and the button agree: the overlay
      goes with "Continuar", the mark with "Rever", and they never show
      together. */
  lemma OverlayMatchesButton(progress: Option<int>)
    ensures ShowsOverlay(progress) <==> ButtonText(progress) == "Continuar M\U{00F3}dulo"
    ensures ShowsOverlay(progress) <==> ButtonIcon(progress) == Play
    ensures IsCompleted(progress) <==> ButtonText(progress) == "Rever M\U{00F3}dulo"
    ensures !(ShowsOverlay(progress) && IsCompleted(progress))
  {
  }

  /** The button's `onClick?.()`: the handler passed as a prop runs when
      there is one; without it a click does nothing. The card has no other
      input to the click (its `isReleased` prop is never read), so any
      gating is the caller's. */
  function ButtonClick<A>(onClick: Option<A>): (r: Option<A>)
    ensures r.Some? <==> onClick.Some?
    ensures r.Some? ==> r.value == onClick.value
  {
    if onClick.Some? then Some(onClick.value) else None
  }
}
