/** The subscription page: the user's current tier from the profile, one
    card per plan with its button, and the checkout that sends the browser
    to the plan's payment link. The profile query, the auth state and the
    relative-date formatter are inputs. */
module MyPlan {
  import opened Common

  datatype PlanId = Monthly | Lifetime

  /** The plan's id as stored in `profiles.subscription_tier`. */
  function IdOf(plan: PlanId): (id: string)
    ensures id == "mensal" || id == "vitalicio"
  {
    match plan
    case Monthly => "mensal"
    case Lifetime => "vitalicio"
  }

  /** The two-entry table of payment links. */
  function CheckoutUrl(plan: PlanId): (url: string)
    ensures |url| > 24 && url[..24] == "https://pay.lojou.app/p/"
  {
    match plan
    case Monthly => "https://pay.lojou.app/p/MENSAL_197"
    case Lifetime => "https://pay.lojou.app/p/VITALICIO_897"
  }

  /** Each plan has its own link. */
  lemma CheckoutUrlsDistinct()
    ensures CheckoutUrl(Monthly) != CheckoutUrl(Lifetime)
    ensures forall a: PlanId, b: PlanId :: CheckoutUrl(a) == CheckoutUrl(b) ==> a == b
  {
    assert CheckoutUrl(Monthly)[24] != CheckoutUrl(Lifetime)[24];
  }

  /** The profile columns the page reads; a null column is None. */
  datatype Profile = Profile(tier: Option<string>, expiresAt: Option<string>)

  /** `profile?.subscription_tier`. */
  function CurrentPlan(profile: Option<Profile>): Option<string>
  {
    if profile.Some? then profile.value.tier else None
  }

  /** `currentPlan === plan.id`: at most one card is the current plan, and
      none when the tier is missing or unknown. */
  predicate IsCurrentPlan(currentPlan: Option<string>, plan: PlanId)
    ensures IsCurrentPlan(currentPlan, plan) ==> currentPlan.Some? && currentPlan.value in {"mensal", "vitalicio"}
    ensures IsCurrentPlan(currentPlan, plan) ==>
      currentPlan != Some(IdOf(if plan == Monthly then Lifetime else Monthly))
  {
    currentPlan == Some(IdOf(plan))
  }

  /** The only upgrade offered is from the monthly to the lifetime plan,
      and never on the card of the plan the user already has. */
  predicate CanUpgrade(currentPlan: Option<string>, plan: PlanId)
    ensures CanUpgrade(currentPlan, plan) <==> IsCurrentPlan(currentPlan, Monthly) && plan == Lifetime
    ensures CanUpgrade(currentPlan, plan) ==> !IsCurrentPlan(currentPlan, plan)
  {
    currentPlan == Some("mensal") && plan == Lifetime
  }

  /** A card's button is disabled on the current plan and while any
      checkout is under way. */
  predicate ButtonDisabled(currentPlan: Option<string>, plan: PlanId, checkoutLoading: Option<PlanId>)
    ensures checkoutLoading.Some? ==> ButtonDisabled(currentPlan, plan, checkoutLoading)
    // With no checkout under way, the upgrade offer can be clicked.
    ensures checkoutLoading.None? && CanUpgrade(currentPlan, plan) ==> !ButtonDisabled(currentPlan, plan, checkoutLoading)
    ensures checkoutLoading.None? ==> (ButtonDisabled(currentPlan, plan, checkoutLoading) <==> IsCurrentPlan(currentPlan, plan))
  {
    IsCurrentPlan(currentPlan, plan) || checkoutLoading.Some?
  }

  datatype ButtonLabel = Processing | CurrentPlanLabel | UpgradeLabel | CallToAction(plan: PlanId)

  /** The label, by priority: this plan's checkout under way, then the
      current plan, then the upgrade offer, then the plan's own call to
      action. */
  function Label(currentPlan: Option<string>, plan: PlanId, checkoutLoading: Option<PlanId>): (l: ButtonLabel)
    ensures l == Processing <==> checkoutLoading == Some(plan)
    ensures l == CurrentPlanLabel <==> checkoutLoading != Some(plan) && IsCurrentPlan(currentPlan, plan)
    ensures l == UpgradeLabel <==> checkoutLoading != Some(plan) && CanUpgrade(currentPlan, plan)
    ensures l.CallToAction? ==> l.plan == plan
  {
    if checkoutLoading == Some(plan) then Processing
    else if IsCurrentPlan(currentPlan, plan) then CurrentPlanLabel
    else if CanUpgrade(currentPlan, plan) then UpgradeLabel
    else CallToAction(plan)
  }

  /** A button never invites a click it would not take: "Processando..."
      and "Plano Atual" only show on disabled buttons. */
  lemma LabelAgreesWithDisabled(currentPlan: Option<string>, plan: PlanId, checkoutLoading: Option<PlanId>)
    ensures Label(currentPlan, plan, checkoutLoading) in {Processing, CurrentPlanLabel} ==>
      ButtonDisabled(currentPlan, plan, checkoutLoading)
    ensures checkoutLoading.None? ==>
      (ButtonDisabled(currentPlan, plan, checkoutLoading) <==> Label(currentPlan, plan, checkoutLoading) == CurrentPlanLabel)
  {
  }

  /** `currentPlan === 'vitalicio' ? 'Vitalício' : 'Mensal'`: any tier other
      than the lifetime one is shown as monthly. */
  function TierName(currentPlan: string): (name: string)
    ensures name == "Mensal" <==> currentPlan != "vitalicio"
  {
    if currentPlan == "vitalicio" then "Vital\U{00ED}cio" else "Mensal"
  }

  /** getTimeUntilExpiry: nothing without an expiry date; otherwise the
      formatter's text, where None stands for a formatter that throws. */
  function ExpiryText(profile: Option<Profile>, format: string -> Option<string>): (t: Option<string>)
    ensures profile.None? || profile.value.expiresAt.None? || profile.value.expiresAt.value == [] ==> t.None?
  {
    if profile.None? || profile.value.expiresAt.None? || profile.value.expiresAt.value == [] then None
    else format(profile.value.expiresAt.value)
  }

  /** The "Expira ..." line: inside the current-plan box (shown for a
      non-empty tier), for a non-empty expiry text, and never for the
      lifetime tier. */
  predicate ShowsExpiry(currentPlan: Option<string>, expiryText: Option<string>)
  {
    currentPlan.Some? && currentPlan.value != [] &&
    expiryText.Some? && expiryText.value != [] && currentPlan.value != "vitalicio"
  }

  lemma ExpiryVisibility(profile: Option<Profile>, format: string -> Option<string>)
    ensures ShowsExpiry(CurrentPlan(profile), ExpiryText(profile, format)) ==>
      profile.Some? && profile.value.expiresAt.Some? && profile.value.tier != Some("vitalicio")
    ensures CurrentPlan(profile) == Some("vitalicio") ==> !ShowsExpiry(CurrentPlan(profile), ExpiryText(profile, format))
  {
  }

  /** What the auth state asks of the page on each change. */
  datatype AuthStep = GoToLogin | FetchProfile | WaitForAuth

  function OnAuth(authLoading: bool, signedIn: bool): (s: AuthStep)
    ensures s == GoToLogin <==> !authLoading && !signedIn
    ensures s == FetchProfile <==> signedIn
  {
    if !authLoading && !signedIn then GoToLogin
    else if signedIn then FetchProfile
    else WaitForAuth
  }

  /** The result of a checkout click. */
  datatype CheckoutResult = Ignored | RefusedLifetime | Redirect(url: string)

  class MyPlanPage {
    var profile: Option<Profile>
    var loading: bool
    var checkoutLoading: Option<PlanId>

    constructor()
      ensures profile == None && loading && checkoutLoading == None
    {
      profile := None;
      loading := true;
      checkoutLoading := None;
    }

    /** fetchProfile: a failed query keeps the previous profile; either way
        the spinner stops. */
    method ProfileLoaded(result: Option<Profile>, queryFailed: bool)
      modifies this
      ensures profile == (if queryFailed then old(profile) else result)
      ensures !loading && checkoutLoading == old(checkoutLoading)
    {
      if !queryFailed {
        profile := result;
      }
      loading := false;
    }

    /** handleCheckout: nothing without a user; a lifetime subscriber is
        refused; otherwise the plan is marked as loading and the browser is
        sent to its payment link. */
    method Checkout(signedIn: bool, plan: PlanId) returns (r: CheckoutResult)
      modifies this
      ensures !signedIn ==> r == Ignored && checkoutLoading == old(checkoutLoading)
      ensures signedIn && CurrentPlan(profile) == Some("vitalicio") ==>
        r == RefusedLifetime && checkoutLoading == old(checkoutLoading)
      ensures signedIn && CurrentPlan(profile) != Some("vitalicio") ==>
        r == Redirect(CheckoutUrl(plan)) && checkoutLoading == Some(plan)
      ensures r.Redirect? ==> CurrentPlan(profile) != Some("vitalicio")
      ensures profile == old(profile) && loading == old(loading)
    {
      if !signedIn {
        return Ignored;
      }
      if CurrentPlan(profile) == Some("vitalicio") {
        return RefusedLifetime;
      }
      checkoutLoading := Some(plan);
      r := Redirect(CheckoutUrl(plan));
    }

    /** The timer armed by the checkout clears the loading mark. */
    method CheckoutTimerFired()
      modifies this
      ensures checkoutLoading == None
      ensures profile == old(profile) && loading == old(loading)
    {
      checkoutLoading := None;
    }
  }
}
