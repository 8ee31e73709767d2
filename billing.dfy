/** The plan-to-expiry rule shared by the payment handlers. Times are
    milliseconds since the epoch; adding a calendar month depends on the
    calendar and is an input. */
module Billing {
  import opened Common

  /** `semanal` expires seven days from now, `mensal` one calendar month
      from now, and any other plan (`vitalicio`, or a string no one
      checked) never expires. */
  function PlanExpiry(plan: string, now: int, addMonth: int -> int): (e: Option<int>)
    ensures plan == "semanal" ==> e == Some(now + Week)
    ensures plan == "mensal" ==> e == Some(addMonth(now))
    ensures e.Some? <==> plan == "semanal" || plan == "mensal"
  {
    if plan == "semanal" then Some(now + 7 * Day)
    else if plan == "mensal" then Some(addMonth(now))
    else None
  }

  /** A weekly plan ends strictly after the purchase; the lifetime plan and
      unknown plans have no end at all. */
  lemma PlanExpiryCases(plan: string, now: int, addMonth: int -> int)
    ensures plan == "semanal" ==> PlanExpiry(plan, now, addMonth).value > now
    ensures plan == "vitalicio" ==> PlanExpiry(plan, now, addMonth).None?
    ensures PlanExpiry("anual", now, addMonth).None?
  {
  }
}
