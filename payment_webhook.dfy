/** The manual payment processor: a payment for a tier updates the user's
    profile with the tier and its expiry, releases every module of a
    lifetime buyer, and records a completed transaction. The tables and
    the clock are explicit state and inputs; the database's errors are
    flags. */
module PaymentWebhook {
  import opened Common
  import Billing

  /** A `profiles` row: the subscription columns and, standing for the
      columns the update does not touch, the name. */
  datatype ProfileRow = ProfileRow(fullName: Option<string>, tier: Option<string>, expiresAt: Option<int>)

  /** A `user_modules` row. */
  datatype UserModuleRow = UserModuleRow(userId: string, moduleNumber: int, isReleased: bool, releaseDate: Option<int>)

  /** A `payment_transactions` row. */
  datatype Transaction = Transaction(
    userId: string, amount: real, currency: string, paymentMethod: string, paymentId: string,
    status: string, tier: string, periodStart: int, periodEnd: Option<int>, paidAt: int)

  /** `update({is_released: true, release_date: now}).eq('user_id', userId)`:
      the user's rows are released as of now; everybody else's rows stay
      as they were. */
  function ReleaseAll(rows: seq<UserModuleRow>, userId: string, now: int): (r: seq<UserModuleRow>)
    ensures |r| == |rows|
    ensures forall i :: 0 <= i < |rows| && rows[i].userId == userId ==>
      r[i] == rows[i].(isReleased := true, releaseDate := Some(now))
    ensures forall i :: 0 <= i < |rows| && rows[i].userId != userId ==> r[i] == rows[i]
  {
    seq(|rows|, i requires 0 <= i < |rows| =>
      if rows[i].userId == userId then rows[i].(isReleased := true, releaseDate := Some(now)) else rows[i])
  }

  /** After the release every one of the user's modules is open, no open
      module is closed, and doing it again at the same moment changes
      nothing. */
  lemma ReleaseAllOpensEverything(rows: seq<UserModuleRow>, userId: string, now: int)
    ensures forall i :: 0 <= i < |rows| && rows[i].userId == userId ==> ReleaseAll(rows, userId, now)[i].isReleased
    ensures forall i :: 0 <= i < |rows| && rows[i].isReleased ==> ReleaseAll(rows, userId, now)[i].isReleased
    ensures ReleaseAll(ReleaseAll(rows, userId, now), userId, now) == ReleaseAll(rows, userId, now)
  {
  }

  class PaymentStore {
    /** `profiles`, by user id. */
    var profiles: map<string, ProfileRow>
    var userModules: seq<UserModuleRow>
    var transactions: seq<Transaction>

    constructor(profiles0: map<string, ProfileRow>, modules0: seq<UserModuleRow>, transactions0: seq<Transaction>)
      ensures profiles == profiles0 && userModules == modules0 && transactions == transactions0
    {
      profiles, userModules, transactions := profiles0, modules0, transactions0;
    }

    /** processPayment, called by the handler with the method `manual`,
        and the handler's status. The tier is not checked: any tier other
        than `semanal` and `mensal` gets no expiry. A failed profile update
        is a 400 with nothing written; the module release and the
        transaction insert are not checked, so their failures
        (`releaseFails`, `insertFails`) leave their table as it was and
        still answer 200. An update of a user without a profile row touches
        no row. */
    method ProcessPayment(userId: string, tier: string, paymentId: string, amount: real,
                          now: int, addMonth: int -> int,
                          updateFails: bool, releaseFails: bool, insertFails: bool)
      returns (status: int)
      modifies this
      ensures updateFails ==>
        status == 400 && profiles == old(profiles) && userModules == old(userModules) && transactions == old(transactions)
      ensures !updateFails ==> status == 200
      ensures !updateFails ==>
        var e := Billing.PlanExpiry(tier, now, addMonth);
        profiles == if userId in old(profiles)
                    then old(profiles)[userId := old(profiles)[userId].(tier := Some(tier), expiresAt := e)]
                    else old(profiles)
      ensures !updateFails ==>
        userModules == if tier == "vitalicio" && !releaseFails then ReleaseAll(old(userModules), userId, now)
                       else old(userModules)
      ensures !updateFails ==>
        transactions == old(transactions) +
          (if insertFails then []
           else [Transaction(userId, amount, "MZN", "manual", paymentId, "completed", tier,
                             now, Billing.PlanExpiry(tier, now, addMonth), now)])
    {
      var expiresAt := Billing.PlanExpiry(tier, now, addMonth);
      if updateFails {
        return 400;
      }
      if userId in profiles {
        profiles := profiles[userId := profiles[userId].(tier := Some(tier), expiresAt := expiresAt)];
      }
      if tier == "vitalicio" && !releaseFails {
        userModules := ReleaseAll(userModules, userId, now);
      }
      if !insertFails {
        var t := Transaction(userId, amount, "MZN", "manual", paymentId, "completed", tier, now, expiresAt, now);
        transactions := transactions + [t];
      }
      status := 200;
    }
  }
}
