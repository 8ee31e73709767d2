/** The payment-platform webhooks that grant a course: a paid event names
    a buyer by email; the buyer's account is found or created, and an
    active access row for the course's product is written, keyed on
    (user, product). The two deployed handlers differ only in the product,
    the default amount, the prefix of a generated transaction id and
    whether the plan sets an expiry; `Config` holds those. The auth
    service, the database tables and the clock are explicit state and
    inputs. */
module GrantWebhook {
  import opened Common
  import Billing

  /** The buyer fields a payload may carry; absent fields are None. */
  datatype Customer = Customer(
    email: Option<string>, buyerEmail: Option<string>,
    name: Option<string>, buyerName: Option<string>,
    amount: Option<real>, paidAmount: Option<real>,
    transactionId: Option<string>, paymentId: Option<string>,
    planType: Option<string>)

  /** A webhook body: the event name under `event` or `type`, and the buyer
      under `data`, under `customer`, or at the top level. */
  datatype Payload = Payload(event: Option<string>, kind: Option<string>,
                             data: Option<Customer>, customer: Option<Customer>, top: Customer)

  const PaidEvents: set<string> := {"payment.completed", "payment.approved", "order.paid"}

  /** `payload.event || payload.type`. */
  function EventOf(p: Payload): (r: Option<string>)
    ensures p.event.Some? && p.event.value != [] ==> r == p.event
    ensures p.event.None? || p.event.value == [] ==> r == p.kind
  {
    OrString(p.event, p.kind)
  }

  predicate IsPaidEvent(p: Payload)
    ensures IsPaidEvent(p) <==>
      if p.event.Some? && p.event.value != [] then p.event.value in PaidEvents
      else p.kind.Some? && p.kind.value in PaidEvents
  {
    EventOf(p).Some? && EventOf(p).value in PaidEvents
  }

  /** A non-empty `event` wins even when `type` names a paid event. */
  lemma EventTakesPriority()
    ensures !IsPaidEvent(Payload(Some("payment.refunded"), Some("order.paid"), None, None,
                                 Customer(None, None, None, None, None, None, None, None, None)))
    ensures IsPaidEvent(Payload(Some(""), Some("order.paid"), None, None,
                                Customer(None, None, None, None, None, None, None, None, None)))
  {
    assert "payment.refunded" != "payment.completed";
  }

  /** `payload.data || payload.customer || payload`. */
  function CustomerOf(p: Payload): (c: Customer)
    ensures p.data.Some? ==> c == p.data.value
    ensures p.data.None? && p.customer.Some? ==> c == p.customer.value
    ensures p.data.None? && p.customer.None? ==> c == p.top
  {
    if p.data.Some? then p.data.value else if p.customer.Some? then p.customer.value else p.top
  }

  /** `a || b` on an optional number with a numeric default. */
  function OrReal(a: Option<real>, b: real): (r: real)
    ensures a.Some? && a.value != 0.0 ==> r == a.value
    ensures a.None? || a.value == 0.0 ==> r == b
  {
    if a.Some? && a.value != 0.0 then a.value else b
  }

  /** `s.split('@')[0]`: the text before the first '@', or all of it. */
  function LocalPart(s: string): (r: string)
    ensures |r| <= |s| && r == s[..|r|]
    ensures '@' !in r
    ensures |r| < |s| ==> s[|r|] == '@'
  {
    if s == [] || s[0] == '@' then []
    else
      var rest := LocalPart(s[1..]);
      assert [s[0]] + rest == s[..|rest| + 1];
      [s[0]] + rest
  }

  /** The per-product settings of a handler. */
  datatype Config = Config(slug: string, defaultAmount: real, transactionPrefix: string, planSetsExpiry: bool)

  /** webhook-codigo-reconquista: plan-dependent expiry. */
  const CodigoReconquista := Config("codigo-reconquista", 997.0, "codigo_", true)

  /** webhook-deusa-na-cama: access never expires. */
  const DeusaNaCama := Config("deusa-na-cama", 597.0, "deusa_", false)

  /** What the handler takes from the buyer fields. */
  datatype Purchase = Purchase(email: string, name: string, amount: real, transactionId: string, plan: string)

  /** The field fallbacks: email, else buyer_email (none is an error);
      name, else buyer_name, else the email's local part; amount, else
      paid_amount, else the product's default; transaction_id, else
      payment_id, else the prefix and the clock; plan_type, else
      `vitalicio`. */
  function PurchaseOf(config: Config, c: Customer, now: int): (r: Option<Purchase>)
    ensures r.None? <==> OrString(c.email, c.buyerEmail).None? || OrString(c.email, c.buyerEmail).value == []
    ensures r.Some? ==> r.value.email != [] && Some(r.value.email) == OrString(c.email, c.buyerEmail)
    ensures r.Some? && c.email.Some? && c.email.value != [] ==> r.value.email == c.email.value
    // Every falsy operand of `name || buyer_name || local part` is skipped.
    ensures r.Some? && c.name.Some? && c.name.value != [] ==> r.value.name == c.name.value
    ensures r.Some? && (c.name.None? || c.name.value == []) && c.buyerName.Some? && c.buyerName.value != [] ==>
      r.value.name == c.buyerName.value
    ensures r.Some? && (c.name.None? || c.name.value == []) && (c.buyerName.None? || c.buyerName.value == []) ==>
      r.value.name == LocalPart(r.value.email)
    ensures r.Some? && c.amount.Some? && c.amount.value != 0.0 ==> r.value.amount == c.amount.value
    ensures r.Some? && (c.amount.None? || c.amount.value == 0.0) && c.paidAmount.Some? && c.paidAmount.value != 0.0 ==>
      r.value.amount == c.paidAmount.value
    ensures r.Some? && (c.amount.None? || c.amount.value == 0.0) && (c.paidAmount.None? || c.paidAmount.value == 0.0) ==>
      r.value.amount == config.defaultAmount
    // Likewise `transaction_id || payment_id || prefix + clock`.
    ensures r.Some? && c.transactionId.Some? && c.transactionId.value != [] ==>
      r.value.transactionId == c.transactionId.value
    ensures r.Some? && (c.transactionId.None? || c.transactionId.value == []) && c.paymentId.Some? && c.paymentId.value != [] ==>
      r.value.transactionId == c.paymentId.value
    ensures r.Some? && (c.transactionId.None? || c.transactionId.value == []) && (c.paymentId.None? || c.paymentId.value == []) ==>
      r.value.transactionId == config.transactionPrefix + IntToString(now)
    ensures r.Some? && c.planType.Some? && c.planType.value != [] ==> r.value.plan == c.planType.value
    ensures r.Some? && (c.planType.None? || c.planType.value == []) ==> r.value.plan == "vitalicio"
  {
    var email := OrString(c.email, c.buyerEmail);
    if email.None? || email.value == [] then None
    else
      Some(Purchase(
        email.value,
        OrString(OrString(c.name, c.buyerName), Some(LocalPart(email.value))).value,
        OrReal(c.amount, OrReal(c.paidAmount, config.defaultAmount)),
        OrString(OrString(c.transactionId, c.paymentId), Some(config.transactionPrefix + IntToString(now))).value,
        OrString(c.planType, Some("vitalicio")).value))
  }

  /** An empty `buyer_name` or `payment_id` is falsy too: the name comes
      from the email and the transaction id from the clock. */
  lemma EmptyFieldsFallThrough()
    ensures var r := PurchaseOf(CodigoReconquista,
                                Customer(Some("a@b.c"), None, None, Some(""), None, None, None, Some(""), None), 5);
      r.Some? && r.value.name == "a" && r.value.transactionId == "codigo_5"
  {
    var r := PurchaseOf(CodigoReconquista,
                        Customer(Some("a@b.c"), None, None, Some(""), None, None, None, Some(""), None), 5);
    assert LocalPart("a@b.c") == "a" by {
      assert LocalPart("@b.c") == [];
    }
    assert IntToString(5) == "5";
  }

  /** An account of the auth service. */
  datatype AuthUser = AuthUser(id: string, email: string, fullName: string)

  /** `users.find(u => u.email === email)`: the first account whose email
      is exactly the given one. */
  function FindUser(users: seq<AuthUser>, email: string): (r: Option<AuthUser>)
    ensures r.Some? ==> r.value in users && r.value.email == email
    ensures r.None? <==> forall j :: 0 <= j < |users| ==> users[j].email != email
  {
    if users == [] then None
    else if users[0].email == email then Some(users[0])
    else
      var r := FindUser(users[1..], email);
      assert forall j :: 1 <= j < |users| ==> users[j] == users[1..][j - 1];
      r
  }

  /** An account appended after the others is found only when no earlier
      account has the email. */
  lemma {:induction false} FindUserAppend(users: seq<AuthUser>, u: AuthUser, email: string)
    ensures FindUser(users + [u], email) ==
      if FindUser(users, email).Some? then FindUser(users, email)
      else if u.email == email then Some(u) else None
  {
    if users != [] {
      assert (users + [u])[1..] == users[1..] + [u];
      FindUserAppend(users[1..], u, email);
    }
  }

  /** One row of `user_product_access`. */
  datatype AccessRow = AccessRow(purchasedAt: int, expiresAt: Option<int>, isActive: bool,
                                 transactionId: string, amountPaid: real)

  /** The expiry a purchase gets under a handler. */
  function ExpiryFor(config: Config, plan: string, now: int, addMonth: int -> int): (e: Option<int>)
    ensures !config.planSetsExpiry ==> e.None?
    ensures config.planSetsExpiry ==> e == Billing.PlanExpiry(plan, now, addMonth)
  {
    if config.planSetsExpiry then Billing.PlanExpiry(plan, now, addMonth) else None
  }

  /** The course handler follows the plan; the other grants lifetime
      access whatever plan the payload names. */
  lemma HandlerExpiries(plan: string, now: int, addMonth: int -> int)
    ensures ExpiryFor(DeusaNaCama, plan, now, addMonth).None?
    ensures ExpiryFor(CodigoReconquista, "semanal", now, addMonth) == Some(now + Week)
    ensures ExpiryFor(CodigoReconquista, "mensal", now, addMonth) == Some(addMonth(now))
    ensures ExpiryFor(CodigoReconquista, "vitalicio", now, addMonth).None?
  {
  }

  datatype Outcome =
    /** 200: the event is not a payment; nothing is written. */
    | Ignored(event: Option<string>)
    /** 200: access granted. */
    | Granted(userId: string, productId: string, expiresAt: Option<int>)
    /** 500: an error was thrown and caught. */
    | ServerError

  class GrantStore {
    /** The auth service's accounts (the first page `listUsers` returns). */
    var users: seq<AuthUser>
    /** `products`: slug to id. */
    var products: map<string, string>
    /** `user_product_access`, keyed on (user_id, product_id). */
    var access: map<(string, string), AccessRow>

    constructor(users0: seq<AuthUser>, products0: map<string, string>, access0: map<(string, string), AccessRow>)
      ensures users == users0 && products == products0 && access == access0
    {
      users, products, access := users0, products0, access0;
    }

    /** One webhook call. `newUserId` is the id the auth service gives an
        account it creates and `storeEmail` the address as it stores and
        lists it (the handler does not control this); `listFails` is an
        error of listUsers, which the handler ignores, so no account is
        found; `createFails` and `accessFails` are the errors of the account
        creation and of the upsert. */
    method Handle(config: Config, p: Payload, now: int, addMonth: int -> int,
                  newUserId: string, storeEmail: string -> string,
                  listFails: bool, createFails: bool, accessFails: bool)
      returns (o: Outcome)
      modifies this
      ensures products == old(products)
      // Not a payment: nothing written.
      ensures !IsPaidEvent(p) ==> o == Ignored(EventOf(p)) && users == old(users) && access == old(access)
      // No buyer email: 500, nothing written.
      ensures IsPaidEvent(p) && PurchaseOf(config, CustomerOf(p), now).None? ==>
        o == ServerError && users == old(users) && access == old(access)
      ensures IsPaidEvent(p) && PurchaseOf(config, CustomerOf(p), now).Some? ==>
        var buy := PurchaseOf(config, CustomerOf(p), now).value;
        // A failed listing finds nothing, as if no account existed.
        var found := if listFails then None else FindUser(old(users), buy.email);
        // An account with exactly that email is reused; otherwise one is
        // created, unless the creation fails.
        (found.Some? ==> users == old(users)) &&
        (found.None? && createFails ==> o == ServerError && users == old(users) && access == old(access)) &&
        (found.None? && !createFails ==> users == old(users) + [AuthUser(newUserId, storeEmail(buy.email), buy.name)]) &&
        (found.Some? || !createFails ==>
          var uid := if found.Some? then found.value.id else newUserId;
          // A missing product or a failed upsert: 500 and no access row.
          (config.slug !in old(products) || accessFails ==> o == ServerError && access == old(access)) &&
          // Otherwise the (user, product) row holds this purchase.
          (config.slug in old(products) && !accessFails ==>
            var pid := old(products)[config.slug];
            var e := ExpiryFor(config, buy.plan, now, addMonth);
            o == Granted(uid, pid, e) &&
            access == old(access)[(uid, pid) := AccessRow(now, e, true, buy.transactionId, buy.amount)]))
    {
      if !IsPaidEvent(p) {
        return Ignored(EventOf(p));
      }
      var purchase := PurchaseOf(config, CustomerOf(p), now);
      if purchase.None? {
        return ServerError;
      }
      var buy := purchase.value;
      var found := if listFails then None else FindUser(users, buy.email);
      var userId: string;
      if found.Some? {
        userId := found.value.id;
      } else {
        if createFails {
          return ServerError;
        }
        users := users + [AuthUser(newUserId, storeEmail(buy.email), buy.name)];
        userId := newUserId;
      }
      if config.slug !in products {
        return ServerError;
      }
      var productId := products[config.slug];
      var expiresAt := ExpiryFor(config, buy.plan, now, addMonth);
      if accessFails {
        return ServerError;
      }
      access := access[(userId, productId) := AccessRow(now, expiresAt, true, buy.transactionId, buy.amount)];
      o := Granted(userId, productId, expiresAt);
    }
  }

  /** A redelivered payment finds the account the first delivery created,
      so the buyer ends up with one account and one access row holding the
      latest delivery's purchase. This needs the auth service to list the
      address exactly as it was sent: the lookup compares emails exactly. */
  method Redelivery(store: GrantStore, config: Config, p: Payload, now1: int, now2: int, addMonth: int -> int,
                    newId1: string, newId2: string, storeEmail: string -> string)
    returns (o1: Outcome, o2: Outcome)
    requires IsPaidEvent(p) && PurchaseOf(config, CustomerOf(p), now1).Some?
    requires storeEmail(PurchaseOf(config, CustomerOf(p), now1).value.email) == PurchaseOf(config, CustomerOf(p), now1).value.email
    modifies store
    ensures o1.Granted? ==> o2.Granted? && o2.userId == o1.userId && o2.productId == o1.productId
    ensures o1.Granted? ==> |store.users| <= |old(store.users)| + 1
    ensures o1.Granted? ==> store.access.Keys == old(store.access.Keys) + {(o1.userId, o1.productId)}
    // The row holds the second delivery's purchase.
    ensures o1.Granted? ==>
      var buy := PurchaseOf(config, CustomerOf(p), now2).value;
      store.access[(o1.userId, o1.productId)] ==
        AccessRow(now2, ExpiryFor(config, buy.plan, now2, addMonth), true, buy.transactionId, buy.amount)
  {
    o1 := store.Handle(config, p, now1, addMonth, newId1, storeEmail, false, false, false);
    var users1 := store.users;
    o2 := store.Handle(config, p, now2, addMonth, newId2, storeEmail, false, false, false);
    if o1.Granted? {
      var email := PurchaseOf(config, CustomerOf(p), now1).value.email;
      FindUserAppend(old(store.users), AuthUser(newId1, email, PurchaseOf(config, CustomerOf(p), now1).value.name), email);
      var f := FindUser(users1, email);
      assert f.Some? && f.value.id == o1.userId;
    }
  }
}
