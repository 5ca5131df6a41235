/** The gateway's notification endpoint (`POST` in src/app/api/payment/create/webhook/route.ts).
    It checks the envelope, then on a succeeded payment marks the order paid (a failure there
    is only logged) and credits the user named in the metadata; on a canceled payment it
    marks the order canceled. Neither branch looks at the order's current status. */
module PaymentWebhook {
  import opened Wrappers
  import opened Store
  import opened Subscription

  /** The `object` of a notification: the payment as the gateway reports it. */
  datatype PaymentObject = PaymentObject(status: Option<string>, metadata: Metadata)

  /** A parsed notification body; `payment` is its `object` member. */
  datatype Notification = Notification(event: Option<string>, payment: Option<PaymentObject>)

  /** The orders and users after the call, and its reply (`{ status: "ok" }` on success). */
  datatype Outcome = Outcome(ledger: Ledger, reply: Reply<string>)

  const Acknowledged: Reply<string> := Json("ok")
  const InvalidFormat: Reply<string> := Fail(400, "Invalid notification format")
  const ProcessingFailed: Reply<string> := Fail(500, "Webhook processing failed")

  predicate IsSucceeded(p: PaymentObject, event: Option<string>) {
    event == Some("payment.succeeded") && p.status == Some("succeeded")
  }

  predicate IsCanceled(p: PaymentObject, event: Option<string>) {
    event == Some("payment.canceled") && p.status == Some("canceled")
  }

  /** The effect of one notification. `body` is None when the raw text is not JSON. */
  function Webhook(l: Ledger, body: Option<Notification>, now: int): Outcome {
    if body.None? then Outcome(l, ProcessingFailed)
    else if body.value.payment.None? || !Truthy(body.value.event) then Outcome(l, InvalidFormat)
    else
      var p := body.value.payment.value;
      var md := p.metadata;
      if IsSucceeded(p, body.value.event) then
        if Truthy(md.orderId) && Truthy(md.userId) then
          var orders := if md.orderId.value in l.orders then WithStatus(l.orders, md.orderId.value, Paid) else l.orders;
          if md.userId.value in l.users then
            Outcome(Ledger(orders, Credited(l.users, md.userId.value, ExpiryAt(now, md.subscriptionType))), Acknowledged)
          else
            Outcome(Ledger(orders, l.users), ProcessingFailed)
        else Outcome(l, Acknowledged)
      else if IsCanceled(p, body.value.event) then
        if Truthy(md.orderId) then
          if md.orderId.value in l.orders then
            Outcome(Ledger(WithStatus(l.orders, md.orderId.value, Canceled), l.users), Acknowledged)
          else
            Outcome(l, ProcessingFailed)
        else Outcome(l, Acknowledged)
      else Outcome(l, Acknowledged)
  }

  /** The handler, one store write at a time: the order update, whose failure is swallowed,
      then the user update, whose failure ends the request with 500. */
  method HandleWebhook(db: Db, body: Option<Notification>, now: int) returns (reply: Reply<string>)
    requires db.Valid()
    modifies db`orders, db`users
    ensures db.Valid()
    ensures Outcome(db.LedgerView(), reply) == Webhook(old(db.LedgerView()), body, now)
  {
    if body.None? {
      return ProcessingFailed;
    }
    var notification := body.value;
    if notification.payment.None? || !Truthy(notification.event) {
      return InvalidFormat;
    }
    var payment := notification.payment.value;
    if IsSucceeded(payment, notification.event) {
      var orderId := payment.metadata.orderId;
      var userId := payment.metadata.userId;
      if Truthy(orderId) && Truthy(userId) {
        var orderUpdated := db.SetOrderStatus(orderId.value, Paid);
        var expiresAt := now + TermDays(payment.metadata.subscriptionType) * DayMs;
        var userUpdated := db.SetSubscription(userId.value, expiresAt);
        if !userUpdated {
          return ProcessingFailed;
        }
      }
    } else if IsCanceled(payment, notification.event) {
      var orderId := payment.metadata.orderId;
      if Truthy(orderId) {
        var orderUpdated := db.SetOrderStatus(orderId.value, Canceled);
        if !orderUpdated {
          return ProcessingFailed;
        }
      }
    }
    return Acknowledged;
  }

  /** A notification without `object` or without a non-empty `event` is refused with 400 and
      writes nothing. */
  lemma InvalidEnvelopeChangesNothing(l: Ledger, n: Notification, now: int)
    requires n.payment.None? || !Truthy(n.event)
    ensures Webhook(l, Some(n), now) == Outcome(l, Fail(400, "Invalid notification format"))
  {
  }

  /** A user row changes only on a "payment.succeeded" event whose payment status is
      "succeeded" and whose metadata names both an order and a user; the user changed is the
      one named in the metadata. */
  lemma CreditRequiresSucceededPayment(l: Ledger, body: Option<Notification>, now: int, u: UserId)
    requires u in l.users
    requires u !in Webhook(l, body, now).ledger.users || Webhook(l, body, now).ledger.users[u] != l.users[u]
    ensures body.Some? && body.value.payment.Some?
    ensures body.value.event == Some("payment.succeeded")
    ensures body.value.payment.value.status == Some("succeeded")
    ensures Truthy(body.value.payment.value.metadata.orderId)
    ensures body.value.payment.value.metadata.userId == Some(u)
  {
  }

  /** On the credit path the order (when it exists) becomes paid and the user gets an
      active subscription that ends 30 days (monthly) or 365 days (anything else) from now,
      replacing any earlier expiry; the reply is "ok". */
  lemma CreditPath(l: Ledger, n: Notification, now: int)
    requires n.payment.Some? && Truthy(n.event) && IsSucceeded(n.payment.value, n.event)
    requires Truthy(n.payment.value.metadata.orderId) && Truthy(n.payment.value.metadata.userId)
    requires n.payment.value.metadata.userId.value in l.users
    ensures var md := n.payment.value.metadata;
      var o := Webhook(l, Some(n), now);
      && o.reply == Json("ok")
      && (md.orderId.value in l.orders ==> o.ledger.orders[md.orderId.value].status == Paid)
      && o.ledger.users[md.userId.value].subscriptionActive
      && o.ledger.users[md.userId.value].subscriptionExpires
           == Some(now + (if md.subscriptionType == Some("monthly") then 30 else 365) * DayMs)
  {
  }

  /** An order update that fails (no such order) is swallowed: the user is still credited
      and the reply is still "ok". */
  lemma MissingOrderStillCredits(l: Ledger, n: Notification, now: int)
    requires n.payment.Some? && Truthy(n.event) && IsSucceeded(n.payment.value, n.event)
    requires Truthy(n.payment.value.metadata.orderId) && Truthy(n.payment.value.metadata.userId)
    requires n.payment.value.metadata.orderId.value !in l.orders
    requires n.payment.value.metadata.userId.value in l.users
    ensures var uid := n.payment.value.metadata.userId.value;
      var o := Webhook(l, Some(n), now);
      o.reply == Json("ok") && o.ledger.orders == l.orders
      && o.ledger.users[uid].subscriptionActive
  {
  }

  /** An unknown user in the metadata ends the request with 500, after the order has
      already been marked paid. */
  lemma MissingUserFailsAfterOrderWrite(l: Ledger, n: Notification, now: int)
    requires n.payment.Some? && Truthy(n.event) && IsSucceeded(n.payment.value, n.event)
    requires Truthy(n.payment.value.metadata.orderId) && Truthy(n.payment.value.metadata.userId)
    requires n.payment.value.metadata.orderId.value in l.orders
    requires n.payment.value.metadata.userId.value !in l.users
    ensures var o := Webhook(l, Some(n), now);
      o.reply == Fail(500, "Webhook processing failed")
      && o.ledger.users == l.users
      && o.ledger.orders[n.payment.value.metadata.orderId.value].status == Paid
  {
  }

  /** Replaying a notification at a later time leaves the store exactly as a single
      delivery at that later time would: there is no pending guard, so a succeeded payment
      re-credits from the new `now`, and nothing accumulates. */
  lemma ReplayActsOnce(l: Ledger, body: Option<Notification>, first: int, second: int)
    ensures Webhook(Webhook(l, body, first).ledger, body, second).ledger == Webhook(l, body, second).ledger
  {
  }

  /** A canceled payment marks its order canceled, whatever its status was (a paid order
      included), and touches no user. */
  lemma CancelPath(l: Ledger, n: Notification, now: int)
    requires n.payment.Some? && Truthy(n.event) && IsCanceled(n.payment.value, n.event)
    requires Truthy(n.payment.value.metadata.orderId)
    requires n.payment.value.metadata.orderId.value in l.orders
    ensures var o := Webhook(l, Some(n), now);
      o.reply == Json("ok") && o.ledger.users == l.users
      && o.ledger.orders == l.orders[n.payment.value.metadata.orderId.value :=
           l.orders[n.payment.value.metadata.orderId.value].(status := Canceled)]
  {
  }

  /** Any other event/status pair is acknowledged and writes nothing. */
  lemma OtherEventsIgnored(l: Ledger, n: Notification, now: int)
    requires n.payment.Some? && Truthy(n.event)
    requires !IsSucceeded(n.payment.value, n.event) && !IsCanceled(n.payment.value, n.event)
    ensures Webhook(l, Some(n), now) == Outcome(l, Json("ok"))
  {
  }

  /** A body that is not JSON gives 500 and writes nothing. */
  lemma UnparsableBodyFails(l: Ledger, now: int)
    ensures Webhook(l, None, now) == Outcome(l, Fail(500, "Webhook processing failed"))
  {
  }
}
