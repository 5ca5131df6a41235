/** How the four payment routes combine. An order is created pending; the success page, the
    gateway's notification and the client's status poll each reconcile it, in whatever
    order they arrive. Only the success page looks at the current status, so the other two
    can re-credit a user or move a paid order to canceled. */
module Reconciliation {
  import opened Wrappers
  import opened Store
  import opened Subscription
  import PaymentCreate
  import PaymentWebhook
  import PaymentStatus
  import PaymentSuccess

  /** A succeeded notification for order `oid` bought by `uid`. */
  function SucceededNotice(oid: OrderId, uid: UserId, t: string): PaymentWebhook.Notification {
    PaymentWebhook.Notification(Some("payment.succeeded"),
      Some(PaymentWebhook.PaymentObject(Some("succeeded"), Metadata(Some(oid), Some(uid), Some(t)))))
  }

  /** A canceled notification for order `oid`. */
  function CanceledNotice(oid: OrderId, uid: UserId, t: string): PaymentWebhook.Notification {
    PaymentWebhook.Notification(Some("payment.canceled"),
      Some(PaymentWebhook.PaymentObject(Some("canceled"), Metadata(Some(oid), Some(uid), Some(t)))))
  }

  /** Following the return address alone is enough: right after an accepted create, loading
      the success page for the new order while signed in marks it paid and credits the
      buyer, though the gateway never confirmed anything. */
  lemma ReturnAddressAloneGrantsSubscription(l: Ledger, uid: UserId, t: string, production: bool,
                                             configuredBase: Option<string>, newId: OrderId,
                                             gateway: Option<PaymentCreate.CreatedPayment>,
                                             created: int, visitor: UserId, now: int)
    requires newId !in l.orders && uid != "" && t != "" && newId != "" && visitor != ""
    requires uid in l.users
    ensures var c := PaymentCreate.Create(l, Some(uid), Some(PaymentCreate.CreateBody(Some(t))),
                                          production, configuredBase, newId, gateway, created);
      var p := PaymentSuccess.SuccessPage(c.ledger, Some(newId), Some(visitor), now);
      && p.ledger.orders[newId].status == Paid
      && Entitled(p.ledger.users[uid], now)
      && p.ledger.users[uid].subscriptionExpires == Some(ExpiryAt(now, Some(t)))
      && p.page.paymentUpdated
  {
    var c := PaymentCreate.Create(l, Some(uid), Some(PaymentCreate.CreateBody(Some(t))),
                                  production, configuredBase, newId, gateway, created);
    var order := Order(uid, PaymentCreate.Price(t), Pending, t, created);
    assert c.ledger == Ledger(l.orders[newId := order], l.users);
    PaymentSuccess.TransitionCreditsOwner(c.ledger, newId, visitor, now);
    CreditedEntitlement(l.users, uid, now, Some(t), now);
  }

  /** Once the notification has marked the order paid, loading the success page changes
      nothing and reports no update. */
  lemma PageAfterWebhookIsNoOp(l: Ledger, oid: OrderId, uid: UserId, t: string, t1: int,
                               visitor: Option<UserId>, t2: int)
    requires oid != "" && uid != "" && oid in l.orders && uid in l.users
    ensures var w := PaymentWebhook.Webhook(l, Some(SucceededNotice(oid, uid, t)), t1).ledger;
      var p := PaymentSuccess.SuccessPage(w, Some(oid), visitor, t2);
      p.ledger == w && !p.page.paymentUpdated
  {
  }

  /** A notification that arrives after the page already credited the owner credits again,
      from its own time: the expiry is moved to the later time plus the term, not extended
      by a second term. */
  lemma WebhookAfterPageRecredits(l: Ledger, oid: OrderId, visitor: UserId, t1: int, t2: int)
    requires oid != "" && visitor != "" && oid in l.orders && l.orders[oid].status == Pending
    requires l.orders[oid].userId != "" && l.orders[oid].userId in l.users
    ensures var o := l.orders[oid];
      var p := PaymentSuccess.SuccessPage(l, Some(oid), Some(visitor), t1).ledger;
      var w := PaymentWebhook.Webhook(p, Some(SucceededNotice(oid, o.userId, o.subscriptionType)), t2).ledger;
      && w.orders[oid].status == Paid
      && w.users[o.userId].subscriptionExpires == Some(ExpiryAt(t2, Some(o.subscriptionType)))
      && w == PaymentWebhook.Webhook(l, Some(SucceededNotice(oid, o.userId, o.subscriptionType)), t2).ledger
  {
  }

  /** When the poll comes from the buyer's own session, a later notification for the same
      payment leaves the store as the notification alone would have. */
  lemma PollThenWebhookConverge(l: Ledger, oid: OrderId, uid: UserId, paymentId: string, t: string, t1: int, t2: int)
    requires oid != "" && uid != "" && paymentId != "" && oid in l.orders && uid in l.users
    ensures var md := Metadata(Some(oid), Some(uid), Some(t));
      var s := PaymentStatus.Status(l, Some(uid), Some(paymentId), Some(oid),
                                    Some(PaymentStatus.GatewayPayment("succeeded", md)), t1).ledger;
      PaymentWebhook.Webhook(s, Some(SucceededNotice(oid, uid, t)), t2).ledger
        == PaymentWebhook.Webhook(l, Some(SucceededNotice(oid, uid, t)), t2).ledger
  {
  }

  /** A poll from another user's session credits that user and not the buyer: after a poll
      by `visitor` the buyer's row is as before, while the visitor is entitled. */
  lemma PollByOtherSessionCreditsVisitor(l: Ledger, oid: OrderId, buyer: UserId, visitor: UserId,
                                         paymentId: string, t: string, now: int)
    requires oid != "" && visitor != "" && paymentId != "" && oid in l.orders
    requires buyer in l.users && visitor in l.users && buyer != visitor
    ensures var md := Metadata(Some(oid), Some(buyer), Some(t));
      var s := PaymentStatus.Status(l, Some(visitor), Some(paymentId), Some(oid),
                                    Some(PaymentStatus.GatewayPayment("succeeded", md)), now).ledger;
      && s.users[buyer] == l.users[buyer]
      && Entitled(s.users[visitor], now)
      && s.orders[oid].status == Paid
  {
  }

  /** There is no terminal state: a cancellation notification that arrives after the order
      was paid turns it to canceled, the buyer keeps the entitlement already granted, and a
      later page load then changes nothing. */
  lemma CancelAfterPaid(l: Ledger, oid: OrderId, uid: UserId, t: string, t1: int, t2: int,
                        visitor: Option<UserId>, t3: int)
    requires oid != "" && uid != "" && oid in l.orders && uid in l.users
    ensures var paid := PaymentWebhook.Webhook(l, Some(SucceededNotice(oid, uid, t)), t1).ledger;
      var canceled := PaymentWebhook.Webhook(paid, Some(CanceledNotice(oid, uid, t)), t2).ledger;
      && paid.orders[oid].status == Paid
      && canceled.orders[oid].status == Canceled
      && canceled.users == paid.users
      && Entitled(canceled.users[uid], t1)
      && PaymentSuccess.SuccessPage(canceled, Some(oid), visitor, t3).ledger == canceled
  {
  }
}
