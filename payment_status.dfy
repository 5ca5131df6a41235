/** The client's status poll (`GET` in src/app/api/payment/create/status/route.ts). After
    the session and parameter checks it asks the gateway for the payment; on "succeeded" it
    credits the SESSION user and then marks the order paid, on "canceled" it marks the order
    canceled. Neither branch looks at the order's current status or its owner. */
module PaymentStatus {
  import opened Wrappers
  import opened Store
  import opened Subscription

  /** The payment as `checkout.getPayment(paymentId)` returns it. */
  datatype GatewayPayment = GatewayPayment(status: string, metadata: Metadata)

  /** The JSON body of a successful reply: `{ paymentStatus, orderId }`. */
  datatype StatusBody = StatusBody(paymentStatus: string, orderId: OrderId)

  datatype Outcome = Outcome(ledger: Ledger, reply: Reply<StatusBody>)

  const Unauthorized: Reply<StatusBody> := Fail(401, "Unauthorized")
  const MissingParameters: Reply<StatusBody> := Fail(400, "Missing parameters")
  const CheckFailed: Reply<StatusBody> := Fail(500, "Failed to check payment status")

  /** The effect of one poll. `gateway` is the gateway's answer for `paymentId`, None when
      the gateway call throws. */
  function Status(l: Ledger, sessionUser: Option<UserId>, paymentId: Option<string>,
                  orderId: Option<string>, gateway: Option<GatewayPayment>, now: int): Outcome
  {
    if !Truthy(sessionUser) then Outcome(l, Unauthorized)
    else if !Truthy(paymentId) || !Truthy(orderId) then Outcome(l, MissingParameters)
    else if gateway.None? then Outcome(l, CheckFailed)
    else
      var p := gateway.value;
      var uid := sessionUser.value;
      var oid := orderId.value;
      var ok := Json(StatusBody(p.status, oid));
      if p.status == "succeeded" then
        if uid !in l.users then Outcome(l, CheckFailed)
        else
          var users := Credited(l.users, uid, ExpiryAt(now, p.metadata.subscriptionType));
          if oid !in l.orders then Outcome(Ledger(l.orders, users), CheckFailed)
          else Outcome(Ledger(WithStatus(l.orders, oid, Paid), users), ok)
      else if p.status == "canceled" then
        if oid !in l.orders then Outcome(l, CheckFailed)
        else Outcome(Ledger(WithStatus(l.orders, oid, Canceled), l.users), ok)
      else Outcome(l, ok)
  }

  /** The handler: the user row is written first, then the order row; either failure ends
      the request with 500, keeping whatever was already written. */
  method HandleStatus(db: Db, sessionUser: Option<UserId>, paymentId: Option<string>,
                      orderId: Option<string>, gateway: Option<GatewayPayment>, now: int)
    returns (reply: Reply<StatusBody>)
    requires db.Valid()
    modifies db`orders, db`users
    ensures db.Valid()
    ensures Outcome(db.LedgerView(), reply) == Status(old(db.LedgerView()), sessionUser, paymentId, orderId, gateway, now)
  {
    if !Truthy(sessionUser) {
      return Unauthorized;
    }
    if !Truthy(paymentId) || !Truthy(orderId) {
      return MissingParameters;
    }
    if gateway.None? {
      return CheckFailed;
    }
    var payment := gateway.value;
    if payment.status == "succeeded" {
      var expiresAt := now + TermDays(payment.metadata.subscriptionType) * DayMs;
      var userUpdated := db.SetSubscription(sessionUser.value, expiresAt);
      if !userUpdated {
        return CheckFailed;
      }
      var orderUpdated := db.SetOrderStatus(orderId.value, Paid);
      if !orderUpdated {
        return CheckFailed;
      }
    } else if payment.status == "canceled" {
      var orderUpdated := db.SetOrderStatus(orderId.value, Canceled);
      if !orderUpdated {
        return CheckFailed;
      }
    }
    return Json(StatusBody(payment.status, orderId.value));
  }

  /** Without a session user the reply is 401; with one but without both parameters it is
      400; neither writes anything. */
  lemma RejectedRequestsChangeNothing(l: Ledger, sessionUser: Option<UserId>, paymentId: Option<string>,
                                      orderId: Option<string>, gateway: Option<GatewayPayment>, now: int)
    requires !Truthy(sessionUser) || !Truthy(paymentId) || !Truthy(orderId)
    ensures var o := Status(l, sessionUser, paymentId, orderId, gateway, now);
      o.ledger == l
      && o.reply == if !Truthy(sessionUser) then Fail(401, "Unauthorized") else Fail(400, "Missing parameters")
  {
  }

  /** On "succeeded" the session user, whoever owns the order, gets an active
      subscription ending 30 (monthly) or 365 days from now, and the order becomes paid. */
  lemma SucceededCreditsSessionUser(l: Ledger, uid: UserId, paymentId: string, oid: OrderId,
                                    p: GatewayPayment, now: int)
    requires uid != "" && paymentId != "" && oid != ""
    requires p.status == "succeeded" && uid in l.users && oid in l.orders
    ensures var o := Status(l, Some(uid), Some(paymentId), Some(oid), Some(p), now);
      && o.reply == Json(StatusBody("succeeded", oid))
      && o.ledger.orders[oid].status == Paid
      && o.ledger.users[uid].subscriptionActive
      && o.ledger.users[uid].subscriptionExpires
           == Some(now + (if p.metadata.subscriptionType == Some("monthly") then 30 else 365) * DayMs)
  {
  }

  /** The order's owner is not credited when someone else's session polls for it: only the
      session user's row changes. */
  lemma OwnerNotCredited(l: Ledger, uid: UserId, paymentId: string, oid: OrderId,
                         p: GatewayPayment, now: int, owner: UserId)
    requires owner in l.users && owner != uid
    ensures var o := Status(l, Some(uid), Some(paymentId), Some(oid), Some(p), now);
      owner in o.ledger.users && o.ledger.users[owner] == l.users[owner]
  {
  }

  /** The user is written before the order: a missing order ends with 500 while the user
      keeps the new entitlement. */
  lemma UserWrittenBeforeOrder(l: Ledger, uid: UserId, paymentId: string, oid: OrderId,
                               p: GatewayPayment, now: int)
    requires uid != "" && paymentId != "" && oid != ""
    requires p.status == "succeeded" && uid in l.users && oid !in l.orders
    ensures var o := Status(l, Some(uid), Some(paymentId), Some(oid), Some(p), now);
      o.reply == Fail(500, "Failed to check payment status")
      && o.ledger.orders == l.orders
      && o.ledger.users[uid].subscriptionActive
  {
  }

  /** On "canceled" the order becomes canceled and no user changes. */
  lemma CanceledPath(l: Ledger, uid: UserId, paymentId: string, oid: OrderId, p: GatewayPayment, now: int)
    requires uid != "" && paymentId != "" && oid != ""
    requires p.status == "canceled" && oid in l.orders
    ensures var o := Status(l, Some(uid), Some(paymentId), Some(oid), Some(p), now);
      o.ledger.users == l.users && o.ledger.orders == l.orders[oid := l.orders[oid].(status := Canceled)]
  {
  }

  /** Any other gateway status writes nothing; every successful reply echoes the gateway's
      status and the requested order id. */
  lemma OtherStatusesAndEcho(l: Ledger, sessionUser: Option<UserId>, paymentId: Option<string>,
                             orderId: Option<string>, gateway: Option<GatewayPayment>, now: int)
    ensures var o := Status(l, sessionUser, paymentId, orderId, gateway, now);
      && (o.reply.Json? ==>
            gateway.Some? && orderId.Some? && o.reply.body == StatusBody(gateway.value.status, orderId.value))
      && ((gateway.Some? && gateway.value.status != "succeeded" && gateway.value.status != "canceled") ==>
            o.ledger == l)
  {
  }

  /** Polling again later leaves the store as one poll at the later time would. */
  lemma RepollActsOnce(l: Ledger, sessionUser: Option<UserId>, paymentId: Option<string>,
                       orderId: Option<string>, gateway: Option<GatewayPayment>, first: int, second: int)
    ensures Status(Status(l, sessionUser, paymentId, orderId, gateway, first).ledger,
                   sessionUser, paymentId, orderId, gateway, second).ledger
         == Status(l, sessionUser, paymentId, orderId, gateway, second).ledger
  {
  }
}
