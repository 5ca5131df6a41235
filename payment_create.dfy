/** Starting a subscription purchase (`POST` in src/app/api/payment/create/route.ts): after
    the session and body checks it stores a pending order, then asks the gateway for a
    payment whose metadata points back at that order and its buyer. */
module PaymentCreate {
  import opened Wrappers
  import opened Text
  import opened Store
  import opened Subscription

  /** The parsed JSON body; `subscriptionType` is absent when the body has no such member. */
  datatype CreateBody = CreateBody(subscriptionType: Option<string>)

  /** The payload handed to the gateway's `createPayment`. */
  datatype PaymentRequest = PaymentRequest(
    amountValue: string,
    currency: string,
    returnUrl: string,
    capture: bool,
    description: string,
    metadata: Metadata)

  /** What the gateway answers: the payment id and, for a redirect, the confirmation URL. */
  datatype CreatedPayment = CreatedPayment(id: string, confirmationUrl: Option<string>)

  /** The JSON body of a successful reply. */
  datatype Created = Created(paymentId: string, confirmationUrl: Option<string>, orderId: OrderId)

  /** The store after the call, its reply, and the request sent to the gateway (None when
      the handler returned before the gateway call). */
  datatype Outcome = Outcome(ledger: Ledger, reply: Reply<Created>, sent: Option<PaymentRequest>)

  const Unauthorized: Reply<Created> := Fail(401, "Unauthorized")
  const InvalidBody: Reply<Created> := Fail(400, "Invalid or missing JSON body")
  const TypeRequired: Reply<Created> := Fail(400, "Subscription type is required")
  const CreateFailed: Reply<Created> := Fail(500, "Failed to create payment")

  /** The price in roubles: 499 for a monthly subscription, 4999 for any other kind. */
  function Price(subscriptionType: string): (price: nat)
    ensures subscriptionType == "monthly" ==> price == 499
    ensures subscriptionType != "monthly" ==> price == 4999
  {
    if subscriptionType == "monthly" then 499 else 4999
  }

  /** The site's address: a fixed URL in production, else the configured base URL when it
      is set and non-empty, else the local development server. */
  function BaseUrl(production: bool, configured: Option<string>): (url: string)
    ensures production ==> url == "https://your-production-url.com"
    ensures !production && Truthy(configured) ==> url == configured.value
    ensures !production && !Truthy(configured) ==> url == "http://localhost:3000"
  {
    if production then "https://your-production-url.com"
    else if Truthy(configured) then configured.value
    else "http://localhost:3000"
  }

  /** The page the gateway sends the buyer back to. */
  function ReturnUrl(baseUrl: string, orderId: OrderId): string {
    baseUrl + "/payment/success?orderId=" + orderId
  }

  /** The gateway payload for the order `orderId` bought by `userId`. */
  function RequestFor(baseUrl: string, orderId: OrderId, userId: UserId, subscriptionType: string): PaymentRequest {
    PaymentRequest(
      ToFixed2(Price(subscriptionType)),
      "RUB",
      ReturnUrl(baseUrl, orderId),
      true,
      "Подписка (" + subscriptionType + ") #" + orderId,
      Metadata(Some(orderId), Some(userId), Some(subscriptionType)))
  }

  /** The effect of one call. `newId` is the key the database gives the new order; `gateway`
      is the gateway's answer, None when the gateway call throws. */
  function Create(l: Ledger, sessionUser: Option<UserId>, body: Option<CreateBody>, production: bool,
                  configuredBase: Option<string>, newId: OrderId, gateway: Option<CreatedPayment>, now: int): Outcome
    requires newId !in l.orders
  {
    if !Truthy(sessionUser) then Outcome(l, Unauthorized, None)
    else if body.None? then Outcome(l, InvalidBody, None)
    else if !Truthy(body.value.subscriptionType) then Outcome(l, TypeRequired, None)
    else
      var uid := sessionUser.value;
      var t := body.value.subscriptionType.value;
      var orders := l.orders[newId := Order(uid, Price(t), Pending, t, now)];
      var request := RequestFor(BaseUrl(production, configuredBase), newId, uid, t);
      if gateway.None? then Outcome(Ledger(orders, l.users), CreateFailed, Some(request))
      else Outcome(Ledger(orders, l.users),
                   Json(Created(gateway.value.id, gateway.value.confirmationUrl, newId)), Some(request))
  }

  /** The handler: the order is inserted before the gateway is called. */
  method HandleCreate(db: Db, sessionUser: Option<UserId>, body: Option<CreateBody>, production: bool,
                      configuredBase: Option<string>, newId: OrderId, gateway: Option<CreatedPayment>, now: int)
    returns (reply: Reply<Created>, sent: Option<PaymentRequest>)
    requires newId !in db.orders
    modifies db`orders
    ensures Outcome(db.LedgerView(), reply, sent)
         == Create(old(db.LedgerView()), sessionUser, body, production, configuredBase, newId, gateway, now)
  {
    sent := None;
    if !Truthy(sessionUser) {
      return Unauthorized, sent;
    }
    if body.None? {
      return InvalidBody, sent;
    }
    var subscriptionType := body.value.subscriptionType;
    if !Truthy(subscriptionType) {
      return TypeRequired, sent;
    }
    var subscriptionPrice := Price(subscriptionType.value);
    var baseUrl := BaseUrl(production, configuredBase);
    db.CreateOrder(newId, Order(sessionUser.value, subscriptionPrice, Pending, subscriptionType.value, now));
    sent := Some(RequestFor(baseUrl, newId, sessionUser.value, subscriptionType.value));
    if gateway.None? {
      return CreateFailed, sent;
    }
    reply := Json(Created(gateway.value.id, gateway.value.confirmationUrl, newId));
  }

  /** Without a session user the reply is 401; with one, a body that is not JSON or that
      lacks a non-empty subscriptionType gives 400. None of these creates an order or calls
      the gateway. */
  lemma RejectedRequestsCreateNothing(l: Ledger, sessionUser: Option<UserId>, body: Option<CreateBody>,
                                      production: bool, configuredBase: Option<string>, newId: OrderId,
                                      gateway: Option<CreatedPayment>, now: int)
    requires newId !in l.orders
    requires !Truthy(sessionUser) || body.None? || !Truthy(body.value.subscriptionType)
    ensures var o := Create(l, sessionUser, body, production, configuredBase, newId, gateway, now);
      && o.ledger == l && o.sent.None?
      && o.reply == (if !Truthy(sessionUser) then Fail(401, "Unauthorized")
                     else if body.None? then Fail(400, "Invalid or missing JSON body")
                     else Fail(400, "Subscription type is required"))
  {
  }

  /** An accepted request adds exactly one order, keyed by the new id: owned by the session
      user, priced by the price rule, pending, of the requested kind, created now. No user
      changes. */
  lemma AcceptedRequestCreatesPendingOrder(l: Ledger, uid: UserId, t: string, production: bool,
                                           configuredBase: Option<string>, newId: OrderId,
                                           gateway: Option<CreatedPayment>, now: int)
    requires newId !in l.orders && uid != "" && t != ""
    ensures var o := Create(l, Some(uid), Some(CreateBody(Some(t))), production, configuredBase, newId, gateway, now);
      && o.ledger.users == l.users
      && o.ledger.orders.Keys == l.orders.Keys + {newId}
      && (forall k :: k in l.orders ==> o.ledger.orders[k] == l.orders[k])
      && o.ledger.orders[newId].userId == uid
      && o.ledger.orders[newId].amount == (if t == "monthly" then 499 else 4999)
      && o.ledger.orders[newId].status == Pending
      && o.ledger.orders[newId].subscriptionType == t
      && o.ledger.orders[newId].createdAt == now
  {
    var o := Create(l, Some(uid), Some(CreateBody(Some(t))), production, configuredBase, newId, gateway, now);
    PlacesOrder(l, uid, t, production, configuredBase, newId, gateway, now);
    var orders := l.orders[newId := Order(uid, Price(t), Pending, t, now)];
    assert orders.Keys == l.orders.Keys + {newId};
  }

  /** An accepted request's tables: the order inserted, the users untouched. */
  lemma PlacesOrder(l: Ledger, uid: UserId, t: string, production: bool,
                    configuredBase: Option<string>, newId: OrderId,
                    gateway: Option<CreatedPayment>, now: int)
    requires newId !in l.orders && uid != "" && t != ""
    ensures Create(l, Some(uid), Some(CreateBody(Some(t))), production, configuredBase, newId, gateway, now).ledger
         == Ledger(l.orders[newId := Order(uid, Price(t), Pending, t, now)], l.users)
  {
  }

  /** The gateway is asked for the order's price with two decimals, in roubles, with
      capture, a return address on the success page that carries the order id, and metadata
      naming the order, the buyer and the kind of subscription. */
  lemma PayloadDescribesOrder(l: Ledger, uid: UserId, t: string, production: bool,
                              configuredBase: Option<string>, newId: OrderId,
                              gateway: Option<CreatedPayment>, now: int)
    requires newId !in l.orders && uid != "" && t != ""
    ensures var o := Create(l, Some(uid), Some(CreateBody(Some(t))), production, configuredBase, newId, gateway, now);
      && o.sent.Some?
      && var p := o.sent.value;
      && |p.amountValue| >= 4 && p.amountValue[|p.amountValue| - 3..] == ".00"
      && (forall i :: 0 <= i < |p.amountValue| - 3 ==> '0' <= p.amountValue[i] <= '9')
      && DecimalValue(p.amountValue[..|p.amountValue| - 3]) == o.ledger.orders[newId].amount
      && p.currency == "RUB" && p.capture
      && p.returnUrl == BaseUrl(production, configuredBase) + "/payment/success?orderId=" + newId
      && p.description == "Подписка (" + t + ") #" + newId
      && p.metadata == Metadata(Some(newId), Some(uid), Some(t))
  {
  }

  /** The order is stored before the gateway is called, so a failing gateway call leaves
      the pending order behind and the reply is 500; a successful one returns the gateway's
      payment id and confirmation URL with the new order id. */
  lemma GatewayOutcome(l: Ledger, uid: UserId, t: string, production: bool,
                       configuredBase: Option<string>, newId: OrderId,
                       gateway: Option<CreatedPayment>, now: int)
    requires newId !in l.orders && uid != "" && t != ""
    ensures var o := Create(l, Some(uid), Some(CreateBody(Some(t))), production, configuredBase, newId, gateway, now);
      && newId in o.ledger.orders && o.ledger.orders[newId].status == Pending
      && (gateway.None? ==> o.reply == Fail(500, "Failed to create payment"))
      && (gateway.Some? ==> o.reply == Json(Created(gateway.value.id, gateway.value.confirmationUrl, newId)))
  {
  }
}
