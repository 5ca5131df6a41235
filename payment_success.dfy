/** The page the gateway redirects to (`PaymentSuccessContent` in
    src/app/payment/success/page.tsx). Loading it with the id of a pending order, while
    signed in, marks the order paid and credits the order's owner; the gateway is never
    asked whether the payment went through. */
module PaymentSuccess {
  import opened Wrappers
  import opened Store
  import opened Subscription

  /** The order card: its creation time and the status line. */
  datatype ShownOrder = ShownOrder(createdAt: int, statusLabel: string)

  /** What the page renders: the "order updated" note, and the order card (None renders the
      generic thank-you text). */
  datatype Page = Page(paymentUpdated: bool, order: Option<ShownOrder>)

  datatype Outcome = Outcome(ledger: Ledger, page: Page)

  /** `order.status === "paid" ? "Оплачен" : order.status`. */
  function StatusLabel(s: OrderStatus): (r: string)
    ensures s == Paid ==> r == "Оплачен"
    ensures s != Paid ==> r == s.Text()
  {
    if s == Paid then "Оплачен" else s.Text()
  }

  function Shown(o: Order): ShownOrder {
    ShownOrder(o.createdAt, StatusLabel(o.status))
  }

  /** The effect of one page load. */
  function SuccessPage(l: Ledger, orderId: Option<string>, sessionUser: Option<UserId>, now: int): Outcome {
    if !Truthy(orderId) || orderId.value !in l.orders then Outcome(l, Page(false, None))
    else
      var o := l.orders[orderId.value];
      if o.status != Pending || !Truthy(sessionUser) then Outcome(l, Page(false, Some(Shown(o))))
      else
        var orders := WithStatus(l.orders, orderId.value, Paid);
        var users := if o.userId in l.users
          then Credited(l.users, o.userId, ExpiryAt(now, Some(o.subscriptionType)))
          else l.users;
        Outcome(Ledger(orders, users), Page(true, Some(Shown(o.(status := Paid)))))
  }

  /** The server component: `order` and `paymentUpdated` are reassigned as the updates
      succeed; a failing user update is logged and the page still shows the order paid. */
  method LoadSuccessPage(db: Db, orderId: Option<string>, sessionUser: Option<UserId>, now: int)
    returns (page: Page)
    requires db.Valid()
    modifies db`orders, db`users
    ensures db.Valid()
    ensures Outcome(db.LedgerView(), page) == SuccessPage(old(db.LedgerView()), orderId, sessionUser, now)
  {
    var order: Option<Order> := None;
    var paymentUpdated := false;
    if Truthy(orderId) {
      if orderId.value in db.orders {
        order := Some(db.orders[orderId.value]);
      }
      if order.Some? && order.value.status == Pending {
        if Truthy(sessionUser) {
          var orderUpdated := db.SetOrderStatus(orderId.value, Paid);
          order := Some(order.value.(status := Paid));
          paymentUpdated := true;
          var expires := now + TermDays(Some(order.value.subscriptionType)) * DayMs;
          var userUpdated := db.SetSubscription(order.value.userId, expires);
        }
      }
    }
    page := Page(paymentUpdated, if order.Some? then Some(Shown(order.value)) else None);
  }

  /** Without an order id, or with an unknown one, nothing is written and no order is shown. */
  lemma NoOrderNoChange(l: Ledger, orderId: Option<string>, sessionUser: Option<UserId>, now: int)
    requires !Truthy(orderId) || orderId.value !in l.orders
    ensures SuccessPage(l, orderId, sessionUser, now) == Outcome(l, Page(false, None))
  {
  }

  /** Loading the page for an order that is already paid or canceled changes nothing. */
  lemma TerminalOrderNoChange(l: Ledger, oid: OrderId, sessionUser: Option<UserId>, now: int)
    requires oid in l.orders && l.orders[oid].status != Pending
    ensures var o := SuccessPage(l, Some(oid), sessionUser, now);
      o.ledger == l && !o.page.paymentUpdated
  {
  }

  /** The page reports an update exactly when the transition was applied: an order id was
      given, the order exists and is pending, and a session user exists. */
  lemma UpdatedExactlyWhenApplied(l: Ledger, orderId: Option<string>, sessionUser: Option<UserId>, now: int)
    ensures var o := SuccessPage(l, orderId, sessionUser, now);
      && (o.page.paymentUpdated <==>
            Truthy(orderId) && orderId.value in l.orders
            && l.orders[orderId.value].status == Pending && Truthy(sessionUser))
      && (!o.page.paymentUpdated ==> o.ledger == l)
  {
  }

  /** On the transition the order becomes paid, the order's owner (not the session user) is
      credited for 30 or 365 days from now, and the card reads "Оплачен". */
  lemma TransitionCreditsOwner(l: Ledger, oid: OrderId, sessionUser: UserId, now: int)
    requires oid != "" && sessionUser != ""
    requires oid in l.orders && l.orders[oid].status == Pending && l.orders[oid].userId in l.users
    ensures var order := l.orders[oid];
      var o := SuccessPage(l, Some(oid), Some(sessionUser), now);
      && o.ledger.orders[oid].status == Paid
      && o.ledger.users[order.userId].subscriptionActive
      && o.ledger.users[order.userId].subscriptionExpires
           == Some(now + (if order.subscriptionType == "monthly" then 30 else 365) * DayMs)
      && (forall u :: u in l.users && u != order.userId ==> o.ledger.users[u] == l.users[u])
      && o.page == Page(true, Some(ShownOrder(order.createdAt, "Оплачен")))
  {
  }

  /** An owner missing from the users table is not credited, yet the order is paid and the
      page still reports the update. */
  lemma MissingOwnerStillReportsUpdate(l: Ledger, oid: OrderId, sessionUser: UserId, now: int)
    requires oid != "" && sessionUser != ""
    requires oid in l.orders && l.orders[oid].status == Pending && l.orders[oid].userId !in l.users
    ensures var o := SuccessPage(l, Some(oid), Some(sessionUser), now);
      o.ledger.users == l.users && o.ledger.orders[oid].status == Paid && o.page.paymentUpdated
  {
  }

  /** Reloading the page changes nothing more: the first load leaves the order terminal or
      leaves the store as it was. */
  lemma ReloadChangesNothing(l: Ledger, orderId: Option<string>, sessionUser: Option<UserId>, first: int, second: int)
    ensures var once := SuccessPage(l, orderId, sessionUser, first).ledger;
      SuccessPage(once, orderId, sessionUser, second).ledger == once
  {
  }
}
