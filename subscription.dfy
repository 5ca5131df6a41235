/** What the three payment paths share: the metadata the gateway hands back, the length of
    a subscription term, and the two writes a reconciliation makes (an order's status, a
    user's entitlement). */
module Subscription {
  import opened Wrappers
  import opened Store

  /** The `metadata` object attached to a gateway payment at creation. */
  datatype Metadata = Metadata(
    orderId: Option<string>,
    userId: Option<string>,
    subscriptionType: Option<string>)

  /** `subscriptionType === "monthly" ? 30 : 365`. */
  function TermDays(subscriptionType: Option<string>): (days: int)
    ensures days == 30 || days == 365
    ensures days == 30 <==> subscriptionType == Some("monthly")
  {
    if subscriptionType == Some("monthly") then 30 else 365
  }

  /** The expiry written by a reconciliation at time `now`: `now` plus the term, counted
      from `now` and not from any earlier expiry. */
  function ExpiryAt(now: int, subscriptionType: Option<string>): (expires: int)
    ensures expires - now == 30 * DayMs || expires - now == 365 * DayMs
    ensures expires - now == 30 * DayMs <==> subscriptionType == Some("monthly")
  {
    now + TermDays(subscriptionType) * DayMs
  }

  /** The orders table after the order `id` is given `status`. */
  function WithStatus(orders: map<OrderId, Order>, id: OrderId, status: OrderStatus): (r: map<OrderId, Order>)
    requires id in orders
    ensures r.Keys == orders.Keys
    ensures r[id].status == status
    ensures r[id] == orders[id].(status := status)
    ensures forall k :: k in orders && k != id ==> r[k] == orders[k]
  {
    orders[id := orders[id].(status := status)]
  }

  /** The users table after user `id` is given an active subscription expiring at
      `expires`; no other column or user changes. */
  function Credited(users: map<UserId, User>, id: UserId, expires: int): (r: map<UserId, User>)
    requires id in users
    ensures r.Keys == users.Keys
    ensures r[id].subscriptionActive && r[id].subscriptionExpires == Some(expires)
    ensures r[id] == users[id].(subscriptionActive := true, subscriptionExpires := Some(expires))
    ensures forall k :: k in users && k != id ==> r[k] == users[k]
  {
    users[id := users[id].(subscriptionActive := true, subscriptionExpires := Some(expires))]
  }

  /** A user whose subscription is active and not yet past its expiry at time `now`. */
  predicate Entitled(u: User, now: int) {
    u.subscriptionActive && u.subscriptionExpires.Some? && now < u.subscriptionExpires.value
  }

  /** Crediting twice keeps only the second expiry: entitlement writes overwrite and never
      accumulate. */
  lemma CreditedOverwrites(users: map<UserId, User>, id: UserId, first: int, second: int)
    requires id in users
    ensures Credited(Credited(users, id, first), id, second) == Credited(users, id, second)
  {
  }

  /** A user credited at `now` is entitled exactly until the end of the term. */
  lemma CreditedEntitlement(users: map<UserId, User>, id: UserId, now: int, t: Option<string>, later: int)
    requires id in users
    ensures Entitled(Credited(users, id, ExpiryAt(now, t))[id], later) <==> later < now + TermDays(t) * DayMs
  {
  }
}
