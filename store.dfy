/** The application's database as the model sees it: the rows of each table, the
    uniqueness constraints the database enforces, and the single-row writes the code issues
    through the ORM. An `update` or `delete` whose row does not exist fails (the ORM throws);
    that is the one kind of store failure the model represents. */
module Store {
  import opened Wrappers

  type UserId = string
  type OrderId = string
  type NewsId = string

  /** Milliseconds in a day: `24 * 60 * 60 * 1000`. Timestamps are milliseconds. */
  const DayMs: int := 24 * 60 * 60 * 1000

  datatype OrderStatus = Pending | Paid | Canceled {
    /** The value stored in the `status` column. */
    function Text(): string {
      match this
      case Pending => "pending"
      case Paid => "paid"
      case Canceled => "canceled"
    }
  }

  /** A row of `subscriptionOrder`. */
  datatype Order = Order(
    userId: UserId,
    amount: int,
    status: OrderStatus,
    subscriptionType: string,
    createdAt: int)

  /** The columns of `user` that the modelled code reads or writes. `password` holds a hash. */
  datatype User = User(
    email: string,
    password: Option<string>,
    name: Option<string>,
    image: Option<string>,
    subscriptionActive: bool,
    subscriptionExpires: Option<int>)

  /** A row of `favorite`; the pair (userId, newsId) is unique. */
  datatype Favorite = Favorite(userId: UserId, newsId: NewsId, createdAt: int)

  /** The seven editable fields of a news item (`NewsCreateInput`). */
  datatype NewsFields = NewsFields(
    title: string,
    summary: string,
    imageUrl: string,
    author: string,
    sourceUrl: string,
    source: string,
    category: string)

  /** A row of `news`. */
  datatype News = News(id: NewsId, fields: NewsFields, createdAt: int)

  /** A row of `session`, keyed by its session token. */
  datatype Session = Session(userId: UserId, expires: int)

  /** Orders and users: the part of the store that the payment flows read and write. */
  datatype Ledger = Ledger(orders: map<OrderId, Order>, users: map<UserId, User>)

  predicate UniqueEmails(users: map<UserId, User>) {
    forall a, b :: a in users && b in users && users[a].email == users[b].email ==> a == b
  }

  predicate UniquePairs(favorites: seq<Favorite>) {
    forall i, j :: 0 <= i < j < |favorites| ==>
      favorites[i].userId != favorites[j].userId || favorites[i].newsId != favorites[j].newsId
  }

  predicate UniqueIds(news: seq<News>) {
    forall i, j :: 0 <= i < j < |news| ==> news[i].id != news[j].id
  }

  /** Whether the favorites table holds the pair (userId, newsId). */
  predicate HasPair(favorites: seq<Favorite>, userId: UserId, newsId: NewsId) {
    exists i :: 0 <= i < |favorites| && favorites[i].userId == userId && favorites[i].newsId == newsId
  }

  predicate HasNews(news: seq<News>, id: NewsId) {
    exists i :: 0 <= i < |news| && news[i].id == id
  }

  /** `findUnique({ where: { id } })` on the news table. */
  function FindNews(news: seq<News>, id: NewsId): (r: Option<News>)
    ensures r.Some? <==> HasNews(news, id)
    ensures r.Some? ==> r.value in news && r.value.id == id
    decreases |news|
  {
    if |news| == 0 then None
    else if news[0].id == id then Some(news[0])
    else
      var r := FindNews(news[1..], id);
      assert HasNews(news, id) ==> news[0].id == id || HasNews(news[1..], id) by {
        if HasNews(news, id) {
          var i :| 0 <= i < |news| && news[i].id == id;
          if i > 0 { assert news[1..][i - 1].id == id; }
        }
      }
      assert HasNews(news[1..], id) ==> HasNews(news, id) by {
        if HasNews(news[1..], id) {
          var i :| 0 <= i < |news[1..]| && news[1..][i].id == id;
          assert news[i + 1].id == id;
        }
      }
      r
  }

  /** The favorites table without the row of (userId, newsId). */
  function DropPair(favorites: seq<Favorite>, userId: UserId, newsId: NewsId): (r: seq<Favorite>)
    ensures |r| <= |favorites|
    ensures forall f :: f in r <==> f in favorites && (f.userId != userId || f.newsId != newsId)
    decreases |favorites|
  {
    if |favorites| == 0 then []
    else if favorites[0].userId == userId && favorites[0].newsId == newsId then
      DropPair(favorites[1..], userId, newsId)
    else
      [favorites[0]] + DropPair(favorites[1..], userId, newsId)
  }

  /** The news table with the row of `id` given new fields. */
  function ReplaceNews(news: seq<News>, id: NewsId, fields: NewsFields): (r: seq<News>)
    ensures |r| == |news|
    ensures forall i :: 0 <= i < |news| ==>
      r[i] == if news[i].id == id then news[i].(fields := fields) else news[i]
  {
    seq(|news|, i requires 0 <= i < |news| =>
      if news[i].id == id then news[i].(fields := fields) else news[i])
  }

  /** The news table without the row of `id`. */
  function DropNews(news: seq<News>, id: NewsId): (r: seq<News>)
    ensures |r| <= |news|
    ensures forall n :: n in r <==> n in news && n.id != id
    decreases |news|
  {
    if |news| == 0 then []
    else if news[0].id == id then DropNews(news[1..], id)
    else [news[0]] + DropNews(news[1..], id)
  }

  /** The database. Each method is one ORM call on one table. */
  class Db {
    var orders: map<OrderId, Order>
    var users: map<UserId, User>
    var favorites: seq<Favorite>
    var news: seq<News>
    var sessions: map<string, Session>

    /** The constraints the database schema enforces. */
    ghost predicate Valid()
      reads this
    {
      UniqueEmails(users) && UniquePairs(favorites) && UniqueIds(news)
    }

    /** The orders and users tables together. */
    function LedgerView(): Ledger
      reads this
    {
      Ledger(orders, users)
    }

    constructor ()
      ensures Valid()
      ensures orders == map[] && users == map[] && favorites == [] && news == [] && sessions == map[]
    {
      orders, users, favorites, news, sessions := map[], map[], [], [], map[];
    }

    /** `subscriptionOrder.create`; `id` is the fresh key the database assigns. */
    method CreateOrder(id: OrderId, order: Order)
      requires id !in orders
      modifies this`orders
      ensures orders == old(orders)[id := order]
    {
      orders := orders[id := order];
    }

    /** `subscriptionOrder.update({ where: { id }, data: { status } })`. */
    method SetOrderStatus(id: OrderId, status: OrderStatus) returns (ok: bool)
      modifies this`orders
      ensures ok == (id in old(orders))
      ensures orders == if ok then old(orders)[id := old(orders)[id].(status := status)] else old(orders)
    {
      ok := id in orders;
      if ok {
        orders := orders[id := orders[id].(status := status)];
      }
    }

    /** `user.update({ where: { id }, data: { subscriptionActive: true, subscriptionExpires } })`. */
    method SetSubscription(id: UserId, expires: int) returns (ok: bool)
      requires Valid()
      modifies this`users
      ensures Valid()
      ensures ok == (id in old(users))
      ensures users == if ok
        then old(users)[id := old(users)[id].(subscriptionActive := true, subscriptionExpires := Some(expires))]
        else old(users)
    {
      ok := id in users;
      if ok {
        users := users[id := users[id].(subscriptionActive := true, subscriptionExpires := Some(expires))];
      }
    }

    /** `user.update` writing `name` and/or `image`; an absent value leaves its column as is. */
    method SetProfile(id: UserId, name: Option<string>, image: Option<string>) returns (ok: bool)
      requires Valid()
      modifies this`users
      ensures Valid()
      ensures ok == (id in old(users))
      ensures users == if ok
        then old(users)[id := old(users)[id].(
          name := if name.Some? then name else old(users)[id].name,
          image := if image.Some? then image else old(users)[id].image)]
        else old(users)
    {
      ok := id in users;
      if ok {
        var u := users[id];
        if name.Some? {
          u := u.(name := name);
        }
        if image.Some? {
          u := u.(image := image);
        }
        users := users[id := u];
      }
    }

    /** `user.create`; the caller has checked that no user has this email. */
    method CreateUser(id: UserId, user: User)
      requires Valid()
      requires id !in users
      requires forall k :: k in users ==> users[k].email != user.email
      modifies this`users
      ensures Valid()
      ensures users == old(users)[id := user]
    {
      users := users[id := user];
    }

    /** `favorite.create`; the caller has checked that the pair is not present. */
    method CreateFavorite(f: Favorite)
      requires Valid()
      requires !HasPair(favorites, f.userId, f.newsId)
      modifies this`favorites
      ensures Valid()
      ensures favorites == old(favorites) + [f]
    {
      favorites := favorites + [f];
    }

    /** `favorite.delete({ where: { userId_newsId } })`: fails when the pair is absent. */
    method DeleteFavorite(userId: UserId, newsId: NewsId) returns (ok: bool)
      requires Valid()
      modifies this`favorites
      ensures Valid()
      ensures ok == HasPair(old(favorites), userId, newsId)
      ensures favorites == if ok then DropPair(old(favorites), userId, newsId) else old(favorites)
    {
      ok := exists i :: 0 <= i < |favorites| && favorites[i].userId == userId && favorites[i].newsId == newsId;
      if ok {
        DropPairUnique(favorites, userId, newsId);
        favorites := DropPair(favorites, userId, newsId);
      }
    }

    /** `news.create`; `row.id` is the fresh key the database assigns. */
    method CreateNews(row: News)
      requires Valid()
      requires !HasNews(news, row.id)
      modifies this`news
      ensures Valid()
      ensures news == old(news) + [row]
    {
      news := news + [row];
    }

    /** `news.update({ where: { id }, data })`: fails when no row has this id. */
    method UpdateNews(id: NewsId, fields: NewsFields) returns (ok: bool)
      requires Valid()
      modifies this`news
      ensures Valid()
      ensures ok == HasNews(old(news), id)
      ensures news == if ok then ReplaceNews(old(news), id, fields) else old(news)
    {
      ok := exists i :: 0 <= i < |news| && news[i].id == id;
      if ok {
        news := ReplaceNews(news, id, fields);
      }
    }

    /** `news.delete({ where: { id } })`: fails when no row has this id. */
    method DeleteNews(id: NewsId) returns (ok: bool)
      requires Valid()
      modifies this`news
      ensures Valid()
      ensures ok == HasNews(old(news), id)
      ensures news == if ok then DropNews(old(news), id) else old(news)
    {
      ok := exists i :: 0 <= i < |news| && news[i].id == id;
      if ok {
        DropNewsUnique(news, id);
        news := DropNews(news, id);
      }
    }

    /** The adapter's `createSession`, an insert into the session table: the row refers to a
        user, so the insert is rejected for an unknown user id (`ok` false stands for that
        rejection); it never completes without a row. */
    method CreateSession(token: string, session: Session) returns (ok: bool)
      requires token !in sessions
      modifies this`sessions
      ensures ok == (session.userId in users)
      ensures sessions == if ok then old(sessions)[token := session] else old(sessions)
    {
      ok := session.userId in users;
      if ok {
        sessions := sessions[token := session];
      }
    }
  }

  /** With unique ids, looking a row's id up finds that very row. */
  lemma {:induction false} FindNewsUnique(news: seq<News>, n: News)
    requires UniqueIds(news) && n in news
    ensures FindNews(news, n.id) == Some(n)
    decreases |news|
  {
    if news[0] != n {
      assert n in news[1..];
      FindNewsUnique(news[1..], n);
    }
  }

  /** Dropping a pair that is not there leaves the table as it was. */
  lemma {:induction false} DropPairAbsent(favorites: seq<Favorite>, userId: UserId, newsId: NewsId)
    requires !HasPair(favorites, userId, newsId)
    ensures DropPair(favorites, userId, newsId) == favorites
    decreases |favorites|
  {
    if |favorites| > 0 {
      DropPairAbsent(favorites[1..], userId, newsId);
      assert favorites == [favorites[0]] + favorites[1..];
    }
  }

  lemma {:induction false} DropPairUnique(favorites: seq<Favorite>, userId: UserId, newsId: NewsId)
    requires UniquePairs(favorites)
    ensures UniquePairs(DropPair(favorites, userId, newsId))
    decreases |favorites|
  {
    if |favorites| > 0 {
      DropPairUnique(favorites[1..], userId, newsId);
      var rest := DropPair(favorites[1..], userId, newsId);
      forall f | f in rest ensures f.userId != favorites[0].userId || f.newsId != favorites[0].newsId {
        var j :| 0 <= j < |favorites[1..]| && favorites[1..][j] == f;
        assert favorites[j + 1] == f;
      }
    }
  }

  lemma {:induction false} DropNewsUnique(news: seq<News>, id: NewsId)
    requires UniqueIds(news)
    ensures UniqueIds(DropNews(news, id))
    decreases |news|
  {
    if |news| > 0 {
      DropNewsUnique(news[1..], id);
      var rest := DropNews(news[1..], id);
      forall n | n in rest ensures n.id != news[0].id {
        var j :| 0 <= j < |news[1..]| && news[1..][j] == n;
        assert news[j + 1] == n;
      }
    }
  }
}
