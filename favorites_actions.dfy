/** The favorites server actions (src/actions/favorites.actions.ts): adding and removing a
    (user, news) pair for the signed-in user, and the three read-only queries over the pairs.
    `current` is the id of the user `getCurrentUser` finds, None when nobody is signed in. */
module FavoritesActions {
  import opened Wrappers
  import opened Store
  import opened Sorting

  const AddFailed: string := "Не удалось добавить новость в избранное"
  const RemoveFailed: string := "Не удалось удалить новость из избранного"

  /** A successful add: the pair was already there, or this row was inserted. */
  datatype Added = AlreadyFavorite | Inserted(favorite: Favorite)

  datatype AddOutcome = AddOutcome(favorites: seq<Favorite>, result: Result<Added>)
  datatype RemoveOutcome = RemoveOutcome(favorites: seq<Favorite>, result: Result<()>)

  /** A favorite row together with the news item it includes. */
  datatype Entry = Entry(favorite: Favorite, news: News)

  function FavoriteTime(f: Favorite): int { f.createdAt }
  function EntryTime(e: Entry): int { e.favorite.createdAt }

  // ----- queries -----

  /** `favorite.findMany({ where: { userId } })`: the user's rows in table order. */
  function UserRows(favorites: seq<Favorite>, userId: UserId): (r: seq<Favorite>)
    ensures |r| <= |favorites|
    ensures forall f :: f in r <==> f in favorites && f.userId == userId
    ensures forall f :: multiset(r)[f] == if f.userId == userId then multiset(favorites)[f] else 0
    decreases |favorites|
  {
    if |favorites| == 0 then []
    else
      assert favorites == [favorites[0]] + favorites[1..];
      (if favorites[0].userId == userId then [favorites[0]] else []) + UserRows(favorites[1..], userId)
  }

  /** Each row with its news item, in the order of `rows`; a row whose news item is gone is
      skipped (the schema's foreign key keeps the table free of such rows). */
  function Attach(rows: seq<Favorite>, news: seq<News>): (r: seq<Entry>)
    requires NewestFirst(rows, FavoriteTime)
    ensures NewestFirst(r, EntryTime)
    ensures |r| <= |rows|
    ensures forall e :: e in r ==> e.favorite in rows && e.news in news && e.news.id == e.favorite.newsId
    ensures forall f :: f in rows && HasNews(news, f.newsId) ==> exists e :: e in r && e.favorite == f
    ensures (forall f :: f in rows ==> HasNews(news, f.newsId)) ==> |r| == |rows|
    decreases |rows|
  {
    if |rows| == 0 then []
    else
      var rest := Attach(rows[1..], news);
      assert forall f :: f in rows ==> f == rows[0] || f in rows[1..];
      match FindNews(news, rows[0].newsId)
      case None =>
        assert !HasNews(news, rows[0].newsId);
        rest
      case Some(n) =>
        HeadIsNewest(rows, rest, n);
        var r := [Entry(rows[0], n)] + rest;
        assert r[0].favorite == rows[0] && r[0] in r;
        r
  }

  /** Placing the first row's entry before the entries of the later rows keeps the order. */
  lemma HeadIsNewest(rows: seq<Favorite>, rest: seq<Entry>, n: News)
    requires |rows| > 0 && NewestFirst(rows, FavoriteTime) && NewestFirst(rest, EntryTime)
    requires forall e :: e in rest ==> e.favorite in rows[1..]
    ensures NewestFirst([Entry(rows[0], n)] + rest, EntryTime)
  {
    var r := [Entry(rows[0], n)] + rest;
    forall i, j | 0 <= i < j < |r| ensures EntryTime(r[i]) >= EntryTime(r[j]) {
      if i == 0 {
        assert r[j] in rest;
        var k :| 0 <= k < |rows[1..]| && rows[1..][k] == r[j].favorite;
        assert rows[k + 1] == r[j].favorite;
      } else {
        assert r[i] == rest[i - 1] && r[j] == rest[j - 1];
      }
    }
  }

  /** The favorite rows of `entries`, in order. */
  function FavoritesOf(entries: seq<Entry>): seq<Favorite>
    decreases |entries|
  {
    if |entries| == 0 then [] else [entries[0].favorite] + FavoritesOf(entries[1..])
  }

  /** Attaching keeps each row whose news item exists, as often as it occurs, and no other. */
  lemma {:induction false} AttachKeepsLiveRows(rows: seq<Favorite>, news: seq<News>, f: Favorite)
    requires NewestFirst(rows, FavoriteTime)
    ensures multiset(FavoritesOf(Attach(rows, news)))[f]
            == if HasNews(news, f.newsId) then multiset(rows)[f] else 0
    decreases |rows|
  {
    if |rows| > 0 {
      var tail := rows[1..];
      TailNewestFirst(rows);
      AttachKeepsLiveRows(tail, news, f);
      AttachStep(rows, news);
      assert rows == [rows[0]] + tail;
      assert multiset(rows)[f] == multiset{rows[0]}[f] + multiset(tail)[f];
    }
  }

  /** One step of Attach, seen through the rows it keeps. */
  lemma AttachStep(rows: seq<Favorite>, news: seq<News>)
    requires |rows| > 0 && NewestFirst(rows, FavoriteTime)
    ensures NewestFirst(rows[1..], FavoriteTime)
    ensures FavoritesOf(Attach(rows, news))
            == (if HasNews(news, rows[0].newsId) then [rows[0]] else []) + FavoritesOf(Attach(rows[1..], news))
  {
    TailNewestFirst(rows);
    var rest := Attach(rows[1..], news);
    match FindNews(news, rows[0].newsId)
    case None =>
      assert Attach(rows, news) == rest;
      assert !HasNews(news, rows[0].newsId);
    case Some(n) =>
      var r := [Entry(rows[0], n)] + rest;
      assert Attach(rows, news) == r;
      assert r[1..] == rest;
  }

  lemma TailNewestFirst(rows: seq<Favorite>)
    requires |rows| > 0 && NewestFirst(rows, FavoriteTime)
    ensures NewestFirst(rows[1..], FavoriteTime)
  {
    var tail := rows[1..];
    forall i, j | 0 <= i < j < |tail| ensures FavoriteTime(tail[i]) >= FavoriteTime(tail[j]) {
      assert tail[i] == rows[i + 1] && tail[j] == rows[j + 1];
    }
  }

  /** The user's favorites with their news items, most recently favorited first: each of the
      user's rows whose news item exists appears exactly as often as it is stored. */
  function Listing(favorites: seq<Favorite>, news: seq<News>, userId: UserId): (r: seq<Entry>)
    ensures NewestFirst(r, EntryTime)
    ensures forall e :: e in r ==>
      e.favorite in favorites && e.favorite.userId == userId && e.news in news && e.news.id == e.favorite.newsId
    ensures forall f :: f in favorites && f.userId == userId && HasNews(news, f.newsId) ==>
      exists e :: e in r && e.favorite == f
    ensures forall f :: multiset(FavoritesOf(r))[f]
                        == if f.userId == userId && HasNews(news, f.newsId) then multiset(favorites)[f] else 0
  {
    var rows := SortNewestFirst(UserRows(favorites, userId), FavoriteTime);
    forall f ensures multiset(FavoritesOf(Attach(rows, news)))[f]
                     == if HasNews(news, f.newsId) then multiset(rows)[f] else 0 {
      AttachKeepsLiveRows(rows, news, f);
    }
    assert forall f :: f in rows <==> f in UserRows(favorites, userId) by {
      forall f ensures f in rows <==> f in UserRows(favorites, userId) {
        assert f in rows <==> f in multiset(rows);
      }
    }
    Attach(rows, news)
  }

  /** `isNewsFavorite`: whether the signed-in user has favorited the item, that is, whether
      one of the rows `getUserFavorites` would read names it. */
  function IsNewsFavorite(favorites: seq<Favorite>, current: Option<UserId>, newsId: NewsId): (r: bool)
    ensures r <==> current.Some? && exists f :: f in UserRows(favorites, current.value) && f.newsId == newsId
  {
    current.Some? && HasPair(favorites, current.value, newsId)
  }

  /** The news items of `entries`, in order. */
  function NewsOf(entries: seq<Entry>): (r: seq<News>)
    ensures |r| == |entries|
    ensures forall k :: 0 <= k < |entries| ==> r[k] == entries[k].news
  {
    seq(|entries|, k requires 0 <= k < |entries| => entries[k].news)
  }

  /** With unique news ids, every news item the user has favorited appears in the listing. */
  lemma ListingComplete(favorites: seq<Favorite>, news: seq<News>, userId: UserId)
    ensures UniqueIds(news) ==> forall n :: n in news && HasPair(favorites, userId, n.id) ==>
      n in NewsOf(Listing(favorites, news, userId))
  {
    var entries := Listing(favorites, news, userId);
    var r := NewsOf(entries);
    if UniqueIds(news) {
      forall n | n in news && HasPair(favorites, userId, n.id) ensures n in r {
        var i :| 0 <= i < |favorites| && favorites[i].userId == userId && favorites[i].newsId == n.id;
        assert favorites[i] in favorites;
        assert HasNews(news, favorites[i].newsId);
        var e :| e in entries && e.favorite == favorites[i];
        FindNewsUnique(news, n);
        FindNewsUnique(news, e.news);
        var k :| 0 <= k < |entries| && entries[k] == e;
        assert r[k] == n;
      }
    }
  }

  /** `getUserFavorites`: the news items of the user's favorites, most recently favorited
      first; [] when nobody is signed in. */
  function GetUserFavorites(favorites: seq<Favorite>, news: seq<News>, current: Option<UserId>): (r: seq<News>)
    ensures current.None? ==> r == []
    ensures forall n :: n in r ==> n in news && current.Some? && HasPair(favorites, current.value, n.id)
    ensures current.Some? && UniqueIds(news) ==>
      forall n :: n in news && HasPair(favorites, current.value, n.id) ==> n in r
    ensures current.Some? ==> r == NewsOf(Listing(favorites, news, current.value))
  {
    if current.None? then []
    else
      var entries := Listing(favorites, news, current.value);
      var r := NewsOf(entries);
      ListingComplete(favorites, news, current.value);
      assert forall n :: n in r ==> n in news && HasPair(favorites, current.value, n.id) by {
        forall n | n in r ensures n in news && HasPair(favorites, current.value, n.id) {
          var k :| 0 <= k < |r| && r[k] == n;
          assert entries[k] in entries;
          var f := entries[k].favorite;
          var i :| 0 <= i < |favorites| && favorites[i] == f;
        }
      }
      r
  }

  /** `getFavoritesCount`: how many favorites the user has; 0 when nobody is signed in. */
  function GetFavoritesCount(favorites: seq<Favorite>, current: Option<UserId>): (r: nat)
    ensures current.None? ==> r == 0
    ensures current.Some? ==> r == |UserRows(favorites, current.value)|
    ensures r > 0 ==> exists f :: f in favorites && f.userId == current.value
  {
    if current.None? then 0
    else
      var rows := UserRows(favorites, current.value);
      assert |rows| > 0 ==> rows[0] in rows;
      |rows|
  }

  // ----- actions -----

  /** The effect of `addToFavorites(newsId)`. */
  function Add(favorites: seq<Favorite>, news: seq<News>, current: Option<UserId>, newsId: NewsId, now: int): AddOutcome {
    if current.None? || !HasNews(news, newsId) then AddOutcome(favorites, Err(AddFailed))
    else if HasPair(favorites, current.value, newsId) then AddOutcome(favorites, Ok(AlreadyFavorite))
    else
      var f := Favorite(current.value, newsId, now);
      AddOutcome(favorites + [f], Ok(Inserted(f)))
  }

  /** The effect of `removeFromFavorites(newsId)`; the delete fails when the pair is absent. */
  function Remove(favorites: seq<Favorite>, current: Option<UserId>, newsId: NewsId): RemoveOutcome {
    if current.None? || !HasPair(favorites, current.value, newsId) then RemoveOutcome(favorites, Err(RemoveFailed))
    else RemoveOutcome(DropPair(favorites, current.value, newsId), Ok(()))
  }

  method AddToFavorites(db: Db, current: Option<UserId>, newsId: NewsId, now: int) returns (result: Result<Added>)
    requires db.Valid()
    modifies db`favorites
    ensures db.Valid()
    ensures AddOutcome(db.favorites, result) == Add(old(db.favorites), db.news, current, newsId, now)
  {
    if current.None? {
      return Err(AddFailed);
    }
    var found := FindNews(db.news, newsId);
    if found.None? {
      return Err(AddFailed);
    }
    var existing := IsNewsFavorite(db.favorites, current, newsId);
    if existing {
      return Ok(AlreadyFavorite);
    }
    var favorite := Favorite(current.value, newsId, now);
    db.CreateFavorite(favorite);
    return Ok(Inserted(favorite));
  }

  method RemoveFromFavorites(db: Db, current: Option<UserId>, newsId: NewsId) returns (result: Result<()>)
    requires db.Valid()
    modifies db`favorites
    ensures db.Valid()
    ensures RemoveOutcome(db.favorites, result) == Remove(old(db.favorites), current, newsId)
  {
    if current.None? {
      return Err(RemoveFailed);
    }
    var deleted := db.DeleteFavorite(current.value, newsId);
    if !deleted {
      return Err(RemoveFailed);
    }
    return Ok(());
  }

  // ----- properties -----

  /** Adding fails with no signed-in user or an unknown news item and then inserts nothing;
      otherwise the pair is a favorite afterwards, whether or not it was one before. */
  lemma AddMakesFavorite(favorites: seq<Favorite>, news: seq<News>, current: Option<UserId>, newsId: NewsId, now: int)
    ensures var o := Add(favorites, news, current, newsId, now);
      && (o.result.Err? <==> current.None? || !HasNews(news, newsId))
      && (o.result.Err? ==> o.favorites == favorites && o.result.message == "Не удалось добавить новость в избранное")
      && (o.result.Ok? ==> IsNewsFavorite(o.favorites, current, newsId))
  {
    var o := Add(favorites, news, current, newsId, now);
    if o.result.Ok? && !HasPair(favorites, current.value, newsId) {
      assert o.favorites[|favorites|] == Favorite(current.value, newsId, now);
    }
  }

  /** Adding a pair that is already there succeeds without inserting, so adding twice is
      adding once, and the table never holds a pair twice. */
  lemma AddIdempotent(favorites: seq<Favorite>, news: seq<News>, current: Option<UserId>, newsId: NewsId, t1: int, t2: int)
    ensures var once := Add(favorites, news, current, newsId, t1).favorites;
      Add(once, news, current, newsId, t2).favorites == once
  {
    var o := Add(favorites, news, current, newsId, t1);
    if o.result.Ok? && !HasPair(favorites, current.value, newsId) {
      assert o.favorites[|favorites|] == Favorite(current.value, newsId, t1);
    }
  }

  /** An insert adds exactly the row (user, newsId, now) at the end of the table. */
  lemma AddInsertsExactlyThePair(favorites: seq<Favorite>, news: seq<News>, uid: UserId, newsId: NewsId, now: int)
    requires HasNews(news, newsId) && !HasPair(favorites, uid, newsId)
    ensures Add(favorites, news, Some(uid), newsId, now)
         == AddOutcome(favorites + [Favorite(uid, newsId, now)], Ok(Inserted(Favorite(uid, newsId, now))))
  {
  }

  /** Removing fails with no signed-in user or when the pair is absent, changing nothing;
      otherwise the pair is no longer a favorite and every other row stays. */
  lemma RemoveEndsFavorite(favorites: seq<Favorite>, current: Option<UserId>, newsId: NewsId)
    ensures var o := Remove(favorites, current, newsId);
      && (o.result.Err? <==> !IsNewsFavorite(favorites, current, newsId))
      && (o.result.Err? ==> o.favorites == favorites && o.result.message == "Не удалось удалить новость из избранного")
      && (o.result.Ok? ==> !IsNewsFavorite(o.favorites, current, newsId))
      && (forall f :: f in favorites && (current.None? || f.userId != current.value || f.newsId != newsId)
            ==> f in o.favorites)
  {
  }

  lemma {:induction false} UserRowsAppend(xs: seq<Favorite>, ys: seq<Favorite>, userId: UserId)
    ensures UserRows(xs + ys, userId) == UserRows(xs, userId) + UserRows(ys, userId)
    decreases |xs|
  {
    if |xs| == 0 {
      assert xs + ys == ys;
    } else {
      assert (xs + ys)[1..] == xs[1..] + ys;
      UserRowsAppend(xs[1..], ys, userId);
    }
  }

  lemma {:induction false} UserRowsDrop(favorites: seq<Favorite>, userId: UserId, newsId: NewsId)
    requires UniquePairs(favorites) && HasPair(favorites, userId, newsId)
    ensures |UserRows(DropPair(favorites, userId, newsId), userId)| == |UserRows(favorites, userId)| - 1
    decreases |favorites|
  {
    var rest := favorites[1..];
    if favorites[0].userId == userId && favorites[0].newsId == newsId {
      DropPairAbsent(rest, userId, newsId);
    } else {
      assert HasPair(rest, userId, newsId) by {
        var i :| 0 <= i < |favorites| && favorites[i].userId == userId && favorites[i].newsId == newsId;
        assert i > 0 && rest[i - 1] == favorites[i];
      }
      assert UniquePairs(rest) by {
        forall i, j | 0 <= i < j < |rest|
          ensures rest[i].userId != rest[j].userId || rest[i].newsId != rest[j].newsId
        {
          assert rest[i] == favorites[i + 1] && rest[j] == favorites[j + 1];
        }
      }
      UserRowsDrop(rest, userId, newsId);
      var dropped := DropPair(rest, userId, newsId);
      assert DropPair(favorites, userId, newsId) == [favorites[0]] + dropped;
      assert ([favorites[0]] + dropped)[1..] == dropped;
    }
  }

  /** The count moves with the actions: an insert adds one, a successful remove takes one
      away, anything else leaves it. */
  lemma CountFollowsActions(favorites: seq<Favorite>, news: seq<News>, uid: UserId, newsId: NewsId, now: int)
    requires UniquePairs(favorites)
    ensures var a := Add(favorites, news, Some(uid), newsId, now);
      GetFavoritesCount(a.favorites, Some(uid))
        == GetFavoritesCount(favorites, Some(uid)) + (if a.result.Ok? && a.result.value.Inserted? then 1 else 0)
    ensures var r := Remove(favorites, Some(uid), newsId);
      GetFavoritesCount(r.favorites, Some(uid))
        == GetFavoritesCount(favorites, Some(uid)) - (if r.result.Ok? then 1 else 0)
  {
    CountAfterAdd(favorites, news, uid, newsId, now);
    CountAfterRemove(favorites, uid, newsId);
  }

  lemma CountAfterAdd(favorites: seq<Favorite>, news: seq<News>, uid: UserId, newsId: NewsId, now: int)
    ensures var a := Add(favorites, news, Some(uid), newsId, now);
      |UserRows(a.favorites, uid)|
        == |UserRows(favorites, uid)| + (if a.result.Ok? && a.result.value.Inserted? then 1 else 0)
  {
    var a := Add(favorites, news, Some(uid), newsId, now);
    if a.result.Ok? && a.result.value.Inserted? {
      var f := Favorite(uid, newsId, now);
      assert a.favorites == favorites + [f];
      UserRowsAppend(favorites, [f], uid);
      assert UserRows([f], uid) == [f] + UserRows([], uid);
    } else {
      assert a.favorites == favorites;
    }
  }

  lemma CountAfterRemove(favorites: seq<Favorite>, uid: UserId, newsId: NewsId)
    requires UniquePairs(favorites)
    ensures var r := Remove(favorites, Some(uid), newsId);
      |UserRows(r.favorites, uid)| == |UserRows(favorites, uid)| - (if r.result.Ok? then 1 else 0)
  {
    var r := Remove(favorites, Some(uid), newsId);
    if r.result.Ok? {
      UserRowsDrop(favorites, uid, newsId);
    } else {
      assert r.favorites == favorites;
    }
  }

  /** When every favorite refers to an existing news item, the listing has exactly as many
      items as the count reports. */
  lemma CountMatchesListing(favorites: seq<Favorite>, news: seq<News>, current: Option<UserId>)
    requires forall f :: f in favorites ==> HasNews(news, f.newsId)
    ensures |GetUserFavorites(favorites, news, current)| == GetFavoritesCount(favorites, current)
  {
    if current.Some? {
      var rows := UserRows(favorites, current.value);
      var sorted := SortNewestFirst(rows, FavoriteTime);
      assert |sorted| == |multiset(sorted)| == |multiset(rows)| == |rows|;
      forall f | f in sorted ensures HasNews(news, f.newsId) {
        assert f in multiset(sorted);
      }
    }
  }
}
