/** The favorites HTTP endpoints (src/app/api/favorites/route.ts) and the membership check
    (src/app/api/favorites/check/route.ts). Each is a decision table over the signed-in
    user, the request's news id and the favorites table. */
module FavoritesApi {
  import opened Wrappers
  import opened Store
  import opened FavoritesActions

  /** The body of a successful `POST`: the "Already in favorites" message or the new row. */
  datatype PostReply = AlreadyInFavorites | CreatedFavorite(favorite: Favorite)

  /** The parsed `POST` body; `newsId` is absent when the body has no such member. */
  datatype PostBody = PostBody(newsId: Option<string>)

  datatype PostOutcome = PostOutcome(favorites: seq<Favorite>, reply: Reply<PostReply>)
  datatype DeleteOutcome = DeleteOutcome(favorites: seq<Favorite>, reply: Reply<()>)

  /** `GET /api/favorites`: the user's favorited news, most recently favorited first. */
  function Get(favorites: seq<Favorite>, news: seq<News>, current: Option<UserId>): (r: Reply<seq<News>>)
    ensures current.None? <==> r == Fail(401, "Unauthorized")
  {
    if current.None? then Fail(401, "Unauthorized")
    else Json(NewsOf(Listing(favorites, news, current.value)))
  }

  /** The effect of `POST /api/favorites`. `body` is None when the request body is not a JSON
      object, which makes the handler throw. */
  function Post(favorites: seq<Favorite>, news: seq<News>, current: Option<UserId>, body: Option<PostBody>, now: int): PostOutcome {
    if current.None? then PostOutcome(favorites, Fail(401, "Unauthorized"))
    else if body.None? then PostOutcome(favorites, Fail(500, "Failed to add to favorites"))
    else if !Truthy(body.value.newsId) then PostOutcome(favorites, Fail(400, "News ID is required"))
    else
      var newsId := body.value.newsId.value;
      if !HasNews(news, newsId) then PostOutcome(favorites, Fail(404, "News not found"))
      else if HasPair(favorites, current.value, newsId) then PostOutcome(favorites, Json(AlreadyInFavorites))
      else
        var f := Favorite(current.value, newsId, now);
        PostOutcome(favorites + [f], Json(CreatedFavorite(f)))
  }

  /** The effect of `DELETE /api/favorites?newsId=…`; the delete throws when the pair is
      absent. */
  function Delete(favorites: seq<Favorite>, current: Option<UserId>, newsId: Option<string>): DeleteOutcome {
    if current.None? then DeleteOutcome(favorites, Fail(401, "Unauthorized"))
    else if !Truthy(newsId) then DeleteOutcome(favorites, Fail(400, "News ID is required"))
    else if !HasPair(favorites, current.value, newsId.value) then
      DeleteOutcome(favorites, Fail(500, "Failed to remove from favorites"))
    else DeleteOutcome(DropPair(favorites, current.value, newsId.value), Json(()))
  }

  /** `GET /api/favorites/check?newsId=…`: false when nobody is signed in, checked before the
      news id; 400 without a news id; otherwise whether the pair exists. */
  function Check(favorites: seq<Favorite>, current: Option<UserId>, newsId: Option<string>): (r: Reply<bool>)
    ensures current.None? ==> r == Json(false)
    ensures current.Some? && !Truthy(newsId) ==> r == Fail(400, "News ID is required")
    ensures r.Json? && r.body <==> current.Some? && Truthy(newsId) && HasPair(favorites, current.value, newsId.value)
  {
    if current.None? then Json(false)
    else if !Truthy(newsId) then Fail(400, "News ID is required")
    else Json(IsNewsFavorite(favorites, current, newsId.value))
  }

  method HandlePost(db: Db, current: Option<UserId>, body: Option<PostBody>, now: int) returns (reply: Reply<PostReply>)
    requires db.Valid()
    modifies db`favorites
    ensures db.Valid()
    ensures PostOutcome(db.favorites, reply) == Post(old(db.favorites), db.news, current, body, now)
  {
    if current.None? {
      return Fail(401, "Unauthorized");
    }
    if body.None? {
      return Fail(500, "Failed to add to favorites");
    }
    var newsId := body.value.newsId;
    if !Truthy(newsId) {
      return Fail(400, "News ID is required");
    }
    var found := FindNews(db.news, newsId.value);
    if found.None? {
      return Fail(404, "News not found");
    }
    var existing := IsNewsFavorite(db.favorites, current, newsId.value);
    if existing {
      return Json(AlreadyInFavorites);
    }
    var favorite := Favorite(current.value, newsId.value, now);
    db.CreateFavorite(favorite);
    return Json(CreatedFavorite(favorite));
  }

  method HandleDelete(db: Db, current: Option<UserId>, newsId: Option<string>) returns (reply: Reply<()>)
    requires db.Valid()
    modifies db`favorites
    ensures db.Valid()
    ensures DeleteOutcome(db.favorites, reply) == Delete(old(db.favorites), current, newsId)
  {
    if current.None? {
      return Fail(401, "Unauthorized");
    }
    if !Truthy(newsId) {
      return Fail(400, "News ID is required");
    }
    var deleted := db.DeleteFavorite(current.value, newsId.value);
    if !deleted {
      return Fail(500, "Failed to remove from favorites");
    }
    return Json(());
  }

  /** Every refused `POST` leaves the table alone, and the status tells why: 401 without a
      user, 500 for a body that is not JSON, 400 without a news id, 404 for an unknown item. */
  lemma PostRefusals(favorites: seq<Favorite>, news: seq<News>, current: Option<UserId>, body: Option<PostBody>, now: int)
    ensures var o := Post(favorites, news, current, body, now);
      && (o.reply.Fail? ==> o.favorites == favorites)
      && (o.reply == Fail(401, "Unauthorized") <==> current.None?)
      && (o.reply == Fail(400, "News ID is required") <==> current.Some? && body.Some? && !Truthy(body.value.newsId))
      && (o.reply == Fail(404, "News not found") <==>
            current.Some? && body.Some? && Truthy(body.value.newsId) && !HasNews(news, body.value.newsId.value))
  {
  }

  /** An accepted `POST` does what `addToFavorites` does: the same table afterwards, "Already
      in favorites" exactly when the action finds the pair present, the new row otherwise. */
  lemma PostAgreesWithAction(favorites: seq<Favorite>, news: seq<News>, uid: UserId, newsId: NewsId, now: int)
    requires newsId != "" && HasNews(news, newsId)
    ensures var p := Post(favorites, news, Some(uid), Some(PostBody(Some(newsId))), now);
      var a := Add(favorites, news, Some(uid), newsId, now);
      && p.favorites == a.favorites
      && (p.reply == Json(AlreadyInFavorites) <==> a.result == Ok(AlreadyFavorite))
      && (a.result.Ok? && a.result.value.Inserted? ==> p.reply == Json(CreatedFavorite(a.result.value.favorite)))
  {
  }

  /** A `POST` that inserts adds exactly one row, and a second identical `POST` inserts
      nothing and answers "Already in favorites". */
  lemma PostTwice(favorites: seq<Favorite>, news: seq<News>, current: Option<UserId>, body: Option<PostBody>, t1: int, t2: int)
    ensures var once := Post(favorites, news, current, body, t1);
      var twice := Post(once.favorites, news, current, body, t2);
      && |once.favorites| <= |favorites| + 1
      && twice.favorites == once.favorites
      && (once.reply.Json? ==> twice.reply == Json(AlreadyInFavorites))
  {
    var once := Post(favorites, news, current, body, t1);
    if once.reply.Json? && once.reply.body.CreatedFavorite? {
      assert once.favorites[|favorites|] == once.reply.body.favorite;
    }
  }

  /** `DELETE` refuses with 401, 400 or 500 and then changes nothing; a successful one
      removes the pair, exactly as `removeFromFavorites` does. */
  lemma DeleteAgreesWithAction(favorites: seq<Favorite>, current: Option<UserId>, newsId: Option<string>)
    ensures var d := Delete(favorites, current, newsId);
      && (d.reply.Fail? ==> d.favorites == favorites)
      && (d.reply == Fail(400, "News ID is required") <==> current.Some? && !Truthy(newsId))
      && (current.Some? && Truthy(newsId) ==>
            var r := Remove(favorites, current, newsId.value);
            d.favorites == r.favorites && (d.reply.Json? <==> r.result.Ok?))
      && (d.reply.Json? ==> !IsNewsFavorite(d.favorites, current, newsId.value))
  {
    RemoveEndsFavorite(favorites, current, newsId.GetOr(""));
  }

  /** `GET` and the check agree with the server actions for a signed-in user. */
  lemma ReadsAgreeWithActions(favorites: seq<Favorite>, news: seq<News>, uid: UserId, newsId: NewsId)
    requires newsId != ""
    ensures Get(favorites, news, Some(uid)) == Json(GetUserFavorites(favorites, news, Some(uid)))
    ensures Check(favorites, Some(uid), Some(newsId)) == Json(IsNewsFavorite(favorites, Some(uid), newsId))
  {
  }

  /** After a `POST` that succeeds the check says true; after a `DELETE` that succeeds it says
      false. */
  lemma CheckAfterWrites(favorites: seq<Favorite>, news: seq<News>, uid: UserId, newsId: NewsId, now: int)
    requires newsId != ""
    ensures var p := Post(favorites, news, Some(uid), Some(PostBody(Some(newsId))), now);
      p.reply.Json? ==> Check(p.favorites, Some(uid), Some(newsId)) == Json(true)
    ensures var d := Delete(favorites, Some(uid), Some(newsId));
      d.reply.Json? ==> Check(d.favorites, Some(uid), Some(newsId)) == Json(false)
  {
    AddMakesFavorite(favorites, news, Some(uid), newsId, now);
    RemoveEndsFavorite(favorites, Some(uid), newsId);
  }
}
