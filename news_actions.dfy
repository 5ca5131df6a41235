/** The news server actions (src/actions/news.actions.ts): the filtered and unfiltered list
    queries, the distinct category and author lists, and create/update/delete on the news
    table. Case-insensitive matching (`mode: "insensitive"`) compares lower-cased text. */
module NewsActions {
  import opened Wrappers
  import opened Text
  import opened Lists
  import opened Sorting
  import opened Store

  /** The filters `getFilteredNews` accepts; every member may be absent. */
  datatype Filters = Filters(categories: Option<seq<string>>, authors: Option<seq<string>>, keyword: Option<string>)

  /** One entry of a `where` clause. */
  datatype Condition =
    | CategoryIn(categories: seq<string>)      // category: { in, mode: "insensitive" }
    | AuthorIn(authors: seq<string>)           // author: { in, mode: "insensitive" }
    | CategoryIs(category: string)             // category: { equals, mode: "insensitive" }
    | TitleHas(query: string)                  // title: { contains, mode: "insensitive" }
    | KeywordIn(keyword: string)               // OR of title/summary contains, insensitive

  function NewsTime(n: News): int { n.createdAt }

  /** x equals one of the values, ignoring case. */
  predicate InsensitiveIn(x: string, values: seq<string>) {
    exists k :: 0 <= k < |values| && EqualsIgnoreCase(values[k], x)
  }

  /** s contains p, ignoring case. */
  predicate InsensitiveContains(s: string, p: string) {
    Contains(Lower(s), Lower(p))
  }

  predicate Holds(c: Condition, f: NewsFields) {
    match c
    case CategoryIn(values) => InsensitiveIn(f.category, values)
    case AuthorIn(values) => InsensitiveIn(f.author, values)
    case CategoryIs(category) => EqualsIgnoreCase(f.category, category)
    case TitleHas(query) => InsensitiveContains(f.title, query)
    case KeywordIn(keyword) => InsensitiveContains(f.title, keyword) || InsensitiveContains(f.summary, keyword)
  }

  /** A row satisfies a `where` clause when it satisfies every entry; `{}` selects every row. */
  predicate AllHold(conds: seq<Condition>, f: NewsFields) {
    forall k :: 0 <= k < |conds| ==> Holds(conds[k], f)
  }

  /** The reference meaning of `getFilteredNews`: each filter that is given and non-empty must
      hold, and nothing else is asked of the item. */
  predicate Matches(filters: Filters, f: NewsFields) {
    && (filters.categories.Some? && |filters.categories.value| > 0 ==> InsensitiveIn(f.category, filters.categories.value))
    && (filters.authors.Some? && |filters.authors.value| > 0 ==> InsensitiveIn(f.author, filters.authors.value))
    && (Truthy(filters.keyword) ==>
          InsensitiveContains(f.title, filters.keyword.value) || InsensitiveContains(f.summary, filters.keyword.value))
  }

  /** The rows a `where` clause selects, in table order. */
  function Where(news: seq<News>, conds: seq<Condition>): (r: seq<News>)
    ensures |r| <= |news|
    ensures forall n :: n in r <==> n in news && AllHold(conds, n.fields)
    decreases |news|
  {
    if |news| == 0 then []
    else (if AllHold(conds, news[0].fields) then [news[0]] else []) + Where(news[1..], conds)
  }

  /** The rows the filters select, in table order: the reference for `getFilteredNews`. */
  function Select(news: seq<News>, filters: Filters): (r: seq<News>)
    ensures |r| <= |news|
    ensures forall n :: n in r <==> n in news && Matches(filters, n.fields)
    decreases |news|
  {
    if |news| == 0 then []
    else (if Matches(filters, news[0].fields) then [news[0]] else []) + Select(news[1..], filters)
  }

  /** A `where` clause that holds exactly when the filters match selects exactly the rows the
      filters select, in the same order. */
  lemma {:induction false} WhereIsSelect(news: seq<News>, conds: seq<Condition>, filters: Filters)
    requires forall f :: AllHold(conds, f) <==> Matches(filters, f)
    ensures Where(news, conds) == Select(news, filters)
    decreases |news|
  {
    if |news| > 0 {
      WhereIsSelect(news[1..], conds, filters);
    }
  }

  /** `findMany({ where, orderBy: { createdAt: "desc" } })`. */
  function FindMany(news: seq<News>, conds: seq<Condition>): (r: seq<News>)
    ensures NewestFirst(r, NewsTime)
    ensures multiset(r) == multiset(Where(news, conds))
  {
    SortNewestFirst(Where(news, conds), NewsTime)
  }

  /** The `where` clause of `getFilteredNews`, one `push` per given filter. */
  method BuildWhere(filters: Filters) returns (conds: seq<Condition>)
    ensures forall f :: AllHold(conds, f) <==> Matches(filters, f)
    ensures conds == [] <==>
      (filters.categories.None? || filters.categories.value == [])
      && (filters.authors.None? || filters.authors.value == [])
      && !Truthy(filters.keyword)
  {
    conds := [];
    if filters.categories.Some? && |filters.categories.value| > 0 {
      conds := conds + [CategoryIn(filters.categories.value)];
    }
    if filters.authors.Some? && |filters.authors.value| > 0 {
      conds := conds + [AuthorIn(filters.authors.value)];
    }
    if Truthy(filters.keyword) {
      conds := conds + [KeywordIn(filters.keyword.value)];
    }
    forall f ensures AllHold(conds, f) <==> Matches(filters, f) {
      if AllHold(conds, f) {
        var k := 0;
        if filters.categories.Some? && |filters.categories.value| > 0 {
          assert Holds(conds[k], f);
          k := k + 1;
        }
        if filters.authors.Some? && |filters.authors.value| > 0 {
          assert Holds(conds[k], f);
          k := k + 1;
        }
        if Truthy(filters.keyword) {
          assert Holds(conds[k], f);
        }
      }
    }
  }

  /** `getFilteredNews`: the matching items, newest first. */
  method GetFilteredNews(db: Db, filters: Filters) returns (r: seq<News>)
    ensures r == SortNewestFirst(Select(db.news, filters), NewsTime)
  {
    var conds := BuildWhere(filters);
    WhereIsSelect(db.news, conds, filters);
    r := FindMany(db.news, conds);
  }

  /** `getNewsItemById`. */
  function GetNewsItemById(news: seq<News>, id: NewsId): (r: Option<News>)
    ensures r.Some? <==> HasNews(news, id)
    ensures r.Some? ==> r.value in news && r.value.id == id
  {
    FindNews(news, id)
  }

  /** `getNewsByTitle`: items whose title contains the query, ignoring case, newest first. */
  function GetNewsByTitle(news: seq<News>, query: string): (r: seq<News>)
    ensures NewestFirst(r, NewsTime)
    ensures forall n :: n in r <==> n in news && InsensitiveContains(n.fields.title, query)
  {
    var conds := [TitleHas(query)];
    assert forall f :: AllHold(conds, f) <==> InsensitiveContains(f.title, query) by {
      forall f ensures AllHold(conds, f) <==> InsensitiveContains(f.title, query) {
        assert AllHold(conds, f) <==> Holds(conds[0], f);
      }
    }
    var r := FindMany(news, conds);
    SortKeepsMembers(Where(news, conds), NewsTime);
    r
  }

  /** `getNewsByCategory`. */
  function GetNewsByCategory(news: seq<News>, category: string): seq<News> {
    FindMany(news, [CategoryIs(category)])
  }

  /** `getNewsByCategoryAndKeyword`. */
  function GetNewsByCategoryAndKeyword(news: seq<News>, category: string, keyword: string): seq<News> {
    FindMany(news, [CategoryIs(category), KeywordIn(keyword)])
  }

  /** `getAllNews`: every item, newest first. */
  function GetAllNews(news: seq<News>): (r: seq<News>)
    ensures NewestFirst(r, NewsTime)
    ensures multiset(r) == multiset(news)
  {
    SortNewestFirst(news, NewsTime)
  }

  /** What `getFilteredNews` returns: exactly the stored items that pass every given filter,
      newest first. A given list filter admits an item whose value equals one of the list's
      entries ignoring case; a keyword admits an item whose title or summary contains it
      ignoring case. */
  lemma FilteredNewsSpec(news: seq<News>, filters: Filters)
    ensures var r := SortNewestFirst(Select(news, filters), NewsTime);
      && NewestFirst(r, NewsTime)
      && multiset(r) == multiset(Select(news, filters))
      && (forall n :: n in r <==> n in news && Matches(filters, n.fields))
  {
    var r := SortNewestFirst(Select(news, filters), NewsTime);
    assert forall n :: n in r <==> n in multiset(r);
  }

  /** With no category, no author and no keyword, every item comes back. */
  lemma NoFiltersSelectEverything(news: seq<News>, filters: Filters)
    requires filters.categories.None? || filters.categories.value == []
    requires filters.authors.None? || filters.authors.value == []
    requires !Truthy(filters.keyword)
    ensures Select(news, filters) == news
    ensures SortNewestFirst(Select(news, filters), NewsTime) == GetAllNews(news)
  {
    SelectAll(news, filters);
  }

  /** Filters that match every row select the whole table. */
  lemma {:induction false} SelectAll(news: seq<News>, filters: Filters)
    requires forall f :: Matches(filters, f)
    ensures Select(news, filters) == news
    decreases |news|
  {
    if |news| > 0 {
      SelectAll(news[1..], filters);
      assert news == [news[0]] + news[1..];
    }
  }

  /** `getNewsByCategory(c)` is `getFilteredNews({ categories: [c] })`. */
  lemma ByCategoryIsFiltered(news: seq<News>, category: string)
    ensures GetNewsByCategory(news, category)
         == SortNewestFirst(Select(news, Filters(Some([category]), None, None)), NewsTime)
  {
    var filters := Filters(Some([category]), None, None);
    var conds := [CategoryIs(category)];
    forall f ensures AllHold(conds, f) <==> Matches(filters, f) {
      assert AllHold(conds, f) <==> Holds(conds[0], f);
      assert InsensitiveIn(f.category, [category]) <==> EqualsIgnoreCase([category][0], f.category);
    }
    WhereIsSelect(news, conds, filters);
  }

  /** `getNewsByCategoryAndKeyword(c, k)` is `getFilteredNews({ categories: [c], keyword: k })`,
      an empty keyword included: it skips the keyword condition, and every text contains "". */
  lemma ByCategoryAndKeywordIsFiltered(news: seq<News>, category: string, keyword: string)
    ensures GetNewsByCategoryAndKeyword(news, category, keyword)
         == SortNewestFirst(Select(news, Filters(Some([category]), None, Some(keyword))), NewsTime)
  {
    var filters := Filters(Some([category]), None, Some(keyword));
    var conds := [CategoryIs(category), KeywordIn(keyword)];
    forall f ensures AllHold(conds, f) <==> Matches(filters, f) {
      assert AllHold(conds, f) <==> Holds(conds[0], f) && Holds(conds[1], f);
      assert InsensitiveIn(f.category, [category]) <==> EqualsIgnoreCase([category][0], f.category);
      if keyword == "" {
        assert Lower(keyword) == "";
        ContainsEmpty(Lower(f.title));
        assert Holds(conds[1], f);
      }
    }
    WhereIsSelect(news, conds, filters);
  }

  // ----- distinct values -----

  lemma {:induction false} DropEmptyNoDuplicates(xs: seq<string>)
    requires NoDuplicates(xs)
    ensures NoDuplicates(DropEmpty(xs))
    decreases |xs|
  {
    if |xs| > 0 {
      var rest := xs[1..];
      assert NoDuplicates(rest) by {
        forall i, j | 0 <= i < j < |rest| ensures rest[i] != rest[j] {
          assert rest[i] == xs[i + 1] && rest[j] == xs[j + 1];
        }
      }
      DropEmptyNoDuplicates(rest);
      assert xs[0] !in rest;
    }
  }

  function Categories(news: seq<News>): (r: seq<string>)
    ensures |r| == |news| && forall k :: 0 <= k < |news| ==> r[k] == news[k].fields.category
  {
    seq(|news|, k requires 0 <= k < |news| => news[k].fields.category)
  }

  function Authors(news: seq<News>): (r: seq<string>)
    ensures |r| == |news| && forall k :: 0 <= k < |news| ==> r[k] == news[k].fields.author
  {
    seq(|news|, k requires 0 <= k < |news| => news[k].fields.author)
  }

  /** `getAllCategories`: each non-empty category of the table exactly once. */
  function GetAllCategories(news: seq<News>): (r: seq<string>)
    ensures NoDuplicates(r)
    ensures forall c :: c in r <==> c != "" && exists n :: n in news && n.fields.category == c
  {
    var values := Categories(news);
    DistinctSpec(values);
    DropEmptyNoDuplicates(Distinct(values));
    assert forall c :: c in values <==> exists n :: n in news && n.fields.category == c by {
      forall c ensures c in values <==> exists n :: n in news && n.fields.category == c {
        if c in values {
          var k :| 0 <= k < |values| && values[k] == c;
          assert news[k] in news;
        }
        if exists n :: n in news && n.fields.category == c {
          var n :| n in news && n.fields.category == c;
          var k :| 0 <= k < |news| && news[k] == n;
          assert values[k] == c;
        }
      }
    }
    DropEmpty(Distinct(values))
  }

  /** `getAllAuthors`: each non-empty author of the table exactly once. */
  function GetAllAuthors(news: seq<News>): (r: seq<string>)
    ensures NoDuplicates(r)
    ensures forall a :: a in r <==> a != "" && exists n :: n in news && n.fields.author == a
  {
    var values := Authors(news);
    DistinctSpec(values);
    DropEmptyNoDuplicates(Distinct(values));
    assert forall a :: a in values <==> exists n :: n in news && n.fields.author == a by {
      forall a ensures a in values <==> exists n :: n in news && n.fields.author == a {
        if a in values {
          var k :| 0 <= k < |values| && values[k] == a;
          assert news[k] in news;
        }
        if exists n :: n in news && n.fields.author == a {
          var n :| n in news && n.fields.author == a;
          var k :| 0 <= k < |news| && news[k] == n;
          assert values[k] == a;
        }
      }
    }
    DropEmpty(Distinct(values))
  }

  // ----- writes -----

  const UpdateFailed: string := "Failed to update news item"
  /** The error the ORM raises for a delete whose row does not exist; it reaches the caller
      unchanged. */
  const DeleteMissing: string := "Record to delete does not exist."

  /** `createNewsItem`: stores the seven fields under the id the database assigns. */
  method CreateNewsItem(db: Db, id: NewsId, data: NewsFields, now: int) returns (item: News)
    requires db.Valid() && !HasNews(db.news, id)
    modifies db`news
    ensures db.Valid()
    ensures item == News(id, data, now)
    ensures db.news == old(db.news) + [item]
  {
    item := News(id, data, now);
    db.CreateNews(item);
  }

  /** `updateNewsItem`: overwrites the fields of `id`; fails when there is no such item. */
  method UpdateNewsItem(db: Db, id: NewsId, data: NewsFields) returns (result: Result<News>)
    requires db.Valid()
    modifies db`news
    ensures db.Valid()
    ensures result.Err? <==> !HasNews(old(db.news), id)
    ensures result.Err? ==> result.message == UpdateFailed && db.news == old(db.news)
    ensures result.Ok? ==>
      db.news == ReplaceNews(old(db.news), id, data) && result.value.id == id && result.value.fields == data
  {
    var before := FindNews(db.news, id);
    var ok := db.UpdateNews(id, data);
    if !ok {
      return Err(UpdateFailed);
    }
    return Ok(before.value.(fields := data));
  }

  /** `deleteNewsItem`: removes the item `id` and returns it; fails when there is no such item. */
  method DeleteNewsItem(db: Db, id: NewsId) returns (result: Result<News>)
    requires db.Valid()
    modifies db`news
    ensures db.Valid()
    ensures result.Err? <==> !HasNews(old(db.news), id)
    ensures result.Err? ==> result.message == DeleteMissing && db.news == old(db.news)
    ensures result.Ok? ==> db.news == DropNews(old(db.news), id) && result.value in old(db.news) && result.value.id == id
  {
    var before := FindNews(db.news, id);
    var ok := db.DeleteNews(id);
    if !ok {
      return Err(DeleteMissing);
    }
    return Ok(before.value);
  }

  /** A created item is found by its id with exactly the given fields. */
  lemma CreatedIsFound(news: seq<News>, id: NewsId, data: NewsFields, now: int)
    requires UniqueIds(news) && !HasNews(news, id)
    ensures GetNewsItemById(news + [News(id, data, now)], id) == Some(News(id, data, now))
  {
    var row := News(id, data, now);
    assert UniqueIds(news + [row]) by {
      forall i, j | 0 <= i < j < |news + [row]| ensures (news + [row])[i].id != (news + [row])[j].id {
        if j == |news| {
          assert (news + [row])[i] == news[i];
        }
      }
    }
    FindNewsUnique(news + [row], row);
  }

  /** After an update the item `id` has the new fields and keeps its creation time; no other
      item changes. */
  lemma UpdateOverwrites(news: seq<News>, id: NewsId, data: NewsFields)
    requires UniqueIds(news) && HasNews(news, id)
    ensures var after := ReplaceNews(news, id, data);
      var found := GetNewsItemById(after, id);
      && found.Some? && found.value.fields == data
      && found.value.createdAt == GetNewsItemById(news, id).value.createdAt
      && (forall n :: n in news && n.id != id ==> n in after)
  {
    var after := ReplaceNews(news, id, data);
    var old_ := FindNews(news, id).value;
    var k :| 0 <= k < |news| && news[k] == old_;
    assert UniqueIds(after) by {
      forall i, j | 0 <= i < j < |after| ensures after[i].id != after[j].id {
        assert after[i].id == news[i].id && after[j].id == news[j].id;
      }
    }
    assert after[k] == old_.(fields := data);
    FindNewsUnique(after, after[k]);
    forall n | n in news && n.id != id ensures n in after {
      var i :| 0 <= i < |news| && news[i] == n;
      assert after[i] == n;
    }
  }

  /** After a delete the item `id` is gone and every other item stays. */
  lemma DeleteRemoves(news: seq<News>, id: NewsId)
    ensures var after := DropNews(news, id);
      && GetNewsItemById(after, id).None?
      && (forall n :: n in news && n.id != id ==> n in after)
  {
  }
}
