/** The filter panel's navigation (src/components/shared/news-filter-client.tsx). The active
    lists come in from the URL; every edit builds new lists and rewrites the URL with them,
    keeping the page's other query parameters. A search navigates to `/search/<query>`. */
module NewsFilterClient {
  import opened Wrappers
  import opened Text
  import opened Lists
  import opened UrlParams
  import NewsFilterServer

  datatype Kind = CategoryFilter | AuthorFilter

  /** Where the router is sent: `replace` keeps the history entry, `push` adds one.
      `withQuery` says whether the URL carries a `?`. */
  datatype Navigation = Navigation(replace: bool, path: string, withQuery: bool, params: Params)

  const CategoriesParam: string := "categories"
  const AuthorsParam: string := "authors"

  predicate IsListParam(name: string) {
    name == CategoriesParam || name == AuthorsParam
  }

  /** The entries `forEach` has copied after visiting the entries of `ps` in order: each one
      whose name is not a list parameter, through `set`. */
  function CopyOthers(ps: Params): Params
    decreases |ps|
  {
    if |ps| == 0 then []
    else
      var acc := CopyOthers(ps[..|ps| - 1]);
      var e := ps[|ps| - 1];
      if IsListParam(e.0) then acc else Set(acc, e.0, e.1)
  }

  /** The list parameters written onto `ps`: each list that is non-empty, comma-joined. */
  function WithLists(ps: Params, categories: seq<string>, authors: seq<string>): Params {
    var p := if |categories| > 0 then Set(ps, CategoriesParam, Join(categories, ',')) else ps;
    if |authors| > 0 then Set(p, AuthorsParam, Join(authors, ',')) else p
  }

  /** The query `updateURL(categories, authors)` produces from the current one. */
  function Rewritten(current: Params, categories: seq<string>, authors: seq<string>): Params {
    WithLists(CopyOthers(current), categories, authors)
  }

  /** `updateURL`: copy the other parameters one by one, then set the lists. */
  method UpdateURL(pathname: string, current: Params, categories: seq<string>, authors: seq<string>)
    returns (nav: Navigation)
    ensures nav == Navigation(true, pathname, true, Rewritten(current, categories, authors))
  {
    var next: Params := [];
    var i := 0;
    while i < |current|
      invariant 0 <= i <= |current|
      invariant next == CopyOthers(current[..i])
    {
      var (key, value) := current[i];
      assert current[..i + 1][..i] == current[..i];
      if !IsListParam(key) {
        next := Set(next, key, value);
      }
      i := i + 1;
    }
    assert current[..|current|] == current;
    if |categories| > 0 {
      next := Set(next, CategoriesParam, Join(categories, ','));
    }
    if |authors| > 0 {
      next := Set(next, AuthorsParam, Join(authors, ','));
    }
    nav := Navigation(true, pathname, true, next);
  }

  /** Every parameter other than the two lists survives the copy; when its name was repeated,
      the last value wins, as successive `set` calls leave it. The lists themselves are not
      copied. */
  lemma {:induction false} CopyOthersKeeps(ps: Params, name: string)
    ensures !IsListParam(name) ==> Get(CopyOthers(ps), name) == LastValue(ps, name)
    ensures IsListParam(name) ==> Get(CopyOthers(ps), name) == None
    decreases |ps|
  {
    if |ps| > 0 {
      var front := ps[..|ps| - 1];
      var e := ps[|ps| - 1];
      CopyOthersKeeps(front, name);
      if !IsListParam(e.0) {
        if e.0 == name {
          GetSetSame(CopyOthers(front), e.0, e.1);
        } else {
          GetSetOther(CopyOthers(front), e.0, e.1, name);
        }
      }
    }
  }

  /** What the rewritten URL says: every other parameter as before (its last value), and each
      list parameter present exactly when its list is non-empty, holding its comma-join. */
  lemma RewrittenSpec(current: Params, categories: seq<string>, authors: seq<string>, name: string)
    ensures var r := Rewritten(current, categories, authors);
      && (!IsListParam(name) ==> Get(r, name) == LastValue(current, name))
      && Get(r, CategoriesParam) == NewsFilterServer.EncodeList(categories)
      && Get(r, AuthorsParam) == NewsFilterServer.EncodeList(authors)
  {
    var base := CopyOthers(current);
    CopyOthersKeeps(current, name);
    CopyOthersKeeps(current, CategoriesParam);
    CopyOthersKeeps(current, AuthorsParam);
    var p := if |categories| > 0 then Set(base, CategoriesParam, Join(categories, ',')) else base;
    if |categories| > 0 {
      GetSetSame(base, CategoriesParam, Join(categories, ','));
      GetSetOther(base, CategoriesParam, Join(categories, ','), AuthorsParam);
      if !IsListParam(name) {
        GetSetOther(base, CategoriesParam, Join(categories, ','), name);
      }
    }
    if |authors| > 0 {
      GetSetSame(p, AuthorsParam, Join(authors, ','));
      GetSetOther(p, AuthorsParam, Join(authors, ','), CategoriesParam);
      if !IsListParam(name) {
        GetSetOther(p, AuthorsParam, Join(authors, ','), name);
      }
    }
  }

  /** The page that reads the rewritten URL sees exactly the lists that were written, when
      their names are non-empty and comma-free. */
  lemma RewrittenReadsBack(current: Params, categories: seq<string>, authors: seq<string>)
    requires forall k :: 0 <= k < |categories| ==> categories[k] != "" && ',' !in categories[k]
    requires forall k :: 0 <= k < |authors| ==> authors[k] != "" && ',' !in authors[k]
    ensures var r := Rewritten(current, categories, authors);
      && NewsFilterServer.ParseList(Get(r, CategoriesParam)) == categories
      && NewsFilterServer.ParseList(Get(r, AuthorsParam)) == authors
  {
    RewrittenSpec(current, categories, authors, CategoriesParam);
    NewsFilterServer.ParseEncodeRoundTrip(categories);
    NewsFilterServer.ParseEncodeRoundTrip(authors);
  }

  // ----- the handlers -----

  /** The lists after `toggleFilter(kind, id)`: only the list of that kind changes. */
  function Toggled(kind: Kind, id: string, categories: seq<string>, authors: seq<string>): (seq<string>, seq<string>) {
    if kind == CategoryFilter then (Toggle(categories, id), authors) else (categories, Toggle(authors, id))
  }

  /** The lists after `removeFilter(kind, id)`: only the list of that kind changes. */
  function Removed(kind: Kind, id: string, categories: seq<string>, authors: seq<string>): (seq<string>, seq<string>) {
    if kind == CategoryFilter then (Without(categories, id), authors) else (categories, Without(authors, id))
  }

  method ToggleFilter(pathname: string, current: Params, categories: seq<string>, authors: seq<string>, kind: Kind, id: string)
    returns (nav: Navigation)
    ensures var lists := Toggled(kind, id, categories, authors);
      nav == Navigation(true, pathname, true, Rewritten(current, lists.0, lists.1))
  {
    var list := if kind == CategoryFilter then categories else authors;
    var newList := if id in list then Without(list, id) else list + [id];
    if kind == CategoryFilter {
      nav := UpdateURL(pathname, current, newList, authors);
    } else {
      nav := UpdateURL(pathname, current, categories, newList);
    }
  }

  method RemoveFilter(pathname: string, current: Params, categories: seq<string>, authors: seq<string>, kind: Kind, id: string)
    returns (nav: Navigation)
    ensures var lists := Removed(kind, id, categories, authors);
      nav == Navigation(true, pathname, true, Rewritten(current, lists.0, lists.1))
  {
    if kind == CategoryFilter {
      nav := UpdateURL(pathname, current, Without(categories, id), authors);
    } else {
      nav := UpdateURL(pathname, current, categories, Without(authors, id));
    }
  }

  method ClearAllFilters(pathname: string, current: Params) returns (nav: Navigation)
    ensures nav == Navigation(true, pathname, true, Rewritten(current, [], []))
  {
    nav := UpdateURL(pathname, current, [], []);
  }

  /** `hasActiveFilters`. */
  predicate HasActiveFilters(categories: seq<string>, authors: seq<string>) {
    |categories| > 0 || |authors| > 0
  }

  /** `onSearchSubmit`: a query that is not blank once trimmed goes to the search page,
      carrying the lists and a `?` only when some list is non-empty; a blank one rewrites the
      current URL. `encode` stands for `encodeURIComponent`. */
  method OnSearchSubmit(pathname: string, current: Params, categories: seq<string>, authors: seq<string>,
                        input: Option<string>, encode: string -> string)
    returns (nav: Navigation)
    ensures input.Some? && Trim(input.value) != "" ==>
      nav == Navigation(false, "/search/" + encode(Trim(input.value)),
                        HasActiveFilters(categories, authors), WithLists([], categories, authors))
    ensures !(input.Some? && Trim(input.value) != "") ==>
      nav == Navigation(true, pathname, true, Rewritten(current, categories, authors))
  {
    var query := if input.Some? then Some(Trim(input.value)) else None;
    if Truthy(query) {
      var params: Params := [];
      if |categories| > 0 {
        params := Set(params, CategoriesParam, Join(categories, ','));
      }
      if |authors| > 0 {
        params := Set(params, AuthorsParam, Join(authors, ','));
      }
      var searchUrl := "/search/" + encode(query.value);
      nav := Navigation(false, searchUrl, |params| > 0, params);
      assert |params| > 0 <==> HasActiveFilters(categories, authors) by {
        if |categories| > 0 && |authors| > 0 {
          assert |Set(Set([], CategoriesParam, Join(categories, ',')), AuthorsParam, Join(authors, ','))| > 0;
        }
      }
    } else {
      nav := UpdateURL(pathname, current, categories, authors);
    }
  }

  /** Toggling one kind never changes the other kind's list; toggling an id that is absent
      appends it, toggling one that is present removes every occurrence, and toggling an
      absent id twice gives the list back. */
  lemma ToggleSpec(kind: Kind, id: string, categories: seq<string>, authors: seq<string>)
    ensures var t := Toggled(kind, id, categories, authors);
      && (kind == CategoryFilter ==> t.1 == authors)
      && (kind == AuthorFilter ==> t.0 == categories)
      && var (before, after) := if kind == CategoryFilter then (categories, t.0) else (authors, t.1);
      && (id !in before ==> after == before + [id])
      && (id in before ==> after == Without(before, id) && id !in after)
      && (id !in before ==> var t2 := Toggled(kind, id, t.0, t.1); (t2.0, t2.1) == (categories, authors))
  {
    if id !in categories { ToggleTwiceAbsent(categories, id); }
    if id !in authors { ToggleTwiceAbsent(authors, id); }
  }

  /** Removing drops exactly the occurrences of the id from the list of its kind, leaves the
      other list alone, and removing again changes nothing. */
  lemma RemoveSpec(kind: Kind, id: string, categories: seq<string>, authors: seq<string>)
    ensures var r := Removed(kind, id, categories, authors);
      && (kind == CategoryFilter ==> r.1 == authors && multiset(r.0) == multiset(categories)[id := 0])
      && (kind == AuthorFilter ==> r.0 == categories && multiset(r.1) == multiset(authors)[id := 0])
      && Removed(kind, id, r.0, r.1) == r
  {
    WithoutKeepsOthers(categories, id);
    WithoutKeepsOthers(authors, id);
    WithoutIdempotent(categories, id);
    WithoutIdempotent(authors, id);
  }

  /** After clearing, the URL holds neither list, every other parameter is kept, and the page
      that reads it shows no active filter. */
  lemma ClearAllSpec(current: Params, name: string)
    ensures var r := Rewritten(current, [], []);
      && Get(r, CategoriesParam) == None && Get(r, AuthorsParam) == None
      && (!IsListParam(name) ==> Get(r, name) == LastValue(current, name))
      && !HasActiveFilters(NewsFilterServer.ParseList(Get(r, CategoriesParam)),
                           NewsFilterServer.ParseList(Get(r, AuthorsParam)))
  {
    RewrittenSpec(current, [], [], name);
  }
}
