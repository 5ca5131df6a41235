/** Reading the active filter lists from the page's search parameters
    (src/components/shared/news-filter-server.tsx): `param?.split(",").filter(Boolean) || []`. */
module NewsFilterServer {
  import opened Wrappers
  import opened Text

  /** A comma list as read from one search parameter; absent reads as []. */
  function ParseList(param: Option<string>): (r: seq<string>)
    ensures param.None? ==> r == []
    ensures forall k :: 0 <= k < |r| ==> r[k] != ""
    ensures param.Some? ==> forall k :: 0 <= k < |r| ==> ',' !in r[k]
  {
    if param.None? then [] else DropEmpty(Split(param.value, ','))
  }

  /** How the filter component writes a list: its comma-join when the list is non-empty, no
      parameter at all when it is empty. */
  function EncodeList(xs: seq<string>): (r: Option<string>)
    ensures r.None? <==> xs == []
  {
    if |xs| > 0 then Some(Join(xs, ',')) else None
  }

  /** The segments that survive keep their order: when no segment is empty the list is the
      split itself, and every surviving segment is one of the split's. */
  lemma ParseKeepsSegments(s: string)
    ensures forall x :: x in ParseList(Some(s)) <==> x in Split(s, ',') && x != ""
    ensures (forall k :: 0 <= k < |Split(s, ',')| ==> Split(s, ',')[k] != "") ==> ParseList(Some(s)) == Split(s, ',')
  {
    var pieces := Split(s, ',');
    if forall k :: 0 <= k < |pieces| ==> pieces[k] != "" {
      DropEmptyKeepsNonEmpty(pieces);
    }
  }

  /** Writing a list of non-empty, comma-free names and reading it back gives the list. */
  lemma ParseEncodeRoundTrip(xs: seq<string>)
    requires forall k :: 0 <= k < |xs| ==> xs[k] != "" && ',' !in xs[k]
    ensures ParseList(EncodeList(xs)) == xs
  {
    if |xs| > 0 {
      SplitJoin(xs, ',');
      DropEmptyKeepsNonEmpty(xs);
    }
  }
}
