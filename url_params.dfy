/** The query part of a URL as a `URLSearchParams` object holds it: an ordered list of
    name/value entries in which a name may repeat. Only the operations the filter component
    uses are modelled: `get`, `set` and `forEach`. Percent-encoding is not modelled. */
module UrlParams {
  import opened Wrappers

  type Params = seq<(string, string)>

  /** `params.get(name)`: the value of the first entry with that name. */
  function Get(ps: Params, name: string): (r: Option<string>)
    ensures r.None? <==> forall i :: 0 <= i < |ps| ==> ps[i].0 != name
    ensures r.Some? ==> FirstEntry(ps, name, r.value)
    decreases |ps|
  {
    if |ps| == 0 then None
    else if ps[0].0 == name then
      assert FirstEntry(ps, name, ps[0].1) by { assert ps[0] == (name, ps[0].1); }
      Some(ps[0].1)
    else
      var r := Get(ps[1..], name);
      assert forall i :: 1 <= i < |ps| ==> ps[1..][i - 1] == ps[i];
      if r.Some? then FirstEntryBehind(ps, name, r.value); r else r
  }

  /** Some entry carries the name and the value, and no entry before it carries the name. */
  predicate FirstEntry(ps: Params, name: string, value: string) {
    exists i :: 0 <= i < |ps| && ps[i] == (name, value) && forall j :: 0 <= j < i ==> ps[j].0 != name
  }

  lemma FirstEntryBehind(ps: Params, name: string, value: string)
    requires |ps| > 0 && ps[0].0 != name && FirstEntry(ps[1..], name, value)
    ensures FirstEntry(ps, name, value)
  {
    var i :| 0 <= i < |ps[1..]| && ps[1..][i] == (name, value) && forall j :: 0 <= j < i ==> ps[1..][j].0 != name;
    assert ps[i + 1] == (name, value);
    forall j | 0 <= j < i + 1 ensures ps[j].0 != name {
      if j > 0 { assert ps[j] == ps[1..][j - 1]; }
    }
  }

  /** The value of the last entry with that name. */
  function LastValue(ps: Params, name: string): Option<string>
    decreases |ps|
  {
    if |ps| == 0 then None
    else if ps[|ps| - 1].0 == name then Some(ps[|ps| - 1].1)
    else LastValue(ps[..|ps| - 1], name)
  }

  /** The entries whose name is not `name`, in order. */
  function RemoveAll(ps: Params, name: string): (r: Params)
    ensures forall e :: e in r <==> e in ps && e.0 != name
    decreases |ps|
  {
    if |ps| == 0 then []
    else if ps[0].0 == name then RemoveAll(ps[1..], name)
    else [ps[0]] + RemoveAll(ps[1..], name)
  }

  /** `params.set(name, value)`: the first entry with that name takes the value and the
      others with that name go; without such an entry, one is appended. */
  function Set(ps: Params, name: string, value: string): (r: Params)
    decreases |ps|
  {
    if |ps| == 0 then [(name, value)]
    else if ps[0].0 == name then [(name, value)] + RemoveAll(ps[1..], name)
    else [ps[0]] + Set(ps[1..], name, value)
  }

  lemma {:induction false} GetRemoveAll(ps: Params, name: string, other: string)
    requires other != name
    ensures Get(RemoveAll(ps, name), other) == Get(ps, other)
    decreases |ps|
  {
    if |ps| > 0 {
      GetRemoveAll(ps[1..], name, other);
    }
  }

  /** After `set`, `get` of that name gives the value set. */
  lemma {:induction false} GetSetSame(ps: Params, name: string, value: string)
    ensures Get(Set(ps, name, value), name) == Some(value)
    decreases |ps|
  {
    if |ps| > 0 && ps[0].0 != name {
      GetSetSame(ps[1..], name, value);
    }
  }

  /** `set` leaves what `get` answers for every other name. */
  lemma {:induction false} GetSetOther(ps: Params, name: string, value: string, other: string)
    requires other != name
    ensures Get(Set(ps, name, value), other) == Get(ps, other)
    decreases |ps|
  {
    if |ps| > 0 {
      if ps[0].0 == name {
        GetRemoveAll(ps[1..], name, other);
      } else {
        GetSetOther(ps[1..], name, value, other);
      }
    }
  }
}
