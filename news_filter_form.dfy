/** The stand-alone filter form (`NewsFilter` in src/components/shared/news-filter.tsx): a search
    field with a validation rule, category and author checkboxes that edit the form's lists,
    and the "active filters" badges, which only change when a submission passes validation. */
module NewsFilterForm {
  import opened Wrappers
  import opened Text
  import opened Lists

  /** The two list fields of the form. */
  datatype Field = Categories | Authors

  const MinSearch: nat := 3
  const MaxSearch: nat := 50
  const TooShort: string := "Поисковый запрос должен содержать минимум 3 символа"
  const TooLong: string := "Поисковый запрос не должен превышать 50 символов"

  // ----- the search rule of the schema -----

  /** `z.string().trim().min(3).max(50)`: the trimmed value, or the first check it fails.
      The bounds count UTF-16 code units, as JavaScript's `length` does. */
  function TrimmedRule(s: string): Result<string> {
    var t := Trim(s);
    if Utf16Length(t) < MinSearch then Err(TooShort)
    else if Utf16Length(t) > MaxSearch then Err(TooLong)
    else Ok(t)
  }

  /** The search entry of the schema: `.optional()` lets an absent value through, and
      `.or(z.literal(""))` accepts the raw empty string when the first rule refused it. The
      value handed on is the parsed one: trimmed, absent, or "". */
  function SearchRule(search: Option<string>): Result<Option<string>> {
    if search.None? then Ok(None)
    else
      match TrimmedRule(search.value)
      case Ok(t) => Ok(Some(t))
      case Err(m) => if search.value == "" then Ok(Some("")) else Err(m)
  }

  /** The rule accepts exactly the absent value, the empty string, and strings whose trimmed
      length lies between 3 and 50; an input made only of spaces is refused. What it passes on
      is the trimmed text, and a refusal names the bound that was missed. */
  lemma SearchRuleSpec(search: Option<string>)
    ensures SearchRule(search).Ok? <==>
      search.None? || search.value == "" || MinSearch <= Utf16Length(Trim(search.value)) <= MaxSearch
    ensures search.Some? && SearchRule(search).Ok? ==> SearchRule(search).value == Some(Trim(search.value))
    ensures search.Some? && SearchRule(search).Err? ==>
      SearchRule(search).message == (if Utf16Length(Trim(search.value)) < MinSearch then TooShort else TooLong)
  {
    if search.Some? && search.value == "" {
      TrimUnchanged("");
    }
  }

  /** Two emoji make a query of four code units, which the rule accepts although it is two
      characters long. */
  lemma TwoEmojiQueryAccepted(q: string)
    requires q == ['\U{1F600}', '\U{1F600}']
    ensures |q| == 2 && SearchRule(Some(q)) == Ok(Some(q))
  {
    assert IsAstral(q[0]) && IsAstral(q[1]);
    assert !IsSpace(q[0]) && !IsSpace(q[1]);
    TrimUnchanged(q);
    assert Utf16Length(q) == 4 by {
      assert q[1..] == ['\U{1F600}'] && q[1..][1..] == [];
      assert Utf16Length(q[1..][1..]) == 0;
      assert Utf16Length(q[1..]) == 2 + Utf16Length(q[1..][1..]);
    }
    assert TrimmedRule(q) == Ok(q);
  }

  // ----- labels -----

  datatype Choice = Choice(id: string, text: string)

  const CategoryChoices: seq<Choice> := [
    Choice("politics", "Политика"), Choice("technology", "Технологии"), Choice("science", "Наука"),
    Choice("health", "Здоровье"), Choice("sports", "Спорт"), Choice("culture", "Культура")]

  const AuthorChoices: seq<Choice> := [
    Choice("author1", "Алексей Петров"), Choice("author2", "Мария Иванова"),
    Choice("author3", "Дмитрий Соколов"), Choice("author4", "Елена Смирнова"),
    Choice("author5", "Игорь Козлов")]

  /** `choices.find(c => c.id === id)`: the first choice with that id. */
  function Find(choices: seq<Choice>, id: string): (r: Option<Choice>)
    ensures r.Some? ==> r.value in choices && r.value.id == id
    ensures r.None? ==> forall k :: 0 <= k < |choices| ==> choices[k].id != id
    decreases |choices|
  {
    if |choices| == 0 then None
    else if choices[0].id == id then Some(choices[0])
    else Find(choices[1..], id)
  }

  /** `choices.find(c => c.id === id)?.label || id`. */
  function Label(choices: seq<Choice>, id: string): (r: string)
    ensures (forall k :: 0 <= k < |choices| ==> choices[k].id != id) ==> r == id
  {
    var found := Find(choices, id);
    if found.Some? && found.value.text != "" then found.value.text else id
  }

  /** A table in which no id repeats and no label is empty. */
  predicate WellFormed(choices: seq<Choice>) {
    && (forall i, j :: 0 <= i < j < |choices| ==> choices[i].id != choices[j].id)
    && (forall k :: 0 <= k < |choices| ==> choices[k].text != "")
  }

  /** In a well-formed table an id present at position k is labelled with that entry's text. */
  lemma {:induction false} LabelOfKnownId(choices: seq<Choice>, id: string, k: nat)
    requires WellFormed(choices)
    requires k < |choices| && choices[k].id == id
    ensures Label(choices, id) == choices[k].text
    decreases k
  {
    if k > 0 {
      assert choices[0].id != id;
      assert WellFormed(choices[1..]) by {
        forall i, j | 0 <= i < j < |choices[1..]|
          ensures choices[1..][i].id != choices[1..][j].id
        {
          assert choices[1..][i] == choices[i + 1] && choices[1..][j] == choices[j + 1];
        }
      }
      LabelOfKnownId(choices[1..], id, k - 1);
    }
  }

  /** `getFilterLabel(type, id)`. */
  function GetFilterLabel(field: Field, id: string): string {
    Label(if field == Categories then CategoryChoices else AuthorChoices, id)
  }

  /** Both tables are well-formed, so every known id shows its table's text and any other id
      shows itself. */
  lemma GetFilterLabelSpec(field: Field, id: string)
    ensures var choices := if field == Categories then CategoryChoices else AuthorChoices;
      && (forall k :: 0 <= k < |choices| && choices[k].id == id ==> GetFilterLabel(field, id) == choices[k].text)
      && ((forall k :: 0 <= k < |choices| ==> choices[k].id != id) ==> GetFilterLabel(field, id) == id)
  {
    var choices := if field == Categories then CategoryChoices else AuthorChoices;
    assert WellFormed(choices);
    forall k | 0 <= k < |choices| && choices[k].id == id
      ensures GetFilterLabel(field, id) == choices[k].text
    {
      LabelOfKnownId(choices, id, k);
    }
  }

  // ----- the form's state -----

  /** The form's values (each list may be absent, as the schema allows) and the active
      filters shown as badges. */
  datatype FormState = FormState(search: Option<string>, categories: Option<seq<string>>,
                                 authors: Option<seq<string>>,
                                 activeCategories: seq<string>, activeAuthors: seq<string>)

  function Initial(): FormState {
    FormState(Some(""), Some([]), Some([]), [], [])
  }

  /** `form.handleSubmit(onSubmit)`: when the form passes the schema, the active filters become
      the form's lists, an absent list counting as []; otherwise nothing changes. */
  function Submitted(s: FormState): (r: FormState)
    ensures SearchRule(s.search).Ok? ==>
      r.activeCategories == s.categories.GetOr([]) && r.activeAuthors == s.authors.GetOr([])
    ensures SearchRule(s.search).Err? ==> r == s
    ensures r.(activeCategories := s.activeCategories, activeAuthors := s.activeAuthors) == s
  {
    if SearchRule(s.search).Ok? then
      s.(activeCategories := s.categories.GetOr([]), activeAuthors := s.authors.GetOr([]))
    else s
  }

  /** The list a field holds, [] when absent. */
  function Values(s: FormState, field: Field): seq<string> {
    if field == Categories then s.categories.GetOr([]) else s.authors.GetOr([])
  }

  /** The state with one field's list replaced. */
  function WithValues(s: FormState, field: Field, xs: seq<string>): FormState {
    if field == Categories then s.(categories := Some(xs)) else s.(authors := Some(xs))
  }

  /** `removeFilter(type, id)` before its re-submission: the id leaves that field's form list
      and that kind's active list. */
  function Unselected(s: FormState, field: Field, id: string): FormState {
    var cleared := WithValues(s, field, Without(Values(s, field), id));
    if field == Categories then cleared.(activeCategories := Without(s.activeCategories, id))
    else cleared.(activeAuthors := Without(s.activeAuthors, id))
  }

  /** `removeFilter(type, id)` as a whole, re-submission included. */
  function RemovedFilter(s: FormState, field: Field, id: string): FormState {
    Submitted(Unselected(s, field, id))
  }

  /** A checkbox change: checking appends its id to the field's list, unchecking removes every
      occurrence of it. */
  function Checked(s: FormState, field: Field, id: string, checked: bool): FormState {
    var current := Values(s, field);
    WithValues(s, field, if checked then current + [id] else Without(current, id))
  }

  class NewsFilter {
    var search: Option<string>
    var categories: Option<seq<string>>
    var authors: Option<seq<string>>
    var activeCategories: seq<string>
    var activeAuthors: seq<string>

    function State(): FormState
      reads this
    {
      FormState(search, categories, authors, activeCategories, activeAuthors)
    }

    constructor ()
      ensures State() == Initial()
    {
      search := Some("");
      categories := Some([]);
      authors := Some([]);
      activeCategories := [];
      activeAuthors := [];
    }

    /** Typing into the search field. */
    method Type(text: string)
      modifies this
      ensures State() == old(State()).(search := Some(text))
    {
      search := Some(text);
    }

    /** `form.handleSubmit(onSubmit)`. */
    method Submit()
      modifies this
      ensures State() == Submitted(old(State()))
    {
      if SearchRule(search).Ok? {
        activeCategories := if categories.Some? then categories.value else [];
        activeAuthors := if authors.Some? then authors.value else [];
      }
    }

    /** `removeFilter(type, id)`: edit the form value, edit the active list, submit. */
    method RemoveFilter(field: Field, id: string)
      modifies this
      ensures State() == RemovedFilter(old(State()), field, id)
    {
      if field == Categories {
        var current := if categories.Some? then categories.value else [];
        categories := Some(Without(current, id));
        activeCategories := Without(activeCategories, id);
      } else {
        var current := if authors.Some? then authors.value else [];
        authors := Some(Without(current, id));
        activeAuthors := Without(activeAuthors, id);
      }
      Submit();
    }

    /** A checkbox's `onCheckedChange`. */
    method OnCheckedChange(field: Field, id: string, checked: bool)
      modifies this
      ensures State() == Checked(old(State()), field, id, checked)
    {
      if field == Categories {
        var current := if categories.Some? then categories.value else [];
        categories := Some(if checked then current + [id] else Without(current, id));
      } else {
        var current := if authors.Some? then authors.value else [];
        authors := Some(if checked then current + [id] else Without(current, id));
      }
    }
  }

  /** Submitting twice is submitting once. */
  lemma SubmitIdempotent(s: FormState)
    ensures Submitted(Submitted(s)) == Submitted(s)
  {
  }

  /** Before its re-submission, `removeFilter` takes the id out of both the form list and the
      active list of its kind, keeps everything else in them, and leaves the other kind and the
      search text untouched. */
  lemma UnselectedSpec(s: FormState, field: Field, id: string)
    ensures var u := Unselected(s, field, id);
      && u.search == s.search
      && id !in Values(u, field)
      && multiset(Values(u, field)) == multiset(Values(s, field))[id := 0]
      && (field == Categories ==>
            && multiset(u.activeCategories) == multiset(s.activeCategories)[id := 0]
            && u.authors == s.authors && u.activeAuthors == s.activeAuthors)
      && (field == Authors ==>
            && multiset(u.activeAuthors) == multiset(s.activeAuthors)[id := 0]
            && u.categories == s.categories && u.activeCategories == s.activeCategories)
  {
    WithoutKeepsOthers(Values(s, field), id);
    WithoutKeepsOthers(s.activeCategories, id);
    WithoutKeepsOthers(s.activeAuthors, id);
  }

  /** After `removeFilter` the id is in neither the form list nor the active list of its kind,
      whether or not the re-submission passed; when it passed, the other kind's badges show the
      other kind's form list, unapplied checkbox changes included. */
  lemma RemovedFilterSpec(s: FormState, field: Field, id: string)
    ensures var r := RemovedFilter(s, field, id);
      && id !in Values(r, field)
      && id !in (if field == Categories then r.activeCategories else r.activeAuthors)
      && (SearchRule(s.search).Ok? ==>
            r.activeCategories == Values(r, Categories) && r.activeAuthors == Values(r, Authors))
      && (SearchRule(s.search).Err? ==> r == Unselected(s, field, id))
  {
  }

  /** Checking a box appends its id; unchecking it takes out every occurrence; a check then
      uncheck of an id that was not selected gives the list back. The other field is untouched. */
  lemma CheckedSpec(s: FormState, field: Field, id: string)
    ensures Values(Checked(s, field, id, true), field) == Values(s, field) + [id]
    ensures multiset(Values(Checked(s, field, id, false), field)) == multiset(Values(s, field))[id := 0]
    ensures id !in Values(s, field) ==>
      Values(Checked(Checked(s, field, id, true), field, id, false), field) == Values(s, field)
    ensures var other := if field == Categories then Authors else Categories;
      Values(Checked(s, field, id, true), other) == Values(s, other)
      && Values(Checked(s, field, id, false), other) == Values(s, other)
  {
    WithoutKeepsOthers(Values(s, field), id);
    if id !in Values(s, field) {
      ToggleTwiceAbsent(Values(s, field), id);
    }
  }
}
