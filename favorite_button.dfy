/** The bookmark button (`FavoriteButton` in src/components/shared/add-to-favorite-button.tsx).
    A click flips the shown state at once and tells the parent, then calls the server; when
    the call fails the state flips back. While a call is in flight further clicks do nothing.
    The click and the server's answer are two steps here, because other events (a new
    `initialIsFavorite`) can come between them. */
module FavoriteButton {
  import opened Wrappers
  import opened Store
  import FavoritesActions

  /** Which server action a click started. */
  datatype Call = AddCall | RemoveCall

  /** The call awaiting its answer and the optimistic value the click showed. */
  datatype InFlight = InFlight(call: Call, newStatus: bool)

  /** The component's state: the shown value, the pending flag, the call in flight, and every
      value passed to `onStatusChange` so far. */
  datatype ButtonState = ButtonState(isFavorite: bool, isPending: bool, inFlight: Option<InFlight>, notified: seq<bool>)

  /** A call is in flight exactly while the button is pending. */
  predicate Consistent(s: ButtonState) {
    s.isPending <==> s.inFlight.Some?
  }

  /** The first render. */
  function Initial(initialIsFavorite: bool): (s: ButtonState)
    ensures Consistent(s) && !s.isPending && s.isFavorite == initialIsFavorite && s.notified == []
  {
    ButtonState(initialIsFavorite, false, None, [])
  }

  /** `toggleFavorite` up to the server call. */
  function Click(s: ButtonState): ButtonState {
    if s.isPending then s
    else
      var newStatus := !s.isFavorite;
      ButtonState(newStatus, true, Some(InFlight(if s.isFavorite then RemoveCall else AddCall, newStatus)),
                  s.notified + [newStatus])
  }

  /** `toggleFavorite` after the server call answered (`ok`) or threw (`!ok`). */
  function Settle(s: ButtonState, ok: bool): ButtonState
    requires s.inFlight.Some?
  {
    var newStatus := s.inFlight.value.newStatus;
    if ok then s.(isPending := false, inFlight := None)
    else ButtonState(!newStatus, false, None, s.notified + [!newStatus])
  }

  /** The effect that copies a new `initialIsFavorite` into the state. */
  function Resync(s: ButtonState, initialIsFavorite: bool): ButtonState {
    s.(isFavorite := initialIsFavorite)
  }

  class Button {
    const newsId: NewsId
    var isFavorite: bool
    var isPending: bool
    var inFlight: Option<InFlight>
    var notified: seq<bool>

    function State(): ButtonState
      reads this
    {
      ButtonState(isFavorite, isPending, inFlight, notified)
    }

    constructor (newsId: NewsId, initialIsFavorite: bool)
      ensures this.newsId == newsId
      ensures State() == Initial(initialIsFavorite)
    {
      this.newsId := newsId;
      isFavorite := initialIsFavorite;
      isPending := false;
      inFlight := None;
      notified := [];
    }

    method OnClick()
      modifies this
      ensures State() == Click(old(State()))
    {
      if isPending {
        return;
      }
      isPending := true;
      var newStatus := !isFavorite;
      var call := if isFavorite then RemoveCall else AddCall;
      isFavorite := newStatus;
      notified := notified + [newStatus];
      inFlight := Some(InFlight(call, newStatus));
    }

    method OnServerAnswer(ok: bool)
      requires inFlight.Some?
      modifies this
      ensures State() == Settle(old(State()), ok)
    {
      var newStatus := inFlight.value.newStatus;
      if !ok {
        isFavorite := !newStatus;
        notified := notified + [!newStatus];
      }
      isPending := false;
      inFlight := None;
    }

    method OnInitialChange(initialIsFavorite: bool)
      modifies this
      ensures State() == Resync(old(State()), initialIsFavorite)
    {
      isFavorite := initialIsFavorite;
    }
  }

  /** A click while pending changes nothing: no flip, no notification, no second call. */
  lemma ClickWhilePendingIgnored(s: ButtonState)
    requires s.isPending
    ensures Click(s) == s
  {
  }

  /** A click when idle sets pending, flips the value, passes the new value to the parent,
      and calls remove when the value before the click was "favorite", add otherwise. */
  lemma ClickFlipsAndCalls(s: ButtonState)
    requires Consistent(s) && !s.isPending
    ensures var c := Click(s);
      && Consistent(c) && c.isPending
      && c.isFavorite == !s.isFavorite
      && c.notified == s.notified + [!s.isFavorite]
      && c.inFlight.value.call == (if s.isFavorite then RemoveCall else AddCall)
  {
  }

  /** After the answer the button is idle again; on failure it shows the value from before
      the click and passes that value to the parent, on success it keeps the flipped value. */
  lemma AnswerRestoresOrKeeps(s: ButtonState, ok: bool)
    requires Consistent(s) && !s.isPending
    ensures var a := Settle(Click(s), ok);
      && Consistent(a) && !a.isPending
      && a.isFavorite == (if ok then !s.isFavorite else s.isFavorite)
      && a.notified == s.notified + (if ok then [!s.isFavorite] else [!s.isFavorite, s.isFavorite])
  {
  }

  /** The failure path reverts to the negation of the optimistic value even when a new
      `initialIsFavorite` arrived in between. */
  lemma RevertIgnoresResync(s: ButtonState, initialIsFavorite: bool)
    requires Consistent(s) && !s.isPending
    ensures Settle(Resync(Click(s), initialIsFavorite), false).isFavorite == s.isFavorite
  {
  }

  /** A new `initialIsFavorite` overwrites the shown value and nothing else. */
  lemma ResyncOverwrites(s: ButtonState, initialIsFavorite: bool)
    ensures Resync(s, initialIsFavorite).isFavorite == initialIsFavorite
    ensures Resync(s, initialIsFavorite).(isFavorite := s.isFavorite) == s
  {
  }

  /** The store after the server action a click started, and whether the action succeeded. */
  function Serve(call: Call, favorites: seq<Favorite>, news: seq<News>, current: Option<UserId>, newsId: NewsId, now: int)
    : (seq<Favorite>, bool)
  {
    match call
    case AddCall =>
      var o := FavoritesActions.Add(favorites, news, current, newsId, now);
      (o.favorites, o.result.Ok?)
    case RemoveCall =>
      var o := FavoritesActions.Remove(favorites, current, newsId);
      (o.favorites, o.result.Ok?)
  }

  /** A button that agrees with the store before a click agrees with it again once the call
      has been answered: success keeps the flip the store now has, failure reverts to what the
      unchanged store still says. */
  lemma StaysInSyncWithStore(s: ButtonState, favorites: seq<Favorite>, news: seq<News>, current: Option<UserId>,
                             newsId: NewsId, now: int)
    requires Consistent(s) && !s.isPending
    requires s.isFavorite == FavoritesActions.IsNewsFavorite(favorites, current, newsId)
    ensures var c := Click(s);
      var served := Serve(c.inFlight.value.call, favorites, news, current, newsId, now);
      Settle(c, served.1).isFavorite == FavoritesActions.IsNewsFavorite(served.0, current, newsId)
  {
    FavoritesActions.AddMakesFavorite(favorites, news, current, newsId, now);
    FavoritesActions.RemoveEndsFavorite(favorites, current, newsId);
  }
}
