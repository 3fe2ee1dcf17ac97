/** The favorite button of a game card (frontend/src/components/GameCard/GameCard.jsx):
    three state cells set optimistically on a click, then kept, corrected
    or reverted when the request settles. */
module GameCard {
  import opened Js

  /** The props the card's favorite state is read from: `is_favorite`,
      `isFavorite` and `favorite_count`, each possibly absent. */
  datatype GameProps = GameProps(id: int, isFavoriteSnake: Option<bool>, isFavoriteCamel: Option<bool>,
                                 favoriteCount: Option<int>)

  /** The three state cells. */
  datatype CardState = CardState(isFavorite: bool, favoriteCount: int, loading: bool)

  /** The request a click sends. */
  datatype FavoriteRequest = AddFavorite(gameId: int) | RemoveFavorite(gameId: int)

  /** How the request settled: success, or an error with its `status` and
      its `response.status`, either possibly absent. */
  datatype Outcome = Succeeded | Failed(status: Option<int>, responseStatus: Option<int>)

  /** The argument of `onFavoriteChange`. */
  datatype Notification = Notification(id: int, isFavorite: bool, favoriteCount: int)

  /** `Boolean(is_favorite ?? isFavorite)`: the snake-case prop wins when
      present, and an absent value is false. */
  function InitialFavorite(p: GameProps): (b: bool)
    ensures p.isFavoriteSnake.Some? ==> b == p.isFavoriteSnake.value
    ensures p.isFavoriteSnake.None? ==> (b <==> p.isFavoriteCamel == Some(true))
  {
    match p.isFavoriteSnake
    case Some(v) => v
    case None => p.isFavoriteCamel.Some? && p.isFavoriteCamel.value
  }

  /** `favorite_count || 0`. */
  function InitialCount(p: GameProps): (n: int)
    ensures p.favoriteCount.Some? ==> n == p.favoriteCount.value
    ensures p.favoriteCount.None? ==> n == 0
  {
    if p.favoriteCount.Some? then p.favoriteCount.value else 0
  }

  /** `err?.status === 409 || err?.response?.status === 409`. */
  predicate IsConflict(o: Outcome)
  {
    o.Failed? && (o.status == Some(409) || o.responseStatus == Some(409))
  }

  /** The state right after a click. A click while signed out or while a
      request is in flight changes nothing; otherwise the flag flips, the
      count moves by one towards the new flag, and loading starts. */
  function AfterClick(s: CardState, authenticated: bool): (t: CardState)
    ensures !authenticated || s.loading ==> t == s
    ensures authenticated && !s.loading ==>
      t.isFavorite == !s.isFavorite && t.loading
      && t.favoriteCount == (if s.isFavorite then s.favoriteCount - 1 else s.favoriteCount + 1)
  {
    if !authenticated || s.loading then s
    else CardState(!s.isFavorite, if s.isFavorite then s.favoriteCount - 1 else s.favoriteCount + 1, true)
  }

  /** The state once the request settles, given the state and count before
      the click: success keeps the optimistic state, a conflict forces the
      flag on and keeps the count, any other error restores both; loading
      ends in every case. */
  function AfterSettle(s: CardState, previousState: bool, previousCount: int, o: Outcome): (t: CardState)
    ensures !t.loading
    ensures o.Succeeded? ==> t.isFavorite == s.isFavorite && t.favoriteCount == s.favoriteCount
    ensures IsConflict(o) ==> t.isFavorite && t.favoriteCount == s.favoriteCount
    ensures o.Failed? && !IsConflict(o) ==> t.isFavorite == previousState && t.favoriteCount == previousCount
  {
    if o.Succeeded? then s.(loading := false)
    else if IsConflict(o) then s.(isFavorite := true, loading := false)
    else CardState(previousState, previousCount, false)
  }

  /** A failed toggle that is not a conflict leaves the card exactly as it
      was before the click. */
  lemma FailedToggleRestores(s: CardState, authenticated: bool, o: Outcome)
    requires authenticated && !s.loading
    requires o.Failed? && !IsConflict(o)
    ensures AfterSettle(AfterClick(s, authenticated), s.isFavorite, s.favoriteCount, o) == s
  {
  }

  /** A successful toggle flips the flag and moves the count by one; two
      successful toggles give back the starting state. */
  lemma SucceededToggleTwice(s: CardState)
    requires !s.loading
    ensures var t := AfterSettle(AfterClick(s, true), s.isFavorite, s.favoriteCount, Succeeded);
      t.isFavorite == !s.isFavorite && !t.loading
      && t.favoriteCount == s.favoriteCount + (if s.isFavorite then -1 else 1)
      && AfterSettle(AfterClick(t, true), t.isFavorite, t.favoriteCount, Succeeded) == s
  {
  }

  /** The card's state cells, the click's snapshot of the previous flag and
      count, and the game it shows. */
  class FavoriteButton {
    const gameId: int
    var isFavorite: bool
    var favoriteCount: int
    var loading: bool
    var previousState: bool
    var previousCount: int

    function State(): CardState
      reads this
    {
      CardState(isFavorite, favoriteCount, loading)
    }

    /** The initial `useState` values. */
    constructor (p: GameProps)
      ensures gameId == p.id
      ensures State() == CardState(InitialFavorite(p), InitialCount(p), false)
    {
      gameId := p.id;
      isFavorite := InitialFavorite(p);
      favoriteCount := InitialCount(p);
      loading := false;
      previousState, previousCount := false, 0;
    }

    /** The effect that re-reads the props when they change; `loading` is
        left alone. */
    method Sync(p: GameProps)
      modifies this
      ensures State() == CardState(InitialFavorite(p), InitialCount(p), old(loading))
      ensures previousState == old(previousState) && previousCount == old(previousCount)
    {
      isFavorite := InitialFavorite(p);
      favoriteCount := InitialCount(p);
    }

    /** The click handler up to the request: returns the request sent, None
        when the click is ignored. The request removes when the game was a
        favorite and adds otherwise. */
    method Click(authenticated: bool) returns (request: Option<FavoriteRequest>)
      modifies this
      ensures State() == AfterClick(old(State()), authenticated)
      ensures request.None? <==> !authenticated || old(loading)
      ensures request.None? ==> previousState == old(previousState) && previousCount == old(previousCount)
      ensures request.Some? ==>
        previousState == old(isFavorite) && previousCount == old(favoriteCount)
        && request.value == (if old(isFavorite) then RemoveFavorite(gameId) else AddFavorite(gameId))
    {
      if !authenticated || loading {
        return None;
      }
      previousState := isFavorite;
      previousCount := favoriteCount;
      isFavorite := !previousState;
      favoriteCount := if previousState then favoriteCount - 1 else favoriteCount + 1;
      loading := true;
      request := Some(if previousState then RemoveFavorite(gameId) else AddFavorite(gameId));
    }

    /** The rest of the handler once the request settles: the notification
        sent to `onFavoriteChange` (only on success, with the count the
        click started from) and the corrected state. */
    method Settle(o: Outcome) returns (notification: Option<Notification>)
      requires loading
      modifies this
      ensures State() == AfterSettle(old(State()), old(previousState), old(previousCount), o)
      ensures previousState == old(previousState) && previousCount == old(previousCount)
      ensures notification.Some? <==> o.Succeeded?
      ensures o.Succeeded? ==> notification.value == Notification(gameId, !previousState, previousCount)
    {
      notification := None;
      if o.Succeeded? {
        notification := Some(Notification(gameId, !previousState, previousCount));
      } else if IsConflict(o) {
        isFavorite := true;
      } else {
        isFavorite := previousState;
        favoriteCount := previousCount;
      }
      loading := false;
    }
  }
}
