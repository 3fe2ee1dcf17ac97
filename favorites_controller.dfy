/** The favorites controller (backend/src/modules/favorites/favorites.controller.js):
    the HTTP responses of list, add and remove, and the check-then-act
    toggle built on the store's existence check. */
module FavoritesController {
  import opened Js
  import opened GamesService
  import opened FavoritesService
  import opened ErrorMiddleware

  const AddedMessage := "Added to favorites"
  const RemovedMessage := "Removed from favorites"

  /** `res.json({success, data: {items, pagination}})`. */
  datatype ListResponse = ListResponse(httpStatus: int, success: bool, items: seq<FavoriteItem>, pagination: Option<PageInfo>)

  /** `res.status(201).json({success, data: result, message})`. */
  datatype AddResponse = AddResponse(httpStatus: int, success: bool, data: AddResult, message: string)

  /** `res.json({success, message})`. */
  datatype RemoveResponse = RemoveResponse(httpStatus: int, success: bool, message: string)

  /** `res.json({success, is_favorite, data?, message})`. */
  datatype ToggleResponse = ToggleResponse(httpStatus: int, success: bool, isFavorite: bool, data: Option<AddResult>, message: string)

  /** The list body: `data.items || []` and `data.pagination || null`. */
  function ListBody(items: Option<seq<FavoriteItem>>, pagination: Option<PageInfo>): (r: ListResponse)
    ensures r.httpStatus == 200 && r.success
    ensures r.items == (if items.Some? then items.value else [])
    ensures r.pagination == pagination
  {
    ListResponse(200, true, if items.Some? then items.value else [], pagination)
  }

  /** The table a toggle leaves: the pair removed when it was there, added
      with id `id` when the game exists, and the table unchanged when the
      insert violates the foreign key. */
  function Toggled(rows: seq<Favorite>, userId: int, gameId: int, id: int, now: int, games: seq<Game>): seq<Favorite>
  {
    if HasFavorite(rows, userId, gameId) then Deleted(rows, userId, gameId)
    else if GameExists(games, gameId) then Inserted(rows, userId, gameId, id, now)
    else rows
  }

  /** A toggle keeps the pairs unique and changes no other pair; it flips
      the pair unless the pair is absent and its game unknown, in which
      case it changes nothing. */
  lemma ToggleFlips(rows: seq<Favorite>, userId: int, gameId: int, id: int, now: int, games: seq<Game>)
    requires UniquePairs(rows)
    ensures UniquePairs(Toggled(rows, userId, gameId, id, now, games))
    ensures HasFavorite(rows, userId, gameId) || GameExists(games, gameId) ==>
      (HasFavorite(Toggled(rows, userId, gameId, id, now, games), userId, gameId) <==> !HasFavorite(rows, userId, gameId))
    ensures !HasFavorite(rows, userId, gameId) && !GameExists(games, gameId) ==>
      Toggled(rows, userId, gameId, id, now, games) == rows
    ensures forall u, g :: (u, g) != (userId, gameId) ==>
      (HasFavorite(Toggled(rows, userId, gameId, id, now, games), u, g) <==> HasFavorite(rows, u, g))
  {
    if HasFavorite(rows, userId, gameId) {
      DeletedFacts(rows, userId, gameId);
    } else if GameExists(games, gameId) {
      InsertedFacts(rows, userId, gameId, id, now);
    }
  }

  /** Two successive toggles of a pair restore every pair's membership,
      given the foreign key: a stored pair's game exists. */
  lemma ToggleTwiceRestores(rows: seq<Favorite>, userId: int, gameId: int, id1: int, now1: int, id2: int, now2: int, games: seq<Game>)
    requires UniquePairs(rows)
    requires HasFavorite(rows, userId, gameId) ==> GameExists(games, gameId)
    ensures forall u, g ::
      HasFavorite(Toggled(Toggled(rows, userId, gameId, id1, now1, games), userId, gameId, id2, now2, games), u, g)
      <==> HasFavorite(rows, u, g)
  {
    ToggleFlips(rows, userId, gameId, id1, now1, games);
    ToggleFlips(Toggled(rows, userId, gameId, id1, now1, games), userId, gameId, id2, now2, games);
  }

  /** A favorite of an unknown game reaches the client through `next(err)`
      and the error middleware as a 500 carrying the database's SQLSTATE
      code, not as a 404. */
  lemma UnknownGameIsServerError()
    ensures Handle(ForeignKeyViolation).status == 500
    ensures Handle(ForeignKeyViolation).body.error.code == "23503"
    ensures !Handle(ForeignKeyViolation).body.success
  {
  }

  /** `listFavorites`: 200 with the store's list; the service always
      supplies items, and its pagination is null. */
  method ListFavorites(store: FavoritesTable, userId: int, games: seq<Game>) returns (resp: ListResponse)
    ensures resp == ListResponse(200, true, ListItems(store.rows, userId, games), None)
  {
    var data := store.ListFavorites(userId, games);
    resp := ListBody(Some(data.items), data.pagination);
  }

  /** `addFavorite`: 201 with `success: true` whenever the service
      returns, even when it reports status 409 for a pair that was already
      there; the foreign-key error of an unknown game is passed to `next`
      (an `Err` here). */
  method AddFavorite(store: FavoritesTable, userId: int, gameId: int, now: int, games: seq<Game>) returns (resp: Result<AddResponse>)
    requires store.Valid()
    modifies store
    ensures store.Valid()
    ensures store.nextId == old(store.nextId) + 1
    ensures resp.Ok? ==> resp.value.httpStatus == 201 && resp.value.success && resp.value.message == AddedMessage
    ensures resp.Ok? <==> old(HasFavorite(store.rows, userId, gameId)) || GameExists(games, gameId)
    ensures resp.Err? ==> resp.error == ForeignKeyViolation && store.rows == old(store.rows)
    ensures resp.Ok? ==> HasFavorite(store.rows, userId, gameId)
    ensures resp.Ok? ==> resp.value.data == (if old(HasFavorite(store.rows, userId, gameId)) then AlreadyFavorited else Added(old(store.nextId)))
    ensures resp.Ok? ==> store.rows == (if old(HasFavorite(store.rows, userId, gameId)) then old(store.rows)
                                        else Inserted(old(store.rows), userId, gameId, old(store.nextId), now))
  {
    var result := store.AddFavorite(userId, gameId, now, games);
    if result.Err? {
      resp := Err(result.error);
    } else {
      resp := Ok(AddResponse(201, true, result.value, AddedMessage));
    }
  }

  /** `removeFavorite`: always 200 with `success: true`, whether or not
      the pair was there. */
  method RemoveFavorite(store: FavoritesTable, userId: int, gameId: int) returns (resp: RemoveResponse)
    requires store.Valid()
    modifies store
    ensures store.Valid() && store.nextId == old(store.nextId)
    ensures resp == RemoveResponse(200, true, RemovedMessage)
    ensures store.rows == Deleted(old(store.rows), userId, gameId)
  {
    var _ := store.RemoveFavorite(userId, gameId);
    resp := RemoveResponse(200, true, RemovedMessage);
  }

  /** `toggleFavorite`: asks whether the pair is there, then removes it
      (reporting `is_favorite: false`) or adds it (reporting `is_favorite:
      true` with the service result); the insert's foreign-key error for
      an unknown game is passed to `next`. Only the add draws an id. */
  method ToggleFavorite(store: FavoritesTable, userId: int, gameId: int, now: int, games: seq<Game>) returns (resp: Result<ToggleResponse>)
    requires store.Valid()
    modifies store
    ensures store.Valid()
    ensures store.rows == Toggled(old(store.rows), userId, gameId, old(store.nextId), now, games)
    ensures store.nextId == old(store.nextId) + (if old(HasFavorite(store.rows, userId, gameId)) then 0 else 1)
    ensures resp.Err? <==> !old(HasFavorite(store.rows, userId, gameId)) && !GameExists(games, gameId)
    ensures resp.Err? ==> resp.error == ForeignKeyViolation
    ensures resp.Ok? ==> resp.value.httpStatus == 200 && resp.value.success
    ensures resp.Ok? ==> (resp.value.isFavorite <==> !old(HasFavorite(store.rows, userId, gameId)))
    ensures resp.Ok? ==> resp.value.isFavorite == HasFavorite(store.rows, userId, gameId)
    ensures resp.Ok? && resp.value.isFavorite ==>
      resp.value.data == Some(Added(old(store.nextId))) && resp.value.message == AddedMessage
    ensures resp.Ok? && !resp.value.isFavorite ==> resp.value.data.None? && resp.value.message == RemovedMessage
  {
    var isFavorite := store.IsFavorited(userId, gameId);
    if isFavorite {
      var _ := store.RemoveFavorite(userId, gameId);
      resp := Ok(ToggleResponse(200, true, false, None, RemovedMessage));
    } else {
      var result := store.AddFavorite(userId, gameId, now, games);
      if result.Err? {
        resp := Err(result.error);
      } else {
        resp := Ok(ToggleResponse(200, true, true, Some(result.value), AddedMessage));
      }
    }
  }

  /** A client adding the same game twice and then listing: the second
      add reports the 409 of the service inside a 201, and the list names
      the game exactly once when it exists and not at all otherwise. */
  method AddTwiceThenList(store: FavoritesTable, userId: int, gameId: int, now1: int, now2: int, games: seq<Game>)
    returns (second: Result<AddResponse>, list: ListResponse)
    requires store.Valid()
    requires forall i, j :: 0 <= i < j < |games| ==> games[i].id != games[j].id
    modifies store
    ensures store.Valid()
    ensures GameExists(games, gameId) || old(HasFavorite(store.rows, userId, gameId)) ==>
      second.Ok? && second.value.httpStatus == 201 && second.value.data == AlreadyFavorited
    ensures (exists k :: 0 <= k < |list.items| && list.items[k].game.id == gameId) <==> GameExists(games, gameId)
    ensures forall k1, k2 ::
      (0 <= k1 < |list.items| && 0 <= k2 < |list.items|
       && list.items[k1].game.id == gameId && list.items[k2].game.id == gameId) ==> k1 == k2
  {
    ghost var present := HasFavorite(store.rows, userId, gameId) || GameExists(games, gameId);
    var first := AddFavorite(store, userId, gameId, now1, games);
    assert present ==> HasFavorite(store.rows, userId, gameId);
    second := AddFavorite(store, userId, gameId, now2, games);
    assert present ==> HasFavorite(store.rows, userId, gameId);
    list := ListFavorites(store, userId, games);
    FavoriteListedOnce(store.rows, userId, games, gameId);
  }

  /** A client toggling the same pair twice: the store ends with the same
      pairs it started with. */
  method ToggleTwice(store: FavoritesTable, userId: int, gameId: int, now1: int, now2: int, games: seq<Game>)
    requires store.Valid()
    requires HasFavorite(store.rows, userId, gameId) ==> GameExists(games, gameId)
    modifies store
    ensures store.Valid()
    ensures forall u, g :: HasFavorite(store.rows, u, g) <==> old(HasFavorite(store.rows, u, g))
  {
    ghost var before := store.rows;
    ghost var id1 := store.nextId;
    var _ := ToggleFavorite(store, userId, gameId, now1, games);
    ghost var id2 := store.nextId;
    var _ := ToggleFavorite(store, userId, gameId, now2, games);
    ToggleTwiceRestores(before, userId, gameId, id1, now1, id2, now2, games);
  }
}
