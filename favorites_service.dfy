/** The favorites store (backend/src/modules/favorites/favorites.service.js):
    a table of (id, user, game, created_at) rows with at most one row per
    (user, game) pair, written by an INSERT ... ON CONFLICT DO NOTHING and a
    DELETE, and read by an EXISTS check, a per-user join with the games
    table and a per-game count. */
module FavoritesService {
  import opened Js
  import opened Rows
  import opened GamesService

  /** A row of the favorites table. */
  datatype Favorite = Favorite(id: int, userId: int, gameId: int, createdAt: int)

  function FavoritedAt(f: Favorite): int { f.createdAt }

  /** A row of `listFavorites`: the game's columns, the number of favorites
      the game has over all users, and the EXISTS flag for this user. */
  datatype FavoriteItem = FavoriteItem(game: Game, favoriteCount: nat, isFavorite: bool)

  /** `{items, pagination: null}`. */
  datatype FavoriteList = FavoriteList(items: seq<FavoriteItem>, pagination: Option<PageInfo>)

  /** What `addFavorite` returns: `{status: 201, is_favorite: true,
      favorite_id}` for a new row, `{status: 409, message: "Already
      favorited"}` when the pair was already there. */
  datatype AddResult = Added(favoriteId: int) | AlreadyFavorited
  {
    function Status(): int { if Added? then 201 else 409 }
  }

  /** What `removeFavorite` returns: `{status: 200, is_favorite: false}` or
      `{status: 200, message: "Not in favorites"}`. */
  datatype RemoveResult = Removed | NotInFavorites
  {
    function Status(): int { 200 }
  }

  predicate IsPair(f: Favorite, userId: int, gameId: int)
  {
    f.userId == userId && f.gameId == gameId
  }

  /** `EXISTS(SELECT 1 FROM favorites WHERE user_id = $1 AND game_id = $2)`. */
  predicate HasFavorite(rows: seq<Favorite>, userId: int, gameId: int)
  {
    exists i :: 0 <= i < |rows| && IsPair(rows[i], userId, gameId)
  }

  /** The foreign key from `favorites.game_id` to `games.id`: the game
      the row names exists. */
  predicate GameExists(games: seq<Game>, gameId: int)
  {
    exists i :: 0 <= i < |games| && games[i].id == gameId
  }

  /** The error PostgreSQL raises for a row whose game does not exist: a
      SQLSTATE code, the server's message (with the constraint's default
      name) and no HTTP status. */
  const ForeignKeyViolation := Thrown(None, Some("23503"),
    Some("insert or update on table \"favorites\" violates foreign key constraint \"favorites_game_id_fkey\""))

  /** The UNIQUE (user_id, game_id) constraint that ON CONFLICT relies on. */
  ghost predicate UniquePairs(rows: seq<Favorite>)
  {
    forall i, j :: 0 <= i < j < |rows| ==> !IsPair(rows[j], rows[i].userId, rows[i].gameId)
  }

  /** The table after `INSERT INTO favorites (user_id, game_id)` took `id`. */
  function Inserted(rows: seq<Favorite>, userId: int, gameId: int, id: int, now: int): seq<Favorite>
  {
    rows + [Favorite(id, userId, gameId, now)]
  }

  /** The table after `DELETE FROM favorites WHERE user_id = $1 AND game_id = $2`. */
  function Deleted(rows: seq<Favorite>, userId: int, gameId: int): seq<Favorite>
  {
    Filter(rows, (f: Favorite) => !IsPair(f, userId, gameId))
  }

  /** `SELECT COUNT(*) FROM favorites WHERE game_id = $1`. */
  function CountForGame(rows: seq<Favorite>, gameId: int): nat
  {
    |Filter(rows, (f: Favorite) => f.gameId == gameId)|
  }

  /** The users who have favorited the game. */
  ghost function FavoritedBy(rows: seq<Favorite>, gameId: int): set<int>
  {
    set i | 0 <= i < |rows| && rows[i].gameId == gameId :: rows[i].userId
  }

  /** Adding a fresh pair makes it present, keeps the pairs unique and
      changes no other pair. */
  lemma InsertedFacts(rows: seq<Favorite>, userId: int, gameId: int, id: int, now: int)
    requires UniquePairs(rows) && !HasFavorite(rows, userId, gameId)
    ensures HasFavorite(Inserted(rows, userId, gameId, id, now), userId, gameId)
    ensures UniquePairs(Inserted(rows, userId, gameId, id, now))
    ensures forall u, g :: (u, g) != (userId, gameId) ==>
      (HasFavorite(Inserted(rows, userId, gameId, id, now), u, g) <==> HasFavorite(rows, u, g))
  {
    var r := Inserted(rows, userId, gameId, id, now);
    assert IsPair(r[|rows|], userId, gameId);
    forall u, g | (u, g) != (userId, gameId) && HasFavorite(r, u, g) ensures HasFavorite(rows, u, g) {
      var i :| 0 <= i < |r| && IsPair(r[i], u, g);
      assert i < |rows| && rows[i] == r[i];
    }
    forall u, g | HasFavorite(rows, u, g) ensures HasFavorite(r, u, g) {
      var i :| 0 <= i < |rows| && IsPair(rows[i], u, g);
      assert r[i] == rows[i];
    }
    forall i, j | 0 <= i < j < |r| ensures !IsPair(r[j], r[i].userId, r[i].gameId) {
      if j == |rows| {
        assert r[i] == rows[i];
      } else {
        assert r[i] == rows[i] && r[j] == rows[j];
      }
    }
  }

  /** Deleting a pair makes it absent, keeps the pairs unique, changes no
      other pair, and changes nothing at all when the pair was absent. */
  lemma DeletedFacts(rows: seq<Favorite>, userId: int, gameId: int)
    requires UniquePairs(rows)
    ensures !HasFavorite(Deleted(rows, userId, gameId), userId, gameId)
    ensures UniquePairs(Deleted(rows, userId, gameId))
    ensures forall u, g :: (u, g) != (userId, gameId) ==>
      (HasFavorite(Deleted(rows, userId, gameId), u, g) <==> HasFavorite(rows, u, g))
    ensures !HasFavorite(rows, userId, gameId) ==> Deleted(rows, userId, gameId) == rows
  {
    DeletedUnique(rows, userId, gameId);
    var d := Deleted(rows, userId, gameId);
    forall u, g | (u, g) != (userId, gameId) && HasFavorite(rows, u, g) ensures HasFavorite(d, u, g) {
      var i :| 0 <= i < |rows| && IsPair(rows[i], u, g);
      assert rows[i] in d;
    }
    forall i | 0 <= i < |d| ensures d[i] in rows && !IsPair(d[i], userId, gameId) {
      assert d[i] in d;
    }
    forall u, g | HasFavorite(d, u, g) ensures HasFavorite(rows, u, g) {
      var i :| 0 <= i < |d| && IsPair(d[i], u, g);
      var j :| 0 <= j < |rows| && rows[j] == d[i];
    }
    if !HasFavorite(rows, userId, gameId) {
      DeleteAbsent(rows, userId, gameId);
    }
  }

  lemma {:induction false} DeletedUnique(rows: seq<Favorite>, userId: int, gameId: int)
    requires UniquePairs(rows)
    ensures UniquePairs(Deleted(rows, userId, gameId))
    decreases |rows|
  {
    if |rows| > 0 {
      var rest := rows[1..];
      DeletedUnique(rest, userId, gameId);
      var d := Deleted(rest, userId, gameId);
      if !IsPair(rows[0], userId, gameId) {
        assert Deleted(rows, userId, gameId) == [rows[0]] + d;
        forall j | 0 <= j < |d| ensures !IsPair(d[j], rows[0].userId, rows[0].gameId) {
          assert d[j] in rest;
          var k :| 0 <= k < |rest| && rest[k] == d[j];
          assert rows[k + 1] == d[j];
        }
      }
    }
  }

  lemma {:induction false} DeleteAbsent(rows: seq<Favorite>, userId: int, gameId: int)
    requires !HasFavorite(rows, userId, gameId)
    ensures Deleted(rows, userId, gameId) == rows
    decreases |rows|
  {
    if |rows| > 0 {
      assert !IsPair(rows[0], userId, gameId);
      forall i | 0 <= i < |rows[1..]| ensures !IsPair(rows[1..][i], userId, gameId) {
        assert rows[1..][i] == rows[i + 1];
      }
      DeleteAbsent(rows[1..], userId, gameId);
      assert rows == [rows[0]] + rows[1..];
    }
  }

  /** With unique pairs, a game's favorite count is the number of distinct
      users who have favorited it. */
  lemma {:induction false} CountIsUsers(rows: seq<Favorite>, gameId: int)
    requires UniquePairs(rows)
    ensures CountForGame(rows, gameId) == |FavoritedBy(rows, gameId)|
    decreases |rows|
  {
    if |rows| == 0 {
      assert FavoritedBy(rows, gameId) == {};
    } else {
      var rest := rows[1..];
      CountIsUsers(rest, gameId);
      assert FavoritedBy(rows, gameId) ==
        (if rows[0].gameId == gameId then {rows[0].userId} else {}) + FavoritedBy(rest, gameId) by {
        forall u | u in FavoritedBy(rows, gameId)
          ensures u in (if rows[0].gameId == gameId then {rows[0].userId} else {}) + FavoritedBy(rest, gameId)
        {
          var i :| 0 <= i < |rows| && rows[i].gameId == gameId && rows[i].userId == u;
          if i > 0 { assert rest[i - 1] == rows[i]; }
        }
        forall u | u in FavoritedBy(rest, gameId) ensures u in FavoritedBy(rows, gameId) {
          var i :| 0 <= i < |rest| && rest[i].gameId == gameId && rest[i].userId == u;
          assert rows[i + 1] == rest[i];
        }
      }
      if rows[0].gameId == gameId {
        forall i | 0 <= i < |rest| && rest[i].gameId == gameId ensures rest[i].userId != rows[0].userId {
          assert rest[i] == rows[i + 1];
          assert !IsPair(rows[i + 1], rows[0].userId, rows[0].gameId);
        }
        assert rows[0].userId !in FavoritedBy(rest, gameId);
      }
    }
  }

  /** A game's count is 0 exactly when no row names it. */
  lemma CountZero(rows: seq<Favorite>, gameId: int)
    ensures CountForGame(rows, gameId) == 0 <==> forall i :: 0 <= i < |rows| ==> rows[i].gameId != gameId
  {
    var matching := Filter(rows, (f: Favorite) => f.gameId == gameId);
    forall i | 0 <= i < |rows| && rows[i].gameId == gameId ensures CountForGame(rows, gameId) > 0 {
      assert rows[i] in matching;
    }
    if CountForGame(rows, gameId) != 0 {
      assert matching[0] in matching;
      var j :| 0 <= j < |rows| && rows[j] == matching[0];
      assert rows[j].gameId == gameId;
    }
  }

  /** Adding a favorite raises that game's count by one and no other's. */
  lemma CountAfterInsert(rows: seq<Favorite>, userId: int, gameId: int, id: int, now: int, g: int)
    ensures CountForGame(Inserted(rows, userId, gameId, id, now), g)
      == CountForGame(rows, g) + (if g == gameId then 1 else 0)
  {
    FilterOfAppend(rows, [Favorite(id, userId, gameId, now)], (f: Favorite) => f.gameId == g);
  }

  /** The inner join of favorites with games, in the order of the favorites. */
  function Join(favs: seq<Favorite>, games: seq<Game>): (r: seq<(Favorite, Game)>)
    ensures forall k :: 0 <= k < |r| ==> r[k].0 in favs && r[k].1 in games && r[k].1.id == r[k].0.gameId
    ensures forall f, g :: f in favs && g in games && g.id == f.gameId ==> (f, g) in r
  {
    if |favs| == 0 then []
    else
      var f := favs[0];
      var matches := Filter(games, (g: Game) => g.id == f.gameId);
      var here := seq(|matches|, k requires 0 <= k < |matches| => (f, matches[k]));
      var rest := Join(favs[1..], games);
      assert forall g :: g in games && g.id == f.gameId ==> (f, g) in here by {
        forall g | g in games && g.id == f.gameId ensures (f, g) in here {
          var k :| 0 <= k < |matches| && matches[k] == g;
          assert here[k] == (f, g);
        }
      }
      var r := here + rest;
      forall k | 0 <= k < |r| ensures r[k].0 in favs && r[k].1 in games && r[k].1.id == r[k].0.gameId {
        if k < |here| {
          assert r[k] == here[k];
          assert matches[k] in matches;
        } else {
          assert r[k] == rest[k - |here|];
          assert r[k].0 in favs[1..];
        }
      }
      forall f', g | f' in favs && g in games && g.id == f'.gameId ensures (f', g) in r {
        if f' != f {
          var i :| 0 <= i < |favs| && favs[i] == f';
          assert f' == favs[1..][i - 1];
        }
      }
      r
  }

  function PairFavoritedAt(p: (Favorite, Game)): int { p.0.createdAt }

  /** Joining favorites that are newest first keeps the pairs newest first. */
  lemma {:induction false} JoinSorted(favs: seq<Favorite>, games: seq<Game>)
    requires SortedDesc(favs, FavoritedAt)
    ensures SortedDesc(Join(favs, games), PairFavoritedAt)
    decreases |favs|
  {
    if |favs| > 0 {
      var f := favs[0];
      var matches := Filter(games, (g: Game) => g.id == f.gameId);
      var here := seq(|matches|, k requires 0 <= k < |matches| => (f, matches[k]));
      var rest := Join(favs[1..], games);
      assert SortedDesc(favs[1..], FavoritedAt) by {
        forall i, j | 0 <= i < j < |favs[1..]| ensures favs[1..][i].createdAt >= favs[1..][j].createdAt {
          assert favs[1..][i] == favs[i + 1] && favs[1..][j] == favs[j + 1];
        }
      }
      JoinSorted(favs[1..], games);
      var r := here + rest;
      assert r == Join(favs, games);
      forall i, j | 0 <= i < j < |r| ensures r[i].0.createdAt >= r[j].0.createdAt {
        if i < |here| && j >= |here| {
          assert r[j] == rest[j - |here|];
          assert rest[j - |here|].0 in favs[1..];
          var k :| 0 <= k < |favs[1..]| && favs[1..][k] == r[j].0;
          assert favs[k + 1] == r[j].0;
        } else if i >= |here| {
          assert r[i] == rest[i - |here|] && r[j] == rest[j - |here|];
        }
      }
    }
  }

  /** The user's favorites, newest first, joined with their games. */
  function UserFavorites(rows: seq<Favorite>, userId: int, games: seq<Game>): seq<(Favorite, Game)>
  {
    Join(SortDesc(Filter(rows, (f: Favorite) => f.userId == userId), FavoritedAt), games)
  }

  /** Every joined pair is one of the user's favorites with its game. */
  lemma UserFavoritesAreTheirs(rows: seq<Favorite>, userId: int, games: seq<Game>)
    ensures forall k :: 0 <= k < |UserFavorites(rows, userId, games)| ==>
      var p := UserFavorites(rows, userId, games)[k];
      p.0 in rows && p.0.userId == userId && p.1 in games && p.1.id == p.0.gameId
      && HasFavorite(rows, userId, p.1.id)
  {
    var uf := UserFavorites(rows, userId, games);
    var mine := Filter(rows, (f: Favorite) => f.userId == userId);
    forall k | 0 <= k < |uf|
      ensures uf[k].0 in rows && uf[k].0.userId == userId && HasFavorite(rows, userId, uf[k].1.id)
    {
      assert uf[k].0 in SortDesc(mine, FavoritedAt);
      assert uf[k].0 in mine;
      var i :| 0 <= i < |rows| && rows[i] == uf[k].0;
      assert IsPair(rows[i], userId, uf[k].1.id);
    }
  }

  /** Every favorite of the user whose game exists is joined. */
  lemma UserFavoritesComplete(rows: seq<Favorite>, userId: int, games: seq<Game>)
    ensures forall i, g :: 0 <= i < |rows| && rows[i].userId == userId && g in games && g.id == rows[i].gameId
                 ==> (rows[i], g) in UserFavorites(rows, userId, games)
  {
    var mine := Filter(rows, (f: Favorite) => f.userId == userId);
    forall i, g | 0 <= i < |rows| && rows[i].userId == userId && g in games && g.id == rows[i].gameId
      ensures (rows[i], g) in UserFavorites(rows, userId, games)
    {
      assert rows[i] in mine;
      assert rows[i] in SortDesc(mine, FavoritedAt);
    }
  }

  /** The rows `listFavorites` returns: each joined game with its count over
      all users and the EXISTS flag for this user. */
  function ListItems(rows: seq<Favorite>, userId: int, games: seq<Game>): seq<FavoriteItem>
  {
    var uf := UserFavorites(rows, userId, games);
    seq(|uf|, k requires 0 <= k < |uf| =>
      FavoriteItem(uf[k].1, CountForGame(rows, uf[k].1.id), HasFavorite(rows, userId, uf[k].1.id)))
  }

  /** Every listed item is a game of the user's favorites, flagged
      `is_favorite` and carrying its count over all users. */
  lemma ListItemsSound(rows: seq<Favorite>, userId: int, games: seq<Game>)
    ensures |ListItems(rows, userId, games)| == |UserFavorites(rows, userId, games)|
    ensures forall k :: 0 <= k < |ListItems(rows, userId, games)| ==>
      var item := ListItems(rows, userId, games)[k];
      item.game in games && HasFavorite(rows, userId, item.game.id) && item.isFavorite
      && item.favoriteCount == CountForGame(rows, item.game.id)
  {
    UserFavoritesAreTheirs(rows, userId, games);
  }

  /** Every favorited game of the user that exists is listed. */
  lemma ListItemsComplete(rows: seq<Favorite>, userId: int, games: seq<Game>)
    ensures forall i, g :: 0 <= i < |rows| && rows[i].userId == userId && g in games && g.id == rows[i].gameId
                 ==> exists k :: 0 <= k < |ListItems(rows, userId, games)| && ListItems(rows, userId, games)[k].game == g
  {
    var uf := UserFavorites(rows, userId, games);
    var items := ListItems(rows, userId, games);
    UserFavoritesComplete(rows, userId, games);
    forall i, g | 0 <= i < |rows| && rows[i].userId == userId && g in games && g.id == rows[i].gameId
      ensures exists k :: 0 <= k < |items| && items[k].game == g
    {
      var k :| 0 <= k < |uf| && uf[k] == (rows[i], g);
      assert items[k].game == g;
    }
  }

  /** The list is newest favorite first. */
  lemma ListItemsNewestFirst(rows: seq<Favorite>, userId: int, games: seq<Game>)
    ensures SortedDesc(UserFavorites(rows, userId, games), PairFavoritedAt)
  {
    JoinSorted(SortDesc(Filter(rows, (f: Favorite) => f.userId == userId), FavoritedAt), games);
  }

  function FavoriteGame(f: Favorite): int { f.gameId }
  function GameKey(g: Game): int { g.id }
  function PairGame(p: (Favorite, Game)): int { p.0.gameId }

  /** Under the unique pairs, one user's favorites name distinct games. */
  lemma {:induction false} MineKeysDistinct(rows: seq<Favorite>, userId: int)
    requires UniquePairs(rows)
    ensures KeysDistinct(Filter(rows, (f: Favorite) => f.userId == userId), FavoriteGame)
    decreases |rows|
  {
    if |rows| > 0 {
      var t := Filter(rows[1..], (f: Favorite) => f.userId == userId);
      assert UniquePairs(rows[1..]) by {
        forall i, j | 0 <= i < j < |rows[1..]|
          ensures !IsPair(rows[1..][j], rows[1..][i].userId, rows[1..][i].gameId)
        {
          assert rows[1..][i] == rows[i + 1] && rows[1..][j] == rows[j + 1];
        }
      }
      MineKeysDistinct(rows[1..], userId);
      if rows[0].userId == userId {
        forall y | y in t ensures FavoriteGame(y) != FavoriteGame(rows[0]) {
          var j :| 0 <= j < |rows[1..]| && rows[1..][j] == y;
          assert y == rows[j + 1];
        }
        assert Filter(rows, (f: Favorite) => f.userId == userId) == [rows[0]] + t;
        assert ([rows[0]] + t)[1..] == t;
      }
    }
  }

  /** Over games with distinct ids, an id names at most one game. */
  lemma {:induction false} AtMostOneGame(games: seq<Game>, id: int)
    requires KeysDistinct(games, GameKey)
    ensures |Filter(games, (g: Game) => g.id == id)| <= 1
    decreases |games|
  {
    if |games| > 0 {
      if games[0].id == id {
        FilterNone(games[1..], (g: Game) => g.id == id);
      } else {
        AtMostOneGame(games[1..], id);
      }
    }
  }

  /** Distinct games of the favorites and distinct ids of the games give
      pairs that name distinct games: each favorite meets at most one
      game. */
  lemma {:induction false} JoinKeysDistinct(favs: seq<Favorite>, games: seq<Game>)
    requires KeysDistinct(favs, FavoriteGame) && KeysDistinct(games, GameKey)
    ensures KeysDistinct(Join(favs, games), PairGame)
    decreases |favs|
  {
    if |favs| > 0 {
      var f := favs[0];
      var matches := Filter(games, (g: Game) => g.id == f.gameId);
      var here := seq(|matches|, k requires 0 <= k < |matches| => (f, matches[k]));
      var rest := Join(favs[1..], games);
      JoinKeysDistinct(favs[1..], games);
      AtMostOneGame(games, f.gameId);
      assert Join(favs, games) == here + rest;
      if |here| == 1 {
        forall y | y in rest ensures PairGame(y) != PairGame(here[0]) {
          var k :| 0 <= k < |rest| && rest[k] == y;
          assert y.0 in favs[1..];
        }
        assert (here + rest)[1..] == rest;
      } else {
        assert here + rest == rest;
      }
    }
  }

  /** Over unique pairs and games with distinct ids, the list names each
      game at most once. */
  lemma ListItemsDistinct(rows: seq<Favorite>, userId: int, games: seq<Game>)
    requires UniquePairs(rows)
    requires forall i, j :: 0 <= i < j < |games| ==> games[i].id != games[j].id
    ensures forall k1, k2 :: 0 <= k1 < k2 < |ListItems(rows, userId, games)| ==>
      ListItems(rows, userId, games)[k1].game.id != ListItems(rows, userId, games)[k2].game.id
  {
    var mine := Filter(rows, (f: Favorite) => f.userId == userId);
    MineKeysDistinct(rows, userId);
    SortDescKeysDistinct(mine, FavoritedAt, FavoriteGame);
    KeysDistinctFromAt(games, GameKey);
    JoinKeysDistinct(SortDesc(mine, FavoritedAt), games);
    var uf := UserFavorites(rows, userId, games);
    KeysDistinctAt(uf, PairGame);
    UserFavoritesAreTheirs(rows, userId, games);
  }

  /** A game is listed when the user has favorited it and it exists, and
      only then. */
  lemma FavoriteListed(rows: seq<Favorite>, userId: int, games: seq<Game>, gameId: int)
    ensures (exists k :: 0 <= k < |ListItems(rows, userId, games)| && ListItems(rows, userId, games)[k].game.id == gameId)
      <==> HasFavorite(rows, userId, gameId) && GameExists(games, gameId)
  {
    var items := ListItems(rows, userId, games);
    if HasFavorite(rows, userId, gameId) && GameExists(games, gameId) {
      var i :| 0 <= i < |rows| && IsPair(rows[i], userId, gameId);
      var j :| 0 <= j < |games| && games[j].id == gameId;
      ListItemsComplete(rows, userId, games);
      assert rows[i].userId == userId && games[j] in games && games[j].id == rows[i].gameId;
      var k :| 0 <= k < |items| && items[k].game == games[j];
    }
    if exists k :: 0 <= k < |items| && items[k].game.id == gameId {
      var k :| 0 <= k < |items| && items[k].game.id == gameId;
      ListItemsSound(rows, userId, games);
      assert items[k].game in games;
      var j :| 0 <= j < |games| && games[j] == items[k].game;
    }
  }

  /** A game is listed exactly once when the user has favorited it and it
      exists, and not at all otherwise, however often it was added. */
  lemma FavoriteListedOnce(rows: seq<Favorite>, userId: int, games: seq<Game>, gameId: int)
    requires UniquePairs(rows)
    requires forall i, j :: 0 <= i < j < |games| ==> games[i].id != games[j].id
    ensures (exists k :: 0 <= k < |ListItems(rows, userId, games)| && ListItems(rows, userId, games)[k].game.id == gameId)
      <==> HasFavorite(rows, userId, gameId) && GameExists(games, gameId)
    ensures forall k1, k2 ::
      0 <= k1 < |ListItems(rows, userId, games)| && 0 <= k2 < |ListItems(rows, userId, games)|
      && ListItems(rows, userId, games)[k1].game.id == gameId && ListItems(rows, userId, games)[k2].game.id == gameId
      ==> k1 == k2
  {
    FavoriteListed(rows, userId, games, gameId);
    ListItemsDistinct(rows, userId, games);
  }

  class FavoritesTable {
    var rows: seq<Favorite>
    /** The next value of the id sequence. */
    var nextId: int

    ghost predicate Valid()
      reads this
    {
      UniquePairs(rows) && forall f :: f in rows ==> f.id < nextId
    }

    constructor ()
      ensures Valid() && rows == [] && nextId == 1
    {
      rows, nextId := [], 1;
    }

    /** `isFavorited`: whether the pair has a row; nothing changes. */
    method IsFavorited(userId: int, gameId: int) returns (b: bool)
      ensures b <==> exists i :: 0 <= i < |rows| && rows[i].userId == userId && rows[i].gameId == gameId
    {
      b := exists i | 0 <= i < |rows| :: IsPair(rows[i], userId, gameId);
    }

    /** `addFavorite`: INSERT ... ON CONFLICT (user_id, game_id) DO NOTHING.
        A new pair of a known game gets one row with the next id and is
        reported as 201; an existing pair changes no row and is reported as
        409; a new pair of an unknown game violates the foreign key to the
        games table and throws, changing no row. The id sequence advances in
        every case, as PostgreSQL draws the default before it detects the
        conflict or checks the key. */
    method AddFavorite(userId: int, gameId: int, now: int, games: seq<Game>) returns (r: Result<AddResult>)
      requires Valid()
      modifies this
      ensures Valid()
      ensures nextId == old(nextId) + 1
      ensures r.Ok? ==> HasFavorite(rows, userId, gameId)
      ensures old(HasFavorite(rows, userId, gameId)) ==> r == Ok(AlreadyFavorited) && rows == old(rows)
      ensures !old(HasFavorite(rows, userId, gameId)) && GameExists(games, gameId) ==>
        r == Ok(Added(old(nextId))) && rows == Inserted(old(rows), userId, gameId, old(nextId), now)
      ensures !old(HasFavorite(rows, userId, gameId)) && !GameExists(games, gameId) ==>
        r == Err(ForeignKeyViolation) && rows == old(rows)
    {
      var id := nextId;
      nextId := nextId + 1;
      if HasFavorite(rows, userId, gameId) {
        r := Ok(AlreadyFavorited);
      } else if !GameExists(games, gameId) {
        r := Err(ForeignKeyViolation);
      } else {
        InsertedFacts(rows, userId, gameId, id, now);
        rows := Inserted(rows, userId, gameId, id, now);
        r := Ok(Added(id));
      }
    }

    /** `removeFavorite`: DELETE the pair's row. Reported as 200 whether or
        not there was one; afterwards the pair is absent and every other
        row is as it was. */
    method RemoveFavorite(userId: int, gameId: int) returns (r: RemoveResult)
      requires Valid()
      modifies this
      ensures Valid() && nextId == old(nextId)
      ensures rows == Deleted(old(rows), userId, gameId)
      ensures !HasFavorite(rows, userId, gameId)
      ensures r == (if old(HasFavorite(rows, userId, gameId)) then Removed else NotInFavorites)
    {
      DeletedFacts(rows, userId, gameId);
      var had := HasFavorite(rows, userId, gameId);
      rows := Deleted(rows, userId, gameId);
      r := if had then Removed else NotInFavorites;
    }

    /** `listFavorites`: the user's favorite games joined with the games
        table, newest favorite first, each with its count over all users and
        `is_favorite` true; `pagination` is null. */
    method ListFavorites(userId: int, games: seq<Game>) returns (r: FavoriteList)
      ensures r.pagination.None? && r.items == ListItems(rows, userId, games)
    {
      var table := rows;
      var uf := UserFavorites(table, userId, games);
      var items := seq(|uf|, k requires 0 <= k < |uf| =>
        FavoriteItem(uf[k].1, CountForGame(table, uf[k].1.id), HasFavorite(table, userId, uf[k].1.id)));
      r := FavoriteList(items, None);
    }

    /** `getFavoriteCount`: the number of the game's favorite rows over all
        users, which is the number of users who have favorited it. */
    method GetFavoriteCount(gameId: int) returns (n: nat)
      requires Valid()
      ensures n == CountForGame(rows, gameId)
      ensures n == |FavoritedBy(rows, gameId)|
    {
      CountIsUsers(rows, gameId);
      n := CountForGame(rows, gameId);
    }
  }
}
