# Casino games platform — a Dafny model of its core

This project models the core of a small casino lobby, in Dafny 4. The core has three parts:

- **Backend.** It has three kinds of endpoints:
  - a filtered, paginated game listing;
  - per-user favorites (list, add, remove, toggle, count);
  - registration and login with hashed passwords and signed tokens.

  It also has two middlewares: the bearer-token check and the error-to-response mapping.
- **Seed script.** It fills the games table with a fixed list of 25 games.
- **Frontend.** Three components keep state the backend's answers drive:
  - the page selector;
  - the favorite button of a game card, which updates optimistically and reverts on failure;
  - the filter bar, which collects provider and category options.

How the model is built:

- **Database.** The tables are sequences of rows. Each table carries the next value of its id sequence. Each SQL statement is modelled by what PostgreSQL does with it:
  - `WHERE` is `Rows.Filter`;
  - `ORDER BY ... DESC` is `Rows.SortDesc`;
  - `LIMIT/OFFSET` is `Rows.Window`;
  - `ILIKE` is `SqlLike.ILike`;
  - `INSERT ... ON CONFLICT DO NOTHING`, `DELETE`, `TRUNCATE ... RESTART IDENTITY`, and a transaction's `ROLLBACK` (a snapshot that is restored).
- **Services that update tables in place.** These are classes whose methods modify them: `FavoritesService.FavoritesTable`, `AuthService.UsersTable` and `SeedGames.GamesTable`.
  - Each method is specified by pure functions of the old table (`Inserted`, `Deleted`, `RegisterAsWritten`, `FixtureRows`).
  - Lemmas prove what those functions keep: unique pairs, unique lower-case emails, counts and ordering.
- **Frontend components.** `GameCard.FavoriteButton` keeps its React state cells as fields. The page selector and the filter's emitted values are pure functions. The filter bar's option loop is a method checked against `FilterBar.Options`.
- **Outside services.** bcrypt, jsonwebtoken, the clock and the HTTP client are parameters:
  - functions for hashing, comparing, signing and verifying;
  - a `now` timestamp;
  - the outcome of a request.

Modules by file:

- `js.dfy` holds optional values, thrown objects and results.
- `strings.dfy` holds JavaScript string operations.
- `rows.dfy` and `sql_like.dfy` hold the SQL semantics.
- Each remaining file is one source file of the core.

## Model

| member | source | states |
|---|---|---|
| GamesService.PageNumber | backend/src/modules/games/games.service.js:8-12 | The page is at least 1: a given page of 1 or more is kept, and a missing or smaller page becomes 1 |
| GamesService.LimitNumber | backend/src/modules/games/games.service.js:9-13 | The limit is the default 12 when missing, and is otherwise clamped into 5..50 (below 5 gives 5, above 50 gives 50) |
| GamesService.Offset | backend/src/modules/games/games.service.js:14 | The offset is a whole number of pages: divisible by the limit, with quotient page-1 |
| GamesService.PageCount | backend/src/modules/games/games.service.js:60 | `Math.ceil(total/limit)` is the fewest pages of `limit` rows holding `total` rows |
| GamesService.WhereClause | backend/src/modules/games/games.service.js:34 | The WHERE clause is empty exactly when there are no conditions |
| GamesService.BuildConditions | backend/src/modules/games/games.service.js:16-34 | There is one value and one condition per present filter, in the order search, provider, category; condition k names placeholder $k+1; all values are text; the clause holds of a row exactly when the row matches the request's filters |
| GamesService.WhereMeansMatches | backend/src/modules/games/games.service.js:19-32 | With each filter's condition bound to its own value, the conjunction holds iff the row passes every present filter |
| GamesService.MatchesMeans | backend/src/modules/games/games.service.js:19-32 | For filters without wildcards: the search is a case-insensitive substring of the name, the provider is equal ignoring case, and the category is equal exactly |
| GamesService.WhereIgnoresLaterValues | backend/src/modules/games/games.service.js:44-50 | Appending LIMIT and OFFSET values after the filter values does not change what the WHERE clause selects, so the count and data queries agree |
| GamesService.ListGames | backend/src/modules/games/games.service.js:4-63 | The total counts every matching row; page and limit are the clamped values; pages is the ceiling; items are exactly the window at the offset of the matching rows sorted newest first, so they number at most `limit`, all match and are sorted |
| GamesService.LimitOffsetPlaceholders | backend/src/modules/games/games.service.js:44-51 | With n filter values, LIMIT and OFFSET are $n+1 and $n+2, bound to the limit and the offset, and printed differently from each other and from every WHERE placeholder |
| GamesService.SelectedIsMatching | backend/src/modules/games/games.service.js:34-52 | The count query and the data query, with their different value lists, both select exactly the rows matching the request |
| GamesService.PageOfMatches | backend/src/modules/games/games.service.js:45-52 | A page of the sorted matches holds at most `limit` rows, all matching rows of the table, newest first |
| GamesService.EveryRowOnItsPage | backend/src/modules/games/games.service.js:44-60 | For the model's fixed order of tied rows, every matching row appears on page i/limit+1, and that page is within the page count |
| GamesService.PastTheEndIsEmpty | backend/src/modules/games/games.service.js:44-52 | A page beyond the page count returns no rows |
| Rows.Filter | backend/src/modules/games/games.service.js:36-42 | WHERE keeps exactly the rows that satisfy the predicate, with no others, in a sub-multiset of the table |
| Rows.SortDesc | backend/src/modules/games/games.service.js:49 | ORDER BY ... DESC is a permutation of its input (same multiset) that is non-increasing in the key |
| Rows.Window | backend/src/modules/games/games.service.js:50 | OFFSET/LIMIT is the slice from the offset of at most `limit` rows, and is empty past the end |
| Rows.WindowOfSorted | backend/src/modules/games/games.service.js:49-50 | A window of a sorted result is sorted and holds only rows of it |
| Rows.FilterKeysDistinct | backend/src/modules/favorites/favorites.service.js:15 | WHERE keeps rows with distinct keys distinct |
| Rows.SortDescKeysDistinct | backend/src/modules/favorites/favorites.service.js:16 | ORDER BY keeps rows with distinct keys distinct |
| SqlLike.ILikeContains | backend/src/modules/games/games.service.js:19-22 | `name ILIKE '%t%'` holds exactly when `t` occurs in the name ignoring case |
| SqlLike.ILikeLiteral | backend/src/modules/games/games.service.js:24-27 | `provider ILIKE p` with a wildcard-free `p` is equality ignoring case |
| Strings.Lower | backend/src/modules/auth/auth.service.js:36 | `toLowerCase` keeps the length and lowers each character |
| Strings.Trim | backend/src/modules/auth/auth.service.js:36 | `trim` returns a slice of the input with only white space around it, neither starting nor ending with white space |
| Strings.TrimIdempotent | backend/src/modules/auth/auth.service.js:36 | Trimming a stored name again changes nothing |
| Strings.NatToString | backend/src/modules/games/games.service.js:21 | The placeholder number is printed as a non-empty run of decimal digits with no leading zero |
| Strings.NatToStringValue | backend/src/modules/games/games.service.js:21 | The printed digits, read back as a decimal numeral, give the number again |
| Strings.NatToStringInjective | backend/src/modules/games/games.service.js:21-31 | Two placeholder numbers that print the same are equal, so distinct parameters get distinct names |
| Strings.Utf16Length | backend/src/utils/password.js:7 | `length` counts UTF-16 code units: at least one and at most two per character |
| Strings.Utf16LengthOfBmp | backend/src/utils/password.js:7 | Over text of the Basic Multilingual Plane, `length` is the number of characters |
| Strings.SplitFirst | backend/src/middlewares/auth.middleware.js:12 | The first piece of `split(" ")` is the text before the first space |
| Strings.SplitAfterWord | backend/src/middlewares/auth.middleware.js:12 | Splitting "Bearer " followed by the rest yields "Bearer" and then the pieces of the rest, so piece 1 is the token |
| ErrorMiddleware.Handle | backend/src/middlewares/error.middleware.js:2-18 | Status, code and message fall back to 500, INTERNAL_ERROR and the default message when falsy; the body always has success false and never a falsy status, code or message |
| ErrorMiddleware.PassesThrough | backend/src/middlewares/error.middleware.js:3-6 | An error carrying a status, code and message reaches the client unchanged |
| ErrorMiddleware.UnknownErrorIsInternal | backend/src/middlewares/error.middleware.js:3-4 | An error without status or code becomes a 500 INTERNAL_ERROR |
| Password.HashPassword | backend/src/utils/password.js:6-11 | The hash succeeds exactly for a present password of at least 8 UTF-16 code units and is bcrypt's hash; other passwords raise the "8+ characters" error |
| Password.AsciiPasswordLength | backend/src/utils/password.js:7 | An ASCII password passes the length guard iff it has at least 8 characters |
| Password.FourEmojiPass | backend/src/utils/password.js:7 | Four emoji (four characters, eight code units) pass the length guard |
| Password.ComparePassword | backend/src/utils/password.js:13-18 | A missing or empty password or hash compares false without calling bcrypt; otherwise the result is bcrypt's verdict |
| Password.StrongPasswordRule | backend/src/utils/password.js:20-22 | The regular expression accepts exactly the passwords of 8 or more allowed characters containing a lower-case letter, an upper-case letter and a digit |
| Password.StrongPasswordsHash | backend/src/utils/password.js:6-22 | Every strong password passes the hashing guard |
| Jwt.SignToken | backend/src/utils/jwt.js:5-17 | A token is issued exactly when `userId` is truthy, and is signed over `{userId}` alone; otherwise "JWT requires userId" is thrown |
| Jwt.SignIgnoresOtherClaims | backend/src/utils/jwt.js:9-10 | Other payload claims never influence the token |
| Jwt.CodeFor | backend/src/utils/jwt.js:24-32 | An expiry maps to TOKEN_EXPIRED, a malformed token to INVALID_TOKEN, anything else to AUTH_FAILED, each iff its condition |
| Jwt.VerifyToken | backend/src/utils/jwt.js:19-33 | The result is the decoded payload exactly when the library verifies it; otherwise a 401 with the mapped code |
| Jwt.GetUserIdFromToken | backend/src/utils/jwt.js:36-39 | The result is the decoded `userId`; errors from verification propagate unchanged |
| Jwt.SignThenRead | backend/src/utils/jwt.js:5-39 | A token signed for a non-zero id reads back as that id |
| AuthMiddleware.BearerToken | backend/src/middlewares/auth.middleware.js:6-12 | A token exists exactly for a header starting with "Bearer "; it is the text after the prefix up to the next space |
| AuthMiddleware.Decide | backend/src/middlewares/auth.middleware.js:4-20 | No bearer header gives NO_TOKEN; otherwise the request proceeds as the decoded user iff the token verifies, else with verifyToken's error |
| AuthMiddleware.ProceedsOnlyWithValidToken | backend/src/middlewares/auth.middleware.js:8-16 | A request proceeds iff it has a bearer header whose token the library verifies |
| AuthMiddleware.RejectionsAre401 | backend/src/middlewares/auth.middleware.js:8-19 | Every rejection carries status 401 |
| AuthMiddleware.Authenticate | backend/src/middlewares/auth.middleware.js:4-20 | On success `req.user` is set and `next()` gets nothing; on failure `next` gets the error and `req.user` is untouched |
| AuthService.RegisterError | backend/src/modules/auth/auth.service.js:46-52 | An error with a truthy status is rethrown as is; any other becomes 500 "Registration failed"; the result always has a truthy status |
| AuthService.RegisterWith | backend/src/modules/auth/auth.service.js:10-56 | On error the table is rolled back and the error is EMAIL_EXISTS or "Registration failed". A check hit gives EMAIL_EXISTS. Success holds iff the check misses, the hash succeeds, both fields are present and the lower-cased email is new; it appends the trimmed, lower-cased row and returns it without the hash. The id sequence advances by one exactly when the INSERT is attempted (check missed, hash made, both fields present), whether or not it succeeds, and stays put otherwise |
| AuthService.RegisterAsWritten | backend/src/modules/auth/auth.service.js:17-22 | As written, EMAIL_EXISTS is reported iff the email, exactly as typed, is stored |
| AuthService.CaseVariantEmailIsInternalError | backend/src/modules/auth/auth.service.js:17-52 | With "a@x.com" stored, registering "A@x.com" as written ends in 500 "Registration failed", with the table unchanged and one id consumed |
| AuthService.RegisterNormalized | backend/src/modules/auth/auth.service.js:17-37 | With the check on the lower-cased email, EMAIL_EXISTS is reported iff that key is stored |
| AuthService.NormalizedReportsDuplicates | backend/src/modules/auth/auth.service.js:17-52 | Over a lower-case table, the corrected check reports EMAIL_EXISTS iff some stored email equals the new one ignoring case; a 500 then means a failed hash or a missing field |
| AuthService.RegisterKeepsInvariant | backend/src/modules/auth/auth.service.js:32-37 | Registration keeps emails unique and lower-case, and ids below the sequence |
| AuthService.FindByEmail | backend/src/modules/auth/auth.service.js:59-62 | The lookup finds a row iff one has the email, and the row found has it |
| AuthService.Login | backend/src/modules/auth/auth.service.js:58-103 | A missing email throws the TypeError of `toLowerCase`, with no status and with its own message. Otherwise login succeeds iff the lower-cased email is found and the password matches, and every failure is the same INVALID_CREDENTIALS. Success returns a token over `{userId}` and the id, name and email |
| AuthService.LoginWithoutEmailResponse | backend/src/modules/auth/auth.service.js:58-62 | A call of the service's `login` without an email, joined directly to the error middleware, is answered 500 INTERNAL_ERROR with the TypeError's message for an undefined email, not the generic one. Over HTTP the route's `isEmail().normalizeEmail()` chain runs first |
| AuthService.LoginFailuresAlike | backend/src/modules/auth/auth.service.js:64-83 | An unknown email and a wrong password are indistinguishable to the caller |
| AuthService.RegisterThenLogin | backend/src/modules/auth/auth.service.js:10-103 | After a successful registration, login with the email in any letter case and the same password succeeds with a token for the new id |
| AuthService.UsersTable.Register | backend/src/modules/auth/auth.service.js:10-56 | The transaction step by step, with the existence check on the email as typed: the new table, the sequence and the result are those of `register` as written, and the table invariant is kept |
| FavoritesService.InsertedFacts | backend/src/modules/favorites/favorites.service.js:43-49 | Inserting a new pair makes it present, keeps pairs unique and changes no other pair |
| FavoritesService.DeletedFacts | backend/src/modules/favorites/favorites.service.js:68-73 | Deleting a pair makes it absent, keeps pairs unique, changes no other pair, and changes nothing when it was absent |
| FavoritesService.CountIsUsers | backend/src/modules/favorites/favorites.service.js:91-98 | With unique pairs, a game's favorite count is the number of distinct users who favorited it |
| FavoritesService.CountZero | backend/src/modules/favorites/favorites.service.js:91-98 | The count is 0 iff no row names the game |
| FavoritesService.CountAfterInsert | backend/src/modules/favorites/favorites.service.js:43-49 | An insert raises that game's count by one and leaves every other game's count alone |
| FavoritesService.Join | backend/src/modules/favorites/favorites.service.js:13-15 | The inner join yields exactly the (favorite, game) pairs with matching ids |
| FavoritesService.JoinSorted | backend/src/modules/favorites/favorites.service.js:14-16 | Joining favorites sorted newest first keeps them newest first |
| FavoritesService.UserFavoritesAreTheirs | backend/src/modules/favorites/favorites.service.js:13-15 | Every listed pair is one of the user's favorite rows joined with its game |
| FavoritesService.UserFavoritesComplete | backend/src/modules/favorites/favorites.service.js:13-15 | Every favorite of the user whose game exists is listed |
| FavoritesService.ListItemsSound | backend/src/modules/favorites/favorites.service.js:8-24 | Every listed item is a game the user favorited, with `is_favorite` true and `favorite_count` its count over all users |
| FavoritesService.ListItemsComplete | backend/src/modules/favorites/favorites.service.js:8-24 | Every game the user favorited that exists is listed |
| FavoritesService.ListItemsNewestFirst | backend/src/modules/favorites/favorites.service.js:16 | The list is ordered newest favorite first |
| FavoritesService.MineKeysDistinct | backend/src/modules/favorites/favorites.service.js:14-15 | Under UNIQUE(user_id, game_id), one user's favorites name distinct games |
| FavoritesService.JoinKeysDistinct | backend/src/modules/favorites/favorites.service.js:13-14 | Joining favorites of distinct games with games of distinct ids yields pairs of distinct games |
| FavoritesService.ListItemsDistinct | backend/src/modules/favorites/favorites.service.js:8-24 | Over unique pairs and distinct game ids, no game is listed twice |
| FavoritesService.FavoriteListed | backend/src/modules/favorites/favorites.service.js:8-24 | A game is listed iff the user has favorited it and the game exists |
| FavoritesService.FavoriteListedOnce | backend/src/modules/favorites/favorites.service.js:8-24 | A favorited, existing game is listed exactly once, and any other game not at all |
| FavoritesService.FavoritesTable.IsFavorited | backend/src/modules/favorites/favorites.service.js:29-38 | The answer is true iff a row for the pair exists; nothing changes |
| FavoritesService.FavoritesTable.AddFavorite | backend/src/modules/favorites/favorites.service.js:43-63 | A new pair of an existing game is inserted with the next id and reported Added (201); a present pair changes nothing and is reported 409; a new pair of an unknown game changes nothing and throws the foreign-key violation; the sequence advances in every case |
| FavoritesService.FavoritesTable.RemoveFavorite | backend/src/modules/favorites/favorites.service.js:68-86 | The pair's row is deleted and no other row changes; the result is Removed or "Not in favorites" by prior presence, both status 200 |
| FavoritesService.FavoritesTable.ListFavorites | backend/src/modules/favorites/favorites.service.js:8-24 | The items are the user's list as the query defines it, and pagination is null |
| FavoritesService.FavoritesTable.GetFavoriteCount | backend/src/modules/favorites/favorites.service.js:91-98 | The count is the number of rows for the game, which is the number of users who favorited it |
| FavoritesController.ListBody | backend/src/modules/favorites/favorites.controller.js:11-17 | The body is 200 with success true, items defaulting to [] and pagination passed through |
| FavoritesController.ListFavorites | backend/src/modules/favorites/favorites.controller.js:8-21 | The response is 200 with the service's list and null pagination |
| FavoritesController.AddFavorite | backend/src/modules/favorites/favorites.controller.js:26-37 | Whenever the service returns, the response is 201 with success, even when the service reported 409; the data says which, and the pair is present afterwards. The foreign-key violation of an unknown game goes to `next` and the table is unchanged |
| FavoritesController.RemoveFavorite | backend/src/modules/favorites/favorites.controller.js:42-52 | The response is always 200 with "Removed from favorites", whether or not the pair was there; the row is deleted |
| FavoritesController.ToggleFlips | backend/src/modules/favorites/favorites.controller.js:57-76 | A toggle keeps pairs unique and changes no other pair; it flips the pair, except that an absent pair of an unknown game stays absent and the table is unchanged |
| FavoritesController.ToggleTwiceRestores | backend/src/modules/favorites/favorites.controller.js:57-76 | Where the stored pair's game exists, two toggles of a pair restore every pair's membership |
| FavoritesController.ToggleFavorite | backend/src/modules/favorites/favorites.controller.js:57-80 | A present pair is removed (`is_favorite` false) and the sequence is untouched. An absent one is added (`is_favorite` true, with the service result) and draws one id. An absent pair of an unknown game draws one id and goes to `next` with the foreign-key violation. `is_favorite` is the new state |
| FavoritesController.ToggleTwice | backend/src/modules/favorites/favorites.controller.js:57-80 | Toggling the same pair twice leaves the store with the pairs it had |
| FavoritesController.AddTwiceThenList | backend/src/modules/favorites/favorites.controller.js:8-37 | Adding a game twice gives a 201 that reports "already favorited" the second time, and the list then names the game exactly once when it exists |
| FavoritesController.UnknownGameIsServerError | backend/src/middlewares/error.middleware.js:2-18 | The foreign-key violation of a favorite for an unknown game reaches the client as a failed 500 carrying the SQLSTATE code 23503, not as a 404 |
| Pagination.StartPage | frontend/src/components/Pagination/Pagination.jsx:14 | The window starts at max(1, current-2) |
| Pagination.EndPage | frontend/src/components/Pagination/Pagination.jsx:15 | The window ends at min(total, start+4) |
| Pagination.PageNumbers | frontend/src/components/Pagination/Pagination.jsx:37 | At most five buttons, numbered start, start+1, ...; none when the end is before the start |
| Pagination.Render | frontend/src/components/Pagination/Pagination.jsx:23-57 | Nothing renders iff there is at most one page. Prev is disabled on page 1 or while loading, and Next on the last page or while loading. Every button is disabled while loading and marked active iff it is the current page |
| Pagination.HandlePageChange | frontend/src/components/Pagination/Pagination.jsx:17-21 | `onPageChange` is called, with the page, iff the page differs from the current one |
| Pagination.ButtonsConsecutive | frontend/src/components/Pagination/Pagination.jsx:13-37 | The buttons are consecutive from the start to the end of the window |
| Pagination.CurrentPageShown | frontend/src/components/Pagination/Pagination.jsx:14-44 | For a page in range the window contains it, and exactly one button is active |
| Pagination.WindowInRange | frontend/src/components/Pagination/Pagination.jsx:14-37 | Every button is a page between 1 and the total |
| Pagination.PrevNextRequest | frontend/src/components/Pagination/Pagination.jsx:27-56 | An enabled Prev or Next requests the neighbouring page |
| GameCard.InitialFavorite | frontend/src/components/GameCard/GameCard.jsx:23-25 | The snake-case flag wins when present; otherwise the camel-case flag, with absent counting as false |
| GameCard.InitialCount | frontend/src/components/GameCard/GameCard.jsx:27 | A present count is used; an absent count is 0 |
| GameCard.AfterClick | frontend/src/components/GameCard/GameCard.jsx:42-50 | A click while signed out or loading changes nothing; otherwise the flag flips, the count moves one toward it, and loading starts |
| GameCard.AfterSettle | frontend/src/components/GameCard/GameCard.jsx:67-82 | Success keeps the optimistic state; a 409 forces the flag on; any other error restores the pre-click flag and count; loading always ends |
| GameCard.FailedToggleRestores | frontend/src/components/GameCard/GameCard.jsx:42-82 | A click followed by a non-conflict failure gives back exactly the state before the click |
| GameCard.SucceededToggleTwice | frontend/src/components/GameCard/GameCard.jsx:42-66 | A successful toggle flips the flag and moves the count by one; two of them restore the state |
| GameCard.FavoriteButton.constructor | frontend/src/components/GameCard/GameCard.jsx:23-27 | The state cells start from the props, not loading |
| GameCard.FavoriteButton.Sync | frontend/src/components/GameCard/GameCard.jsx:30-33 | A prop change re-reads flag and count and leaves loading alone |
| GameCard.FavoriteButton.Click | frontend/src/components/GameCard/GameCard.jsx:42-59 | The state becomes AfterClick of the old state. A request is sent iff the click is not ignored: a remove when the game was a favorite, an add otherwise, with the pre-click values saved |
| GameCard.FavoriteButton.Settle | frontend/src/components/GameCard/GameCard.jsx:61-82 | The state becomes AfterSettle. The parent is notified iff the request succeeded, with the flipped flag and the pre-click count |
| FilterBar.AddOption | frontend/src/components/FilterBar/FilterBar.jsx:33-36 | A truthy value not yet in the set is appended; anything else leaves the set as it is |
| FilterBar.Options | frontend/src/components/FilterBar/FilterBar.jsx:30-40 | The options always start with "All" |
| FilterBar.OptionsFacts | frontend/src/components/FilterBar/FilterBar.jsx:30-40 | The options are distinct; they are "All" and exactly the non-empty values; the values come in order of first appearance |
| FilterBar.CollectOptions | frontend/src/components/FilterBar/FilterBar.jsx:26-41 | The loop over `items` (or [] when absent) produces the provider and category options |
| FilterBar.Emit | frontend/src/components/FilterBar/FilterBar.jsx:62-68 | The parent gets "All" as "" and the search text unchanged, with page 1 |
| FilterBar.EmittedFiltersComeFromItems | frontend/src/components/FilterBar/FilterBar.jsx:27-68 | Any selected option emits no filter or a provider (category) some loaded game has |
| FilterBar.OptionsRequestIsClamped | frontend/src/components/FilterBar/FilterBar.jsx:27 | The options request for 1000 games is served with the listing's maximum limit of 50 |
| SeedGames.FixtureBreakdown | backend/seed/seedGames.js:12-42 | The fixture holds 25 games: 13 Evolution, 7 Pragmatic Play, 3 NetEnt, 2 Microgaming, and 6 table games |
| SeedGames.BuildInsert | backend/seed/seedGames.js:65-70 | There are three values per game in column order, and the placeholders are the tuples `($3i+1, $3i+2, $3i+3)` joined with ", " |
| SeedGames.ParametersInStep | backend/seed/seedGames.js:66-69 | Parameter $k is bound to column (k-1)%3 of game (k-1)/3, and the text `$k` occurs in that game's tuple |
| SeedGames.FixtureRows | backend/seed/seedGames.js:72-77 | The inserted rows are the fixture in order, with consecutive ids and one timestamp |
| SeedGames.Decide | backend/seed/seedGames.js:51-62 | The script skips iff the table has rows and no force was given |
| SeedGames.TruncatesExactlyWhenForced | backend/seed/seedGames.js:52-62 | The truncation runs exactly when force is given |
| SeedGames.GamesTable.Seed | backend/seed/seedGames.js:44-92 | A skip leaves the table. A forced reseed leaves the 25 rows with ids 1..25. A first seed inserts them at the current sequence. A failed INSERT restores the rows. The ids it drew stay consumed on a first seed, and are given back with the rolled-back restart after a truncate |

## Left out

- Concurrency is not modelled: `FOR UPDATE`, simultaneous requests, and the pool's connection handling. Every call runs alone.
- The database schema is not part of this model. These constraints are assumed:
  - UNIQUE(user_id, game_id) on favorites, which the ON CONFLICT target requires;
  - UNIQUE(email) on users;
  - a foreign key from favorites.game_id to games.id, so adding a favorite for an unknown game id throws the violation (SQLSTATE 23503) that the error middleware turns into a 500;
  - a foreign key from favorites.user_id to users.id;
  - `created_at` defaulting to the current time, passed in as `now`.
- The foreign key from favorites to users is not modelled: the user id comes from a verified token, and a token of a user deleted since is not considered.
- SeedGames.GamesTable.Seed: a forced reseed's `TRUNCATE ... CASCADE` also empties the favorites table through the foreign key. The seed model holds only the games table, so it does not show this.
- The foreign-key checks of the store's methods take the games table as a parameter, not a shared reference to `SeedGames.GamesTable`.
- bcrypt, jsonwebtoken, secrets, expiry and the HS256 option are parameters.
- `auth.service.js` never imports `bcrypt` or `jwt`, so lines 30, 74 and 86 would throw a ReferenceError at run time. The model takes the hash, compare and sign functions as parameters instead. A hash that fails (None) covers the error at line 30.
- AuthService.Login: `None` stands for both an undefined and a null email, and the model always gives the message for undefined ("Cannot read properties of undefined (reading 'toLowerCase')"). With `email: null` the program's TypeError says "of null" instead, and that message reaches the client through the error middleware.
- AuthService.Login: a compare that throws is not modelled. The token is made with `jwt.sign` directly, as in the source, not through `signToken`'s guard.
- Password.HashPassword: counts UTF-16 code units as JavaScript does. What bcrypt does with the text (UTF-8 bytes, the 72-byte limit) is outside the model.
- Case folding is ASCII only. `toLowerCase`, `ILIKE` and the regular expression's classes do not handle other scripts.
- SqlLike.ILike models only the `%` wildcard. `_` and the backslash escape are not modelled, so search text containing them is matched literally.
- GamesService.PageNumber and GamesService.LimitNumber take integers or nothing: `Number()` of non-numeric text (NaN) is not modelled.
- FavoritesController and FavoritesService take `gameId` as an integer. The routes run `param("gameId").isInt().toInt()` (backend/src/modules/favorites/favorites.routes.js:14 and :21), but nothing reads the validation result. So a non-numeric `:gameId` reaches the service as NaN, PostgreSQL rejects it (SQLSTATE 22P02), and the client gets a 500. That path is not modelled.
- Rows.SortDesc breaks ties in table order, the same on every query. The database does not promise that. With duplicate `created_at` values (the seed gives all 25 games one timestamp), PostgreSQL may order tied rows differently on different queries, so a row can appear on two pages or on none.
- The validators, controllers and routes of the games and auth modules, and the app and server setup, are not part of this model. The toggle handler is modelled, although backend/src/modules/favorites/favorites.routes.js gives it no route.
- Console output of the middlewares, components and seed script is not modelled. So are `process.exit` and the "Page x of y" info text.
- Rendering is not modelled: markup, icons and animation.
- The filter bar's 300 ms debounce timer is not modelled. The debounce only drops intermediate values, so Emit is the value sent after the last change. Also left out: the cancelled-effect `active` flag and the error path of the options request, which keeps the initial ["All"].
- GameCard.FavoriteButton.Settle reports the count the click started from, as the handler's closure does. This is not the optimistically updated count.
- SeedGames.GamesTable.Seed: the failure path models only the INSERT failing. A failing `SELECT` or `TRUNCATE` rolls back in the same way and is not listed separately. A failing connection (`pool.connect()` sits before the `try`) changes nothing: no ROLLBACK runs and the client is never released, which is not modelled.
- SeedGames.GamesTable.Seed sees only whether the table has rows. That is all that `SELECT 1 ... LIMIT 1` reports.

## Findings

| source | as written | input that shows it | evidently intended | confidence | as-written member | corrected member |
|---|---|---|---|---|---|---|
| backend/src/modules/auth/auth.service.js:17-36 | The existence check looks up `email` exactly as typed, but the INSERT stores `email.toLowerCase()`. | "a@x.com" is registered, then "A@x.com" registers. The check misses, the INSERT violates the unique email, and the catch turns this into 500 "Registration failed". Over HTTP the route's `normalizeEmail()` (backend/src/modules/auth/auth.routes.js:13) lower-cases the email first. So the 500 needs a direct caller of `register`, and the defect is latent. | The check uses the lower-cased email, so a case-variant duplicate is a 409 EMAIL_EXISTS. | not executed | AuthService.CaseVariantEmailIsInternalError | AuthService.NormalizedReportsDuplicates |
