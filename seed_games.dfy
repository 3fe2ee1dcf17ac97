/** The seed script (backend/seed/seedGames.js): the fixed list of 25
    games, the multi-row INSERT it builds for them, and the decision to
    skip, reseed or first-seed the games table inside one transaction. */
module SeedGames {
  import opened Js
  import opened Strings
  import opened GamesService

  /** A fixture entry: the three columns the INSERT supplies. */
  datatype SeedGame = SeedGame(name: string, provider: string, category: string)

  const Fixture: seq<SeedGame> := [
    SeedGame("Lightning Roulette", "Evolution", "Live Casino"),
    SeedGame("Crazy Time", "Evolution", "Live Casino"),
    SeedGame("Monopoly Live", "Evolution", "Live Casino"),
    SeedGame("Mega Ball", "Evolution", "Live Casino"),
    SeedGame("Dream Catcher", "Evolution", "Live Casino"),
    SeedGame("Sweet Bonanza", "Pragmatic Play", "Slots"),
    SeedGame("Gates of Olympus", "Pragmatic Play", "Slots"),
    SeedGame("Wolf Gold", "Pragmatic Play", "Slots"),
    SeedGame("Fruit Party 2", "Pragmatic Play", "Slots"),
    SeedGame("Sugar Rush", "Pragmatic Play", "Slots"),
    SeedGame("Blackjack VIP", "Evolution", "Table Games"),
    SeedGame("Baccarat Squeeze", "Evolution", "Table Games"),
    SeedGame("Infinite Blackjack", "Evolution", "Table Games"),
    SeedGame("Starburst", "NetEnt", "Slots"),
    SeedGame("Gonzo's Quest", "NetEnt", "Slots"),
    SeedGame("Dead or Alive 2", "NetEnt", "Slots"),
    SeedGame("Immortal Romance", "Microgaming", "Slots"),
    SeedGame("Book of Oz", "Microgaming", "Slots"),
    SeedGame("Lightning Dice", "Evolution", "Table Games"),
    SeedGame("Speed Blackjack", "Evolution", "Table Games"),
    SeedGame("The Dog House", "Pragmatic Play", "Slots"),
    SeedGame("Big Bass Bonanza", "Pragmatic Play", "Slots"),
    SeedGame("Deal or No Deal", "Evolution", "Live Casino"),
    SeedGame("Cash or Crash", "Evolution", "Live Casino"),
    SeedGame("Football Studio", "Evolution", "Table Games")
  ]

  /** The number of entries from position `i` on with the provider. */
  function CountProvider(games: seq<SeedGame>, provider: string, i: nat): nat
    requires i <= |games|
    decreases |games| - i
  {
    if i == |games| then 0
    else (if games[i].provider == provider then 1 else 0) + CountProvider(games, provider, i + 1)
  }

  /** The number of entries from position `i` on in the category. */
  function CountCategory(games: seq<SeedGame>, category: string, i: nat): nat
    requires i <= |games|
    decreases |games| - i
  {
    if i == |games| then 0
    else (if games[i].category == category then 1 else 0) + CountCategory(games, category, i + 1)
  }

  lemma EvolutionGames()
    ensures CountProvider(Fixture, "Evolution", 0) == 13
  {
    assert CountProvider(Fixture, "Evolution", 24) == 1;
    assert CountProvider(Fixture, "Evolution", 21) == 3;
    assert CountProvider(Fixture, "Evolution", 18) == 5;
    assert CountProvider(Fixture, "Evolution", 15) == 5;
    assert CountProvider(Fixture, "Evolution", 12) == 6;
    assert CountProvider(Fixture, "Evolution", 9) == 8;
    assert CountProvider(Fixture, "Evolution", 6) == 8;
    assert CountProvider(Fixture, "Evolution", 3) == 10;
    assert CountProvider(Fixture, "Evolution", 0) == 13;
  }

  lemma PragmaticPlayGames()
    ensures CountProvider(Fixture, "Pragmatic Play", 0) == 7
  {
    assert CountProvider(Fixture, "Pragmatic Play", 24) == 0;
    assert CountProvider(Fixture, "Pragmatic Play", 21) == 1;
    assert CountProvider(Fixture, "Pragmatic Play", 18) == 2;
    assert CountProvider(Fixture, "Pragmatic Play", 15) == 2;
    assert CountProvider(Fixture, "Pragmatic Play", 12) == 2;
    assert CountProvider(Fixture, "Pragmatic Play", 9) == 3;
    assert CountProvider(Fixture, "Pragmatic Play", 6) == 6;
    assert CountProvider(Fixture, "Pragmatic Play", 3) == 7;
    assert CountProvider(Fixture, "Pragmatic Play", 0) == 7;
  }

  lemma NetEntGames()
    ensures CountProvider(Fixture, "NetEnt", 0) == 3
  {
    assert CountProvider(Fixture, "NetEnt", 24) == 0;
    assert CountProvider(Fixture, "NetEnt", 21) == 0;
    assert CountProvider(Fixture, "NetEnt", 18) == 0;
    assert CountProvider(Fixture, "NetEnt", 15) == 1;
    assert CountProvider(Fixture, "NetEnt", 12) == 3;
    assert CountProvider(Fixture, "NetEnt", 9) == 3;
    assert CountProvider(Fixture, "NetEnt", 6) == 3;
    assert CountProvider(Fixture, "NetEnt", 3) == 3;
    assert CountProvider(Fixture, "NetEnt", 0) == 3;
  }

  lemma MicrogamingGames()
    ensures CountProvider(Fixture, "Microgaming", 0) == 2
  {
    assert CountProvider(Fixture, "Microgaming", 24) == 0;
    assert CountProvider(Fixture, "Microgaming", 21) == 0;
    assert CountProvider(Fixture, "Microgaming", 18) == 0;
    assert CountProvider(Fixture, "Microgaming", 15) == 2;
    assert CountProvider(Fixture, "Microgaming", 12) == 2;
    assert CountProvider(Fixture, "Microgaming", 9) == 2;
    assert CountProvider(Fixture, "Microgaming", 6) == 2;
    assert CountProvider(Fixture, "Microgaming", 3) == 2;
    assert CountProvider(Fixture, "Microgaming", 0) == 2;
  }

  lemma TableGames()
    ensures CountCategory(Fixture, "Table Games", 0) == 6
  {
    assert CountCategory(Fixture, "Table Games", 24) == 1;
    assert CountCategory(Fixture, "Table Games", 21) == 1;
    assert CountCategory(Fixture, "Table Games", 18) == 3;
    assert CountCategory(Fixture, "Table Games", 15) == 3;
    assert CountCategory(Fixture, "Table Games", 12) == 4;
    assert CountCategory(Fixture, "Table Games", 9) == 6;
    assert CountCategory(Fixture, "Table Games", 6) == 6;
    assert CountCategory(Fixture, "Table Games", 3) == 6;
    assert CountCategory(Fixture, "Table Games", 0) == 6;
  }

  /** The fixture's make-up: 25 games, by provider 13 Evolution, 7
      Pragmatic Play, 3 NetEnt and 2 Microgaming, and six table games. */
  lemma FixtureBreakdown()
    ensures |Fixture| == 25
    ensures CountProvider(Fixture, "Evolution", 0) == 13
    ensures CountProvider(Fixture, "Pragmatic Play", 0) == 7
    ensures CountProvider(Fixture, "NetEnt", 0) == 3
    ensures CountProvider(Fixture, "Microgaming", 0) == 2
    ensures CountCategory(Fixture, "Table Games", 0) == 6
  {
    EvolutionGames();
    PragmaticPlayGames();
    NetEntGames();
    MicrogamingGames();
    TableGames();
  }

  /** Column `j` of a fixture entry, in the INSERT's column order
      (name, provider, category). */
  function Column(g: SeedGame, j: nat): string
    requires j < 3
  {
    if j == 0 then g.name else if j == 1 then g.provider else g.category
  }

  /** The placeholder `$k` of the k-th query parameter. */
  function Param(k: nat): string
  {
    "$" + NatToString(k)
  }

  /** The placeholder tuple of game `i`: `($3i+1, $3i+2, $3i+3)`. */
  function Tuple(i: nat): string
  {
    var base := i * 3 + 1;
    "(" + Param(base) + ", " + Param(base + 1) + ", " + Param(base + 2) + ")"
  }

  /** The `games.map(...)` pass: one tuple per game, its three columns
      pushed onto `values`, and the tuples joined with ", ". */
  method BuildInsert(games: seq<SeedGame>) returns (placeholders: string, values: seq<string>)
    ensures |values| == 3 * |games|
    ensures forall i, j :: 0 <= i < |games| && 0 <= j < 3 ==> values[i * 3 + j] == Column(games[i], j)
    ensures placeholders == Join(seq(|games|, i requires 0 <= i < |games| => Tuple(i)), ", ")
  {
    var tuples: seq<string> := [];
    values := [];
    var index := 0;
    while index < |games|
      invariant 0 <= index <= |games|
      invariant |values| == 3 * index
      invariant forall i, j :: 0 <= i < index && 0 <= j < 3 ==> values[i * 3 + j] == Column(games[i], j)
      invariant tuples == seq(index, i requires 0 <= i < index => Tuple(i))
    {
      var step := [games[index].name, games[index].provider, games[index].category];
      forall i, j | 0 <= i < index + 1 && 0 <= j < 3
        ensures (values + step)[i * 3 + j] == Column(games[i], j)
      {
        if i == index {
          assert (values + step)[i * 3 + j] == step[j];
        } else {
          assert i * 3 + j < |values|;
        }
      }
      values := values + step;
      tuples := tuples + [Tuple(index)];
      index := index + 1;
    }
    placeholders := Join(tuples, ", ");
  }

  /** Every parameter `$k` of the INSERT, 1 <= k <= 3n, is bound to
      column (k-1) % 3 of game (k-1) / 3: the tuple of game i names
      exactly parameters 3i+1 to 3i+3. */
  lemma ParametersInStep(games: seq<SeedGame>, values: seq<string>, k: nat)
    requires |values| == 3 * |games|
    requires forall i, j :: 0 <= i < |games| && 0 <= j < 3 ==> values[i * 3 + j] == Column(games[i], j)
    requires 1 <= k <= |values|
    ensures (k - 1) / 3 < |games|
    ensures values[k - 1] == Column(games[(k - 1) / 3], (k - 1) % 3)
    ensures (k - 1) / 3 * 3 + 1 <= k <= (k - 1) / 3 * 3 + 3
    ensures Occurs(Param(k), Tuple((k - 1) / 3))
  {
    var i := (k - 1) / 3;
    var j := (k - 1) % 3;
    assert k - 1 == i * 3 + j;
    TupleNames(i, j);
  }

  /** The tuple of game i names parameter 3i+j+1 for each column j. */
  lemma TupleNames(i: nat, j: nat)
    requires j < 3
    ensures Occurs(Param(i * 3 + j + 1), Tuple(i))
  {
    var a, b, c := Param(i * 3 + 1), Param(i * 3 + 2), Param(i * 3 + 3);
    var t := Tuple(i);
    if j == 0 {
      assert t == "(" + a + (", " + b + ", " + c + ")");
      OccursInMiddle("(", a, ", " + b + ", " + c + ")");
    } else if j == 1 {
      assert t == ("(" + a + ", ") + b + (", " + c + ")");
      OccursInMiddle("(" + a + ", ", b, ", " + c + ")");
    } else {
      assert t == ("(" + a + ", " + b + ", ") + c + ")";
      OccursInMiddle("(" + a + ", " + b + ", ", c, ")");
    }
  }

  /** `s` appears somewhere in `t`. */
  ghost predicate Occurs(s: string, t: string)
  {
    exists u, v :: t == u + s + v
  }

  /** A string occurs in any text that has it in the middle. */
  lemma OccursInMiddle(u: string, s: string, v: string)
    ensures Occurs(s, u + s + v)
  {
  }

  /** The fixture rows as they are inserted: consecutive ids from the
      sequence, and one `created_at` for the whole statement. */
  function FixtureRows(firstId: int, now: int): (r: seq<Game>)
    ensures |r| == |Fixture|
    ensures forall i :: 0 <= i < |r| ==>
      r[i] == Game(firstId + i, Fixture[i].name, Fixture[i].provider, Fixture[i].category, now)
  {
    seq(|Fixture|, i requires 0 <= i < |Fixture| =>
      Game(firstId + i, Fixture[i].name, Fixture[i].provider, Fixture[i].category, now))
  }

  /** What the script does after `SELECT 1 FROM games LIMIT 1`. */
  datatype Plan = Skip | TruncateThenInsert | InsertOnly

  /** `rowCount > 0 && !force` skips; the truncate guard `rowCount > 0 ||
      force` is then reached only when `rowCount` is 0 or `force` holds. */
  function Decide(rowCount: nat, force: bool): (p: Plan)
    ensures p == Skip <==> rowCount > 0 && !force
  {
    if rowCount > 0 && !force then Skip
    else if rowCount > 0 || force then TruncateThenInsert
    else InsertOnly
  }

  /** The truncation runs exactly when `force` is given. */
  lemma TruncatesExactlyWhenForced(rowCount: nat, force: bool)
    ensures Decide(rowCount, force) == TruncateThenInsert <==> force
  {
  }

  datatype SeedResult = Skipped | Seeded(count: nat) | SeedFailed

  /** The games table and its id sequence. */
  class GamesTable {
    var rows: seq<Game>
    var nextId: int

    constructor (rows: seq<Game>, nextId: int)
      ensures this.rows == rows && this.nextId == nextId
    {
      this.rows, this.nextId := rows, nextId;
    }

    /** `seedGames(force)`. A skip rolls back and leaves the table as it
        was; `TRUNCATE ... RESTART IDENTITY` empties the table and restarts
        the ids at 1; the INSERT adds the 25 fixture rows. `failure` is
        `Some(k)` when the INSERT fails after drawing `k` ids. ROLLBACK then
        restores the rows and undoes the truncate's restart of the sequence
        together with any draw after it, but a draw without a truncate
        before it stays consumed. */
    method Seed(force: bool, now: int, failure: Option<nat>) returns (r: SeedResult)
      requires failure.Some? ==> failure.value <= |Fixture|
      modifies this
      ensures match Decide(if |old(rows)| > 0 then 1 else 0, force)
        case Skip => r == Skipped && rows == old(rows) && nextId == old(nextId)
        case TruncateThenInsert =>
          if failure.Some? then r == SeedFailed && rows == old(rows) && nextId == old(nextId)
          else r == Seeded(25) && rows == FixtureRows(1, now) && nextId == 26
        case InsertOnly =>
          if failure.Some? then r == SeedFailed && rows == old(rows) && nextId == old(nextId) + failure.value
          else r == Seeded(25) && rows == FixtureRows(old(nextId), now) && nextId == old(nextId) + 25
    {
      var snapshotRows, snapshotId := rows, nextId;
      var rowCount: nat := if |rows| > 0 then 1 else 0;
      if rowCount > 0 && !force {
        rows, nextId := snapshotRows, snapshotId;
        return Skipped;
      }
      var truncated := false;
      if rowCount > 0 || force {
        rows, nextId := [], 1;
        truncated := true;
      }
      var placeholders, values := BuildInsert(Fixture);
      if failure.Some? {
        nextId := nextId + failure.value;
        rows := snapshotRows;
        if truncated {
          nextId := snapshotId;
        }
        return SeedFailed;
      }
      rows := rows + FixtureRows(nextId, now);
      nextId := nextId + |Fixture|;
      r := Seeded(|Fixture|);
    }
  }
}
