/** The game listing (backend/src/modules/games/games.service.js): clamps
    the paging parameters, builds a conjunctive WHERE clause whose `$k`
    placeholders stay in step with the bound values, counts the matching
    rows and returns one page of them, newest first. The SQL is modelled
    twice: as the conditions and values the code emits, and as what the
    database does with them. */
module GamesService {
  import opened Js
  import opened Strings
  import opened SqlLike
  import opened Rows

  /** A row of the games table. */
  datatype Game = Game(id: int, name: string, provider: string, category: string, createdAt: int)

  function CreatedAt(g: Game): int { g.createdAt }

  /** The parameters of a listing request. A text filter of "" is absent
      (undefined and "" are both falsy); a page or limit of None was not
      given and takes its default. */
  datatype ListQuery = ListQuery(search: string, provider: string, category: string,
                                 page: Option<int>, limit: Option<int>)

  datatype PageInfo = PageInfo(total: nat, page: int, limit: int, pages: nat)
  datatype GamePage = GamePage(items: seq<Game>, pagination: PageInfo)

  const DefaultPage := 1
  const DefaultLimit := 12
  const MinLimit := 5
  const MaxLimit := 50

  /** `Math.max(Number(page), 1)` with the default page 1. */
  function PageNumber(page: Option<int>): (p: int)
    ensures p >= 1
    ensures page.Some? && page.value >= 1 ==> p == page.value
    ensures page.None? || page.value < 1 ==> p == 1
  {
    var n := if page.None? then DefaultPage else page.value;
    if n > 1 then n else 1
  }

  /** `Math.min(Math.max(Number(limit), 5), 50)` with the default limit 12. */
  function LimitNumber(limit: Option<int>): (l: int)
    ensures MinLimit <= l <= MaxLimit
    ensures limit.None? ==> l == DefaultLimit
    ensures limit.Some? && MinLimit <= limit.value <= MaxLimit ==> l == limit.value
    ensures limit.Some? && limit.value < MinLimit ==> l == MinLimit
    ensures limit.Some? && limit.value > MaxLimit ==> l == MaxLimit
  {
    var n := if limit.None? then DefaultLimit else limit.value;
    var atLeast := if n > MinLimit then n else MinLimit;
    if atLeast < MaxLimit then atLeast else MaxLimit
  }

  /** `(pageNum - 1) * limitNum`: the rows of the earlier pages. */
  function Offset(pageNum: int, limitNum: int): (o: nat)
    requires pageNum >= 1 && limitNum >= 1
    ensures o % limitNum == 0 && o / limitNum == pageNum - 1
  {
    var o := (pageNum - 1) * limitNum;
    assert o / limitNum == pageNum - 1 && o % limitNum == 0 by {
      DivMulExact(pageNum - 1, limitNum);
    }
    o
  }

  /** Arithmetic for Offset: a multiple of the limit divides back to the
      page index exactly. */
  lemma DivMulExact(k: nat, d: int)
    requires d >= 1
    ensures (k * d) / d == k && (k * d) % d == 0
  {
    var q, m := (k * d) / d, (k * d) % d;
    assert q * d + m == k * d && 0 <= m < d;
    assert (k - q) * d == m by {
      assert (k - q) * d == k * d - q * d;
    }
    if k - q >= 1 {
      MulAtLeast(k - q, d);
    } else if k - q <= -1 {
      MulAtLeast(q - k, d);
    }
  }

  /** Arithmetic for DivMulExact: a positive multiple of `d` is at least
      `d`. */
  lemma MulAtLeast(a: int, d: int)
    requires a >= 1 && d >= 1
    ensures a * d >= d
  {
    assert a * d == (a - 1) * d + d;
  }

  /** `Math.ceil(total / limitNum)`: the fewest pages of `limitNum` rows
      that hold `total` rows. */
  function PageCount(total: nat, limitNum: int): (pages: nat)
    requires limitNum >= 1
    ensures pages * limitNum >= total
    ensures pages > 0 ==> (pages - 1) * limitNum < total
  {
    var pages := (total + limitNum - 1) / limitNum;
    assert pages * limitNum >= total && (pages > 0 ==> (pages - 1) * limitNum < total) by {
      CeilingBounds(total, limitNum);
    }
    pages
  }

  /** Arithmetic for PageCount: the rounded-up quotient holds `total` and
      one page fewer does not. */
  lemma CeilingBounds(total: nat, d: int)
    requires d >= 1
    ensures ((total + d - 1) / d) * d >= total
    ensures (total + d - 1) / d > 0 ==> ((total + d - 1) / d - 1) * d < total
  {
    var q := (total + d - 1) / d;
    var m := (total + d - 1) % d;
    assert q * d + m == total + d - 1 && 0 <= m < d;
    assert (q - 1) * d == q * d - d;
  }

  /** A value bound to a `$k` placeholder. */
  datatype SqlValue = Text(text: string) | Number(number: int)

  /** A condition of the WHERE clause, naming its placeholder. */
  datatype Condition = NameILike(param: nat) | ProviderILike(param: nat) | CategoryEquals(param: nat)

  /** The order in which the code tests the filters. */
  function Rank(c: Condition): nat
  {
    match c
    case NameILike(_) => 0
    case ProviderILike(_) => 1
    case CategoryEquals(_) => 2
  }

  /** The SQL text of a condition. */
  function ConditionText(c: Condition): string
  {
    match c
    case NameILike(n) => "name ILIKE $" + NatToString(n)
    case ProviderILike(n) => "provider ILIKE $" + NatToString(n)
    case CategoryEquals(n) => "category = $" + NatToString(n)
  }

  /** `conditions.length > 0 ? "WHERE " + conditions.join(" AND ") : ""`. */
  function WhereClause(conds: seq<Condition>): (w: string)
    ensures w == "" <==> |conds| == 0
  {
    if |conds| > 0 then
      "WHERE " + Join(seq(|conds|, i requires 0 <= i < |conds| => ConditionText(conds[i])), " AND ")
    else ""
  }

  /** The value bound to `$n` (1-based), if there is one. */
  function Param(values: seq<SqlValue>, n: nat): Option<SqlValue>
  {
    if 1 <= n <= |values| then Some(values[n - 1]) else None
  }

  /** How the database evaluates one condition against a row. */
  predicate ConditionHolds(c: Condition, values: seq<SqlValue>, g: Game)
  {
    var v := Param(values, c.param);
    v.Some? && v.value.Text? &&
    match c
    case NameILike(_) => ILike(g.name, v.value.text)
    case ProviderILike(_) => ILike(g.provider, v.value.text)
    case CategoryEquals(_) => g.category == v.value.text
  }

  /** The WHERE clause: every condition holds (none at all keeps every row). */
  predicate WhereHolds(conds: seq<Condition>, values: seq<SqlValue>, g: Game)
  {
    forall i :: 0 <= i < |conds| ==> ConditionHolds(conds[i], values, g)
  }

  /** The filters of a listing request as the database applies them: the
      name ILIKE `%search%`, the provider ILIKE `provider`, the category
      equal to `category`; an absent filter constrains nothing. */
  predicate Matches(q: ListQuery, g: Game)
  {
    (q.search == "" || ILike(g.name, "%" + q.search + "%"))
    && (q.provider == "" || ILike(g.provider, q.provider))
    && (q.category == "" || g.category == q.category)
  }

  /** In words, for filter texts without wildcards: the search is a
      case-insensitive substring of the name, the provider is equal ignoring
      case, the category is equal exactly. */
  lemma MatchesMeans(q: ListQuery, g: Game)
    requires '%' !in q.search && '%' !in q.provider
    ensures Matches(q, g) <==>
      (q.search == "" || ContainsIgnoringCase(g.name, q.search))
      && (q.provider == "" || Lower(g.provider) == Lower(q.provider))
      && (q.category == "" || g.category == q.category)
  {
    ILikeContains(g.name, q.search);
    ILikeLiteral(g.provider, q.provider);
  }

  /** The number of filters present. */
  function FilterCount(q: ListQuery): nat
  {
    (if q.search != "" then 1 else 0) + (if q.provider != "" then 1 else 0)
    + (if q.category != "" then 1 else 0)
  }

  /** The conditions and values of the WHERE clause, built by pushing onto
      both arrays: each present filter, in the order search, provider,
      category, adds one value and then one condition that refers to it by
      the new length of the values. The placeholders come out as $1..$n in
      order, and the clause means exactly the filters of the request. */
  method BuildConditions(q: ListQuery) returns (conds: seq<Condition>, values: seq<SqlValue>)
    ensures |conds| == |values| == FilterCount(q)
    ensures forall k :: 0 <= k < |conds| ==> conds[k].param == k + 1
    ensures forall k :: 0 <= k < |values| ==> values[k].Text?
    ensures forall i, j :: 0 <= i < j < |conds| ==> Rank(conds[i]) < Rank(conds[j])
    ensures forall g :: WhereHolds(conds, values, g) <==> Matches(q, g)
  {
    conds, values := [], [];
    if q.search != "" {
      values := values + [Text("%" + q.search + "%")];
      conds := conds + [NameILike(|values|)];
    }
    if q.provider != "" {
      values := values + [Text(q.provider)];
      conds := conds + [ProviderILike(|values|)];
    }
    if q.category != "" {
      values := values + [Text(q.category)];
      conds := conds + [CategoryEquals(|values|)];
    }
    forall g: Game ensures WhereHolds(conds, values, g) <==> Matches(q, g) {
      WhereMeansMatches(q, conds, values, g);
    }
  }

  /** The three filters, one per condition kind: the case analysis behind
      the last postcondition of BuildConditions. */
  lemma WhereMeansMatches(q: ListQuery, conds: seq<Condition>, values: seq<SqlValue>, g: Game)
    requires |conds| == |values| == FilterCount(q)
    requires forall k :: 0 <= k < |conds| ==> conds[k].param == k + 1
    requires var s, p := (if q.search != "" then 1 else 0), (if q.provider != "" then 1 else 0);
      (q.search != "" ==> conds[0].NameILike? && values[0] == Text("%" + q.search + "%"))
      && (q.provider != "" ==> conds[s].ProviderILike? && values[s] == Text(q.provider))
      && (q.category != "" ==> conds[s + p].CategoryEquals? && values[s + p] == Text(q.category))
    ensures WhereHolds(conds, values, g) <==> Matches(q, g)
  {
    var s, p := (if q.search != "" then 1 else 0), (if q.provider != "" then 1 else 0);
    if WhereHolds(conds, values, g) {
      if q.search != "" { assert ConditionHolds(conds[0], values, g); }
      if q.provider != "" { assert ConditionHolds(conds[s], values, g); }
      if q.category != "" { assert ConditionHolds(conds[s + p], values, g); }
    }
    if Matches(q, g) {
      forall i | 0 <= i < |conds| ensures ConditionHolds(conds[i], values, g) {
        if q.search != "" && i == 0 {
        } else if q.provider != "" && i == s {
        } else {
          assert q.category != "" && i == s + p;
        }
      }
    }
  }

  /** Binding more values after the last placeholder of the WHERE clause
      does not change its meaning. */
  lemma WhereIgnoresLaterValues(conds: seq<Condition>, values: seq<SqlValue>, extra: seq<SqlValue>, g: Game)
    requires forall k :: 0 <= k < |conds| ==> 1 <= conds[k].param <= |values|
    ensures WhereHolds(conds, values + extra, g) <==> WhereHolds(conds, values, g)
  {
    forall k | 0 <= k < |conds|
      ensures ConditionHolds(conds[k], values + extra, g) == ConditionHolds(conds[k], values, g)
    {
      assert Param(values + extra, conds[k].param) == Param(values, conds[k].param);
    }
  }

  /** The rows the WHERE clause keeps, in table order. */
  function Selected(table: seq<Game>, conds: seq<Condition>, values: seq<SqlValue>): seq<Game>
  {
    Filter(table, (g: Game) => WhereHolds(conds, values, g))
  }

  /** The data query: WHERE, ORDER BY created_at DESC, LIMIT and OFFSET read
      from the given placeholders. */
  datatype DataQuery = DataQuery(where: seq<Condition>, limitParam: nat, offsetParam: nat)

  /** `LIMIT $${values.length - 1} OFFSET $${values.length}` after the two
      values are pushed: with n filter values the placeholders are $n+1 and
      $n+2, they are bound to the limit and the offset, and their printed
      names differ from each other and from every WHERE placeholder. */
  lemma LimitOffsetPlaceholders(conds: seq<Condition>, values: seq<SqlValue>, limitNum: int, offset: int)
    requires forall k :: 0 <= k < |conds| ==> 1 <= conds[k].param <= |values|
    ensures var all := values + [Number(limitNum), Number(offset)];
      var d := DataQuery(conds, |all| - 1, |all|);
      d.limitParam == |values| + 1 && d.offsetParam == |values| + 2
      && Param(all, d.limitParam) == Some(Number(limitNum))
      && Param(all, d.offsetParam) == Some(Number(offset))
      && NatToString(d.limitParam) != NatToString(d.offsetParam)
      && forall k :: 0 <= k < |conds| ==>
           NatToString(conds[k].param) != NatToString(d.limitParam)
           && NatToString(conds[k].param) != NatToString(d.offsetParam)
  {
    var n := |values|;
    if NatToString(n + 1) == NatToString(n + 2) {
      NatToStringInjective(n + 1, n + 2);
    }
    forall k | 0 <= k < |conds|
      ensures NatToString(conds[k].param) != NatToString(n + 1)
      ensures NatToString(conds[k].param) != NatToString(n + 2)
    {
      if NatToString(conds[k].param) == NatToString(n + 1) {
        NatToStringInjective(conds[k].param, n + 1);
      }
      if NatToString(conds[k].param) == NatToString(n + 2) {
        NatToStringInjective(conds[k].param, n + 2);
      }
    }
  }

  /** What the database returns for the data query: no rows at all (an
      error) when LIMIT or OFFSET is not bound to a non-negative number. */
  function RunDataQuery(table: seq<Game>, d: DataQuery, values: seq<SqlValue>): Option<seq<Game>>
  {
    var limit := Param(values, d.limitParam);
    var offset := Param(values, d.offsetParam);
    if limit.Some? && limit.value.Number? && limit.value.number >= 0
       && offset.Some? && offset.value.Number? && offset.value.number >= 0
    then Some(Window(SortDesc(Selected(table, d.where, values), CreatedAt),
                     offset.value.number, limit.value.number))
    else None
  }

  /** The rows matching the request, in table order. */
  function Matching(table: seq<Game>, q: ListQuery): seq<Game>
  {
    Filter(table, (g: Game) => Matches(q, g))
  }

  /** `listGames`: the count query, then the data query with LIMIT bound to
      $(n+1) and OFFSET to $(n+2). The page holds at most `limit` rows,
      each a matching row of the table, newest first, after skipping the
      rows of the earlier pages; the total counts every matching row,
      whatever the page. */
  method ListGames(table: seq<Game>, q: ListQuery) returns (r: GamePage)
    ensures r.pagination.total == |Matching(table, q)|
    ensures r.pagination.page == PageNumber(q.page)
    ensures r.pagination.limit == LimitNumber(q.limit)
    ensures r.pagination.pages == PageCount(r.pagination.total, r.pagination.limit)
    ensures r.items == Window(SortDesc(Matching(table, q), CreatedAt),
                              Offset(r.pagination.page, r.pagination.limit), r.pagination.limit)
    ensures |r.items| <= r.pagination.limit
    ensures forall g :: g in r.items ==> g in table && Matches(q, g)
    ensures SortedDesc(r.items, CreatedAt)
  {
    var pageNum := PageNumber(q.page);
    var limitNum := LimitNumber(q.limit);
    var offset := Offset(pageNum, limitNum);
    var conds, values := BuildConditions(q);
    var extra := [Number(limitNum), Number(offset)];
    SelectedIsMatching(table, q, conds, values, extra);
    var total := |Selected(table, conds, values)|;
    values := values + extra;
    var data := DataQuery(conds, |values| - 1, |values|);
    LimitOffsetPlaceholders(conds, values[..|values| - 2], limitNum, offset);
    var rows := RunDataQuery(table, data, values);
    PageOfMatches(table, q, offset, limitNum);
    r := GamePage(rows.value, PageInfo(total, pageNum, limitNum, PageCount(total, limitNum)));
  }

  /** The count query and the data query select the matching rows: the
      WHERE clause means the filters, and the LIMIT and OFFSET values bound
      after its values do not disturb it. */
  lemma SelectedIsMatching(table: seq<Game>, q: ListQuery, conds: seq<Condition>,
                           values: seq<SqlValue>, extra: seq<SqlValue>)
    requires forall g :: WhereHolds(conds, values, g) <==> Matches(q, g)
    requires forall k :: 0 <= k < |conds| ==> 1 <= conds[k].param <= |values|
    ensures Selected(table, conds, values) == Matching(table, q)
    ensures Selected(table, conds, values + extra) == Matching(table, q)
  {
    FilterCongruent(table, (g: Game) => WhereHolds(conds, values, g), (g: Game) => Matches(q, g));
    forall g: Game ensures WhereHolds(conds, values + extra, g) == Matches(q, g) {
      WhereIgnoresLaterValues(conds, values, extra, g);
    }
    FilterCongruent(table, (g: Game) => WhereHolds(conds, values + extra, g), (g: Game) => Matches(q, g));
  }

  /** A page of the sorted matches holds at most `limit` rows, each a
      matching row of the table, newest first. */
  lemma PageOfMatches(table: seq<Game>, q: ListQuery, offset: nat, limit: nat)
    ensures var page := Window(SortDesc(Matching(table, q), CreatedAt), offset, limit);
      |page| <= limit && SortedDesc(page, CreatedAt)
      && forall g :: g in page ==> g in table && Matches(q, g)
  {
    WindowOfSorted(SortDesc(Matching(table, q), CreatedAt), offset, limit, CreatedAt);
  }

  /** For the one order of tied rows the model fixes, paging loses
      nothing: the row at position i of the sorted matches is on page
      i / limit + 1, which is a page the pagination record counts. */
  lemma EveryRowOnItsPage(s: seq<Game>, limitNum: int, i: nat)
    requires MinLimit <= limitNum <= MaxLimit && i < |s|
    ensures var page := i / limitNum + 1;
      page <= PageCount(|s|, limitNum)
      && s[i] in Window(s, Offset(page, limitNum), limitNum)
  {
    var page := i / limitNum + 1;
    var o := Offset(page, limitNum);
    assert o == (i / limitNum) * limitNum;
    assert o <= i < o + limitNum;
    assert Window(s, o, limitNum)[i - o] == s[i];
    var pages := PageCount(|s|, limitNum);
    if page > pages {
      assert pages * limitNum <= (i / limitNum) * limitNum by {
        MulMonotone(pages, i / limitNum, limitNum);
      }
    }
  }

  /** Arithmetic for EveryRowOnItsPage and PastTheEndIsEmpty: multiplying
      by the limit keeps the order of page indices. */
  lemma MulMonotone(a: nat, b: nat, d: nat)
    requires a <= b
    ensures a * d <= b * d
  {
  }

  /** Going past the last page gives an empty page, not an error. */
  lemma PastTheEndIsEmpty(s: seq<Game>, pageNum: int, limitNum: int)
    requires MinLimit <= limitNum <= MaxLimit && pageNum > PageCount(|s|, limitNum)
    ensures Window(s, Offset(pageNum, limitNum), limitNum) == []
  {
    var pages := PageCount(|s|, limitNum);
    MulMonotone(pages, pageNum - 1, limitNum);
  }
}
