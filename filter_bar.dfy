/** The filter bar (frontend/src/components/FilterBar/FilterBar.jsx): the
    provider and category options collected from a game listing, and the
    filters it hands to its parent. */
module FilterBar {
  import opened Js
  import opened GamesService

  const AllOption := "All"

  /** The limit the options are requested with. */
  const OptionsLimit := 1000

  /** JavaScript `Set.prototype.add` for a truthy value: a non-empty value
      not yet present goes at the end. */
  function AddOption(options: seq<string>, x: string): (r: seq<string>)
    ensures x == "" || x in options ==> r == options
    ensures x != "" && x !in options ==> r == options + [x]
  {
    if x == "" || x in options then options else options + [x]
  }

  /** `[...set]` after `new Set(["All"])` and one add per value, in order. */
  function Options(values: seq<string>): (r: seq<string>)
    ensures |r| >= 1 && r[0] == AllOption
    decreases |values|
  {
    if |values| == 0 then [AllOption]
    else AddOption(Options(values[..|values| - 1]), values[|values| - 1])
  }

  function Providers(items: seq<Game>): (r: seq<string>)
    ensures |r| == |items| && forall k :: 0 <= k < |items| ==> r[k] == items[k].provider
  {
    seq(|items|, k requires 0 <= k < |items| => items[k].provider)
  }

  function Categories(items: seq<Game>): (r: seq<string>)
    ensures |r| == |items| && forall k :: 0 <= k < |items| ==> r[k] == items[k].category
  {
    seq(|items|, k requires 0 <= k < |items| => items[k].category)
  }

  /** No value occurs twice. */
  ghost predicate Distinct(s: seq<string>)
  {
    forall i, j :: 0 <= i < j < |s| ==> s[i] != s[j]
  }

  /** The position of the first occurrence of `x`. */
  function FirstIndex(values: seq<string>, x: string): (k: nat)
    requires x in values
    ensures k < |values| && values[k] == x && forall j :: 0 <= j < k ==> values[j] != x
  {
    if values[0] == x then 0 else 1 + FirstIndex(values[1..], x)
  }

  lemma {:induction false} FirstIndexExtends(values: seq<string>, x: string, y: string)
    requires y in values
    ensures FirstIndex(values + [x], y) == FirstIndex(values, y)
    decreases |values|
  {
    if values[0] != y {
      assert (values + [x])[1..] == values[1..] + [x];
      FirstIndexExtends(values[1..], x, y);
    }
  }

  /** The options are "All" and then the distinct non-empty values, each
      once, in the order of their first appearance; "All" itself is listed
      once only. */
  lemma {:induction false} OptionsFacts(values: seq<string>)
    ensures Distinct(Options(values))
    ensures forall x :: x in Options(values) <==> x == AllOption || (x != "" && x in values)
    ensures forall i, j :: 1 <= i < j < |Options(values)| ==>
      Options(values)[i] in values && Options(values)[j] in values
      && FirstIndex(values, Options(values)[i]) < FirstIndex(values, Options(values)[j])
    decreases |values|
  {
    if |values| > 0 {
      var init := values[..|values| - 1];
      var x := values[|values| - 1];
      assert values == init + [x];
      OptionsFacts(init);
      var prev := Options(init);
      var r := Options(values);
      assert forall y :: y in init ==> y in values;
      forall i, j | 1 <= i < j < |r|
        ensures r[i] in values && r[j] in values && FirstIndex(values, r[i]) < FirstIndex(values, r[j])
      {
        assert r[i] in prev && r[i] != AllOption && r[i] in init;
        FirstIndexExtends(init, x, r[i]);
        if j < |prev| {
          FirstIndexExtends(init, x, r[j]);
        } else {
          assert r[j] == x && x !in init;
          assert FirstIndex(values, x) == |init|;
        }
      }
    }
  }

  /** The filter state the parent receives: "All" becomes "", the search
      text passes through, and the page goes back to 1. */
  datatype Filters = Filters(q: string, provider: string, category: string)
  datatype FilterChange = FilterChange(q: string, provider: string, category: string, page: int)

  function Emit(next: Filters): (c: FilterChange)
    ensures c.q == next.q && c.page == 1
    ensures c.provider == (if next.provider == AllOption then "" else next.provider)
    ensures c.category == (if next.category == AllOption then "" else next.category)
  {
    FilterChange(next.q,
                 if next.provider == AllOption then "" else next.provider,
                 if next.category == AllOption then "" else next.category,
                 1)
  }

  /** Picking any listed option emits either no provider filter or a
      provider some listed game has; the same holds for categories. */
  lemma EmittedFiltersComeFromItems(items: seq<Game>, q: string, provider: string, category: string)
    requires provider in Options(Providers(items)) && category in Options(Categories(items))
    ensures var c := Emit(Filters(q, provider, category));
      (c.provider == "" || exists k :: 0 <= k < |items| && items[k].provider == c.provider)
      && (c.category == "" || exists k :: 0 <= k < |items| && items[k].category == c.category)
  {
    OptionsFacts(Providers(items));
    OptionsFacts(Categories(items));
  }

  /** The options request asks for 1000 games, but the listing clamps its
      limit to 50, so the options come from the newest 50 games at most. */
  lemma OptionsRequestIsClamped()
    ensures LimitNumber(Some(OptionsLimit)) == MaxLimit
  {
  }

  /** The effect that loads the options: one pass over the listed items
      (`res?.data?.items || []`), adding each truthy provider and category
      to its set. */
  method CollectOptions(items: Option<seq<Game>>) returns (providers: seq<string>, categories: seq<string>)
    ensures var list := if items.Some? then items.value else [];
      providers == Options(Providers(list)) && categories == Options(Categories(list))
  {
    var list := if items.Some? then items.value else [];
    providers, categories := [AllOption], [AllOption];
    var i := 0;
    while i < |list|
      invariant 0 <= i <= |list|
      invariant providers == Options(Providers(list[..i]))
      invariant categories == Options(Categories(list[..i]))
    {
      var g := list[i];
      assert Providers(list[..i + 1])[..i] == Providers(list[..i]);
      assert Categories(list[..i + 1])[..i] == Categories(list[..i]);
      if g.provider != "" && g.provider !in providers {
        providers := providers + [g.provider];
      }
      if g.category != "" && g.category !in categories {
        categories := categories + [g.category];
      }
      i := i + 1;
    }
    assert list[..i] == list;
  }
}
