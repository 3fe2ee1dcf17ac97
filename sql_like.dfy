/** PostgreSQL's ILIKE operator, as far as the listing query uses it: `%`
    matches any run of characters, every other character matches itself
    ignoring ASCII case. */
module SqlLike {
  import opened Strings

  /** `s ILIKE p`. */
  predicate ILike(s: string, p: string)
    decreases |p| + |s|
  {
    if |p| == 0 then |s| == 0
    else if p[0] == '%' then ILike(s, p[1..]) || (|s| > 0 && ILike(s[1..], p))
    else |s| > 0 && LowerChar(s[0]) == LowerChar(p[0]) && ILike(s[1..], p[1..])
  }

  /** `t` occurs in `s` at position `i` when case is ignored. */
  predicate OccursAt(s: string, t: string, i: int)
  {
    0 <= i && i + |t| <= |s| && Lower(s[i..i + |t|]) == Lower(t)
  }

  /** `t` occurs somewhere in `s` when case is ignored. */
  ghost predicate ContainsIgnoringCase(s: string, t: string)
  {
    exists i :: OccursAt(s, t, i)
  }

  lemma LowerCons(s: string)
    requires |s| > 0
    ensures Lower(s) == [LowerChar(s[0])] + Lower(s[1..])
  {
  }

  /** A pattern without `%` matches exactly the strings equal to it when
      case is ignored. */
  lemma {:induction false} ILikeLiteral(s: string, t: string)
    requires '%' !in t
    ensures ILike(s, t) <==> Lower(s) == Lower(t)
    decreases |t| + |s|
  {
    if |t| > 0 {
      assert t[0] != '%' && '%' !in t[1..];
      LowerCons(t);
      if |s| > 0 {
        LowerCons(s);
        ILikeLiteral(s[1..], t[1..]);
        assert Lower(s) == Lower(t) <==>
          LowerChar(s[0]) == LowerChar(t[0]) && Lower(s[1..]) == Lower(t[1..]);
      }
    } else if |s| > 0 {
      assert |Lower(s)| > 0;
    }
  }

  /** A lone `%` matches everything. */
  lemma {:induction false} ILikeAnything(s: string)
    ensures ILike(s, "%")
    decreases |s|
  {
    if |s| > 0 {
      ILikeAnything(s[1..]);
    }
  }

  /** `t%` matches exactly the strings that start with `t`, ignoring case. */
  lemma {:induction false} ILikePrefix(s: string, t: string)
    requires '%' !in t
    ensures ILike(s, t + "%") <==> |t| <= |s| && Lower(s[..|t|]) == Lower(t)
    decreases |t|
  {
    var p := t + "%";
    if |t| == 0 {
      assert p == "%";
      ILikeAnything(s);
    } else {
      assert p[0] == t[0] && t[0] != '%' && p[1..] == t[1..] + "%";
      LowerCons(t);
      if |s| > 0 {
        ILikePrefix(s[1..], t[1..]);
        if |t| <= |s| {
          LowerCons(s[..|t|]);
          assert s[..|t|][1..] == s[1..][..|t| - 1];
        }
      }
    }
  }

  /** A leading `%` lets the rest of the pattern match any suffix. */
  lemma {:induction false} ILikeLeadingPercent(s: string, q: string)
    ensures ILike(s, "%" + q) <==> exists i :: 0 <= i <= |s| && ILike(s[i..], q)
    decreases |s|
  {
    var p := "%" + q;
    assert p[0] == '%' && p[1..] == q;
    assert s[0..] == s;
    if |s| > 0 {
      ILikeLeadingPercent(s[1..], q);
      if exists i :: 0 <= i <= |s| && ILike(s[i..], q) {
        var i :| 0 <= i <= |s| && ILike(s[i..], q);
        if i > 0 {
          assert s[1..][i - 1..] == s[i..];
        }
      }
      forall i | 0 <= i <= |s| - 1 && ILike(s[1..][i..], q)
        ensures ILike(s[i + 1..], q)
      {
        assert s[1..][i..] == s[i + 1..];
      }
    }
  }

  /** The search filter `%t%` is a case-insensitive substring test, for a
      search text without wildcards. */
  lemma ILikeContains(s: string, t: string)
    requires '%' !in t
    ensures ILike(s, "%" + t + "%") <==> ContainsIgnoringCase(s, t)
  {
    assert "%" + t + "%" == "%" + (t + "%");
    ILikeLeadingPercent(s, t + "%");
    if ContainsIgnoringCase(s, t) {
      var i :| OccursAt(s, t, i);
      ILikePrefix(s[i..], t);
      assert s[i..][..|t|] == s[i..i + |t|];
    }
    if exists i :: 0 <= i <= |s| && ILike(s[i..], t + "%") {
      var i :| 0 <= i <= |s| && ILike(s[i..], t + "%");
      ILikePrefix(s[i..], t);
      assert s[i..][..|t|] == s[i..i + |t|];
      assert OccursAt(s, t, i);
    }
  }
}
