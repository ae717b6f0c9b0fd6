/**
 * The derived view of the dashboard page: the users that match the search box, ordered by
 * the chosen sort key, and the aggregates shown in the stats cards, which are computed
 * over the whole unfiltered list.
 */
module UserView {
  import opened Wrappers
  import opened JsText
  import opened Api
  import StableSort

  /** `u.tokens || 0` */
  function TokensOf(u: User): int
  {
    u.tokens.GetOr(0)
  }

  /** `u.name || ""` */
  function NameOf(u: User): string
  {
    u.name.GetOr("")
  }

  /** `u.username || ""` */
  function UsernameOf(u: User): string
  {
    u.username.GetOr("")
  }

  // ---------------------------------------------------------------------------
  // Filter
  // ---------------------------------------------------------------------------

  /**
   * The search predicate: the query, lower-cased, occurs in the lower-cased name or
   * username, or the raw query occurs in the decimal rendering of the id.
   */
  predicate Matches(u: User, search: string)
    ensures search == "" ==> Matches(u, search)
  {
    assert Lower("") == "";
    Contains(Lower(NameOf(u)), Lower(search)) ||
    Contains(Lower(UsernameOf(u)), Lower(search)) ||
    Contains(Decimal(u.userId), search)
  }

  /** `users.filter(u => Matches(u, search))`: a fresh sequence, in the original order. */
  function Filter(users: seq<User>, search: string): (r: seq<User>)
    ensures |r| <= |users|
    ensures forall u :: u in r ==> u in users && Matches(u, search)
  {
    if users == [] then []
    else (if Matches(users[0], search) then [users[0]] else []) + Filter(users[1..], search)
  }

  /** Filter keeps each matching user with its full multiplicity and drops every other. */
  lemma {:induction false} FilterCount(users: seq<User>, search: string, u: User)
    ensures multiset(Filter(users, search))[u] == if Matches(u, search) then multiset(users)[u] else 0
  {
    if users != [] {
      FilterCount(users[1..], search, u);
      assert users == [users[0]] + users[1..];
    }
  }

  /** An empty search keeps every user, in order, because every string includes "". */
  lemma {:induction false} FilterEmptySearch(users: seq<User>)
    ensures Filter(users, "") == users
  {
    if users != [] {
      assert Lower("") == "";
      ContainsEmpty(Lower(NameOf(users[0])));
      FilterEmptySearch(users[1..]);
    }
  }

  /** Filtering keeps the order of the input: the users tied with `x` that match appear as in `users`. */
  lemma {:induction false} FilterTiedWith(users: seq<User>, search: string, x: User, cmp: (User, User) -> int)
    ensures StableSort.TiedWith(Filter(users, search), x, cmp)
         == Filter(StableSort.TiedWith(users, x, cmp), search)
  {
    if users != [] {
      var u, rest := users[0], users[1..];
      var kept := if Matches(u, search) then [u] else [];
      FilterTiedWith(rest, search, x, cmp);
      StableSort.TiedWithAppend(kept, Filter(rest, search), x, cmp);
      var tw := StableSort.TiedWith(rest, x, cmp);
      if StableSort.Tied(cmp, x, u) {
        assert ([u] + tw)[0] == u && ([u] + tw)[1..] == tw;
        if Matches(u, search) {
          assert [u][0] == u && [u][1..] == [];
        }
      } else if Matches(u, search) {
        assert [u][0] == u && [u][1..] == [];
      }
    }
  }

  // ---------------------------------------------------------------------------
  // Sort
  // ---------------------------------------------------------------------------

  /**
   * The comparator handed to `list.sort`: tokens descending for "tokens", the page's
   * locale comparison of names for "name", and id ascending for any other key.
   */
  function Comparator(sortBy: string, localeCompare: (string, string) -> int): (cmp: (User, User) -> int)
    ensures sortBy != "name" ==> StableSort.TotalPreorder(cmp)
  {
    if sortBy == "tokens" then (a: User, b: User) => TokensOf(b) - TokensOf(a)
    else if sortBy == "name" then (a: User, b: User) => localeCompare(NameOf(a), NameOf(b))
    else (a: User, b: User) => a.userId - b.userId
  }

  /** The `filtered` list the table shows: the matching users, sorted by the chosen key. */
  function Displayed(users: seq<User>, search: string, sortBy: string,
                     localeCompare: (string, string) -> int): (r: seq<User>)
    ensures multiset(r) == multiset(Filter(users, search))
    ensures forall u :: u in r ==> u in users && Matches(u, search)
  {
    var r := StableSort.Sort(Filter(users, search), Comparator(sortBy, localeCompare));
    assert forall u :: u in r <==> u in multiset(r);
    r
  }

  /** The table holds exactly the matching users, each as often as it occurs in `users`. */
  lemma DisplayedIsPermutationOfMatches(users: seq<User>, search: string, sortBy: string,
                                       localeCompare: (string, string) -> int)
    ensures multiset(Displayed(users, search, sortBy, localeCompare)) == multiset(Filter(users, search))
    ensures forall u :: multiset(Displayed(users, search, sortBy, localeCompare))[u]
                        == if Matches(u, search) then multiset(users)[u] else 0
  {
    forall u
      ensures multiset(Displayed(users, search, sortBy, localeCompare))[u]
              == if Matches(u, search) then multiset(users)[u] else 0
    {
      FilterCount(users, search, u);
    }
  }

  /** With an empty search the table is a reordering of the whole user list. */
  lemma DisplayedEmptySearch(users: seq<User>, sortBy: string, localeCompare: (string, string) -> int)
    ensures multiset(Displayed(users, "", sortBy, localeCompare)) == multiset(users)
    ensures |Displayed(users, "", sortBy, localeCompare)| == |users|
  {
    FilterEmptySearch(users);
    StableSort.SortLength(users, Comparator(sortBy, localeCompare));
  }

  /** An integer key turned into a comparator by subtraction orders like `<=` on the key. */
  lemma TokensComparatorIsPreorder(localeCompare: (string, string) -> int)
    ensures StableSort.TotalPreorder(Comparator("tokens", localeCompare))
    ensures forall a, b :: Comparator("tokens", localeCompare)(a, b) <= 0 <==> TokensOf(a) >= TokensOf(b)
  {
  }

  lemma IdComparatorIsPreorder(sortBy: string, localeCompare: (string, string) -> int)
    requires sortBy != "tokens" && sortBy != "name"
    ensures StableSort.TotalPreorder(Comparator(sortBy, localeCompare))
    ensures forall a, b :: Comparator(sortBy, localeCompare)(a, b) <= 0 <==> a.userId <= b.userId
  {
  }

  /** Sorting by "tokens" lists the users in non-increasing order of `tokens || 0`. */
  lemma DisplayedByTokens(users: seq<User>, search: string, localeCompare: (string, string) -> int)
    ensures var r := Displayed(users, search, "tokens", localeCompare);
      forall i, j :: 0 <= i < j < |r| ==> TokensOf(r[i]) >= TokensOf(r[j])
  {
    TokensComparatorIsPreorder(localeCompare);
    StableSort.SortSorted(Filter(users, search), Comparator("tokens", localeCompare));
  }

  /** Any sort key other than "tokens" and "name" lists the users by ascending id. */
  lemma DisplayedById(users: seq<User>, search: string, sortBy: string,
                      localeCompare: (string, string) -> int)
    requires sortBy != "tokens" && sortBy != "name"
    ensures var r := Displayed(users, search, sortBy, localeCompare);
      forall i, j :: 0 <= i < j < |r| ==> r[i].userId <= r[j].userId
  {
    IdComparatorIsPreorder(sortBy, localeCompare);
    StableSort.SortSorted(Filter(users, search), Comparator(sortBy, localeCompare));
  }

  /**
   * Users with equal token counts keep their relative order: in the table they appear as in
   * the filtered list, which is their order in `users`.
   */
  lemma DisplayedByTokensIsStable(users: seq<User>, search: string,
                                  localeCompare: (string, string) -> int, x: User)
    ensures var cmp := Comparator("tokens", localeCompare);
      StableSort.TiedWith(Displayed(users, search, "tokens", localeCompare), x, cmp)
      == StableSort.TiedWith(Filter(users, search), x, cmp)
    ensures var cmp := Comparator("tokens", localeCompare);
      StableSort.TiedWith(Displayed(users, search, "tokens", localeCompare), x, cmp)
      == Filter(StableSort.TiedWith(users, x, cmp), search)
  {
    TokensComparatorIsPreorder(localeCompare);
    StableSort.SortStable(Filter(users, search), x, Comparator("tokens", localeCompare));
    FilterTiedWith(users, search, x, Comparator("tokens", localeCompare));
  }

  // ---------------------------------------------------------------------------
  // Aggregates over the unfiltered list
  // ---------------------------------------------------------------------------

  /** `users.reduce((s, u) => s + (u.tokens || 0), 0)` */
  function TotalTokens(users: seq<User>): int
  {
    if users == [] then 0 else TotalTokens(users[..|users| - 1]) + TokensOf(users[|users| - 1])
  }

  /** Balances that are never negative add up to a total that is not negative. */
  lemma {:induction false} TotalTokensNonNegative(users: seq<User>)
    requires forall i :: 0 <= i < |users| ==> TokensOf(users[i]) >= 0
    ensures TotalTokens(users) >= 0
  {
    if users != [] {
      var init := users[..|users| - 1];
      assert forall i :: 0 <= i < |init| ==> init[i] == users[i];
      TotalTokensNonNegative(init);
    }
  }

  lemma {:induction false} TotalTokensAppend(a: seq<User>, b: seq<User>)
    ensures TotalTokens(a + b) == TotalTokens(a) + TotalTokens(b)
    decreases |b|
  {
    if b != [] {
      assert (a + b)[..|a + b| - 1] == a + b[..|b| - 1];
      TotalTokensAppend(a, b[..|b| - 1]);
    } else {
      assert a + b == a;
    }
  }

  /** The total depends only on which users there are, not on their order. */
  lemma {:induction false} TotalTokensPermutation(a: seq<User>, b: seq<User>)
    requires multiset(a) == multiset(b)
    ensures TotalTokens(a) == TotalTokens(b)
    decreases |a|
  {
    if a != [] {
      var last := a[|a| - 1];
      assert last in multiset(b);
      var k :| 0 <= k < |b| && b[k] == last;
      var rest := b[..k] + b[k + 1..];
      assert b == b[..k] + [last] + b[k + 1..];
      assert a == a[..|a| - 1] + [last];
      assert multiset(b) == multiset(b[..k]) + multiset{last} + multiset(b[k + 1..]);
      assert multiset(a) == multiset(a[..|a| - 1]) + multiset{last};
      assert multiset(rest) == multiset(b[..k]) + multiset(b[k + 1..]);
      assert multiset(a[..|a| - 1]) == multiset(a) - multiset{last};
      assert multiset(rest) == multiset(b) - multiset{last};
      TotalTokensPermutation(a[..|a| - 1], rest);
      TotalTokensAppend(b[..k] + [last], b[k + 1..]);
      TotalTokensAppend(b[..k], [last]);
      TotalTokensAppend(b[..k], b[k + 1..]);
      assert TotalTokens([last]) == TokensOf(last) by {
        assert [last][..0] == [];
      }
    }
  }

  /** With an empty search the tokens in the table add up to the stats card's total. */
  lemma TotalTokensOfEmptySearchView(users: seq<User>, sortBy: string,
                                     localeCompare: (string, string) -> int)
    ensures TotalTokens(Displayed(users, "", sortBy, localeCompare)) == TotalTokens(users)
  {
    DisplayedEmptySearch(users, sortBy, localeCompare);
    TotalTokensPermutation(Displayed(users, "", sortBy, localeCompare), users);
  }

  /**
   * `Math.round(total / n)`, 0 for an empty list. `Math.round` rounds halves up, so the
   * result is the unique integer `r` with `r - 1/2 <= total/n < r + 1/2`.
   */
  function AvgTokens(users: seq<User>): (r: int)
    ensures |users| == 0 ==> r == 0
    ensures |users| > 0 ==>
      2 * |users| * r - |users| <= 2 * TotalTokens(users) < 2 * |users| * r + |users|
  {
    if |users| > 0 then
      var n, t := |users|, TotalTokens(users);
      var q := (2 * t + n) / (2 * n);
      assert 2 * n * q <= 2 * t + n < 2 * n * q + 2 * n;
      q
    else 0
  }

  /** The stats card over two users with 10 and 20 tokens shows an average of 15. */
  lemma AvgTokensExample()
    ensures AvgTokens([User(1, None, None, Some(10), None), User(2, None, None, Some(20), None)]) == 15
  {
    var a := User(1, None, None, Some(10), None);
    var b := User(2, None, None, Some(20), None);
    assert [a, b][..1] == [a] && [a][..0] == [];
    assert TotalTokens([a]) == 10;
    assert TotalTokens([a, b]) == 30;
  }
}
