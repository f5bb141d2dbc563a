/**
 * wikiapi.CollectStats of the udf tools: caches the id of every page title
 * in a bimap, builds the map from redirect page ids to the ids of their
 * targets, flattens that map in place so that every redirect points at the
 * end of its chain, and prints the titles of targets that are still
 * redirects.
 *
 * The two SQL queries become sequences of result rows; a null column is
 * None. What the tool prints to standard error and standard output is
 * returned as sequences. `HashMap` iteration order is an explicit `order`:
 * the keys, each once.
 */
module CollectStats {
  import opened Wrappers
  import opened HTMLWikiModel
  import opened BiMaps

  /** The shipped value of the `debug` switch. */
  const Debug: bool := false

  /** `query(c, sql, rs)`: the statement sent, with " limit 5" appended in debug mode. */
  function QuerySql(sql: string, debug: bool): (r: string)
    ensures |r| >= |sql| && r[..|sql|] == sql
    ensures debug <==> |r| > |sql|
    ensures debug ==> r[|sql|..] == " limit 5"
  {
    if debug then sql + " limit 5" else sql
  }

  // ---- getIds ----

  /** One row of `select id, title from wiki_pages`. */
  datatype TitleRow = TitleRow(id: int, title: Option<string>)

  /**
   * The id cache after the rows so far: each row puts its normalised title
   * and its id; a null title (normalising it throws) and a `put` that throws
   * because the id is taken are caught, so those rows change nothing.
   */
  function IdsOf(rows: seq<TitleRow>): map<string, int> {
    if |rows| == 0 then map[] else PutRow(IdsOf(rows[..|rows| - 1]), rows[|rows| - 1])
  }

  /** One row put into the cache, or the cache unchanged when the title is null or the id taken. */
  function PutRow(ids: map<string, int>, row: TitleRow): map<string, int> {
    if row.title.None? then ids
    else
      var next := Put(ids, NormalizeTitle(row.title.value), row.id);
      if next.Some? then next.value else ids
  }

  /** The cache after one more row. */
  lemma IdsOfPrefix(rows: seq<TitleRow>, i: int)
    requires 0 <= i < |rows|
    ensures IdsOf(rows[..i + 1]) == PutRow(IdsOf(rows[..i]), rows[i])
  {
    assert rows[..i + 1][..i] == rows[..i];
  }

  /** The cache is a bijection: no two titles share an id. */
  lemma {:induction false} IdsInjective(rows: seq<TitleRow>)
    ensures Injective(IdsOf(rows))
  {
    if |rows| > 0 {
      var init := rows[..|rows| - 1];
      IdsInjective(init);
      var row := rows[|rows| - 1];
      if row.title.Some? && Put(IdsOf(init), NormalizeTitle(row.title.value), row.id).Some? {
        PutInjective(IdsOf(init), NormalizeTitle(row.title.value), row.id);
      }
    }
  }

  /** `row` has a title that normalises to `title`, and the id `id`. */
  predicate RowGives(row: TitleRow, title: string, id: int) {
    row.title.Some? && NormalizeTitle(row.title.value) == title && row.id == id
  }

  /** A title in the cache after one row was put by that row or was there before with the same id. */
  lemma PutRowFrom(ids: map<string, int>, row: TitleRow, t: string)
    requires t in PutRow(ids, row)
    ensures RowGives(row, t, PutRow(ids, row)[t]) || (t in ids && PutRow(ids, row)[t] == ids[t])
  {
  }

  /** Every cached title, with its id, comes from one of the rows. */
  lemma {:induction false} IdsFromRows(rows: seq<TitleRow>)
    ensures forall t | t in IdsOf(rows) :: exists i | 0 <= i < |rows| :: RowGives(rows[i], t, IdsOf(rows)[t])
  {
    if |rows| > 0 {
      var init := rows[..|rows| - 1];
      var last := |rows| - 1;
      IdsFromRows(init);
      forall t | t in IdsOf(rows)
        ensures exists i | 0 <= i < |rows| :: RowGives(rows[i], t, IdsOf(rows)[t])
      {
        PutRowFrom(IdsOf(init), rows[last], t);
        if !RowGives(rows[last], t, IdsOf(rows)[t]) {
          var i :| 0 <= i < |init| && RowGives(init[i], t, IdsOf(init)[t]);
          assert rows[i] == init[i];
        }
      }
    }
  }

  /** `getIds(c)`: the rows put one by one into a fresh HashBiMap. */
  method GetIds(rows: seq<TitleRow>) returns (ids: HashBiMap)
    ensures fresh(ids) && ids.Valid()
    ensures ids.forward == IdsOf(rows)
  {
    ids := new HashBiMap();
    var i := 0;
    while i < |rows|
      invariant 0 <= i <= |rows|
      invariant ids.Valid() && ids.forward == IdsOf(rows[..i])
    {
      IdsOfPrefix(rows, i);
      var row := rows[i];
      if row.title.Some? {
        var title := NormalizeTitle(row.title.value);
        var _ := ids.Put(title, row.id);
      }
      i := i + 1;
    }
    assert rows[..i] == rows;
  }

  // ---- getRedirects ----

  /** One row of the redirect query: a page id and the first `[[...]]` target of its markup. */
  datatype RedirectRow = RedirectRow(id: int, target: Option<string>)

  /** `ids.getOrDefault(title, -1)` */
  function IdOrMissing(ids: map<string, int>, title: string): (r: int)
    ensures title in ids ==> r == ids[title]
    ensures title !in ids ==> r == -1
  {
    if title in ids then ids[title] else -1
  }

  /** The row resolves: it has a target whose normal form has an id of at least 0. */
  predicate Resolves(ids: map<string, int>, row: RedirectRow) {
    row.target.Some? && IdOrMissing(ids, NormalizeTitle(row.target.value)) >= 0
  }

  /**
   * The redirect map after the rows so far: a row that resolves puts its id
   * and its target's id, replacing an earlier entry for the same id; any
   * other row, a null target included, adds nothing.
   */
  function RedirectsOf(ids: map<string, int>, rows: seq<RedirectRow>): map<int, int> {
    if |rows| == 0 then map[] else AddRedirect(ids, RedirectsOf(ids, rows[..|rows| - 1]), rows[|rows| - 1])
  }

  /** One row's effect on the redirect map. */
  function AddRedirect(ids: map<string, int>, redirects: map<int, int>, row: RedirectRow): map<int, int> {
    if Resolves(ids, row) then redirects[row.id := IdOrMissing(ids, NormalizeTitle(row.target.value))]
    else redirects
  }

  /** The normalised targets of the rows that do not resolve, in row order. */
  function UnresolvedOf(ids: map<string, int>, rows: seq<RedirectRow>): seq<string> {
    if |rows| == 0 then [] else UnresolvedOf(ids, rows[..|rows| - 1]) + UnresolvedRow(ids, rows[|rows| - 1])
  }

  /** A row's normalised target when it has one without an id. */
  function UnresolvedRow(ids: map<string, int>, row: RedirectRow): seq<string> {
    if row.target.Some? && !Resolves(ids, row) then [NormalizeTitle(row.target.value)] else []
  }

  /** The redirect map and the unresolved targets after one more row. */
  lemma RedirectRowsPrefix(ids: map<string, int>, rows: seq<RedirectRow>, i: int)
    requires 0 <= i < |rows|
    ensures RedirectsOf(ids, rows[..i + 1]) == AddRedirect(ids, RedirectsOf(ids, rows[..i]), rows[i])
    ensures UnresolvedOf(ids, rows[..i + 1]) == UnresolvedOf(ids, rows[..i]) + UnresolvedRow(ids, rows[i])
  {
    assert rows[..i + 1][..i] == rows[..i];
  }

  /** Every redirect points at an id of the cache, and at one of at least 0. */
  lemma {:induction false} RedirectTargetsAreIds(ids: map<string, int>, rows: seq<RedirectRow>)
    ensures forall k | k in RedirectsOf(ids, rows) ::
      RedirectsOf(ids, rows)[k] >= 0 && exists t | t in ids :: ids[t] == RedirectsOf(ids, rows)[k]
  {
    if |rows| > 0 {
      RedirectTargetsAreIds(ids, rows[..|rows| - 1]);
    }
  }

  /** Every redirect comes from a row of that id that resolves to its target. */
  lemma {:induction false} RedirectsFromRows(ids: map<string, int>, rows: seq<RedirectRow>)
    ensures forall k | k in RedirectsOf(ids, rows) :: exists i | 0 <= i < |rows| ::
      rows[i].id == k && Resolves(ids, rows[i])
      && IdOrMissing(ids, NormalizeTitle(rows[i].target.value)) == RedirectsOf(ids, rows)[k]
  {
    if |rows| > 0 {
      var init := rows[..|rows| - 1];
      RedirectsFromRows(ids, init);
      var r := RedirectsOf(ids, rows);
      forall k | k in r
        ensures exists i | 0 <= i < |rows| ::
          rows[i].id == k && Resolves(ids, rows[i]) && IdOrMissing(ids, NormalizeTitle(rows[i].target.value)) == r[k]
      {
        var last := rows[|rows| - 1];
        if last.id == k && Resolves(ids, last) {
          assert IdOrMissing(ids, NormalizeTitle(last.target.value)) == r[k];
        } else {
          assert k in RedirectsOf(ids, init) && r[k] == RedirectsOf(ids, init)[k];
          var i :| 0 <= i < |init| && init[i].id == k && Resolves(ids, init[i])
            && IdOrMissing(ids, NormalizeTitle(init[i].target.value)) == RedirectsOf(ids, init)[k];
          assert rows[i] == init[i];
        }
      }
    }
  }

  /** Every unresolved target is the normal form of a row's target that has no id of at least 0. */
  lemma {:induction false} UnresolvedFromRows(ids: map<string, int>, rows: seq<RedirectRow>)
    ensures forall t | t in UnresolvedOf(ids, rows) ::
      IdOrMissing(ids, t) < 0 && exists i | 0 <= i < |rows| :: rows[i].target.Some? && NormalizeTitle(rows[i].target.value) == t
  {
    if |rows| > 0 {
      var init := rows[..|rows| - 1];
      UnresolvedFromRows(ids, init);
      assert UnresolvedOf(ids, rows) == UnresolvedOf(ids, init) + UnresolvedRow(ids, rows[|rows| - 1]);
      forall t | t in UnresolvedOf(ids, rows)
        ensures IdOrMissing(ids, t) < 0
        ensures exists i | 0 <= i < |rows| :: rows[i].target.Some? && NormalizeTitle(rows[i].target.value) == t
      {
        if t in UnresolvedOf(ids, init) {
          var i :| 0 <= i < |init| && init[i].target.Some? && NormalizeTitle(init[i].target.value) == t;
          assert rows[i] == init[i];
        } else {
          assert rows[|rows| - 1].target.Some?;
        }
      }
    }
  }

  /** The unresolved targets this tool reports: those without a '#', which are section links. */
  function Reported(targets: seq<string>): seq<string> {
    if |targets| == 0 then []
    else
      var t := targets[|targets| - 1];
      Reported(targets[..|targets| - 1]) + (if '#' !in t then [t] else [])
  }

  lemma ReportedSnoc(targets: seq<string>, t: string)
    ensures Reported(targets + [t]) == Reported(targets) + (if '#' !in t then [t] else [])
  {
    assert (targets + [t])[..|targets|] == targets;
  }

  /** A target is reported exactly when it is unresolved and has no '#'. */
  lemma {:induction false} ReportedMembers(targets: seq<string>)
    ensures forall t :: t in Reported(targets) <==> t in targets && '#' !in t
  {
    if |targets| > 0 {
      var init := targets[..|targets| - 1];
      ReportedMembers(init);
      assert targets == init + [targets[|targets| - 1]];
    }
  }

  /**
   * `getRedirects(c, ids)`: the redirect map, and the targets reported as
   * having no id, in row order.
   */
  method GetRedirects(ids: map<string, int>, rows: seq<RedirectRow>) returns (redirects: map<int, int>, reported: seq<string>)
    ensures redirects == RedirectsOf(ids, rows)
    ensures reported == Reported(UnresolvedOf(ids, rows))
  {
    redirects := map[];
    reported := [];
    var i := 0;
    while i < |rows|
      invariant 0 <= i <= |rows|
      invariant redirects == RedirectsOf(ids, rows[..i])
      invariant reported == Reported(UnresolvedOf(ids, rows[..i]))
    {
      RedirectRowsPrefix(ids, rows, i);
      var row := rows[i];
      ghost var unresolved := UnresolvedOf(ids, rows[..i]);
      assert unresolved + [] == unresolved;
      if row.target.Some? && !Resolves(ids, row) {
        ReportedSnoc(unresolved, NormalizeTitle(row.target.value));
      }
      if row.target.Some? {
        var redirect := NormalizeTitle(row.target.value);
        var redirectId := IdOrMissing(ids, redirect);
        if redirectId >= 0 {
          redirects := redirects[row.id := redirectId];
        } else if '#' !in redirect {
          reported := reported + [redirect];
        }
      }
      i := i + 1;
    }
    assert rows[..i] == rows;
  }

  // ---- flattening ----

  /**
   * The visited `HashSet` of the chain loop is modelled by the sequence of
   * its elements in the order they were added; the loop only adds values
   * not yet in it, asks for membership and takes the minimum, none of which
   * depends on that order.
   */
  function Elems(loop: seq<int>): set<int> {
    set x | x in loop
  }

  /** `Collections.min(loop)` */
  function SeqMin(s: seq<int>): (r: int)
    requires |s| > 0
    ensures r in s && forall y | y in s :: r <= y
  {
    if |s| == 1 then s[0]
    else
      var m := SeqMin(s[..|s| - 1]);
      assert forall y | y in s :: y in s[..|s| - 1] || y == s[|s| - 1];
      if m <= s[|s| - 1] then m else s[|s| - 1]
  }

  /** A value that joins the visited set leaves fewer values unvisited. */
  lemma Unvisited(all: set<int>, loop: seq<int>, x: int)
    requires x in all && x !in loop
    ensures Elems(loop + [x]) == Elems(loop) + {x}
    ensures |all - Elems(loop + [x])| < |all - Elems(loop)|
  {
    assert Elems(loop + [x]) == Elems(loop) + {x};
    assert all - Elems(loop) == (all - Elems(loop + [x])) + {x};
  }

  /** Every value of `m` lies in `all`. */
  predicate ValuesWithin(m: map<int, int>, all: set<int>) {
    forall k | k in m :: m[k] in all
  }

  /**
   * The chain loop from `v` with the visited values `loop`: follow the map
   * while `v` is a key; a value already visited ends it with the least
   * visited value, a value that is no key ends it with that value.
   */
  function Follow(m: map<int, int>, v: int, loop: seq<int>, all: set<int>): int
    requires v in loop && Elems(loop) <= all && ValuesWithin(m, all)
    decreases |all - Elems(loop)|
  {
    if v !in m then v
    else if m[v] in loop then SeqMin(loop)
    else
      Unvisited(all, loop, m[v]);
      Follow(m, m[v], loop + [m[v]], all)
  }

  /** The values of `m`. */
  function Targets(m: map<int, int>): (all: set<int>)
  {
    set k | k in m :: m[k]
  }

  lemma TargetsWithin(m: map<int, int>)
    ensures ValuesWithin(m, Targets(m))
  {
  }

  /** The values of `m` and `v`: every value the chain loop from `v` can visit. */
  function Reachable(m: map<int, int>, v: int): (all: set<int>)
    ensures v in all && ValuesWithin(m, all)
  {
    Targets(m) + {v}
  }

  /** What the `replaceAll` callback returns for a value `v`. */
  function ChainEnd(m: map<int, int>, v: int): int {
    Follow(m, v, [v], Reachable(m, v))
  }

  /** `Collections.min(loop)`, scanning the collection. */
  method MinOf(s: seq<int>) returns (r: int)
    requires |s| > 0
    ensures r == SeqMin(s)
  {
    r := s[0];
    var i := 1;
    while i < |s|
      invariant 1 <= i <= |s|
      invariant r == SeqMin(s[..i])
    {
      assert s[..i + 1][..i] == s[..i];
      if s[i] < r {
        r := s[i];
      }
      i := i + 1;
    }
    assert s[..i] == s;
  }

  /** The `replaceAll` callback: the chain loop from `v` over the map as it stands. */
  method FollowChain(m: map<int, int>, v0: int) returns (r: int)
    ensures r == ChainEnd(m, v0)
  {
    ghost var all := Reachable(m, v0);
    var v := v0;
    var loop := [v0];
    while v in m
      invariant v in loop && Elems(loop) <= all
      invariant Follow(m, v, loop, all) == ChainEnd(m, v0)
      decreases |all - Elems(loop)|
    {
      var end := m[v];
      if end in loop {
        r := MinOf(loop);
        return;
      }
      Unvisited(all, loop, end);
      v := end;
      loop := loop + [v];
    }
    r := v;
  }

  /**
   * The chain loop ends either at a value that is no key, or at a value no
   * larger than any it visited, the start among them; either way it ends
   * at the start or at a value of the map.
   */
  lemma {:induction false} FollowBound(m: map<int, int>, v: int, loop: seq<int>, all: set<int>)
    requires v in loop && Elems(loop) <= all && ValuesWithin(m, all)
    ensures var r := Follow(m, v, loop, all); r !in m || forall x | x in loop :: r <= x
    ensures Follow(m, v, loop, all) in all
    decreases |all - Elems(loop)|
  {
    if v in m && m[v] !in loop {
      Unvisited(all, loop, m[v]);
      FollowBound(m, m[v], loop + [m[v]], all);
      assert forall x | x in loop :: x in loop + [m[v]];
    } else if v in m {
      assert SeqMin(loop) in Elems(loop);
    }
  }

  /** A flattened value is no key, or no larger than the value it replaced, and it is that value or another target. */
  lemma ChainEndBound(m: map<int, int>, v: int)
    ensures ChainEnd(m, v) !in m || ChainEnd(m, v) <= v
    ensures ChainEnd(m, v) == v || exists k | k in m :: m[k] == ChainEnd(m, v)
  {
    FollowBound(m, v, [v], Reachable(m, v));
  }

  /** A self-redirect `k -> k` keeps its value. */
  lemma ChainEndSelf(m: map<int, int>, k: int)
    requires k in m && m[k] == k
    ensures ChainEnd(m, k) == k
  {
  }

  /** A redirect in a two-cycle `a -> b -> a` becomes the smaller of the two. */
  lemma ChainEndTwoCycle(m: map<int, int>, a: int, b: int)
    requires a != b && a in m && b in m && m[a] == b && m[b] == a
    ensures ChainEnd(m, b) == if a <= b then a else b
  {
    var all := Reachable(m, b);
    assert a in all;
    Unvisited(all, [b], a);
    assert Follow(m, b, [b], all) == Follow(m, a, [b, a], all);
    var r := SeqMin([b, a]);
    assert r <= a && r <= b;
  }

  // ---- acyclic redirect maps ----

  /** `h` ranks the redirects: each one that points at a key points at a lower rank, so there is no cycle. */
  predicate Ranked(m: map<int, int>, h: int -> nat) {
    forall k | k in m && m[k] in m :: h(m[k]) < h(k)
  }

  /** A measure that falls along every redirect of a ranked map. */
  function Rank(m: map<int, int>, h: int -> nat, v: int): nat {
    if v in m then h(v) + 1 else 0
  }

  /** The end of the chain from `v` in a ranked map: the first value on it that is no key. */
  function RankedEnd(m: map<int, int>, h: int -> nat, v: int): (r: int)
    requires Ranked(m, h)
    ensures r !in m
    ensures v !in m ==> r == v
    decreases Rank(m, h, v)
  {
    if v !in m then v else RankedEnd(m, h, m[v])
  }

  /**
   * On a ranked map the chain loop never meets a visited value, so it
   * returns the chain end.
   */
  lemma {:induction false} FollowRanked(m: map<int, int>, h: int -> nat, v: int, loop: seq<int>, all: set<int>)
    requires Ranked(m, h)
    requires v in loop && Elems(loop) <= all && ValuesWithin(m, all)
    requires forall x | x in loop && x != v :: x in m && (v in m ==> h(v) < h(x))
    ensures Follow(m, v, loop, all) == RankedEnd(m, h, v)
    decreases |all - Elems(loop)|
  {
    if v in m {
      var w := m[v];
      assert w !in loop by {
        if w in m {
          assert h(w) < h(v);
        }
      }
      Unvisited(all, loop, w);
      FollowRanked(m, h, w, loop + [w], all);
    }
  }

  /** On a ranked map the `replaceAll` callback returns the chain end. */
  lemma ChainEndRanked(m: map<int, int>, h: int -> nat, v: int)
    requires Ranked(m, h)
    ensures ChainEnd(m, v) == RankedEnd(m, h, v)
  {
    FollowRanked(m, h, v, [v], Reachable(m, v));
  }

  /**
   * Pointing a key at a value further down its own chain keeps the map
   * ranked and leaves every chain end where it was.
   */
  lemma {:induction false} ShortcutAt(m: map<int, int>, h: int -> nat, k: int, w: int, v: int)
    requires Ranked(m, h) && k in m
    requires w !in m || h(w) < h(k)
    requires RankedEnd(m, h, w) == RankedEnd(m, h, k)
    ensures Ranked(m[k := w], h)
    ensures RankedEnd(m[k := w], h, v) == RankedEnd(m, h, v)
    decreases Rank(m, h, v)
  {
    var m' := m[k := w];
    assert Ranked(m', h);
    if v == k {
      if w in m {
        ShortcutAt(m, h, k, w, w);
      }
    } else if v in m {
      ShortcutAt(m, h, k, w, m[v]);
    }
  }

  /** `ShortcutAt` for every start value at once. */
  lemma Shortcut(m: map<int, int>, h: int -> nat, k: int, w: int)
    requires Ranked(m, h) && k in m
    requires w !in m || h(w) < h(k)
    requires RankedEnd(m, h, w) == RankedEnd(m, h, k)
    ensures Ranked(m[k := w], h)
    ensures forall v :: RankedEnd(m[k := w], h, v) == RankedEnd(m, h, v)
  {
    ShortcutAt(m, h, k, w, k);
    forall v
      ensures RankedEnd(m[k := w], h, v) == RankedEnd(m, h, v)
    {
      ShortcutAt(m, h, k, w, v);
    }
  }

  /** The keys in `HashMap` iteration order: each key exactly once. */
  predicate IsOrder(order: seq<int>, m: map<int, int>) {
    (forall i | 0 <= i < |order| :: order[i] in m)
    && (forall k | k in m :: k in order)
    && (forall i, j | 0 <= i < j < |order| :: order[i] != order[j])
  }

  /**
   * `replaceAll` over the keys in `order`: each entry in turn gets the
   * callback's value, computed on the map as earlier entries left it.
   */
  ghost function FlattenSpec(m: map<int, int>, order: seq<int>): map<int, int>
    requires forall i | 0 <= i < |order| :: order[i] in m
    decreases |order|
  {
    if |order| == 0 then m
    else
      var k := order[0];
      FlattenSpec(m[k := ChainEnd(m, m[k])], order[1..])
  }

  /** `replaceAll` keeps the key set. */
  lemma {:induction false} FlattenKeys(m: map<int, int>, order: seq<int>)
    requires forall i | 0 <= i < |order| :: order[i] in m
    ensures FlattenSpec(m, order).Keys == m.Keys
    decreases |order|
  {
    if |order| > 0 {
      var k := order[0];
      FlattenKeys(m[k := ChainEnd(m, m[k])], order[1..]);
    }
  }

  /** `replaceAll` from the entry at position `i` on. */
  lemma FlattenStep(m: map<int, int>, order: seq<int>, i: int)
    requires 0 <= i < |order| && order[i] in m
    requires forall j | i < j < |order| :: order[j] in m
    ensures var k := order[i];
      FlattenSpec(m, order[i..]) == FlattenSpec(m[k := ChainEnd(m, m[k])], order[i + 1..])
  {
    assert order[i..][0] == order[i] && order[i..][1..] == order[i + 1..];
  }

  /** `redirects.replaceAll(...)`, in place in `order`. */
  method Flatten(redirects: map<int, int>, order: seq<int>) returns (m: map<int, int>)
    requires IsOrder(order, redirects)
    ensures m == FlattenSpec(redirects, order)
  {
    m := redirects;
    var i := 0;
    while i < |order|
      invariant 0 <= i <= |order|
      invariant m.Keys == redirects.Keys
      invariant FlattenSpec(m, order[i..]) == FlattenSpec(redirects, order)
    {
      var k := order[i];
      var v := FollowChain(m, m[k]);
      FlattenStep(m, order, i);
      m := m[k := v];
      i := i + 1;
    }
    assert order[i..] == [];
  }

  /** A ranked map flattened: every key points at the end of its chain. */
  function Flattened(m: map<int, int>, h: int -> nat): (r: map<int, int>)
    requires Ranked(m, h)
    ensures r.Keys == m.Keys
    ensures forall k | k in r :: r[k] !in r
  {
    map k | k in m :: RankedEnd(m, h, k)
  }

  /**
   * On a ranked map, `replaceAll` over some of the keys points each of them
   * at its chain end, leaves the others alone, and keeps the map ranked
   * with the same chain ends.
   */
  lemma {:induction false} FlattenRankedPart(m: map<int, int>, h: int -> nat, order: seq<int>)
    requires Ranked(m, h)
    requires forall i | 0 <= i < |order| :: order[i] in m
    ensures FlattenSpec(m, order).Keys == m.Keys
    ensures Ranked(FlattenSpec(m, order), h)
    ensures forall v :: RankedEnd(FlattenSpec(m, order), h, v) == RankedEnd(m, h, v)
    ensures forall k | k in m :: FlattenSpec(m, order)[k] == if k in order then RankedEnd(m, h, k) else m[k]
    decreases |order|
  {
    FlattenKeys(m, order);
    if |order| > 0 {
      var k0 := order[0];
      var e := ChainEnd(m, m[k0]);
      ChainEndRanked(m, h, m[k0]);
      assert e == RankedEnd(m, h, k0);
      Shortcut(m, h, k0, e);
      var m' := m[k0 := e];
      FlattenRankedPart(m', h, order[1..]);
      var r := FlattenSpec(m, order);
      assert r == FlattenSpec(m', order[1..]);
      forall k | k in m
        ensures r[k] == if k in order then RankedEnd(m, h, k) else m[k]
      {
        assert order == [k0] + order[1..];
        if k in order[1..] {
          assert r[k] == RankedEnd(m', h, k);
        } else if k == k0 {
          assert r[k] == m'[k0];
        }
      }
    }
  }

  /**
   * For an acyclic redirect map, flattening replaces each value by the end
   * of its chain, whatever the iteration order, and no value is left that
   * is itself a key.
   */
  lemma FlattenAcyclic(m: map<int, int>, h: int -> nat, order: seq<int>)
    requires Ranked(m, h) && IsOrder(order, m)
    ensures FlattenSpec(m, order) == Flattened(m, h)
    ensures forall k | k in FlattenSpec(m, order) :: FlattenSpec(m, order)[k] !in FlattenSpec(m, order)
  {
    FlattenRankedPart(m, h, order);
  }

  // ---- the non-flat report ----

  /** `titles.get(id)`: None for null. */
  function Title(titles: map<int, string>, id: int): (r: Option<string>)
    ensures r.Some? <==> id in titles
    ensures r.Some? ==> r.value == titles[id]
  {
    if id in titles then Some(titles[id]) else None
  }

  /** What the loop over `keySet()` prints: the title of every key, since each key is a key. */
  function AsWrittenOutput(m: map<int, int>, titles: map<int, string>, keys: seq<int>): (r: seq<Option<string>>)
    ensures |r| <= |keys|
  {
    if |keys| == 0 then []
    else
      var init := AsWrittenOutput(m, titles, keys[..|keys| - 1]);
      var target := keys[|keys| - 1];
      init + (if target in m then [Title(titles, target)] else [])
  }

  /** As written, the report prints one line per redirect, flat or not. */
  lemma {:induction false} AsWrittenPrintsEveryKey(m: map<int, int>, titles: map<int, string>, keys: seq<int>)
    requires forall i | 0 <= i < |keys| :: keys[i] in m
    ensures AsWrittenOutput(m, titles, keys) == seq(|keys|, i requires 0 <= i < |keys| => Title(titles, keys[i]))
  {
    if |keys| > 0 {
      AsWrittenPrintsEveryKey(m, titles, keys[..|keys| - 1]);
    }
  }

  /** The flat map `{1 -> 2}` has nothing left to report, yet the loop as written prints the title of 1. */
  lemma AsWrittenReportsFlatMap()
    ensures var m := map[1 := 2];
      (forall k | k in m :: m[k] !in m)
      && AsWrittenOutput(m, map[1 := "A", 2 := "B"], [1]) == [Some("A")]
  {
    var m := map[1 := 2];
    var titles := map[1 := "A", 2 := "B"];
    assert [1][..0] == [];
    assert AsWrittenOutput(m, titles, [1]) == AsWrittenOutput(m, titles, []) + [Title(titles, 1)];
  }

  /** The report loop as written: over `keySet()`, testing `containsKey`. */
  method NonFlatAsWritten(m: map<int, int>, titles: map<int, string>, order: seq<int>) returns (printed: seq<Option<string>>)
    requires IsOrder(order, m)
    ensures printed == AsWrittenOutput(m, titles, order)
  {
    printed := [];
    var i := 0;
    while i < |order|
      invariant 0 <= i <= |order|
      invariant printed == AsWrittenOutput(m, titles, order[..i])
    {
      assert order[..i + 1][..i] == order[..i];
      var target := order[i];
      if target in m {
        printed := printed + [Title(titles, target)];
      }
      i := i + 1;
    }
    assert order[..i] == order;
  }

  /** What the report is meant to print: over the values, the title of each target that is itself a redirect. */
  function NonFlatOutput(m: map<int, int>, titles: map<int, string>, keys: seq<int>): seq<Option<string>>
    requires forall i | 0 <= i < |keys| :: keys[i] in m
  {
    if |keys| == 0 then []
    else
      var target := m[keys[|keys| - 1]];
      NonFlatOutput(m, titles, keys[..|keys| - 1]) + (if target in m then [Title(titles, target)] else [])
  }

  /** The intended report prints nothing exactly when no redirect points at a redirect. */
  lemma {:induction false} NonFlatEmpty(m: map<int, int>, titles: map<int, string>, keys: seq<int>)
    requires forall i | 0 <= i < |keys| :: keys[i] in m
    ensures NonFlatOutput(m, titles, keys) == [] <==> forall i | 0 <= i < |keys| :: m[keys[i]] !in m
  {
    if |keys| > 0 {
      NonFlatEmpty(m, titles, keys[..|keys| - 1]);
    }
  }

  /** Each line of the intended report is the title of a redirect target that is itself a redirect. */
  lemma {:induction false} NonFlatLines(m: map<int, int>, titles: map<int, string>, keys: seq<int>)
    requires forall i | 0 <= i < |keys| :: keys[i] in m
    ensures forall p | p in NonFlatOutput(m, titles, keys) ::
      exists i | 0 <= i < |keys| :: m[keys[i]] in m && p == Title(titles, m[keys[i]])
  {
    if |keys| > 0 {
      var init := keys[..|keys| - 1];
      NonFlatLines(m, titles, init);
      forall p | p in NonFlatOutput(m, titles, keys)
        ensures exists i | 0 <= i < |keys| :: m[keys[i]] in m && p == Title(titles, m[keys[i]])
      {
        if p in NonFlatOutput(m, titles, init) {
          var i :| 0 <= i < |init| && m[init[i]] in m && p == Title(titles, m[init[i]]);
          assert keys[i] == init[i];
        } else {
          assert m[keys[|keys| - 1]] in m;
        }
      }
    }
  }

  /** The report loop over `values()`, as intended. */
  method NonFlat(m: map<int, int>, titles: map<int, string>, order: seq<int>) returns (printed: seq<Option<string>>)
    requires IsOrder(order, m)
    ensures printed == NonFlatOutput(m, titles, order)
  {
    printed := [];
    var i := 0;
    while i < |order|
      invariant 0 <= i <= |order|
      invariant printed == NonFlatOutput(m, titles, order[..i])
    {
      assert order[..i + 1][..i] == order[..i];
      var target := m[order[i]];
      if target in m {
        printed := printed + [Title(titles, target)];
      }
      i := i + 1;
    }
    assert order[..i] == order;
  }

  /** After an acyclic redirect map is flattened, the intended report prints nothing. */
  lemma FlattenedReportsNothing(m: map<int, int>, h: int -> nat, titles: map<int, string>, order: seq<int>)
    requires Ranked(m, h) && IsOrder(order, m)
    ensures forall i | 0 <= i < |order| :: order[i] in FlattenSpec(m, order)
    ensures NonFlatOutput(FlattenSpec(m, order), titles, order) == []
  {
    FlattenAcyclic(m, h, order);
    NonFlatEmpty(FlattenSpec(m, order), titles, order);
  }
}
