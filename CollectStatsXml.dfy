/**
 * wikiapi.CollectStats of the wikixmlapi tools: the same id cache and
 * redirect query as the udf CollectStats, a stricter rule for reporting
 * unresolved targets, and, instead of flattening, a filter over the
 * redirect entries that follows each chain while writing every step into
 * the entry (`setValue`) and drops the entries whose chain revisits a value.
 *
 * The filter runs on a parallel stream; it is modelled sequentially over
 * the entries in `order`, each seeing the map as the earlier ones left it.
 */
module CollectStatsXml {
  import opened Wrappers
  import opened HTMLWikiModel
  import opened BiMaps
  import CollectStats

  type RedirectRow = CollectStats.RedirectRow

  /** `StringUtils.containsNone(redirect, '#', ':')`: section links and namespaced targets are not reported. */
  function Reported(targets: seq<string>): seq<string> {
    if |targets| == 0 then []
    else
      var t := targets[|targets| - 1];
      Reported(targets[..|targets| - 1]) + (if '#' !in t && ':' !in t then [t] else [])
  }

  lemma ReportedSnoc(targets: seq<string>, t: string)
    ensures Reported(targets + [t]) == Reported(targets) + (if '#' !in t && ':' !in t then [t] else [])
  {
    assert (targets + [t])[..|targets|] == targets;
  }

  /** A target is reported exactly when it is unresolved and has neither '#' nor ':'. */
  lemma {:induction false} ReportedMembers(targets: seq<string>)
    ensures forall t :: t in Reported(targets) <==> t in targets && '#' !in t && ':' !in t
  {
    if |targets| > 0 {
      var init := targets[..|targets| - 1];
      ReportedMembers(init);
      assert targets == init + [targets[|targets| - 1]];
    }
  }

  /** The redirect query's loop: the map of resolved redirects and the reported targets. */
  method CollectRedirects(ids: map<string, int>, rows: seq<RedirectRow>) returns (redirects: map<int, int>, reported: seq<string>)
    ensures redirects == CollectStats.RedirectsOf(ids, rows)
    ensures reported == Reported(CollectStats.UnresolvedOf(ids, rows))
  {
    redirects := map[];
    reported := [];
    var i := 0;
    while i < |rows|
      invariant 0 <= i <= |rows|
      invariant redirects == CollectStats.RedirectsOf(ids, rows[..i])
      invariant reported == Reported(CollectStats.UnresolvedOf(ids, rows[..i]))
    {
      CollectStats.RedirectRowsPrefix(ids, rows, i);
      var row := rows[i];
      ghost var unresolved := CollectStats.UnresolvedOf(ids, rows[..i]);
      assert unresolved + [] == unresolved;
      if row.target.Some? && !CollectStats.Resolves(ids, row) {
        ReportedSnoc(unresolved, NormalizeTitle(row.target.value));
      }
      if row.target.Some? {
        var redirect := NormalizeTitle(row.target.value);
        var redirectId := CollectStats.IdOrMissing(ids, redirect);
        if redirectId >= 0 {
          redirects := redirects[row.id := redirectId];
        } else if '#' !in redirect && ':' !in redirect {
          reported := reported + [redirect];
        }
      }
      i := i + 1;
    }
    assert rows[..i] == rows;
  }

  // ---- dropping redirect loops ----

  /** Whether the filter keeps an entry, and the map after its chain loop. */
  datatype Chased = Chased(kept: bool, live: map<int, int>)

  /**
   * The filter's chain loop for the entry of key `k`, standing at `v` (its
   * current value) with the values visited so far in `loop`: while `v` is a
   * key, a next value already visited drops the entry, and any other next
   * value is written into the entry and visited.
   */
  function Chase(m: map<int, int>, k: int, v: int, loop: seq<int>, all: set<int>): (r: Chased)
    requires k in m && m[k] == v
    requires v in loop && CollectStats.Elems(loop) <= all && CollectStats.ValuesWithin(m, all)
    ensures r.live.Keys == m.Keys && CollectStats.ValuesWithin(r.live, all)
    ensures forall x | x in m && x != k :: r.live[x] == m[x]
    ensures r.kept ==> r.live[k] !in m
    decreases |all - CollectStats.Elems(loop)|
  {
    if v !in m then Chased(true, m)
    else if m[v] in loop then Chased(false, m)
    else
      var end := m[v];
      CollectStats.Unvisited(all, loop, end);
      Chase(m[k := end], k, end, loop + [end], all)
  }

  /** The filter's verdict and value for the entry of `k`, on the map as it stands. */
  function ChaseEntry(m: map<int, int>, k: int, all: set<int>): (r: Chased)
    requires k in m && CollectStats.ValuesWithin(m, all)
    ensures r.live.Keys == m.Keys && CollectStats.ValuesWithin(r.live, all)
  {
    Chase(m, k, m[k], [m[k]], all)
  }

  /** The map as the filter leaves it, and the entries it keeps. */
  datatype Filtered = Filtered(live: map<int, int>, kept: map<int, int>)

  /**
   * The filter over the entries in `order`, starting from the kept entries
   * `kept`: a kept entry is collected with the value its chain loop wrote.
   */
  function FilterSpec(m: map<int, int>, order: seq<int>, all: set<int>, kept: map<int, int>): (r: Filtered)
    requires forall i | 0 <= i < |order| :: order[i] in m
    requires CollectStats.ValuesWithin(m, all)
    ensures r.live.Keys == m.Keys
    decreases |order|
  {
    if |order| == 0 then Filtered(m, kept)
    else
      var k := order[0];
      var c := ChaseEntry(m, k, all);
      FilterSpec(c.live, order[1..], all, if c.kept then kept[k := c.live[k]] else kept)
  }

  /** The values of the entries in `order`: a bound on what any chain loop visits. */
  function ValuesAlong(m: map<int, int>, order: seq<int>): set<int>
    requires forall i | 0 <= i < |order| :: order[i] in m
  {
    if |order| == 0 then {}
    else ValuesAlong(m, order[..|order| - 1]) + {m[order[|order| - 1]]}
  }

  lemma {:induction false} ValuesAlongHas(m: map<int, int>, order: seq<int>)
    requires forall i | 0 <= i < |order| :: order[i] in m
    ensures forall i | 0 <= i < |order| :: m[order[i]] in ValuesAlong(m, order)
  {
    if |order| > 0 {
      var init := order[..|order| - 1];
      ValuesAlongHas(m, init);
      assert forall i | 0 <= i < |init| :: init[i] == order[i];
    }
  }

  lemma ValuesAlongWithin(m: map<int, int>, order: seq<int>)
    requires IsOrder(order, m)
    ensures CollectStats.ValuesWithin(m, ValuesAlong(m, order))
  {
    ValuesAlongHas(m, order);
    forall k | k in m
      ensures m[k] in ValuesAlong(m, order)
    {
      var i :| 0 <= i < |order| && order[i] == k;
    }
  }

  /** The filter over all the entries of the redirect map. */
  function Filter(m: map<int, int>, order: seq<int>): map<int, int>
    requires IsOrder(order, m)
  {
    ValuesAlongWithin(m, order);
    FilterSpec(m, order, ValuesAlong(m, order), map[]).kept
  }

  predicate IsOrder(order: seq<int>, m: map<int, int>) {
    CollectStats.IsOrder(order, m)
  }

  /**
   * The filter's lambda for the entry of `k`: follows the chain from the
   * entry's value, writing every step into the entry, and refuses the
   * entry as soon as a value comes round again.
   */
  method ChaseLoop(start: map<int, int>, k: int, ghost all: set<int>) returns (keep: bool, live: map<int, int>)
    requires k in start && CollectStats.ValuesWithin(start, all)
    ensures Chased(keep, live) == ChaseEntry(start, k, all)
  {
    live := start;
    var v := live[k];
    var loop := [v];
    keep := true;
    while v in live
      invariant k in live && live[k] == v && v in loop
      invariant CollectStats.Elems(loop) <= all && CollectStats.ValuesWithin(live, all)
      invariant Chase(live, k, v, loop, all) == ChaseEntry(start, k, all)
      decreases |all - CollectStats.Elems(loop)|
    {
      var end := live[v];
      if end in loop {
        keep := false;
        return;
      }
      CollectStats.Unvisited(all, loop, end);
      live := live[k := end];
      v := end;
      loop := loop + [v];
    }
  }

  /** The filter from the entry at position `i` on, given that entry's verdict and map. */
  lemma FilterStep(m: map<int, int>, order: seq<int>, i: int, all: set<int>, kept: map<int, int>, keep: bool, live: map<int, int>)
    requires 0 <= i < |order| && forall j | i <= j < |order| :: order[j] in m
    requires CollectStats.ValuesWithin(m, all)
    requires Chased(keep, live) == ChaseEntry(m, order[i], all)
    ensures live.Keys == m.Keys && CollectStats.ValuesWithin(live, all)
    ensures FilterSpec(m, order[i..], all, kept)
      == FilterSpec(live, order[i + 1..], all, if keep then kept[order[i] := live[order[i]]] else kept)
  {
    assert order[i..][0] == order[i] && order[i..][1..] == order[i + 1..];
  }

  /** The `filter(...)` and `collect(toMap(...))` of `getRedirects`, entry by entry in `order`. */
  method DropLoops(redirects: map<int, int>, order: seq<int>) returns (result: map<int, int>)
    requires IsOrder(order, redirects)
    ensures result == Filter(redirects, order)
    ensures forall k :: k in result <==> k in redirects && !ChainRevisits(redirects, redirects[k])
    ensures forall k | k in result :: RunsOut(redirects, redirects[k]) && result[k] == Exit(redirects, redirects[k])
  {
    ghost var all := ValuesAlong(redirects, order);
    ValuesAlongWithin(redirects, order);
    var live := redirects;
    result := map[];
    var i := 0;
    while i < |order|
      invariant 0 <= i <= |order|
      invariant live.Keys == redirects.Keys && CollectStats.ValuesWithin(live, all)
      invariant FilterSpec(live, order[i..], all, result) == FilterSpec(redirects, order, all, map[])
    {
      var k := order[i];
      var keep, live' := ChaseLoop(live, k, all);
      FilterStep(live, order, i, all, result, keep, live');
      live := live';
      if keep {
        result := result[k := live[k]];
      }
      i := i + 1;
    }
    assert order[i..] == [];
    FilterKeepsExactlyRunningOut(redirects, order);
    FilterDropsExactlyRevisits(redirects, order);
  }

  /**
   * `getRedirects(c, ids)`: the redirect map built from the rows, with the
   * entries whose chain revisits a value dropped and the others pointing at
   * their chain end; `order` is the iteration order of the built map.
   */
  method GetRedirects(ids: map<string, int>, rows: seq<RedirectRow>, order: seq<int>)
    returns (result: map<int, int>, reported: seq<string>)
    requires IsOrder(order, CollectStats.RedirectsOf(ids, rows))
    ensures result == Filter(CollectStats.RedirectsOf(ids, rows), order)
    ensures var m := CollectStats.RedirectsOf(ids, rows);
      (forall k :: k in result <==> k in m && !ChainRevisits(m, m[k]))
      && (forall k | k in result :: RunsOut(m, m[k]) && result[k] == Exit(m, m[k]))
    ensures reported == Reported(CollectStats.UnresolvedOf(ids, rows))
  {
    var redirects;
    redirects, reported := CollectRedirects(ids, rows);
    result := DropLoops(redirects, order);
  }

  // ---- what the filter keeps ----

  /**
   * Every kept entry is a redirect of the map and points at a value that is
   * no key: its chain end.
   */
  lemma {:induction false} FilterKeepsEnds(m: map<int, int>, order: seq<int>, all: set<int>, kept: map<int, int>)
    requires forall i | 0 <= i < |order| :: order[i] in m
    requires CollectStats.ValuesWithin(m, all)
    requires forall k | k in kept :: k in m && kept[k] !in m
    ensures forall k | k in FilterSpec(m, order, all, kept).kept ::
      k in m && FilterSpec(m, order, all, kept).kept[k] !in m
    decreases |order|
  {
    if |order| > 0 {
      var k := order[0];
      var c := ChaseEntry(m, k, all);
      var kept' := if c.kept then kept[k := c.live[k]] else kept;
      assert forall x | x in kept' :: x in c.live && kept'[x] !in c.live;
      FilterKeepsEnds(c.live, order[1..], all, kept');
      var r := FilterSpec(c.live, order[1..], all, kept').kept;
      assert FilterSpec(m, order, all, kept).kept == r;
      forall x | x in r
        ensures x in m && r[x] !in m
      {
        assert x in c.live && r[x] !in c.live;
        assert x in c.live.Keys;
      }
    }
  }

  /** The result's keys are redirects of the map, and none of its values is a redirect. */
  lemma FilterResultFlat(m: map<int, int>, order: seq<int>)
    requires IsOrder(order, m)
    ensures Filter(m, order).Keys <= m.Keys
    ensures forall k | k in Filter(m, order) :: Filter(m, order)[k] !in m
  {
    var all := ValuesAlong(m, order);
    ValuesAlongWithin(m, order);
    FilterKeepsEnds(m, order, all, map[]);
    var r := FilterSpec(m, order, all, map[]).kept;
    assert Filter(m, order) == r;
    forall k | k in r
      ensures k in m && r[k] !in m
    {
    }
  }

  /**
   * A self-redirect `k -> k` is dropped: its chain revisits `k` at once,
   * and no other entry's loop writes into its entry.
   */
  lemma {:induction false} FilterDropsSelfPart(m: map<int, int>, order: seq<int>, all: set<int>, kept: map<int, int>)
    requires forall i | 0 <= i < |order| :: order[i] in m
    requires forall i, j | 0 <= i < j < |order| :: order[i] != order[j]
    requires CollectStats.ValuesWithin(m, all)
    ensures forall k | k in order && m[k] == k :: k !in FilterSpec(m, order, all, kept).kept || k in kept
    ensures forall k | k !in order :: k in FilterSpec(m, order, all, kept).kept <==> k in kept
    decreases |order|
  {
    if |order| > 0 {
      var k0 := order[0];
      var c := ChaseEntry(m, k0, all);
      var kept' := if c.kept then kept[k0 := c.live[k0]] else kept;
      FilterDropsSelfPart(c.live, order[1..], all, kept');
      assert order == [k0] + order[1..];
      assert k0 !in order[1..];
    }
  }

  /** The filter drops every self-redirect `k -> k`. */
  lemma FilterDropsSelf(m: map<int, int>, order: seq<int>, k: int)
    requires IsOrder(order, m)
    requires k in m && m[k] == k
    ensures k !in Filter(m, order)
  {
    ValuesAlongWithin(m, order);
    FilterDropsSelfPart(m, order, ValuesAlong(m, order), map[]);
  }

  // ---- acyclic redirect maps ----

  /**
   * On a ranked map the chain loop of `k` never revisits a value: the
   * entry is kept, every step writes a value further down the chain, so
   * the entry ends at its chain end and the map stays ranked with the same
   * chain ends.
   */
  lemma {:induction false} ChaseRanked(m: map<int, int>, h: int -> nat, k: int, v: int, loop: seq<int>, all: set<int>)
    requires CollectStats.Ranked(m, h)
    requires k in m && m[k] == v
    requires v in loop && CollectStats.Elems(loop) <= all && CollectStats.ValuesWithin(m, all)
    requires forall x | x in loop && x != v :: x in m && (v in m ==> h(v) < h(x))
    ensures Chase(m, k, v, loop, all).kept && CollectStats.Ranked(Chase(m, k, v, loop, all).live, h)
    ensures Chase(m, k, v, loop, all).live[k] == CollectStats.RankedEnd(m, h, k)
    ensures forall u :: CollectStats.RankedEnd(Chase(m, k, v, loop, all).live, h, u) == CollectStats.RankedEnd(m, h, u)
    decreases |all - CollectStats.Elems(loop)|
  {
    if v in m {
      var end := m[v];
      assert end !in loop by {
        if end in m {
          assert h(end) < h(v);
        }
      }
      if end in m {
        assert h(end) < h(v) < h(k);
      }
      assert CollectStats.RankedEnd(m, h, k) == CollectStats.RankedEnd(m, h, v) == CollectStats.RankedEnd(m, h, end);
      CollectStats.Shortcut(m, h, k, end);
      var m' := m[k := end];
      CollectStats.Unvisited(all, loop, end);
      ChaseRanked(m', h, k, end, loop + [end], all);
    }
  }

  /**
   * On a ranked map the filter over some of the entries keeps each of them
   * with its chain end and keeps the map ranked with the same chain ends.
   */
  lemma {:induction false} FilterRankedPart(m: map<int, int>, h: int -> nat, order: seq<int>, all: set<int>, kept: map<int, int>)
    requires CollectStats.Ranked(m, h)
    requires forall i | 0 <= i < |order| :: order[i] in m
    requires CollectStats.ValuesWithin(m, all)
    ensures CollectStats.Ranked(FilterSpec(m, order, all, kept).live, h)
    ensures forall u :: CollectStats.RankedEnd(FilterSpec(m, order, all, kept).live, h, u) == CollectStats.RankedEnd(m, h, u)
    ensures forall k :: k in FilterSpec(m, order, all, kept).kept <==> k in kept || k in order
    ensures forall k | k in FilterSpec(m, order, all, kept).kept ::
      FilterSpec(m, order, all, kept).kept[k] == if k in order then CollectStats.RankedEnd(m, h, k) else kept[k]
    decreases |order|
  {
    if |order| > 0 {
      var k0 := order[0];
      var c := ChaseEntry(m, k0, all);
      ChaseRanked(m, h, k0, m[k0], [m[k0]], all);
      var kept' := kept[k0 := c.live[k0]];
      FilterRankedPart(c.live, h, order[1..], all, kept');
      assert order == [k0] + order[1..];
      var f := FilterSpec(m, order, all, kept);
      forall k | k in f.kept
        ensures f.kept[k] == if k in order then CollectStats.RankedEnd(m, h, k) else kept[k]
      {
        if k in order[1..] {
          assert f.kept[k] == CollectStats.RankedEnd(c.live, h, k);
        }
      }
    }
  }

  /**
   * For an acyclic redirect map the filter drops nothing, and each entry
   * points at the end of its chain.
   */
  lemma FilterAcyclic(m: map<int, int>, h: int -> nat, order: seq<int>)
    requires CollectStats.Ranked(m, h) && IsOrder(order, m)
    ensures forall k :: k in Filter(m, order) <==> k in m
    ensures forall k | k in m :: Filter(m, order)[k] == CollectStats.Flattened(m, h)[k]
  {
    var all := ValuesAlong(m, order);
    ValuesAlongWithin(m, order);
    FilterRankedPart(m, h, order, all, map[]);
    assert Filter(m, order) == FilterSpec(m, order, all, map[]).kept;
  }

  /**
   * For an acyclic redirect map the filter gives the same entries as the
   * udf CollectStats's flattening with `replaceAll` in the same order.
   */
  lemma FilterAgreesWithFlatten(m: map<int, int>, h: int -> nat, order: seq<int>)
    requires CollectStats.Ranked(m, h) && IsOrder(order, m)
    ensures forall k :: k in Filter(m, order) <==> k in CollectStats.FlattenSpec(m, order)
    ensures forall k | k in Filter(m, order) :: Filter(m, order)[k] == CollectStats.FlattenSpec(m, order)[k]
  {
    FilterAcyclic(m, h, order);
    CollectStats.FlattenAcyclic(m, h, order);
  }

  /**
   * An entry whose chain runs into a loop is dropped along with the loop:
   * for 1 -> 2 -> 3 -> 2 the filter keeps nothing.
   */
  lemma FilterDropsIntoLoop()
    ensures Filter(map[1 := 2, 2 := 3, 3 := 2], [1, 2, 3]) == map[]
  {
    var m := map[1 := 2, 2 := 3, 3 := 2];
    var order := [1, 2, 3];
    var all := ValuesAlong(m, order);
    ValuesAlongWithin(m, order);
    var c1 := ChaseEntry(m, 1, all);
    assert 3 !in [2];
    assert Chase(m[1 := 3], 1, 3, [2] + [3], all) == Chased(false, m[1 := 3]);
    assert c1 == Chased(false, m[1 := 3]);
    var c2 := ChaseEntry(c1.live, 2, all);
    assert 2 !in [3];
    assert Chase(c1.live[2 := 2], 2, 2, [3] + [2], all) == Chased(false, c1.live[2 := 2]);
    assert c2 == Chased(false, c1.live[2 := 2]);
    var c3 := ChaseEntry(c2.live, 3, all);
    assert c3 == Chased(false, c2.live);
    assert order[1..] == [2, 3] && order[1..][1..] == [3] && order[1..][1..][1..] == [];
  }

  // ---- redirect maps with loops ----

  /** The value `n` steps down the chain from `v` in the map, standing still once it is no key. */
  function Iter(m: map<int, int>, v: int, n: nat): int
    decreases n
  {
    if n == 0 || v !in m then v else Iter(m, m[v], n - 1)
  }

  /** The chain from `v` leaves the redirect keys: it reaches a value that is no key. */
  ghost predicate RunsOut(m: map<int, int>, v: int) {
    exists n: nat :: Iter(m, v, n) !in m
  }

  /** The chain from `v` comes round to a key it already visited. */
  ghost predicate ChainRevisits(m: map<int, int>, v: int) {
    exists i: nat, j: nat | i < j :: Iter(m, v, i) in m && Iter(m, v, i) == Iter(m, v, j)
  }

  /** The number of steps the chain from `v` takes to leave the keys, counted up to step `n`. */
  function StepsOut(m: map<int, int>, v: int, n: nat): nat
    requires Iter(m, v, n) !in m
    decreases n
  {
    if v !in m then 0 else StepsOut(m, m[v], n - 1) + 1
  }

  /** Two steps at which the chain is off the keys agree on the step count and the value. */
  lemma {:induction false} OutUnique(m: map<int, int>, v: int, a: nat, b: nat)
    requires Iter(m, v, a) !in m && Iter(m, v, b) !in m
    ensures StepsOut(m, v, a) == StepsOut(m, v, b) && Iter(m, v, a) == Iter(m, v, b)
    decreases a
  {
    if v in m {
      OutUnique(m, m[v], a - 1, b - 1);
    }
  }

  /** How many steps the chain from `v` takes to leave the keys. */
  ghost function Dist(m: map<int, int>, v: int): (d: nat)
    requires RunsOut(m, v)
    ensures exists n: nat :: Iter(m, v, n) !in m && d == StepsOut(m, v, n)
  {
    var n: nat :| Iter(m, v, n) !in m; StepsOut(m, v, n)
  }

  /** Where the chain from `v` leaves the keys: its end. */
  ghost function Exit(m: map<int, int>, v: int): (e: int)
    requires RunsOut(m, v)
    ensures exists n: nat :: Iter(m, v, n) !in m && e == Iter(m, v, n)
  {
    var n: nat :| Iter(m, v, n) !in m; Iter(m, v, n)
  }

  /** A value that is no key is its own end, reached in no steps. */
  lemma ExitOfNonKey(m: map<int, int>, v: int)
    requires v !in m
    ensures RunsOut(m, v) && Dist(m, v) == 0 && Exit(m, v) == v
  {
    assert Iter(m, v, 0) !in m;
  }

  /** A redirect's chain runs out exactly when its target's does, one step later and at the same end. */
  lemma ExitStep(m: map<int, int>, x: int)
    requires x in m
    ensures RunsOut(m, x) <==> RunsOut(m, m[x])
    ensures RunsOut(m, x) ==> Dist(m, x) == Dist(m, m[x]) + 1 && Exit(m, x) == Exit(m, m[x])
  {
    if RunsOut(m, x) {
      var n: nat :| Iter(m, x, n) !in m;
      assert Iter(m, m[x], n - 1) == Iter(m, x, n);
      var a: nat :| Iter(m, x, a) !in m && Dist(m, x) == StepsOut(m, x, a);
      var a': nat :| Iter(m, x, a') !in m && Exit(m, x) == Iter(m, x, a');
      var b: nat :| Iter(m, m[x], b) !in m && Dist(m, m[x]) == StepsOut(m, m[x], b);
      var b': nat :| Iter(m, m[x], b') !in m && Exit(m, m[x]) == Iter(m, m[x], b');
      assert Iter(m, m[x], a - 1) == Iter(m, x, a);
      assert Iter(m, m[x], a' - 1) == Iter(m, x, a');
      OutUnique(m, m[x], a - 1, b);
      OutUnique(m, m[x], a' - 1, b');
    }
    if RunsOut(m, m[x]) {
      var n: nat :| Iter(m, m[x], n) !in m;
      assert Iter(m, x, n + 1) == Iter(m, m[x], n);
    }
  }

  /**
   * `y` may stand in for `x` on the chain: its chain runs out exactly when
   * the one from `x` does, and then strictly closer to the same end.
   */
  ghost predicate Tracks(m: map<int, int>, x: int, y: int) {
    (RunsOut(m, x) <==> RunsOut(m, y))
    && (RunsOut(m, x) ==> Dist(m, y) < Dist(m, x) && Exit(m, y) == Exit(m, x))
  }

  /** The live map keeps the keys, and every entry stands somewhere further down its original chain. */
  ghost predicate TracksOriginal(m: map<int, int>, live: map<int, int>) {
    live.Keys == m.Keys && forall x | x in live :: Tracks(m, x, live[x])
  }

  lemma TracksItself(m: map<int, int>)
    ensures TracksOriginal(m, m)
  {
    forall x | x in m
      ensures Tracks(m, x, m[x])
    {
      ExitStep(m, x);
    }
  }

  /**
   * The chain loop of `k` on the live map: it keeps the entry exactly when
   * the original chain from its value runs out, and then writes the end of
   * that chain; the live map still tracks the original one.
   */
  lemma {:induction false} ChaseTracks(m: map<int, int>, live: map<int, int>, k: int, v: int, loop: seq<int>, all: set<int>)
    requires TracksOriginal(m, live)
    requires k in live && live[k] == v
    requires v in loop && CollectStats.Elems(loop) <= all && CollectStats.ValuesWithin(live, all)
    requires forall x | x in loop && x != v :: RunsOut(m, v) ==> RunsOut(m, x) && Dist(m, v) < Dist(m, x)
    ensures TracksOriginal(m, Chase(live, k, v, loop, all).live)
    ensures Chase(live, k, v, loop, all).kept <==> RunsOut(m, v)
    ensures Chase(live, k, v, loop, all).kept ==> Chase(live, k, v, loop, all).live[k] == Exit(m, v)
    decreases |all - CollectStats.Elems(loop)|
  {
    if v !in live {
      ExitOfNonKey(m, v);
    } else if live[v] in loop {
      assert Tracks(m, v, live[v]);
    } else {
      var end := live[v];
      assert Tracks(m, k, v) && Tracks(m, v, end);
      var live' := live[k := end];
      assert TracksOriginal(m, live') by {
        forall x | x in live'
          ensures Tracks(m, x, live'[x])
        {
          if x != k {
            assert live'[x] == live[x];
          }
        }
      }
      CollectStats.Unvisited(all, loop, end);
      assert CollectStats.Elems(loop + [end]) == CollectStats.Elems(loop) + {end};
      ChaseTracks(m, live', k, end, loop + [end], all);
    }
  }

  /**
   * The filter over a run of entries on a live map that tracks the original
   * one: it keeps exactly the entries whose original chain runs out, each
   * with the end of its chain.
   */
  lemma {:induction false} FilterTracks(m: map<int, int>, live: map<int, int>, order: seq<int>, all: set<int>, kept: map<int, int>)
    requires TracksOriginal(m, live)
    requires forall i | 0 <= i < |order| :: order[i] in live
    requires CollectStats.ValuesWithin(live, all)
    requires forall x | x in kept :: RunsOut(m, x) && kept[x] == Exit(m, x)
    ensures forall x :: x in FilterSpec(live, order, all, kept).kept <==> x in kept || (x in order && RunsOut(m, x))
    ensures forall x | x in FilterSpec(live, order, all, kept).kept :: FilterSpec(live, order, all, kept).kept[x] == Exit(m, x)
    decreases |order|
  {
    if |order| > 0 {
      var k := order[0];
      var c := ChaseEntry(live, k, all);
      ChaseTracks(m, live, k, live[k], [live[k]], all);
      assert Tracks(m, k, live[k]);
      var kept' := if c.kept then kept[k := c.live[k]] else kept;
      FilterTracks(m, c.live, order[1..], all, kept');
      assert order == [k] + order[1..];
    }
  }

  /**
   * The filter keeps exactly the redirects whose chain runs out of the
   * keys, and maps each to the end of its chain; every entry whose chain
   * runs into a loop is dropped, whatever the iteration order.
   */
  lemma FilterKeepsExactlyRunningOut(m: map<int, int>, order: seq<int>)
    requires IsOrder(order, m)
    ensures forall k :: k in Filter(m, order) <==> k in m && RunsOut(m, m[k])
    ensures forall k | k in Filter(m, order) :: RunsOut(m, m[k]) && Filter(m, order)[k] == Exit(m, m[k])
  {
    var all := ValuesAlong(m, order);
    ValuesAlongWithin(m, order);
    TracksItself(m);
    FilterTracks(m, m, order, all, map[]);
    assert Filter(m, order) == FilterSpec(m, order, all, map[]).kept;
    forall k | k in m
      ensures RunsOut(m, k) <==> RunsOut(m, m[k])
      ensures RunsOut(m, k) ==> Exit(m, k) == Exit(m, m[k])
    {
      ExitStep(m, k);
    }
  }

  // ---- a chain that never leaves the keys comes round again ----

  /** `a` steps and then `b` more are `a + b` steps. */
  lemma {:induction false} IterAdd(m: map<int, int>, v: int, a: nat, b: nat)
    ensures Iter(m, v, a + b) == Iter(m, Iter(m, v, a), b)
    decreases a
  {
    if a > 0 && v in m {
      IterAdd(m, m[v], a - 1, b);
    }
  }

  /** Every value on a cycle through the key `w` is a key. */
  lemma {:induction false} CycleKeys(m: map<int, int>, w: int, p: nat, n: nat)
    requires w in m && p > 0 && Iter(m, w, p) == w
    ensures Iter(m, w, n) in m
    decreases n
  {
    if n < p {
      IterAdd(m, w, n, p - n);
      if Iter(m, w, n) !in m {
        assert false;
      }
    } else {
      IterAdd(m, w, p, n - p);
      CycleKeys(m, w, p, n - p);
    }
  }

  /** The values of the chain from `v` up to step `n`, in order. */
  function Path(m: map<int, int>, v: int, n: nat): (p: seq<int>)
    ensures |p| == n + 1 && forall i | 0 <= i <= n :: p[i] == Iter(m, v, i)
  {
    if n == 0 then [v] else Path(m, v, n - 1) + [Iter(m, v, n)]
  }

  /** Pairwise distinct values drawn from a set are no more than the set holds. */
  lemma {:induction false} DistinctWithin(s: seq<int>, keys: set<int>)
    requires forall i, j | 0 <= i < j < |s| :: s[i] != s[j]
    requires forall i | 0 <= i < |s| :: s[i] in keys
    ensures |s| <= |keys|
  {
    if |s| > 0 {
      var x := s[|s| - 1];
      DistinctWithin(s[..|s| - 1], keys - {x});
    }
  }

  /**
   * On the finite redirect map, a chain revisits a key exactly when it
   * never leaves the keys: the filter's loop test and running out of keys
   * are two sides of one fact.
   */
  lemma RevisitsIffStuck(m: map<int, int>, v: int)
    ensures ChainRevisits(m, v) <==> !RunsOut(m, v)
  {
    if ChainRevisits(m, v) {
      var i: nat, j: nat :| i < j && Iter(m, v, i) in m && Iter(m, v, i) == Iter(m, v, j);
      var w := Iter(m, v, i);
      IterAdd(m, v, i, j - i);
      if RunsOut(m, v) {
        var n: nat :| Iter(m, v, n) !in m;
        if n <= i {
          IterAdd(m, v, n, i - n);
        } else {
          IterAdd(m, v, i, n - i);
          CycleKeys(m, w, j - i, n - i);
        }
      }
    }
    if !RunsOut(m, v) && !ChainRevisits(m, v) {
      var n := |m.Keys|;
      var p := Path(m, v, n);
      forall i, j | 0 <= i < j < |p|
        ensures p[i] != p[j]
      {
        assert Iter(m, v, i) in m;
      }
      forall i | 0 <= i < |p|
        ensures p[i] in m.Keys
      {
        assert Iter(m, v, i) in m;
      }
      DistinctWithin(p, m.Keys);
    }
  }

  /** The filter keeps a redirect exactly when the chain from its value never comes round again. */
  lemma FilterDropsExactlyRevisits(m: map<int, int>, order: seq<int>)
    requires IsOrder(order, m)
    ensures forall k | k in m :: k in Filter(m, order) <==> !ChainRevisits(m, m[k])
  {
    FilterKeepsExactlyRunningOut(m, order);
    forall k | k in m
      ensures RunsOut(m, m[k]) <==> !ChainRevisits(m, m[k])
    {
      RevisitsIffStuck(m, m[k]);
    }
  }
}
