/**
 * edu.stanford.cs.hazy.wikiapi.CollectStats: the same id cache and
 * redirect query as the udf CollectStats, except that every unresolved
 * target is reported, and a report over the map's values that prints,
 * through the bimap's inverse, the title of every redirect target that is
 * itself a redirect.
 */
module HazyCollectStats {
  import opened Wrappers
  import opened HTMLWikiModel
  import opened BiMaps
  import CollectStats

  type RedirectRow = CollectStats.RedirectRow

  /**
   * `getRedirects(c, ids)`: the map of resolved redirects, and every
   * normalised target without an id, in row order.
   */
  method GetRedirects(ids: map<string, int>, rows: seq<RedirectRow>) returns (redirects: map<int, int>, reported: seq<string>)
    ensures redirects == CollectStats.RedirectsOf(ids, rows)
    ensures reported == CollectStats.UnresolvedOf(ids, rows)
  {
    redirects := map[];
    reported := [];
    var i := 0;
    while i < |rows|
      invariant 0 <= i <= |rows|
      invariant redirects == CollectStats.RedirectsOf(ids, rows[..i])
      invariant reported == CollectStats.UnresolvedOf(ids, rows[..i])
    {
      CollectStats.RedirectRowsPrefix(ids, rows, i);
      var row := rows[i];
      assert CollectStats.UnresolvedOf(ids, rows[..i]) + [] == CollectStats.UnresolvedOf(ids, rows[..i]);
      if row.target.Some? {
        var redirect := NormalizeTitle(row.target.value);
        var redirectId := CollectStats.IdOrMissing(ids, redirect);
        if redirectId >= 0 {
          redirects := redirects[row.id := redirectId];
        } else {
          reported := reported + [redirect];
        }
      }
      i := i + 1;
    }
    assert rows[..i] == rows;
  }

  /**
   * Every reported target is the normal form of a row's target that has
   * no id, and the udf tool's report is the part of it without '#'.
   */
  lemma ReportsUnresolved(ids: map<string, int>, rows: seq<RedirectRow>)
    ensures forall t | t in CollectStats.UnresolvedOf(ids, rows) :: t !in ids || ids[t] < 0
    ensures forall t :: t in CollectStats.Reported(CollectStats.UnresolvedOf(ids, rows)) <==>
      t in CollectStats.UnresolvedOf(ids, rows) && '#' !in t
  {
    CollectStats.UnresolvedFromRows(ids, rows);
    CollectStats.ReportedMembers(CollectStats.UnresolvedOf(ids, rows));
  }

  /**
   * The report loop of `main` over `redirects.values()`: for each value
   * that is a key, `ids.inverse().get(target)`, None standing for null.
   */
  method PrintNonFlat(ids: HashBiMap, redirects: map<int, int>, order: seq<int>) returns (printed: seq<Option<string>>)
    requires ids.Valid() && CollectStats.IsOrder(order, redirects)
    ensures printed == CollectStats.NonFlatOutput(redirects, ids.inverse, order)
  {
    printed := [];
    var i := 0;
    while i < |order|
      invariant 0 <= i <= |order|
      invariant printed == CollectStats.NonFlatOutput(redirects, ids.inverse, order[..i])
    {
      assert order[..i + 1][..i] == order[..i];
      var target := redirects[order[i]];
      if target in redirects {
        var nonflat := ids.InverseGet(target);
        printed := printed + [nonflat];
      }
      i := i + 1;
    }
    assert order[..i] == order;
  }

  /**
   * The report never prints null: every redirect target is an id of the
   * cache, so each printed line is the title of a page whose id is itself
   * a redirect.
   */
  lemma NonFlatNeverNull(ids: HashBiMap, rows: seq<RedirectRow>, order: seq<int>)
    requires ids.Valid()
    requires CollectStats.IsOrder(order, CollectStats.RedirectsOf(ids.forward, rows))
    ensures forall p | p in CollectStats.NonFlatOutput(CollectStats.RedirectsOf(ids.forward, rows), ids.inverse, order) ::
      p.Some? && p.value in ids.forward && ids.forward[p.value] in CollectStats.RedirectsOf(ids.forward, rows)
  {
    var redirects := CollectStats.RedirectsOf(ids.forward, rows);
    CollectStats.RedirectTargetsAreIds(ids.forward, rows);
    CollectStats.NonFlatLines(redirects, ids.inverse, order);
    forall p | p in CollectStats.NonFlatOutput(redirects, ids.inverse, order)
      ensures p.Some? && p.value in ids.forward && ids.forward[p.value] in redirects
    {
      var i :| 0 <= i < |order| && redirects[order[i]] in redirects && p == CollectStats.Title(ids.inverse, redirects[order[i]]);
      var target := redirects[order[i]];
      var t :| t in ids.forward && ids.forward[t] == target;
      assert target in ids.inverse;
    }
  }
}
