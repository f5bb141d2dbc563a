/**
 * edu.stanford.cs.hazy.wikiapi.DumpParser: the variant of the udf
 * DumpParser that prints each content page as one tab-separated row, with
 * every tab removed from the columns, caps the default thread count at 10,
 * and has a helper that prints the first HTML table of a rendering.
 *
 * As in the udf DumpParser, `render` is the HTML rendering of a fresh
 * HTMLWikiModel, None standing for an exception, and the tasks run one
 * after the other in submission order.
 */
module HazyDumpParser {
  import opened Wrappers
  import opened Strings
  import opened Wiki
  import opened Utils
  import DumpParser

  /** More threads than this would not help. */
  const MaxThreads: int := 10

  /** The default thread count: half the processors, at most `MaxThreads`. */
  function DefaultThreadCount(processors: int): (n: int)
    requires processors >= 1
    ensures 0 <= n <= MaxThreads && n <= processors / 2
    ensures n == MaxThreads || n == processors / 2
  {
    Min(MaxThreads, processors / 2)
  }

  /**
   * The pool built from the default count: one thread for fewer than four
   * processors, then one less than half the processors, and 9 from 22
   * processors on.
   */
  lemma DefaultPoolSize(processors: int)
    requires 1 <= processors <= IntMax
    ensures var p := BoundedPool(DefaultThreadCount(processors), processors);
      1 <= p.coreSize <= processors
      && (processors < 4 ==> p.coreSize == 1)
      && (4 <= processors < 22 ==> p.coreSize == processors / 2 - 1)
      && (22 <= processors ==> p.coreSize == MaxThreads - 1)
  {
    var n := DefaultThreadCount(processors);
    assert IsInt32(n);
    if processors < 4 {
      assert n <= 1;
    }
  }

  /** The four columns of a page's row, each with its tabs removed. */
  function Columns(page: Article, html: string): (r: seq<string>)
    requires page.text.Some?
    ensures |r| == 4
    ensures forall i | 0 <= i < 4 :: '\t' !in r[i]
  {
    [RemoveChar(page.id, '\t'), RemoveChar(page.title, '\t'), RemoveChar(html, '\t'), RemoveChar(page.text.value, '\t')]
  }

  /** The row printed for a page: its columns joined by tabs. */
  function TabRow(page: Article, html: string): string
    requires page.text.Some?
  {
    Join(Columns(page, html), "\t")
  }

  /**
   * A row holds exactly three tabs, and splitting it at them gives back
   * the four columns; a column that held no tab comes back unchanged.
   */
  lemma TabRowFields(page: Article, html: string)
    requires page.text.Some?
    ensures CountChar(TabRow(page, html), '\t') == 3
    ensures SplitOn(TabRow(page, html), '\t') == Columns(page, html)
    ensures '\t' !in html ==> SplitOn(TabRow(page, html), '\t')[2] == html
  {
    CountCharJoin(Columns(page, html), '\t');
    SplitOnJoin(Columns(page, html), '\t');
  }

  /**
   * `printATable(html)`: nothing when the HTML has no "<table>"; otherwise
   * the text between the first "<table>" and the first "</table>" after it
   * (no earlier "<table>" exists, and the first "</table>" after the opening
   * one starts right after the text), or the word "null" when no "</table>"
   * follows.
   */
  const TableOpen: string := "<table>"
  const TableClose: string := "</table>"

  function PrintATable(html: string): (r: Option<string>)
    ensures r.None? <==> !Contains(html, TableOpen)
    ensures r.Some? && SubstringBetween(html, TableOpen, TableClose).Some? ==>
      Contains(html, TableOpen + r.value + TableClose) && !Contains(r.value, TableClose)
    ensures r.Some? && SubstringBetween(html, TableOpen, TableClose).Some? ==>
      var b := IndexOf(html, TableOpen, 0).value + |TableOpen|;
      (forall j | 0 <= j < b - |TableOpen| :: !MatchesAt(html, TableOpen, j))
      && IndexOf(html, TableClose, b) == Some(b + |r.value|)
      && html[b .. b + |r.value|] == r.value
    ensures r.Some? && SubstringBetween(html, TableOpen, TableClose).None? ==> r.value == "null"
  {
    ContainsIndexOf(html, TableOpen);
    if Contains(html, TableOpen) then
      var between := SubstringBetween(html, TableOpen, TableClose);
      if between.Some? then
        SubstringBetweenOccurs(html, TableOpen, TableClose);
        Some(between.value)
      else Some("null")
    else None
  }

  /** The row a page prints, if any. */
  function RowOf(render: string -> Option<string>, page: Article): Option<string> {
    if DumpParser.IsContentPage(page) && render(page.text.value).Some? then Some(TabRow(page, render(page.text.value).value))
    else None
  }

  /** The rows printed for a run of pages, in page order. */
  function RowsOf(render: string -> Option<string>, pages: seq<Article>): (r: seq<string>)
    ensures |r| <= |pages|
  {
    if |pages| == 0 then []
    else
      var last := RowOf(render, pages[|pages| - 1]);
      RowsOf(render, pages[..|pages| - 1]) + (if last.Some? then [last.value] else [])
  }

  /** The tab rows and the udf CSV rows are printed for exactly the same pages. */
  lemma {:induction false} SameRowsAsCsv(render: string -> Option<string>, pages: seq<Article>)
    ensures |RowsOf(render, pages)| == |DumpParser.RowsOf(render, pages)|
  {
    if |pages| > 0 {
      SameRowsAsCsv(render, pages[..|pages| - 1]);
    }
  }

  /** The parser's shared state: the counter and the rows printed so far. */
  class HazyDumpParser {
    const render: string -> Option<string>
    var counter: int
    var printProgress: bool
    var rows: seq<string>
    /** The counts at which a progress line was printed. */
    var progress: seq<int>

    predicate Valid()
      reads this
    {
      IsInt32(counter) && forall i | 0 <= i < |progress| :: progress[i] % 500 == 0
    }

    constructor (render: string -> Option<string>)
      ensures Valid()
      ensures this.render == render
      ensures counter == 0 && printProgress && rows == [] && progress == []
    {
      this.render := render;
      counter := 0;
      printProgress := true;
      rows := [];
      progress := [];
    }

    /** `silence()` */
    method Silence()
      modifies this
      ensures !printProgress
      ensures counter == old(counter) && rows == old(rows) && progress == old(progress)
    {
      printProgress := false;
    }

    /**
     * `process(page, siteinfo)`: a content page prints its tab row unless
     * rendering throws; while progress is on, every call is counted.
     */
    method Process(page: Article)
      requires Valid()
      modifies this
      ensures Valid()
      ensures var r := RowOf(render, page); rows == old(rows) + (if r.Some? then [r.value] else [])
      ensures counter == if printProgress then Inc32(old(counter)) else old(counter)
      ensures progress == old(progress) + (if printProgress && counter % 500 == 0 then [counter] else [])
      ensures printProgress == old(printProgress)
    {
      if DumpParser.IsContentPage(page) {
        var mediawiki := page.text.value;
        var html := render(mediawiki);
        if html.Some? {
          var output := Join([RemoveChar(page.id, '\t'), RemoveChar(page.title, '\t'),
                              RemoveChar(html.value, '\t'), RemoveChar(mediawiki, '\t')], "\t");
          rows := rows + [output];
        }
      }
      if printProgress {
        counter := Inc32(counter);
        if counter % 500 == 0 {
          progress := progress + [counter];
        }
      }
    }
  }
}
