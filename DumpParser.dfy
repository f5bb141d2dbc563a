/**
 * wikiapi.DumpParser of the udf tools: renders every content page of the
 * dump to HTML and prints one four-column CSV row (id, title, HTML, markup)
 * per page.
 *
 * The HTML rendering of a page's markup by a fresh HTMLWikiModel is the
 * function `render`; None stands for an exception, which is logged, so that
 * page prints no row. The tasks run one after the other in submission order.
 */
module DumpParser {
  import opened Wrappers
  import opened Wiki
  import opened Utils
  import opened CSVDumper

  /** More threads than this would not help. */
  const MaxThreads: int := 80

  /** The default thread count: half the processors, at most `MaxThreads`. */
  function DefaultThreadCount(processors: int): (n: int)
    requires processors >= 1
    ensures 0 <= n <= MaxThreads && n <= processors / 2
    ensures n == MaxThreads || n == processors / 2
  {
    Min(MaxThreads, processors / 2)
  }

  /**
   * The pool built from the default count: one thread for fewer than four
   * processors, then one less than half the processors, and 79 from 162
   * processors on.
   */
  lemma DefaultPoolSize(processors: int)
    requires 1 <= processors <= IntMax
    ensures var p := BoundedPool(DefaultThreadCount(processors), processors);
      1 <= p.coreSize <= processors
      && (processors < 4 ==> p.coreSize == 1)
      && (4 <= processors < 162 ==> p.coreSize == processors / 2 - 1)
      && (162 <= processors ==> p.coreSize == MaxThreads - 1)
  {
    var n := DefaultThreadCount(processors);
    assert IsInt32(n);
    var p := BoundedPool(n, processors);
    if processors < 4 {
      assert n <= 1;
    }
  }

  /** `isContentPage && !StringUtils.isEmpty(page.getText())` */
  predicate IsContentPage(page: Article) {
    (page.isMain || page.isCategory) && !TextIsEmpty(page)
  }

  /** The row printed for a page: id, title, HTML and markup, escaped and comma separated. */
  function Row(page: Article, html: string): string
    requires page.text.Some?
  {
    JoinCsv([page.id, page.title, html, page.text.value])
  }

  /** A row reads back as exactly its four columns. */
  lemma RowRoundTrip(page: Article, html: string)
    requires page.text.Some?
    ensures ParseFields(Row(page, html)) == [page.id, page.title, html, page.text.value]
  {
    JoinCsvParses([page.id, page.title, html, page.text.value]);
  }

  /** The row a page prints, if any. */
  function RowOf(render: string -> Option<string>, page: Article): Option<string> {
    if IsContentPage(page) && render(page.text.value).Some? then Some(Row(page, render(page.text.value).value))
    else None
  }

  /** The rows printed for a run of pages, in page order. */
  function RowsOf(render: string -> Option<string>, pages: seq<Article>): (r: seq<string>)
    ensures |r| <= |pages|
  {
    if |pages| == 0 then []
    else
      var last := RowOf(render, pages[|pages| - 1]);
      RowsOf(render, pages[..|pages| - 1]) + (if last.Some? then [last.value] else [])
  }

  /** `r` is the row of a content page that rendered: it reads back as that page's four columns. */
  predicate RowFrom(render: string -> Option<string>, r: string, page: Article) {
    IsContentPage(page) && render(page.text.value).Some?
    && ParseFields(r) == [page.id, page.title, render(page.text.value).value, page.text.value]
  }

  /** Every row printed for a run comes from a content page of the run and reads back as its four columns. */
  lemma {:induction false} RowsOfPages(render: string -> Option<string>, pages: seq<Article>)
    ensures forall r | r in RowsOf(render, pages) :: exists i | 0 <= i < |pages| :: RowFrom(render, r, pages[i])
  {
    if |pages| > 0 {
      var init := pages[..|pages| - 1];
      RowsOfPages(render, init);
      var last := pages[|pages| - 1];
      forall r | r in RowsOf(render, pages)
        ensures exists i | 0 <= i < |pages| :: RowFrom(render, r, pages[i])
      {
        if r in RowsOf(render, init) {
          var i :| 0 <= i < |init| && RowFrom(render, r, init[i]);
          assert init[i] == pages[i];
        } else {
          RowRoundTrip(last, render(last.text.value).value);
          assert RowFrom(render, r, pages[|pages| - 1]);
        }
      }
    }
  }

  /** The parser's shared state: the progress counters and the rows printed so far. */
  class DumpParser {
    const render: string -> Option<string>
    var totalParsed: int
    var prevCount: int
    var printProgress: bool
    var rows: seq<string>
    /** The counts at which a progress line was printed. */
    var progress: seq<int>

    predicate Valid()
      reads this
    {
      IsInt32(totalParsed)
      && (forall i | 0 <= i < |progress| :: progress[i] % 500 == 0)
      && prevCount == (if |progress| == 0 then 0 else progress[|progress| - 1])
    }

    constructor (render: string -> Option<string>)
      ensures Valid()
      ensures this.render == render
      ensures totalParsed == 0 && printProgress && rows == [] && progress == []
    {
      this.render := render;
      totalParsed := 0;
      prevCount := 0;
      printProgress := true;
      rows := [];
      progress := [];
    }

    /** `silence()` */
    method Silence()
      modifies this
      ensures !printProgress
      ensures totalParsed == old(totalParsed) && prevCount == old(prevCount)
      ensures rows == old(rows) && progress == old(progress)
    {
      printProgress := false;
    }

    /**
     * `process(page, siteinfo)`: a content page prints its row unless
     * rendering throws; while progress is on, every call is counted,
     * content page or not.
     */
    method Process(page: Article)
      requires Valid()
      modifies this
      ensures Valid()
      ensures var r := RowOf(render, page); rows == old(rows) + (if r.Some? then [r.value] else [])
      ensures totalParsed == if printProgress then Inc32(old(totalParsed)) else old(totalParsed)
      ensures progress == old(progress) + (if printProgress && totalParsed % 500 == 0 then [totalParsed] else [])
      ensures printProgress == old(printProgress)
    {
      if IsContentPage(page) {
        var id := page.id;
        var title := page.title;
        var mediawiki := page.text.value;
        var html := render(mediawiki);
        if html.Some? {
          var output := JoinCsv([id, title, html.value, mediawiki]);
          rows := rows + [output];
        }
      }
      if printProgress {
        totalParsed := Inc32(totalParsed);
        if totalParsed % 500 == 0 {
          prevCount := totalParsed;
          progress := progress + [totalParsed];
        }
      }
    }
  }
}
