/**
 * wikiapi.WikiDumpFilter: the feeder that differs from WikiDumpParser in
 * one place only: an admitted page whose rendering is empty is not handed
 * over at all. Its Href record is the same (link, start, end) triple as
 * WikiDumpParser's, and the rendering, the admission test and the counter
 * are shared with it.
 */
module WikiDumpFilter {
  import opened Wrappers
  import opened Wiki
  import opened Utils
  import opened LinkAnnotationConverter
  import opened WikiDumpParser

  /** The `processAnnotation` call `process` makes for a page, if any. */
  function FilterResult(filter: Option<string -> bool>, parse: (Option<string -> bool>, string) -> seq<Node>,
                        limit: int, page: Article): Option<Annotation>
  {
    if Admits(page) then
      var o := Rendered(filter, parse, limit, page.text.value);
      if o.text == "" then None else Some(Annotation(page, o.text, HrefsOf(o.links)))
    else Some(Annotation(page, "", NoLinks))
  }

  /** The annotations for a run of pages, in page order, skipping the empty renderings. */
  function FilterAll(filter: Option<string -> bool>, parse: (Option<string -> bool>, string) -> seq<Node>,
                     limit: int, pages: seq<Article>): (r: seq<Annotation>)
    ensures |r| <= |pages|
  {
    if |pages| == 0 then []
    else
      var last := FilterResult(filter, parse, limit, pages[|pages| - 1]);
      FilterAll(filter, parse, limit, pages[..|pages| - 1]) + (if last.Some? then [last.value] else [])
  }

  /**
   * The filter hands over exactly what WikiDumpParser does, except for an
   * admitted page that renders to "", which it drops.
   */
  lemma FilterAgreesWithParser(filter: Option<string -> bool>, parse: (Option<string -> bool>, string) -> seq<Node>,
                               limit: int, page: Article)
    ensures var a := Expected(filter, parse, limit, page);
      FilterResult(filter, parse, limit, page) == if Admits(page) && a.text == "" then None else Some(a)
  {
  }

  /**
   * Every annotation handed over belongs to one of the pages; an admitted
   * page comes with a non-empty text, any other with "" and no links.
   */
  lemma {:induction false} FilterAllShape(filter: Option<string -> bool>, parse: (Option<string -> bool>, string) -> seq<Node>,
                                          limit: int, pages: seq<Article>)
    ensures forall a | a in FilterAll(filter, parse, limit, pages) ::
      a.page in pages
      && (Admits(a.page) ==> a.text != "")
      && (!Admits(a.page) ==> a.text == "" && a.links == [])
  {
    if |pages| > 0 {
      var init := pages[..|pages| - 1];
      FilterAllShape(filter, parse, limit, init);
      assert forall p | p in init :: p in pages;
    }
  }

  /** A run with no admitted page is handed over page for page, like WikiDumpParser does. */
  lemma {:induction false} FilterAllUnadmitted(filter: Option<string -> bool>, parse: (Option<string -> bool>, string) -> seq<Node>,
                                               limit: int, pages: seq<Article>)
    requires forall i | 0 <= i < |pages| :: !Admits(pages[i])
    ensures FilterAll(filter, parse, limit, pages) == ExpectedAll(filter, parse, limit, pages)
  {
    if |pages| > 0 {
      FilterAllUnadmitted(filter, parse, limit, pages[..|pages| - 1]);
    }
  }

  /** The shared state of one filter feeder. */
  class WikiDumpFilter {
    const parse: (Option<string -> bool>, string) -> seq<Node>
    const limit: int
    var filter: Option<string -> bool>
    var totalParsed: int
    var prevCount: int
    var printProgress: bool
    /** The `processAnnotation` calls, in order. */
    var annotations: seq<Annotation>
    /** The counts at which a progress line was printed. */
    var progress: seq<int>

    /** The counter is a Java int, progress is printed at multiples of 500 and `prevCount` is the last one printed. */
    predicate Valid()
      reads this
    {
      IsInt32(totalParsed)
      && (forall i | 0 <= i < |progress| :: progress[i] % 500 == 0)
      && prevCount == (if |progress| == 0 then 0 else progress[|progress| - 1])
    }

    /** `new WikiDumpFilter(filter)`; a null filter is None. */
    constructor (filter: Option<string -> bool>, parse: (Option<string -> bool>, string) -> seq<Node>, limit: int)
      ensures Valid()
      ensures this.filter == filter && this.parse == parse && this.limit == limit
      ensures totalParsed == 0 && printProgress && annotations == [] && progress == []
    {
      this.filter := filter;
      this.parse := parse;
      this.limit := limit;
      totalParsed := 0;
      prevCount := 0;
      printProgress := true;
      annotations := [];
      progress := [];
    }

    /** `silence()`: progress is no longer counted nor printed. */
    method Silence()
      modifies this
      ensures !printProgress
      ensures filter == old(filter) && totalParsed == old(totalParsed) && prevCount == old(prevCount)
      ensures annotations == old(annotations) && progress == old(progress)
    {
      printProgress := false;
    }

    /** `setTitleFilter(filter)` */
    method SetTitleFilter(f: Option<string -> bool>)
      modifies this
      ensures filter == f
      ensures printProgress == old(printProgress) && totalParsed == old(totalParsed) && prevCount == old(prevCount)
      ensures annotations == old(annotations) && progress == old(progress)
    {
      filter := f;
    }

    /** `getParsedPageCount()` */
    method GetParsedPageCount() returns (n: int)
      requires Valid()
      ensures n == totalParsed && IsInt32(n)
    {
      n := totalParsed;
    }

    /** The parsing task: hand over the rendering only when it is not empty. */
    method RunTask(page: Article)
      requires Admits(page)
      modifies this
      ensures var r := FilterResult(filter, parse, limit, page);
        annotations == old(annotations) + (if r.Some? then [r.value] else [])
      ensures filter == old(filter) && printProgress == old(printProgress)
      ensures totalParsed == old(totalParsed) && prevCount == old(prevCount) && progress == old(progress)
    {
      var renderer := new Converter(false, limit);
      renderer.NodesToText(parse(filter, page.text.value));
      assert renderer.buffer == Rendered(filter, parse, limit, page.text.value).text;
      assert renderer.links == Rendered(filter, parse, limit, page.text.value).links;
      var text := renderer.buffer;
      if text != "" {
        annotations := annotations + [Annotation(page, text, HrefsOf(renderer.links))];
      }
    }

    /**
     * `process(page, siteinfo)`: an admitted page is rendered and counted
     * while progress is on; any other page is handed over with "" and no links.
     */
    method Process(page: Article)
      requires Valid()
      modifies this
      ensures Valid()
      ensures var r := FilterResult(filter, parse, limit, page);
        annotations == old(annotations) + (if r.Some? then [r.value] else [])
      ensures totalParsed == if Admits(page) && printProgress then Inc32(old(totalParsed)) else old(totalParsed)
      ensures progress == old(progress) +
        (if Admits(page) && printProgress && totalParsed % 500 == 0 then [totalParsed] else [])
      ensures filter == old(filter) && printProgress == old(printProgress)
    {
      if Admits(page) {
        RunTask(page);
        if printProgress {
          totalParsed := Inc32(totalParsed);
          if totalParsed % 500 == 0 {
            prevCount := totalParsed;
            progress := progress + [totalParsed];
          }
        }
      } else {
        annotations := annotations + [Annotation(page, "", NoLinks)];
      }
    }
  }
}
