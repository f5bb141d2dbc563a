/**
 * wikiapi.WikiDumpParser: the feeder that renders every admitted page of
 * the dump to plain text with link spans and hands one annotation per page
 * to `processAnnotation`.
 *
 * The bliki parse of a page's markup by a PlainTextWikiModel holding a given
 * title filter is the function `parse`; the renderer's recursion limit is
 * `limit`. The parsing tasks run here one after the other, in submission
 * order. The PageMeta handed to `processAnnotation` is always
 * `new PageMeta(page)`, so an annotation records the page it was built from.
 */
module WikiDumpParser {
  import opened Wrappers
  import opened Strings
  import opened Wiki
  import opened Utils
  import opened LinkAnnotationConverter

  /** `Href(link, start, end)`: a link target and its character span in the page text. */
  datatype Href = Href(link: string, start: int, end: int)

  /** `getSurface(text)`: the characters of `text` the span covers. */
  function GetSurface(h: Href, text: string): (r: string)
    requires 0 <= h.start <= h.end <= |text|
    ensures |r| == h.end - h.start
    ensures forall i | 0 <= i < |r| :: r[i] == text[h.start + i]
  {
    text[h.start..h.end]
  }

  /** `normalizedLink()`: the canonical form of the link target, stable under renormalisation. */
  function NormalizedLink(h: Href): (r: string)
    ensures '_' !in r && |r| == |h.link|
    ensures Str2Wikilink(r) == r
  {
    Str2WikilinkIdempotent(h.link);
    Str2Wikilink(h.link)
  }

  /** Each `hasLink(charStart, charEnd, href)` becomes `new Href(href, charStart, charEnd)`, in call order. */
  function HrefsOf(links: seq<Link>): (r: seq<Href>)
    ensures |r| == |links|
    ensures forall i | 0 <= i < |links| :: r[i] == Href(links[i].href, links[i].start, links[i].end)
  {
    if |links| == 0 then [] else [Href(links[0].href, links[0].start, links[0].end)] + HrefsOf(links[1..])
  }

  /** One `processAnnotation(page, meta, text, links)` call. */
  datatype Annotation = Annotation(page: Article, text: string, links: seq<Href>)

  const NoLinks: seq<Href> := []

  /** Pages that are rendered: main namespace, non-empty markup, not a special title. */
  predicate Admits(page: Article) {
    page.isMain && !TextIsEmpty(page) && !IsSpecialTitle(page.title)
  }

  /** What a fresh `LinkAnnotationConverter` (section titles dropped) makes of the page's parse tree. */
  function Rendered(filter: Option<string -> bool>, parse: (Option<string -> bool>, string) -> seq<Node>,
                    limit: int, markup: string): Out
  {
    ListToText(Config(false, limit), parse(filter, markup), 0, 0)
  }

  /** The annotation the parsing task of an admitted page hands over. */
  function TaskResult(filter: Option<string -> bool>, parse: (Option<string -> bool>, string) -> seq<Node>,
                      limit: int, page: Article): Annotation
    requires page.text.Some?
  {
    var o := Rendered(filter, parse, limit, page.text.value);
    if o.text == "" then Annotation(page, "", NoLinks) else Annotation(page, o.text, HrefsOf(o.links))
  }

  /** The annotation `process` produces for a page. */
  function Expected(filter: Option<string -> bool>, parse: (Option<string -> bool>, string) -> seq<Node>,
                    limit: int, page: Article): Annotation
  {
    if Admits(page) then TaskResult(filter, parse, limit, page) else Annotation(page, "", NoLinks)
  }

  /** The annotations for a run of pages, one per page in order. */
  function ExpectedAll(filter: Option<string -> bool>, parse: (Option<string -> bool>, string) -> seq<Node>,
                       limit: int, pages: seq<Article>): (r: seq<Annotation>)
    ensures |r| == |pages|
    ensures forall i | 0 <= i < |pages| :: r[i] == Expected(filter, parse, limit, pages[i])
  {
    if |pages| == 0 then [] else ExpectedAll(filter, parse, limit, pages[..|pages| - 1]) + [Expected(filter, parse, limit, pages[|pages| - 1])]
  }

  /**
   * Every annotation belongs to its page; a page that is not rendered, or
   * renders to nothing, comes with "" and no links; and every link span lies
   * inside the text, right after a space, and covers a non-blank surface.
   */
  lemma AnnotationShape(filter: Option<string -> bool>, parse: (Option<string -> bool>, string) -> seq<Node>,
                        limit: int, page: Article)
    ensures var a := Expected(filter, parse, limit, page);
      a.page == page
      && (!Admits(page) ==> a.text == "" && a.links == [])
      && (a.text == "" ==> a.links == [])
      && forall h | h in a.links ::
           0 < h.start < h.end <= |a.text| && a.text[h.start - 1] == ' ' && !IsWhitespace(GetSurface(h, a.text))
  {
    if Admits(page) {
      var o := Rendered(filter, parse, limit, page.text.value);
      ListSpans(Config(false, limit), parse(filter, page.text.value), 0, 0);
      if o.text != "" {
        var hs := HrefsOf(o.links);
        forall h | h in hs
          ensures 0 < h.start < h.end <= |o.text| && o.text[h.start - 1] == ' '
          ensures !IsWhitespace(GetSurface(h, o.text))
        {
          var i :| 0 <= i < |hs| && hs[i] == h;
          assert o.links[i] in o.links;
        }
      }
    }
  }

  /** The shared state of one feeder: the progress counters and the annotations handed over so far. */
  class WikiDumpParser {
    const parse: (Option<string -> bool>, string) -> seq<Node>
    const limit: int
    var filter: Option<string -> bool>
    var totalParsed: int
    var prevCount: int
    var printProgress: bool
    /** The `processAnnotation` calls, in order. */
    var annotations: seq<Annotation>
    /** The counts at which a progress line was printed. */
    var progress: seq<int>

    /** The counter is a Java int, progress is printed at multiples of 500 and `prevCount` is the last one printed. */
    predicate Valid()
      reads this
    {
      IsInt32(totalParsed)
      && (forall i | 0 <= i < |progress| :: progress[i] % 500 == 0)
      && prevCount == (if |progress| == 0 then 0 else progress[|progress| - 1])
    }

    /** `new WikiDumpParser(filter)`; a null filter is None. */
    constructor (filter: Option<string -> bool>, parse: (Option<string -> bool>, string) -> seq<Node>, limit: int)
      ensures Valid()
      ensures this.filter == filter && this.parse == parse && this.limit == limit
      ensures totalParsed == 0 && printProgress && annotations == [] && progress == []
    {
      this.filter := filter;
      this.parse := parse;
      this.limit := limit;
      totalParsed := 0;
      prevCount := 0;
      printProgress := true;
      annotations := [];
      progress := [];
    }

    /** `silence()`: progress is no longer counted nor printed. */
    method Silence()
      modifies this
      ensures !printProgress
      ensures filter == old(filter) && totalParsed == old(totalParsed) && prevCount == old(prevCount)
      ensures annotations == old(annotations) && progress == old(progress)
    {
      printProgress := false;
    }

    /** `setTitleFilter(filter)` */
    method SetTitleFilter(f: Option<string -> bool>)
      modifies this
      ensures filter == f
      ensures printProgress == old(printProgress) && totalParsed == old(totalParsed) && prevCount == old(prevCount)
      ensures annotations == old(annotations) && progress == old(progress)
    {
      filter := f;
    }

    /** `getParsedPageCount()`: the parsing jobs submitted while progress was counted. */
    method GetParsedPageCount() returns (n: int)
      requires Valid()
      ensures n == totalParsed && IsInt32(n)
    {
      n := totalParsed;
    }

    /**
     * The parsing task: render the markup into a fresh converter and hand
     * over its text and links, or "" and no links when the text is empty.
     */
    method RunTask(page: Article)
      requires page.text.Some?
      modifies this
      ensures annotations == old(annotations) + [TaskResult(filter, parse, limit, page)]
      ensures filter == old(filter) && printProgress == old(printProgress)
      ensures totalParsed == old(totalParsed) && prevCount == old(prevCount) && progress == old(progress)
    {
      var renderer := new Converter(false, limit);
      renderer.NodesToText(parse(filter, page.text.value));
      assert renderer.buffer == Rendered(filter, parse, limit, page.text.value).text;
      assert renderer.links == Rendered(filter, parse, limit, page.text.value).links;
      var text := renderer.buffer;
      if text == "" {
        annotations := annotations + [Annotation(page, "", NoLinks)];
      } else {
        annotations := annotations + [Annotation(page, text, HrefsOf(renderer.links))];
      }
    }

    /**
     * `process(page, siteinfo)`: one annotation per page; an admitted page
     * is counted while progress is on, and a progress line is printed when
     * the count reaches a multiple of 500.
     */
    method Process(page: Article)
      requires Valid()
      modifies this
      ensures Valid()
      ensures annotations == old(annotations) + [Expected(filter, parse, limit, page)]
      ensures totalParsed == if Admits(page) && printProgress then Inc32(old(totalParsed)) else old(totalParsed)
      ensures progress == old(progress) +
        (if Admits(page) && printProgress && totalParsed % 500 == 0 then [totalParsed] else [])
      ensures filter == old(filter) && printProgress == old(printProgress)
    {
      if Admits(page) {
        RunTask(page);
        if printProgress {
          totalParsed := Inc32(totalParsed);
          if totalParsed % 500 == 0 {
            prevCount := totalParsed;
            progress := progress + [totalParsed];
          }
        }
      } else {
        annotations := annotations + [Annotation(page, "", NoLinks)];
      }
    }
  }
}
