/**
 * wikiapi.processors.PlainTextWikiModel: the bliki wiki model used by the
 * feeders. Modelled here are its title filter, the href gating of
 * `appendInternalLink` and the namespace split of
 * `getRedirectedWikiContent`. The bliki services it calls (`isNamespace`,
 * `encodeTitleToUrl` with URL decoding, `parseRecursive`, `parseRedirect`,
 * `getRawWikiContent`) are given as functions.
 */
module PlainTextWikiModel {
  import opened Wrappers
  import opened Strings
  import opened LinkAnnotationConverter

  /**
   * The default title filter: a title without ':' is accepted, one with a
   * ':' only when the text before its first ':' is not a namespace.
   */
  function DefaultAccepts(isNamespace: string -> bool, title: string): bool {
    if ':' in title then !isNamespace(SubstringBefore(title, ':')) else true
  }

  /** The default filter as a predicate value. */
  function DefaultFilter(isNamespace: string -> bool): string -> bool {
    title => DefaultAccepts(isNamespace, title)
  }

  /** The default filter seen from the first ':' of the title. */
  lemma DefaultAcceptsByFirstColon(isNamespace: string -> bool, title: string)
    ensures DefaultAccepts(isNamespace, title) <==>
      ':' !in title || exists i | 0 <= i < |title| :: title[i] == ':' && ':' !in title[..i] && !isNamespace(title[..i])
  {
    if ':' in title {
      var p := SubstringBefore(title, ':');
      assert title[..|p|] == p;
      if exists i | 0 <= i < |title| :: title[i] == ':' && ':' !in title[..i] && !isNamespace(title[..i]) {
        var i :| 0 <= i < |title| && title[i] == ':' && ':' !in title[..i] && !isNamespace(title[..i]);
        assert p == title[..i];
      }
    }
  }

  /** Where `getRedirectedWikiContent` looks up a redirect: a namespace ("" for none) and an article name. */
  datatype Redirect = Redirect(namespace: string, article: string)

  /**
   * The namespace split: a prefix before the first ':' that is non-empty
   * and a namespace is split off, otherwise the whole link is the article.
   */
  function SplitRedirect(isNamespace: string -> bool, link: string): (r: Redirect)
    ensures r.namespace != "" ==> isNamespace(r.namespace) && ':' !in r.namespace
    ensures r.namespace != "" ==> link == r.namespace + ":" + r.article
    ensures r.namespace == "" ==> r.article == link
  {
    match IndexOfChar(link, ':')
    case None => Redirect("", link)
    case Some(index) =>
      if index > 0 && isNamespace(link[..index]) then
        assert link == link[..index] + ":" + link[index + 1..];
        Redirect(link[..index], link[index + 1..])
      else Redirect("", link)
  }

  /** A non-empty namespace prefix before the first ':' is always split off. */
  lemma SplitRedirectNamespaced(isNamespace: string -> bool, ns: string, article: string)
    requires ns != "" && ':' !in ns && isNamespace(ns)
    ensures SplitRedirect(isNamespace, ns + ":" + article) == Redirect(ns, article)
  {
    var link := ns + ":" + article;
    assert link[|ns|] == ':';
    assert link[..|ns|] == ns;
    assert link[|ns| + 1..] == article;
    assert ':' !in link[..|ns|];
  }

  /** A link whose prefix is not a namespace is looked up whole, in the main namespace. */
  lemma SplitRedirectPlain(isNamespace: string -> bool, ns: string, article: string)
    requires ':' !in ns && !isNamespace(ns)
    ensures SplitRedirect(isNamespace, ns + ":" + article) == Redirect("", ns + ":" + article)
  {
    var link := ns + ":" + article;
    assert link[|ns|] == ':';
    assert link[..|ns|] == ns;
  }

  /** The text returned above the parser's recursion limit. */
  function RedirectError(d: Redirect): string {
    "Error - getting content of redirected link: " + d.namespace + ":" + d.article
  }

  /** One page's wiki model: the filter, the children of the node on top of the stack, and the recursion level. */
  class PlainTextWikiModel {
    const isNamespace: string -> bool
    const filter: string -> bool
    const parserLimit: int
    var nodes: seq<Node>
    var level: int

    /** `new PlainTextWikiModel(siteinfo, filter)`: a null filter keeps the default one. */
    constructor (isNamespace: string -> bool, filter: Option<string -> bool>, parserLimit: int)
      ensures this.isNamespace == isNamespace && this.parserLimit == parserLimit
      ensures filter.Some? ==> this.filter == filter.value
      ensures filter.None? ==> this.filter == DefaultFilter(isNamespace)
      ensures nodes == [] && level == 0
    {
      this.isNamespace := isNamespace;
      var chosen: string -> bool := DefaultFilter(isNamespace);
      if filter.Some? {
        chosen := filter.value;
      }
      this.filter := chosen;
      this.parserLimit := parserLimit;
      nodes := [];
      level := 0;
    }

    /**
     * `appendInternalLink(topic, …, topicDescription, …)`: an anchor carrying
     * the href only when the filter accepts it, holding the parsed trimmed
     * description, is added to the current node whether or not it was accepted.
     */
    method AppendInternalLink(topic: string, topicDescription: string,
                              hrefOf: string -> string, parseRecursive: string -> seq<Node>,
                              bodyOf: seq<Node> -> string)
      modifies this
      ensures level == old(level)
      ensures var href := hrefOf(topic);
        var children := parseRecursive(Trim(topicDescription));
        nodes == old(nodes) + [HtmlTag("a", if filter(href) then Some(href) else None, bodyOf(children), children)]
    {
      var href := hrefOf(topic);
      var attribute: Option<string> := None;
      if filter(href) {
        attribute := Some(href);
      }
      var children := parseRecursive(Trim(topicDescription));
      nodes := nodes + [HtmlTag("a", attribute, bodyOf(children), children)];
    }

    /**
     * `getRedirectedWikiContent(rawWikitext, …)`: a text shorter than
     * "#REDIRECT" or with no redirect link comes back unchanged; otherwise
     * the split link is fetched one recursion level deeper, or the error
     * text is returned above the limit. The level is restored either way.
     */
    method GetRedirectedWikiContent(rawWikitext: string,
                                    parseRedirect: string -> Option<string>,
                                    getRawWikiContent: (string, string) -> Option<string>)
      returns (r: Option<string>)
      modifies this
      ensures level == old(level) && nodes == old(nodes)
      ensures |rawWikitext| < 9 ==> r == Some(rawWikitext)
      ensures |rawWikitext| >= 9 && parseRedirect(rawWikitext).None? ==> r == Some(rawWikitext)
      ensures |rawWikitext| >= 9 && parseRedirect(rawWikitext).Some? ==>
        var d := SplitRedirect(isNamespace, parseRedirect(rawWikitext).value);
        r == if old(level) + 1 > parserLimit then Some(RedirectError(d))
             else getRawWikiContent(d.namespace, d.article)
    {
      if |rawWikitext| < 9 {
        return Some(rawWikitext);
      }
      var redirectedLink := parseRedirect(rawWikitext);
      if redirectedLink.Some? {
        var link := redirectedLink.value;
        var redirNamespace := "";
        var redirArticle := link;
        var index := IndexOfChar(link, ':');
        if index.Some? && index.value > 0 {
          redirNamespace := link[..index.value];
          if isNamespace(redirNamespace) {
            redirArticle := link[index.value + 1..];
          } else {
            redirNamespace := "";
          }
        }
        assert Redirect(redirNamespace, redirArticle) == SplitRedirect(isNamespace, link);
        level := level + 1;
        if level > parserLimit {
          r := Some("Error - getting content of redirected link: " + redirNamespace + ":" + redirArticle);
        } else {
          r := getRawWikiContent(redirNamespace, redirArticle);
        }
        level := level - 1;
        return;
      }
      r := Some(rawWikitext);
    }
  }

  /** A link the filter rejects renders exactly as the text of its description. */
  lemma RejectedLinkIsPlain(cfg: Config, body: string, children: seq<Node>, level: int, base: nat)
    ensures ItemToText(cfg, HtmlTag("a", None, body, children), level, base)
      == ListToText(cfg, children, level, base)
  {
    UnlinkedTagIsPlain(cfg, "a", body, children, level, base);
  }
}
