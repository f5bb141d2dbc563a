/**
 * wikiapi.processors.LinkAnnotationConverter: turns the token tree of a
 * rendered page into plain text appended to one buffer, and reports every
 * anchor whose rendered text is not blank as a (start, end, href) span of
 * that buffer.
 *
 * The renderer's recursion counter is the converter's `level` field and the
 * `hasLink` callback appends to `links`. `renderHTMLWithoutTag` of a tag is
 * the conversion of its children.
 */
module LinkAnnotationConverter {
  import opened Wrappers
  import opened Strings

  /**
   * The object kinds `nodesToText` distinguishes: a content token, a nested
   * list, an HTML tag (with its `href` attribute, its body string and its
   * children), any other tag node, an end tag, and `Other` for a null item
   * or an object of none of these kinds.
   */
  datatype Node =
    | Content(content: string)
    | Items(items: seq<Node>)
    | HtmlTag(name: string, href: Option<string>, body: string, children: seq<Node>)
    | TagNode(name: string, body: string)
    | EndTag(name: string)
    | Other

  /** One `hasLink(charStart, charEnd, link)` call. */
  datatype Link = Link(start: int, end: int, href: string)

  /** What converting a list appends: the text and the reported spans, in call order. */
  datatype Out = Out(text: string, links: seq<Link>)

  /** The keepSectionTitle flag and the renderer's recursion limit. */
  datatype Config = Config(keepSectionTitle: bool, limit: int)

  const ErrorSpan: string :=
    "<span class=\"error\">Error - recursion limit exceeded rendering tags in HTMLConverter#nodesToText().</span>"

  const Transl: string := "{{transl}}"

  // ---- cleanContent ----

  /**
   * The text `cleanContent` keeps from `s` when the brace depth is `depth`:
   * "{{" raises the depth, "}}" lowers it (below zero too), both are
   * consumed, and any other character is copied only at depth 0.
   */
  function Clean(s: string, depth: int): string
    decreases |s|
  {
    if |s| == 0 then ""
    else if MatchesAt(s, "{{", 0) then Clean(s[2..], depth + 1)
    else if MatchesAt(s, "}}", 0) then Clean(s[2..], depth - 1)
    else (if depth == 0 then [s[0]] else "") + Clean(s[1..], depth)
  }

  /** How `Clean` reads the text from index `i` on: one step of the scan. */
  lemma CleanAt(s: string, i: int, depth: int)
    requires 0 <= i < |s|
    ensures MatchesAt(s, "{{", i) ==> Clean(s[i..], depth) == Clean(s[i + 2..], depth + 1)
    ensures !MatchesAt(s, "{{", i) && MatchesAt(s, "}}", i) ==> Clean(s[i..], depth) == Clean(s[i + 2..], depth - 1)
    ensures !MatchesAt(s, "{{", i) && !MatchesAt(s, "}}", i) ==>
      Clean(s[i..], depth) == (if depth == 0 then [s[i]] else "") + Clean(s[i + 1..], depth)
  {
    var t := s[i..];
    assert t[1..] == s[i + 1..];
    if i + 2 <= |s| {
      assert t[..2] == s[i..i + 2];
      assert t[2..] == s[i + 2..];
    }
  }

  /** `cleanContent(content)`: the entity pre-pass is the identity here. */
  method CleanContent(content: string) returns (r: string)
    ensures r == Clean(content, 0)
  {
    var depth := 0;
    var sb := "";
    var i := 0;
    while i < |content|
      invariant 0 <= i <= |content|
      invariant sb + Clean(content[i..], depth) == Clean(content, 0)
      decreases |content| - i
    {
      CleanAt(content, i, depth);
      if MatchesAt(content, "{{", i) {
        depth := depth + 1;
        i := i + 2;
        continue;
      }
      if MatchesAt(content, "}}", i) {
        depth := depth - 1;
        i := i + 2;
        continue;
      }
      if depth == 0 {
        AppendAssoc(sb, [content[i]], Clean(content[i + 1..], depth));
        sb := sb + [content[i]];
      } else {
        assert "" + Clean(content[i + 1..], depth) == Clean(content[i + 1..], depth);
      }
      i := i + 1;
    }
    assert content[i..] == "";
    r := sb;
  }

  /** The characters of `s` whose flag in `keep` is set, in order. */
  function Select(s: string, keep: seq<bool>): (r: string)
    requires |keep| == |s|
    ensures |r| <= |s|
  {
    if |s| == 0 then "" else (if keep[0] then [s[0]] else "") + Select(s[1..], keep[1..])
  }

  /** `a` is `b` with some characters deleted. */
  ghost predicate IsSubsequence(a: string, b: string) {
    exists keep: seq<bool> | |keep| == |b| :: Select(b, keep) == a
  }

  /** Which characters of `s` `Clean(s, depth)` copies. */
  function CleanMask(s: string, depth: int): (m: seq<bool>)
    decreases |s|
    ensures |m| == |s|
  {
    if |s| == 0 then []
    else if MatchesAt(s, "{{", 0) then [false, false] + CleanMask(s[2..], depth + 1)
    else if MatchesAt(s, "}}", 0) then [false, false] + CleanMask(s[2..], depth - 1)
    else [depth == 0] + CleanMask(s[1..], depth)
  }

  lemma {:induction false} CleanSelects(s: string, depth: int)
    decreases |s|
    ensures Clean(s, depth) == Select(s, CleanMask(s, depth))
  {
    if |s| == 0 {
    } else if MatchesAt(s, "{{", 0) || MatchesAt(s, "}}", 0) {
      var d := if MatchesAt(s, "{{", 0) then depth + 1 else depth - 1;
      var m := CleanMask(s[2..], d);
      CleanSelects(s[2..], d);
      assert CleanMask(s, depth) == [false, false] + m;
      assert ([false, false] + m)[1..] == [false] + m;
      assert s[1..][1..] == s[2..];
      assert ([false] + m)[1..] == m;
    } else {
      CleanSelects(s[1..], depth);
      assert CleanMask(s, depth)[1..] == CleanMask(s[1..], depth);
    }
  }

  /** `cleanContent` only deletes characters: its output is a subsequence of its input. */
  lemma CleanIsSubsequence(s: string)
    ensures IsSubsequence(Clean(s, 0), s)
  {
    CleanSelects(s, 0);
  }

  /** Text with neither delimiter passes through unchanged at depth 0. */
  lemma {:induction false} CleanWithoutDelimiters(s: string)
    requires !Contains(s, "{{") && !Contains(s, "}}")
    decreases |s|
    ensures Clean(s, 0) == s
  {
    if |s| > 0 {
      assert !MatchesAt(s, "{{", 0) && !MatchesAt(s, "}}", 0);
      forall k | 0 <= k <= |s[1..]| - 2
        ensures !MatchesAt(s[1..], "{{", k) && !MatchesAt(s[1..], "}}", k)
      {
        assert s[1..][k..k + 2] == s[k + 1..k + 3];
        assert !MatchesAt(s, "{{", k + 1) && !MatchesAt(s, "}}", k + 1);
      }
      CleanWithoutDelimiters(s[1..]);
    }
  }

  /** Text without braces is copied or dropped whole, as the depth says. */
  lemma {:induction false} CleanPlain(a: string, b: string, depth: int)
    requires NoBraces(a)
    decreases |a|
    ensures Clean(a + b, depth) == (if depth == 0 then a else "") + Clean(b, depth)
  {
    if |a| == 0 {
      assert a + b == b;
    } else {
      var s := a + b;
      assert s[0] == a[0] && a[0] != '{' && a[0] != '}';
      if |s| >= 2 {
        assert s[0..2][0] == s[0];
      }
      assert !MatchesAt(s, "{{", 0) && !MatchesAt(s, "}}", 0);
      assert s[1..] == a[1..] + b;
      CleanPlain(a[1..], b, depth);
      var rest := Clean(a[1..] + b, depth);
      assert Clean(s, depth) == (if depth == 0 then [a[0]] else "") + rest;
      if depth == 0 {
        AppendAssoc([a[0]], a[1..], Clean(b, depth));
        assert [a[0]] + a[1..] == a;
      } else {
        assert "" + rest == rest;
        assert "" + Clean(b, depth) == Clean(b, depth);
      }
    }
  }

  lemma CleanDelimiter(delim: string, b: string, depth: int)
    requires delim == "{{" || delim == "}}"
    ensures Clean(delim + b, depth) == Clean(b, if delim == "{{" then depth + 1 else depth - 1)
  {
    assert (delim + b)[..2] == delim;
    assert (delim + b)[2..] == b;
  }

  predicate NoBraces(s: string) {
    |s| == 0 || (s[0] != '{' && s[0] != '}' && NoBraces(s[1..]))
  }

  /** A template without braces inside is dropped, at any depth. */
  lemma CleanFlatTemplate(y: string, t: string, depth: int)
    requires NoBraces(y)
    requires depth >= 0
    ensures Clean("{{" + (y + ("}}" + t)), depth) == Clean(t, depth)
  {
    CleanDelimiter("{{", y + ("}}" + t), depth);
    CleanPlain(y, "}}" + t, depth + 1);
    CleanDelimiter("}}", t, depth + 1);
  }

  lemma NestedShape(a: string, x: string, y: string, z: string, b: string)
    ensures a + "{{" + x + "{{" + y + "}}" + z + "}}" + b
      == a + ("{{" + (x + ("{{" + (y + ("}}" + (z + ("}}" + b)))))))
  {
  }

  /** A template nested inside a template is removed whole with it, and the text around is kept. */
  lemma CleanNestedTemplate(a: string, x: string, y: string, z: string, b: string)
    requires NoBraces(a) && NoBraces(x) && NoBraces(y) && NoBraces(z) && NoBraces(b)
    ensures Clean(a + "{{" + x + "{{" + y + "}}" + z + "}}" + b, 0) == a + b
  {
    var t3 := z + ("}}" + b);
    var t1 := "{{" + (x + ("{{" + (y + ("}}" + t3))));
    NestedShape(a, x, y, z, b);
    CleanPlain(a, t1, 0);
    assert Clean(t1, 0) == b by {
      CleanDelimiter("{{", x + ("{{" + (y + ("}}" + t3))), 0);
      CleanPlain(x, "{{" + (y + ("}}" + t3)), 1);
      CleanFlatTemplate(y, t3, 1);
      CleanPlain(z, "}}" + b, 1);
      CleanDelimiter("}}", b, 1);
      CleanPlain(b, "", 0);
      assert b + "" == b;
    }
  }

  /** The pieces of the example below hold no braces. */
  lemma ExamplePiecesPlain()
    ensures NoBraces("a ") && NoBraces("b") && NoBraces("c") && NoBraces("d") && NoBraces(" e")
  {
  }

  /** A nested template in running text is cut out with everything inside it. */
  lemma CleanExample()
    ensures Clean("a {{b{{c}}d}} e", 0) == "a  e"
  {
    assert "a {{b{{c}}d}} e" == "a " + "{{" + "b" + "{{" + "c" + "}}" + "d" + "}}" + " e";
    ExamplePiecesPlain();
    CleanNestedTemplate("a ", "b", "c", "d", " e");
    assert "a " + " e" == "a  e";
  }

  /** The depth is not clamped: after an unmatched "}}" nothing is copied. */
  lemma CleanUnmatchedClose()
    ensures Clean("a}}b", 0) == "a"
  {
  }

  // ---- blank and renderSpecialTags ----

  /** `blank(seq, start, end)`: an empty or negative range, or only white space in it. */
  predicate Blank(buf: string, start: int, end: int)
    requires 0 <= start < end ==> end <= |buf|
  {
    start >= end || start < 0 || IsWhitespace(buf[start..end])
  }

  lemma AppendedSlice(buf: string, start: int, s: string)
    requires 0 <= start <= |buf|
    ensures (buf + s)[start..|buf| + |s|] == buf[start..] + s
  {
  }

  lemma BlankIsWhitespace(buf: string, start: int, end: int)
    requires 0 <= start <= end <= |buf|
    ensures Blank(buf, start, end) == IsWhitespace(buf[start..end])
  {
  }

  /** On a valid range, blank means every character of the range is white space. */
  lemma BlankRange(buf: string, start: int, end: int)
    requires 0 <= start <= end <= |buf|
    ensures Blank(buf, start, end) <==> forall i | start <= i < end :: IsJavaWhitespace(buf[i])
  {
    IsWhitespaceEvery(buf[start..end]);
    assert forall i | start <= i < end :: buf[start..end][i - start] == buf[i];
  }

  /** `renderSpecialTags(tag, href)`: the href with '_' as ' ' for a literal {{transl}} body, else "". */
  function RenderSpecialTags(body: string, href: string): (r: string)
    ensures body != Transl ==> r == ""
    ensures body == Transl ==> |r| == |href| && '_' !in r
    ensures body == Transl ==> forall i | 0 <= i < |href| && href[i] != '_' :: r[i] == href[i]
    ensures body == Transl ==> forall i | 0 <= i < |href| && href[i] == '_' :: r[i] == ' '
  {
    if body == Transl then ReplaceChar(href, '_', ' ') else ""
  }

  // ---- nodesToText, as functions of the tree ----

  function Size(n: Node): (r: nat)
    decreases n
    ensures r >= 1
  {
    match n
    case Items(items) => 1 + SizeList(items)
    case HtmlTag(_, _, _, children) => 1 + SizeList(children)
    case _ => 1
  }

  function SizeList(ns: seq<Node>): nat
    decreases ns
  {
    if |ns| == 0 then 0 else SizeList(ns[..|ns| - 1]) + Size(ns[|ns| - 1])
  }

  lemma {:induction false} SizeListElement(ns: seq<Node>, i: int)
    requires 0 <= i < |ns|
    decreases |ns|
    ensures Size(ns[i]) <= SizeList(ns)
    ensures SizeList(ns[..i]) < SizeList(ns)
  {
    if i < |ns| - 1 {
      SizeListElement(ns[..|ns| - 1], i);
      assert ns[..|ns| - 1][i] == ns[i];
      assert ns[..|ns| - 1][..i] == ns[..i];
    } else {
      assert ns[..i] == ns[..|ns| - 1];
    }
  }

  /**
   * `nodesToText(nodes)` entered at recursion level `level` with `base`
   * characters already in the buffer: an empty list does nothing; a list
   * entered above the limit yields only the error span; otherwise the
   * items are converted in order one level deeper.
   */
  function ListToText(cfg: Config, nodes: seq<Node>, level: int, base: nat): Out
    decreases SizeList(nodes), 2
  {
    if |nodes| == 0 then Out("", [])
    else if level + 1 > cfg.limit then Out(ErrorSpan, [])
    else ItemsToText(cfg, nodes, level + 1, base)
  }

  /** The items of one list converted in order at `level`. */
  function ItemsToText(cfg: Config, nodes: seq<Node>, level: int, base: nat): Out
    decreases SizeList(nodes), 1
  {
    if |nodes| == 0 then Out("", [])
    else
      var prev := ItemsToText(cfg, nodes[..|nodes| - 1], level, base);
      var last := ItemToText(cfg, nodes[|nodes| - 1], level, base + |prev.text|);
      Out(prev.text + last.text, prev.links + last.links)
  }

  /** What a blank anchor appends after its children: the {{transl}} fallback. */
  function AnchorFix(inner: string, body: string, href: string): string {
    if IsWhitespace(inner) then RenderSpecialTags(body, href) else ""
  }

  /** The anchor's own span starting at `start`, reported only when not blank. */
  function AnchorLink(start: int, span: string, href: string): seq<Link> {
    if IsWhitespace(span) then [] else [Link(start, start + |span|, href)]
  }

  /** The anchor's padded text and its spans, the anchor's own span last. */
  function AnchorToText(cfg: Config, href: string, body: string, children: seq<Node>, level: int, base: nat): Out
    decreases SizeList(children), 3
  {
    var start := base + 1;
    var inner := ListToText(cfg, children, level, start);
    var span := inner.text + AnchorFix(inner.text, body, href);
    Out(" " + span + " ", inner.links + AnchorLink(start, span, href))
  }

  /** One item of a list converted at `level` with `base` characters already in the buffer. */
  function ItemToText(cfg: Config, n: Node, level: int, base: nat): Out
    decreases Size(n), 0
  {
    match n
    case Content(content) => Out(Clean(content, 0), [])
    case Items(items) => ListToText(cfg, items, level, base)
    case HtmlTag(name, href, body, children) =>
      if name == "ref" then Out("", [])
      else if name == "a" && href.Some? then AnchorToText(cfg, href.value, body, children, level, base)
      else ListToText(cfg, children, level, base)
    case TagNode(name, body) =>
      if !cfg.keepSectionTitle && name == "span" then Out("", [])
      else if name == "a" then Out(body, [])
      else Out("", [])
    case EndTag(name) =>
      if name == "br" || name == "hr" then Out("\n\n", []) else Out("", [])
    case Other => Out("", [])
  }

  // ---- properties of the conversion ----

  /**
   * A reported span of a text appended after `base` characters lies in
   * that text after its anchor's leading space, is preceded by that space
   * and is not blank.
   */
  predicate SpanOk(text: string, base: nat, l: Link) {
    base < l.start < l.end <= base + |text|
    && text[l.start - base - 1] == ' '
    && !IsWhitespace(text[l.start - base..l.end - base])
  }

  /** Every reported span is well placed. */
  predicate SpansWellFormed(o: Out, base: nat) {
    forall l | l in o.links :: SpanOk(o.text, base, l)
  }

  /** A span stays well placed when text follows it. */
  lemma SpanOkBefore(x: string, y: string, base: nat, l: Link)
    requires SpanOk(x, base, l)
    ensures SpanOk(x + y, base, l)
  {
    var t := x + y;
    assert t[l.start - base - 1] == x[l.start - base - 1];
    assert t[l.start - base..l.end - base] == x[l.start - base..l.end - base];
  }

  /** A span stays well placed when text precedes it and the base moves back by its length. */
  lemma SpanOkAfter(x: string, y: string, base: nat, l: Link)
    requires SpanOk(y, base + |x|, l)
    ensures SpanOk(x + y, base, l)
  {
    var t := x + y;
    var o := base + |x|;
    assert t[l.start - base - 1] == y[l.start - o - 1];
    assert t[l.start - base..l.end - base] == y[l.start - o..l.end - o];
  }

  lemma SpansAppend(a: Out, b: Out, base: nat)
    requires SpansWellFormed(a, base) && SpansWellFormed(b, base + |a.text|)
    ensures SpansWellFormed(Out(a.text + b.text, a.links + b.links), base)
  {
    forall l | l in a.links + b.links
      ensures SpanOk(a.text + b.text, base, l)
    {
      if l in a.links {
        SpanOkBefore(a.text, b.text, base, l);
      } else {
        SpanOkAfter(a.text, b.text, base, l);
      }
    }
  }

  lemma {:induction false} ListSpans(cfg: Config, nodes: seq<Node>, level: int, base: nat)
    decreases SizeList(nodes), 2
    ensures SpansWellFormed(ListToText(cfg, nodes, level, base), base)
  {
    if |nodes| > 0 && level + 1 <= cfg.limit {
      ItemsSpans(cfg, nodes, level + 1, base);
    }
  }

  lemma {:induction false} ItemsSpans(cfg: Config, nodes: seq<Node>, level: int, base: nat)
    decreases SizeList(nodes), 1
    ensures SpansWellFormed(ItemsToText(cfg, nodes, level, base), base)
  {
    if |nodes| > 0 {
      var prev := ItemsToText(cfg, nodes[..|nodes| - 1], level, base);
      ItemsSpans(cfg, nodes[..|nodes| - 1], level, base);
      ItemSpans(cfg, nodes[|nodes| - 1], level, base + |prev.text|);
      SpansAppend(prev, ItemToText(cfg, nodes[|nodes| - 1], level, base + |prev.text|), base);
    }
  }

  lemma {:induction false} AnchorSpans(cfg: Config, href: string, body: string, children: seq<Node>, level: int, base: nat)
    decreases SizeList(children), 3
    ensures SpansWellFormed(AnchorToText(cfg, href, body, children, level, base), base)
  {
    var start := base + 1;
    var inner := ListToText(cfg, children, level, start);
    ListSpans(cfg, children, level, start);
    var span := inner.text + AnchorFix(inner.text, body, href);
    var o := AnchorToText(cfg, href, body, children, level, base);
    assert o.text == " " + span + " " && o.links == inner.links + AnchorLink(start, span, href);
    forall l | l in o.links
      ensures SpanOk(o.text, base, l)
    {
      if l in inner.links {
        SpanOkBefore(inner.text, AnchorFix(inner.text, body, href), start, l);
        SpanOkAfter(" ", span, base, l);
        SpanOkBefore(" " + span, " ", base, l);
      } else {
        OwnSpanOk(span, base, href);
      }
    }
  }

  /** The anchor's own span, when not blank, is well placed in its padded text. */
  lemma OwnSpanOk(span: string, base: nat, href: string)
    requires !IsWhitespace(span)
    ensures SpanOk(" " + span + " ", base, Link(base + 1, base + 1 + |span|, href))
  {
    var t := " " + span + " ";
    assert t[0] == ' ';
    assert t[1..1 + |span|] == span;
  }

  lemma {:induction false} ItemSpans(cfg: Config, n: Node, level: int, base: nat)
    decreases Size(n), 0
    ensures SpansWellFormed(ItemToText(cfg, n, level, base), base)
  {
    match n
    case Items(items) => ListSpans(cfg, items, level, base);
    case HtmlTag(name, href, body, children) =>
      if name == "ref" {
      } else if name == "a" && href.Some? {
        AnchorSpans(cfg, href.value, body, children, level, base);
      } else {
        ListSpans(cfg, children, level, base);
      }
    case _ =>
  }

  /** An anchor's text is its span padded with exactly one space on each side. */
  lemma AnchorPadding(cfg: Config, href: string, body: string, children: seq<Node>, level: int, base: nat)
    ensures var o := ItemToText(cfg, HtmlTag("a", Some(href), body, children), level, base);
      |o.text| >= 2 && o.text[0] == ' ' && o.text[|o.text| - 1] == ' '
      && o.text[1..|o.text| - 1] == ListToText(cfg, children, level, base + 1).text
           + (if IsWhitespace(ListToText(cfg, children, level, base + 1).text) then RenderSpecialTags(body, href) else "")
  {
    var o := ItemToText(cfg, HtmlTag("a", Some(href), body, children), level, base);
    var inner := ListToText(cfg, children, level, base + 1);
    var span := inner.text + AnchorFix(inner.text, body, href);
    assert o == AnchorToText(cfg, href, body, children, level, base);
    assert o.text == " " + span + " ";
    assert o.text[1..|o.text| - 1] == span;
  }

  /** A blank anchor whose body is not the {{transl}} template reports nothing of its own. */
  lemma BlankAnchorUnreported(cfg: Config, href: string, body: string, children: seq<Node>, level: int, base: nat)
    requires body != Transl
    requires IsWhitespace(ListToText(cfg, children, level, base + 1).text)
    ensures ItemToText(cfg, HtmlTag("a", Some(href), body, children), level, base).links
      == ListToText(cfg, children, level, base + 1).links
  {
    var inner := ListToText(cfg, children, level, base + 1);
    assert AnchorFix(inner.text, body, href) == "";
    assert inner.text + "" == inner.text;
    assert inner.links + [] == inner.links;
  }

  /** An anchor without an href, and any tag other than a and ref, renders as its bare children. */
  lemma UnlinkedTagIsPlain(cfg: Config, name: string, body: string, children: seq<Node>, level: int, base: nat)
    requires name != "ref"
    ensures ItemToText(cfg, HtmlTag(name, None, body, children), level, base)
      == ItemToText(cfg, Items(children), level, base)
  {
  }

  /** A reference tag contributes nothing, whatever its children. */
  lemma RefDropped(cfg: Config, href: Option<string>, body: string, children: seq<Node>, level: int, base: nat)
    ensures ItemToText(cfg, HtmlTag("ref", href, body, children), level, base) == Out("", [])
  {
  }

  /** Above the recursion limit a non-empty list yields the error span and no spans. */
  lemma RecursionLimit(cfg: Config, nodes: seq<Node>, level: int, base: nat)
    requires |nodes| > 0 && level >= cfg.limit
    ensures ListToText(cfg, nodes, level, base) == Out(ErrorSpan, [])
  {
  }

  /** Line-break end tags are the only ones that append text, exactly two newlines. */
  lemma EndTagText(cfg: Config, name: string, level: int, base: nat)
    ensures ItemToText(cfg, EndTag(name), level, base).text == if name in {"br", "hr"} then "\n\n" else ""
  {
  }

  /** A section-title span is dropped unless section titles are kept; a non-HTML a yields its body. */
  lemma TagNodeText(cfg: Config, name: string, body: string, level: int, base: nat)
    ensures name == "span" && !cfg.keepSectionTitle ==> ItemToText(cfg, TagNode(name, body), level, base).text == ""
    ensures name == "a" ==> ItemToText(cfg, TagNode(name, body), level, base).text == body
    ensures name != "a" ==> ItemToText(cfg, TagNode(name, body), level, base).text == ""
  {
  }

  /** The anchor's buffer after its children, and after its closing text. */
  lemma AnchorBuffer(b0: string, inner: string, fix: string)
    ensures (b0 + " " + inner)[|b0| + 1..] == inner
    ensures b0 + " " + inner + fix + " " == b0 + (" " + (inner + fix) + " ")
  {
    var t := b0 + " " + inner;
    assert t[|b0| + 1..] == inner;
    AppendAssoc(b0 + " ", inner, fix);
    AppendAssoc(b0, " ", inner + fix);
    AppendAssoc(b0, " " + (inner + fix), " ");
  }

  /** A list converted with one more item: the item, placed at `at`, comes after the text of the others. */
  lemma ItemsSnoc(cfg: Config, nodes: seq<Node>, i: int, level: int, base: nat, at: nat)
    requires 0 <= i < |nodes|
    requires at == base + |ItemsToText(cfg, nodes[..i], level, base).text|
    ensures ItemsToText(cfg, nodes[..i + 1], level, base) ==
      Out(ItemsToText(cfg, nodes[..i], level, base).text + ItemToText(cfg, nodes[i], level, at).text,
          ItemsToText(cfg, nodes[..i], level, base).links + ItemToText(cfg, nodes[i], level, at).links)
  {
    assert nodes[..i + 1][..i] == nodes[..i];
  }

  /** Appending two outputs one after the other appends their concatenation. */
  lemma OutAppend(b0: string, l0: seq<Link>, p: Out, q: Out, b1: string, l1: seq<Link>, b2: string, l2: seq<Link>)
    requires b1 == b0 + p.text && l1 == l0 + p.links
    requires b2 == b1 + q.text && l2 == l1 + q.links
    ensures b2 == b0 + (p.text + q.text) && l2 == l0 + (p.links + q.links)
  {
    AppendAssoc(b0, p.text, q.text);
    AppendAssoc(l0, p.links, q.links);
  }

  // ---- the converter ----

  /** The converter bound to one page: its output buffer, the spans reported so far and the recursion level. */
  class Converter {
    const cfg: Config
    var buffer: string
    var links: seq<Link>
    var level: int

    constructor (keepSectionTitle: bool, limit: int)
      ensures cfg == Config(keepSectionTitle, limit)
      ensures buffer == "" && links == [] && level == 0
    {
      cfg := Config(keepSectionTitle, limit);
      buffer := "";
      links := [];
      level := 0;
    }

    /**
     * `nodesToText(nodes, resultBuffer, model)`: appends to the buffer and
     * to the spans exactly what `ListToText` says and restores the level.
     */
    method NodesToText(nodes: seq<Node>)
      modifies this
      decreases SizeList(nodes), 2
      ensures level == old(level)
      ensures buffer == old(buffer) + ListToText(cfg, nodes, old(level), |old(buffer)|).text
      ensures links == old(links) + ListToText(cfg, nodes, old(level), |old(buffer)|).links
    {
      if |nodes| > 0 {
        level := level + 1;
        var lv := level;
        if lv > cfg.limit {
          buffer := buffer + ErrorSpan;
        } else {
          ghost var b0 := buffer;
          ghost var l0 := links;
          var i := 0;
          while i < |nodes|
            invariant 0 <= i <= |nodes|
            invariant level == lv
            invariant buffer == b0 + ItemsToText(cfg, nodes[..i], lv, |b0|).text
            invariant links == l0 + ItemsToText(cfg, nodes[..i], lv, |b0|).links
          {
            SizeListElement(nodes, i);
            ghost var b1 := buffer;
            ghost var l1 := links;
            ConvertItem(nodes[i]);
            ItemsSnoc(cfg, nodes, i, lv, |b0|, |b1|);
            OutAppend(b0, l0, ItemsToText(cfg, nodes[..i], lv, |b0|), ItemToText(cfg, nodes[i], lv, |b1|),
                      b1, l1, buffer, links);
            i := i + 1;
          }
          assert nodes[..i] == nodes;
        }
        level := level - 1;
      }
    }

    /** The body of the loop of `nodesToText` for one item. */
    method ConvertItem(n: Node)
      modifies this
      decreases Size(n), 0
      ensures level == old(level)
      ensures buffer == old(buffer) + ItemToText(cfg, n, old(level), |old(buffer)|).text
      ensures links == old(links) + ItemToText(cfg, n, old(level), |old(buffer)|).links
    {
      match n
      case Content(content) =>
        var c := CleanContent(content);
        buffer := buffer + c;
      case Items(items) =>
        NodesToText(items);
      case HtmlTag(name, href, body, children) =>
        if name == "ref" {
        } else if name == "a" && href.Some? {
          Anchor(href.value, body, children);
        } else {
          NodesToText(children);
        }
      case TagNode(name, body) =>
        if !cfg.keepSectionTitle && name == "span" {
        } else if name == "a" {
          buffer := buffer + body;
        }
      case EndTag(name) =>
        if name == "br" || name == "hr" {
          buffer := buffer + "\n\n";
        }
      case Other =>
    }

    /** An `a` tag with an href: space, children, the fallback text when blank, the span, space. */
    method Anchor(href: string, body: string, children: seq<Node>)
      modifies this
      decreases SizeList(children), 3
      ensures level == old(level)
      ensures buffer == old(buffer) + AnchorToText(cfg, href, body, children, old(level), |old(buffer)|).text
      ensures links == old(links) + AnchorToText(cfg, href, body, children, old(level), |old(buffer)|).links
    {
      ghost var b0 := buffer;
      ghost var inner := ListToText(cfg, children, level, |b0| + 1);
      buffer := buffer + " ";
      var start := |buffer|;
      NodesToText(children);
      AnchorBuffer(b0, inner.text, AnchorFix(inner.text, body, href));
      CloseAnchor(start, href, body);
    }

    /**
     * The part of the anchor after its children, which were appended from
     * `start` on: the fallback when they are blank, `hasLink` when the span
     * is not blank, then the closing space.
     */
    method CloseAnchor(start: nat, href: string, body: string)
      requires start <= |buffer|
      modifies this
      ensures level == old(level)
      ensures buffer == old(buffer) + AnchorFix(old(buffer)[start..], body, href) + " "
      ensures links == old(links)
        + AnchorLink(start, old(buffer)[start..] + AnchorFix(old(buffer)[start..], body, href), href)
    {
      ghost var inner := buffer[start..];
      ghost var fix := AnchorFix(inner, body, href);
      var end := |buffer|;
      assert buffer[start..end] == inner;
      BlankIsWhitespace(buffer, start, end);
      if Blank(buffer, start, end) {
        assert fix == RenderSpecialTags(body, href);
        ghost var before := buffer;
        buffer := buffer + RenderSpecialTags(body, href);
        end := |buffer|;
        AppendedSlice(before, start, RenderSpecialTags(body, href));
        assert buffer[start..end] == inner + fix;
        BlankIsWhitespace(buffer, start, end);
        if !Blank(buffer, start, end) {
          links := links + [Link(start, end, href)];
        }
      } else {
        assert fix == "";
        assert inner + fix == inner;
        links := links + [Link(start, end, href)];
      }
      buffer := buffer + " ";
    }
  }
}
