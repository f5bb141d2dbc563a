/**
 * wikiapi.processors.PageMeta: the classifier a feeder builds for every
 * page — redirect, stub and disambiguation tests, the redirect target, and
 * the category and link lists pulled from `[[…]]` markup.
 */
module PageMeta {
  import opened Wrappers
  import opened Strings
  import opened Wiki
  import Utils

  // ---- redirect, stub and disambiguation tests ----

  const RedirectPrefix: string := "#REDIRECT"

  /** `isRedirect()` computed from the text: its first nine characters, upper-cased, are "#REDIRECT". */
  predicate HasRedirectPrefix(text: string) {
    |text| >= |RedirectPrefix| && UpperAscii(text[..|RedirectPrefix|]) == RedirectPrefix
  }

  /**
   * The redirect target the constructor keeps: the whole text between the
   * first "[[" and the next "]]", for a page with the redirect prefix.
   */
  function RedirectText(text: string): (r: Option<string>)
    ensures !HasRedirectPrefix(text) ==> r.None?
    ensures r.Some? ==> !Contains(r.value, "]]")
    ensures HasRedirectPrefix(text) ==> r == SubstringBetween(text, "[[", "]]")
  {
    if HasRedirectPrefix(text) then SubstringBetween(text, "[[", "]]") else None
  }

  /** The constructor's final answer for a non-null text: the prefix and a non-empty target. */
  predicate IsRedirectPage(text: string) {
    HasRedirectPrefix(text) && RedirectText(text).Some? && RedirectText(text).value != ""
  }

  /** Any nine characters that upper-case to "#REDIRECT" begin a redirect. */
  lemma RedirectSpelling(p: string, rest: string)
    requires UpperAscii(p) == RedirectPrefix
    ensures HasRedirectPrefix(p + rest)
  {
    assert (p + rest)[..|p|] == p;
  }

  /** The prefix upper-cases to itself, and "#redirect" and "#Redirect" upper-case to it. */
  lemma UpperRedirect()
    ensures UpperAscii(RedirectPrefix) == RedirectPrefix
  {
    UpperAsciiOf(RedirectPrefix, RedirectPrefix);
  }

  lemma UpperLowerRedirect()
    ensures UpperAscii("#redirect") == RedirectPrefix
  {
    UpperAsciiOf("#redirect", RedirectPrefix);
  }

  lemma UpperTitleRedirect()
    ensures UpperAscii("#Redirect") == RedirectPrefix
  {
    UpperAsciiOf("#Redirect", RedirectPrefix);
  }

  /** The prefix test ignores case. */
  lemma RedirectPrefixAnyCase(rest: string)
    ensures HasRedirectPrefix("#REDIRECT" + rest)
    ensures HasRedirectPrefix("#redirect" + rest)
    ensures HasRedirectPrefix("#Redirect" + rest)
  {
    UpperRedirect();
    UpperLowerRedirect();
    UpperTitleRedirect();
    RedirectSpelling("#REDIRECT", rest);
    RedirectSpelling("#redirect", rest);
    RedirectSpelling("#Redirect", rest);
  }

  /** A text shorter than the prefix is never a redirect. */
  lemma ShortTextNotRedirect(text: string)
    requires |text| < 9
    ensures !HasRedirectPrefix(text) && !IsRedirectPage(text)
  {
  }

  /** With no match before `q`, `indexOf` finds the match at `q`. */
  lemma IndexOfFirst(s: string, pat: string, from: nat, q: nat)
    requires from <= q && MatchesAt(s, pat, q)
    requires forall j | from <= j < q :: !MatchesAt(s, pat, j)
    ensures IndexOf(s, pat, from) == Some(q)
  {
  }

  /** `indexOf` of a two-character pattern finds `q` when no earlier character from `from` on is its first. */
  lemma IndexOfPastFree(s: string, pat: string, from: nat, q: nat)
    requires |pat| == 2 && from <= q && q + 2 <= |s| && s[q] == pat[0] && s[q + 1] == pat[1]
    requires forall j | from <= j < q :: s[j] != pat[0]
    ensures IndexOf(s, pat, from) == Some(q)
  {
    assert s[q..q + 2] == pat;
    forall j | from <= j < q ensures !MatchesAt(s, pat, j) {
      assert j + 2 <= |s| ==> s[j..j + 2][0] == s[j];
    }
    IndexOfFirst(s, pat, from, q);
  }

  /**
   * The target is the whole bracketed text: a piped label inside the
   * brackets is kept, not split off.
   */
  lemma RedirectTargetWhole(pre: string, target: string, post: string)
    requires '[' !in pre && ']' !in target
    ensures RedirectText("#REDIRECT" + pre + "[[" + target + "]]" + post) == Some(target)
  {
    var s := "#REDIRECT" + pre + "[[" + target + "]]" + post;
    var q := 9 + |pre|;
    RedirectMarkupPrefix(pre, target, post);
    RedirectMarkupOpen(pre, target, post);
    RedirectMarkupClose(pre, target, post);
    SubstringBetweenAt(s, "[[", "]]", q, q + 2 + |target|);
  }

  lemma RedirectMarkupPrefix(pre: string, target: string, post: string)
    ensures HasRedirectPrefix("#REDIRECT" + pre + "[[" + target + "]]" + post)
  {
    var rest := pre + "[[" + target + "]]" + post;
    assert "#REDIRECT" + pre + "[[" + target + "]]" + post == RedirectPrefix + rest;
    UpperRedirect();
    RedirectSpelling(RedirectPrefix, rest);
  }

  lemma RedirectMarkupOpen(pre: string, target: string, post: string)
    requires '[' !in pre
    ensures IndexOf("#REDIRECT" + pre + "[[" + target + "]]" + post, "[[", 0) == Some(9 + |pre|)
  {
    var s := "#REDIRECT" + pre + "[[" + target + "]]" + post;
    var q := 9 + |pre|;
    assert s[q] == '[' && s[q + 1] == '[';
    forall k | 0 <= k < q ensures s[k] != '[' {
      if k >= 9 {
        assert s[k] == pre[k - 9];
      } else {
        assert s[k] == RedirectPrefix[k];
      }
    }
    IndexOfPastFree(s, "[[", 0, q);
  }

  lemma RedirectMarkupClose(pre: string, target: string, post: string)
    requires ']' !in target
    ensures var s := "#REDIRECT" + pre + "[[" + target + "]]" + post;
      var q := 9 + |pre|;
      IndexOf(s, "]]", q + 2) == Some(q + 2 + |target|) && s[q + 2..q + 2 + |target|] == target
  {
    var s := "#REDIRECT" + pre + "[[" + target + "]]" + post;
    var q := 9 + |pre|;
    var e := q + 2 + |target|;
    assert s[e] == ']' && s[e + 1] == ']';
    forall k | q + 2 <= k < e ensures s[k] != ']' {
      assert s[k] == target[k - q - 2];
    }
    IndexOfPastFree(s, "]]", q + 2, e);
    assert forall k | 0 <= k < |target| :: s[q + 2..e][k] == target[k];
  }

  /** `substringBetween` once both `indexOf` answers are known. */
  lemma SubstringBetweenAt(s: string, open: string, close: string, i: nat, j: nat)
    requires IndexOf(s, open, 0) == Some(i) && IndexOf(s, close, i + |open|) == Some(j)
    ensures SubstringBetween(s, open, close) == Some(s[i + |open|..j])
  {
  }

  /** For instance "#REDIRECT [[A|b]]" redirects to "A|b". */
  lemma RedirectTargetKeepsPipe()
    ensures RedirectText("#REDIRECT [[A|b]]") == Some("A|b")
  {
    assert "#REDIRECT [[A|b]]" == "#REDIRECT" + " " + "[[" + "A|b" + "]]" + "";
    RedirectTargetWhole(" ", "A|b", "");
  }

  const StubMarker: string := "-stub}}"

  /** `STUB_PATTERN.matcher(text).find()`: the literal "-stub}}" occurs in the text. */
  predicate IsStubText(text: string) {
    Contains(text, StubMarker)
  }

  /** The five template names of `disambiguationTemplates`. */
  const DisambiguationTemplates: seq<string> := ["Disambig", "Disambiguation", "Dab", "DAB", "Disamb"]

  predicate IsUpperAscii(c: char) {
    'A' <= c <= 'Z'
  }

  /** `WordUtils.uncapitalize` on one word: the first letter lower-cased. */
  function Uncapitalize(s: string): (r: string)
    ensures |r| == |s|
    ensures |s| > 0 ==> r[1..] == s[1..]
    ensures |s| > 0 && IsUpperAscii(s[0]) ==> r[0] == (s[0] as int + 32) as char
  {
    if |s| > 0 && IsUpperAscii(s[0]) then [(s[0] as int + 32) as char] + s[1..] else s
  }

  /** Each template name followed by its uncapitalised form, as the static initialiser builds them. */
  function WithUncapitalized(names: seq<string>): (r: seq<string>)
    ensures |r| == 2 * |names|
    ensures forall i | 0 <= i < |names| :: r[2 * i] == names[i] && r[2 * i + 1] == Uncapitalize(names[i])
  {
    if |names| == 0 then [] else [names[0], Uncapitalize(names[0])] + WithUncapitalized(names[1..])
  }

  /** The ten names of the disambiguation pattern. */
  function DisambiguationNames(): seq<string> {
    WithUncapitalized(DisambiguationTemplates)
  }

  /** The ten names, written out: "DAB" becomes "dAB". */
  lemma DisambiguationNamesListed()
    ensures DisambiguationNames() == ["Disambig", "disambig", "Disambiguation", "disambiguation",
      "Dab", "dab", "DAB", "dAB", "Disamb", "disamb"]
  {
    var r := DisambiguationNames();
    assert Uncapitalize("Disambig") == "disambig";
    assert Uncapitalize("Disambiguation") == "disambiguation";
    assert Uncapitalize("Dab") == "dab";
    assert Uncapitalize("DAB") == "dAB";
    assert Uncapitalize("Disamb") == "disamb";
    assert r[0] == "Disambig" && r[1] == "disambig";
    assert r[2] == "Disambiguation" && r[3] == "disambiguation";
    assert r[4] == "Dab" && r[5] == "dab";
    assert r[6] == "DAB" && r[7] == "dAB";
    assert r[8] == "Disamb" && r[9] == "disamb";
  }

  /** One alternative of the disambiguation pattern matches at `i`: "{{", a name, then '|' or '}'. */
  predicate DisambiguationTemplateAt(text: string, i: int, name: string) {
    MatchesAt(text, "{{" + name, i)
    && i + 2 + |name| < |text|
    && (text[i + 2 + |name|] == '|' || text[i + 2 + |name|] == '}')
  }

  /** `DISAMB_TEMPLATE_PATTERN.matcher(text).find()` */
  predicate HasDisambiguationTemplate(text: string) {
    exists i, k | 0 <= i < |text| && 0 <= k < |DisambiguationNames()| ::
      DisambiguationTemplateAt(text, i, DisambiguationNames()[k])
  }

  /** The constructor's disambiguation answer: the title suffix or a template anywhere in the text. */
  predicate IsDisambiguationPage(title: string, text: string) {
    EndsWith(title, "(disambiguation)") || HasDisambiguationTemplate(text)
  }

  /** A disambiguation template is recognised with either closing character, whatever surrounds it. */
  lemma DisambiguationTemplateFound(before: string, k: int, close: char, after: string)
    requires 0 <= k < 10 && (close == '|' || close == '}')
    ensures IsDisambiguationPage("", before + "{{" + DisambiguationNames()[k] + [close] + after)
  {
    var names := DisambiguationNames();
    assert |names| == 10;
    var text := before + "{{" + names[k] + [close] + after;
    TemplateAt(before, names[k], close, after);
    assert DisambiguationTemplateAt(text, |before|, names[k]);
  }

  /** "{{", a name and a closing character make a template alternative at their position. */
  lemma TemplateAt(before: string, name: string, close: char, after: string)
    requires close == '|' || close == '}'
    ensures DisambiguationTemplateAt(before + "{{" + name + [close] + after, |before|, name)
  {
    var text := before + "{{" + name + [close] + after;
    var i := |before|;
    assert text[i..i + |"{{" + name|] == "{{" + name;
    assert text[i + 2 + |name|] == close;
  }

  // ---- category and link extraction ----

  /** Characters Java's `.` does not match. */
  predicate IsLineTerminator(c: char) {
    c == '\n' || c == '\r' || c == '\U{85}' || c == '\U{2028}' || c == '\U{2029}'
  }

  /**
   * Where the reluctant payload `(.*?)` started at `p` ends: the first
   * "]]" at or after `p` with no line terminator before it.
   */
  function CloseFrom(s: string, p: nat): (r: Option<nat>)
    decreases |s| - p
    ensures r.Some? ==> p <= r.value && r.value + 2 <= |s|
  {
    if p + 2 > |s| then None
    else if MatchesAt(s, "]]", p) then Some(p)
    else if IsLineTerminator(s[p]) then None
    else CloseFrom(s, p + 1)
  }

  /** The payload ends at the first "]]" and holds no line terminator. */
  lemma {:induction false} CloseFromShortest(s: string, p: nat)
    decreases |s| - p
    ensures CloseFrom(s, p).Some? ==> MatchesAt(s, "]]", CloseFrom(s, p).value)
    ensures CloseFrom(s, p).Some? ==>
      forall k | p <= k < CloseFrom(s, p).value :: !MatchesAt(s, "]]", k) && !IsLineTerminator(s[k])
  {
    if p + 2 <= |s| && !MatchesAt(s, "]]", p) && !IsLineTerminator(s[p]) {
      CloseFromShortest(s, p + 1);
    }
  }

  /** A match of `open (.*?) ]]`: where it starts and where its payload starts and ends. */
  datatype Match = Match(start: nat, payloadStart: nat, payloadEnd: nat)

  /** The pattern `open (.*?) ]]` matches at `j`. */
  predicate MatchStartsAt(s: string, open: string, j: int) {
    0 <= j && MatchesAt(s, open, j) && CloseFrom(s, j + |open|).Some?
  }

  /** `matcher.find()` from `from`: the leftmost start at or after `from` where the pattern matches. */
  function Find(s: string, open: string, from: nat): (r: Option<Match>)
    decreases |s| - from
    ensures r.Some? ==> from <= r.value.start && r.value.payloadStart == r.value.start + |open|
    ensures r.Some? ==> r.value.payloadStart <= r.value.payloadEnd && r.value.payloadEnd + 2 <= |s|
  {
    if from + |open| > |s| then None
    else if MatchStartsAt(s, open, from) then
      Some(Match(from, from + |open|, CloseFrom(s, from + |open|).value))
    else Find(s, open, from + 1)
  }

  /** `find()` returns the leftmost match at or after `from`, and None only when there is none. */
  lemma {:induction false} FindLeftmost(s: string, open: string, from: nat)
    decreases |s| - from
    ensures Find(s, open, from).Some? ==>
      MatchStartsAt(s, open, Find(s, open, from).value.start)
      && CloseFrom(s, Find(s, open, from).value.payloadStart) == Some(Find(s, open, from).value.payloadEnd)
    ensures Find(s, open, from).Some? ==> forall j | from <= j < Find(s, open, from).value.start :: !MatchStartsAt(s, open, j)
    ensures Find(s, open, from).None? ==> forall j | from <= j :: !MatchStartsAt(s, open, j)
  {
    if from + |open| > |s| {
      forall j | from <= j ensures !MatchStartsAt(s, open, j) {
      }
    } else if !MatchStartsAt(s, open, from) {
      var r := Find(s, open, from + 1);
      assert Find(s, open, from) == r;
      FindLeftmost(s, open, from + 1);
      if r.Some? {
        forall j | from <= j < r.value.start ensures !MatchStartsAt(s, open, j) {
          if j != from {
            assert from + 1 <= j < r.value.start;
          }
        }
      } else {
        forall j | from <= j ensures !MatchStartsAt(s, open, j) {
          if j != from {
            assert from + 1 <= j;
          }
        }
      }
    }
  }

  /** The payloads (`group(1)`) of the successive non-overlapping matches from `from` on. */
  function Payloads(s: string, open: string, from: nat): seq<string>
    decreases |s| - from
  {
    match Find(s, open, from)
    case None => []
    case Some(m) => [s[m.payloadStart..m.payloadEnd]] + Payloads(s, open, m.payloadEnd + 2)
  }

  /** The payload of a match holds no "]]" and no line terminator. */
  lemma PayloadShortest(s: string, open: string, from: nat, m: Match)
    requires Find(s, open, from) == Some(m)
    ensures !Contains(s[m.payloadStart..m.payloadEnd], "]]") && NoLineTerminator(s[m.payloadStart..m.payloadEnd])
  {
    FindLeftmost(s, open, from);
    CloseFromShortest(s, m.payloadStart);
    PayloadShape(s, m.payloadStart, m.payloadEnd);
  }

  /** Every payload is the shortest one: it holds no "]]" and no line terminator. */
  lemma {:induction false} PayloadsShortest(s: string, open: string, from: nat)
    decreases |s| - from
    ensures forall p | p in Payloads(s, open, from) :: !Contains(p, "]]") && NoLineTerminator(p)
  {
    match Find(s, open, from)
    case None =>
    case Some(m) =>
      var next := m.payloadEnd + 2;
      PayloadShortest(s, open, from, m);
      PayloadsShortest(s, open, next);
      PayloadsCons(s, open, from, m, next);
      forall p | p in Payloads(s, open, from) ensures !Contains(p, "]]") && NoLineTerminator(p) {
        if p != s[m.payloadStart..m.payloadEnd] {
          assert p in Payloads(s, open, next);
        }
      }
  }

  predicate NoLineTerminator(p: string) {
    forall k | 0 <= k < |p| :: !IsLineTerminator(p[k])
  }

  lemma PayloadShape(s: string, ps: nat, pe: nat)
    requires ps <= pe <= |s| && forall k | ps <= k < pe :: !MatchesAt(s, "]]", k) && !IsLineTerminator(s[k])
    requires pe + 2 <= |s|
    ensures !Contains(s[ps..pe], "]]") && NoLineTerminator(s[ps..pe])
  {
    var p := s[ps..pe];
    forall k | 0 <= k <= |p| - 2 ensures !MatchesAt(p, "]]", k) {
      assert p[k] == s[ps + k] && p[k + 1] == s[ps + k + 1];
      assert !MatchesAt(s, "]]", ps + k);
    }
    forall k | 0 <= k < |p| ensures !IsLineTerminator(p[k]) {
      assert p[k] == s[ps + k];
    }
  }

  /** `StringUtils.split(p, '|')[0]`: the first non-empty run of non-'|' characters, None for an empty split. */
  function FirstToken(p: string): (r: Option<string>)
    ensures r.Some? ==> r.value != ""
  {
    if |p| == 0 then None
    else if p[0] == '|' then FirstToken(p[1..])
    else Some(SubstringBefore(p, '|'))
  }

  /** The token has no '|' and is made of characters of `p`; there is none only when `p` is all '|'. */
  lemma {:induction false} FirstTokenOf(p: string)
    ensures FirstToken(p).Some? ==> '|' !in FirstToken(p).value
    ensures FirstToken(p).Some? ==> forall k | 0 <= k < |FirstToken(p).value| :: FirstToken(p).value[k] in p
    ensures FirstToken(p).None? <==> forall k | 0 <= k < |p| :: p[k] == '|'
  {
    if |p| > 0 && p[0] == '|' {
      FirstTokenOf(p[1..]);
      assert forall k | 1 <= k < |p| :: p[k] == p[1..][k - 1];
    } else if |p| > 0 {
      var t := SubstringBefore(p, '|');
      assert t[0] == p[0];
    }
  }

  /** What one payload contributes to the category list. */
  function CategoryOf(p: string): seq<string> {
    match FirstToken(p)
    case Some(t) => [t]
    case None => []
  }

  /** What one payload contributes to the link list: its first token unless it has a ':'. */
  function LinkOf(p: string): seq<string> {
    match FirstToken(p)
    case Some(t) => if ':' in t then [] else [t]
    case None => []
  }

  /** The first tokens of the payloads that have one, in match order. */
  function FirstTokens(payloads: seq<string>): (r: seq<string>)
    ensures |r| <= |payloads|
  {
    if |payloads| == 0 then [] else CategoryOf(payloads[0]) + FirstTokens(payloads[1..])
  }

  /** Those first tokens that name an article (no ':'). */
  function ArticleTokens(payloads: seq<string>): (r: seq<string>)
    ensures |r| <= |payloads|
  {
    if |payloads| == 0 then [] else LinkOf(payloads[0]) + ArticleTokens(payloads[1..])
  }

  lemma TokensCons(p: string, rest: seq<string>)
    ensures FirstTokens([p] + rest) == CategoryOf(p) + FirstTokens(rest)
    ensures ArticleTokens([p] + rest) == LinkOf(p) + ArticleTokens(rest)
  {
    assert ([p] + rest)[0] == p && ([p] + rest)[1..] == rest;
  }

  /** One `find()` step: the payload of the match `m`, then those from `next` on. */
  lemma PayloadsCons(s: string, open: string, from: nat, m: Match, next: nat)
    requires Find(s, open, from) == Some(m) && next == m.payloadEnd + 2
    ensures Payloads(s, open, from) == [s[m.payloadStart..m.payloadEnd]] + Payloads(s, open, next)
  {
  }

  /** The tokens owed from `from` on: those of the match `m`, then those from `next` on. */
  lemma TokensUnfold(s: string, open: string, from: nat, m: Match, next: nat)
    requires Find(s, open, from) == Some(m) && next == m.payloadEnd + 2
    ensures FirstTokens(Payloads(s, open, from)) == CategoryOf(s[m.payloadStart..m.payloadEnd]) + FirstTokens(Payloads(s, open, next))
    ensures ArticleTokens(Payloads(s, open, from)) == LinkOf(s[m.payloadStart..m.payloadEnd]) + ArticleTokens(Payloads(s, open, next))
  {
    PayloadsCons(s, open, from, m, next);
    TokensCons(s[m.payloadStart..m.payloadEnd], Payloads(s, open, next));
  }

  /** The category loop has collected `acc` and the matches from `from` on owe the rest of `total`. */
  predicate CategoriesOwed(s: string, open: string, from: nat, acc: seq<string>, total: seq<string>) {
    acc + FirstTokens(Payloads(s, open, from)) == total
  }

  /** The link loop has collected `acc` and the matches from `from` on owe the rest of `total`. */
  predicate LinksOwed(s: string, open: string, from: nat, acc: seq<string>, total: seq<string>) {
    acc + ArticleTokens(Payloads(s, open, from)) == total
  }

  /** Adding the match `m`'s category to `acc` leaves what the matches from `next` on owe. */
  lemma CategoriesStep(s: string, open: string, from: nat, m: Match, next: nat, acc: seq<string>, acc': seq<string>, total: seq<string>)
    requires Find(s, open, from) == Some(m) && next == m.payloadEnd + 2
    requires CategoriesOwed(s, open, from, acc, total)
    requires acc' == acc + CategoryOf(s[m.payloadStart..m.payloadEnd])
    ensures CategoriesOwed(s, open, next, acc', total)
  {
    TokensUnfold(s, open, from, m, next);
    AppendAssoc(acc, CategoryOf(s[m.payloadStart..m.payloadEnd]), FirstTokens(Payloads(s, open, next)));
  }

  /** Adding the match `m`'s link to `acc` leaves what the matches from `next` on owe. */
  lemma LinksStep(s: string, open: string, from: nat, m: Match, next: nat, acc: seq<string>, acc': seq<string>, total: seq<string>)
    requires Find(s, open, from) == Some(m) && next == m.payloadEnd + 2
    requires LinksOwed(s, open, from, acc, total)
    requires acc' == acc + LinkOf(s[m.payloadStart..m.payloadEnd])
    ensures LinksOwed(s, open, next, acc', total)
  {
    TokensUnfold(s, open, from, m, next);
    AppendAssoc(acc, LinkOf(s[m.payloadStart..m.payloadEnd]), ArticleTokens(Payloads(s, open, next)));
  }

  const CategoryOpen: string := "[[Category:"
  const LinkOpen: string := "[["

  /** What `parseCategories` collects from a text. */
  function Categories(text: string): seq<string> {
    if text == "" then [] else FirstTokens(Payloads(text, CategoryOpen, 0))
  }

  /** What `parseLinks` collects from a text. */
  function Links(text: string): seq<string> {
    ArticleTokens(Payloads(text, LinkOpen, 0))
  }

  /** The body of the category loop: the payload's first token, if any, is added. */
  method AddCategory(cats: seq<string>, payload: string) returns (r: seq<string>)
    ensures r == cats + CategoryOf(payload)
  {
    r := cats;
    var temp := FirstToken(payload);
    if temp.Some? {
      r := r + [temp.value];
    }
  }

  /** The body of the link loop: the payload's first token is added unless it has a ':'. */
  method AddLink(links: seq<string>, payload: string) returns (r: seq<string>)
    ensures r == links + LinkOf(payload)
  {
    r := links;
    var temp := FirstToken(payload);
    if temp.Some? && ':' !in temp.value {
      r := r + [temp.value];
    }
  }

  /**
   * The match loop of `parseCategories`: the first token of every
   * "[[Category:" payload, in match order, as the list receives them.
   */
  method CollectCategories(text: string) returns (cats: seq<string>)
    ensures cats == FirstTokens(Payloads(text, CategoryOpen, 0))
  {
    cats := [];
    ghost var total := FirstTokens(Payloads(text, CategoryOpen, 0));
    var from: nat := 0;
    var found := Find(text, CategoryOpen, from);
    while found.Some?
      invariant from <= |text|
      invariant found == Find(text, CategoryOpen, from)
      invariant CategoriesOwed(text, CategoryOpen, from, cats, total)
      decreases |text| - from
    {
      var m := found.value;
      var next := m.payloadEnd + 2;
      ghost var acc := cats;
      cats := AddCategory(cats, text[m.payloadStart..m.payloadEnd]);
      CategoriesStep(text, CategoryOpen, from, m, next, acc, cats, total);
      from := next;
      found := Find(text, CategoryOpen, from);
    }
    assert Payloads(text, CategoryOpen, from) == [];
    assert cats + [] == cats;
  }

  /**
   * The match loop of `parseLinks`: the first token of every "[[" payload
   * that has no ':', in match order.
   */
  method CollectLinks(text: string) returns (links: seq<string>)
    ensures links == Links(text)
  {
    links := [];
    ghost var total := Links(text);
    var from: nat := 0;
    var found := Find(text, LinkOpen, from);
    while found.Some?
      invariant from <= |text|
      invariant found == Find(text, LinkOpen, from)
      invariant LinksOwed(text, LinkOpen, from, links, total)
      decreases |text| - from
    {
      var m := found.value;
      var next := m.payloadEnd + 2;
      ghost var acc := links;
      links := AddLink(links, text[m.payloadStart..m.payloadEnd]);
      LinksStep(text, LinkOpen, from, m, next, acc, links, total);
      from := next;
      found := Find(text, LinkOpen, from);
    }
    assert Payloads(text, LinkOpen, from) == [];
    assert links + [] == links;
  }

  /** A token is non-empty and has no '|' and no line terminator. */
  predicate IsToken(t: string) {
    t != "" && '|' !in t && NoLineTerminator(t)
  }

  lemma {:induction false} FirstTokensAreTokens(payloads: seq<string>)
    requires forall p | p in payloads :: NoLineTerminator(p)
    ensures forall t | t in FirstTokens(payloads) :: IsToken(t)
    ensures forall t | t in ArticleTokens(payloads) :: IsToken(t) && ':' !in t
  {
    if |payloads| > 0 {
      FirstTokensAreTokens(payloads[1..]);
      var p := payloads[0];
      assert p in payloads;
      FirstTokenOf(p);
      match FirstToken(p)
      case Some(t) =>
        forall k | 0 <= k < |t| ensures !IsLineTerminator(t[k]) {
          var j :| 0 <= j < |p| && p[j] == t[k];
        }
      case None =>
    }
  }

  /** Every category is a non-empty token with no '|' and no line break. */
  lemma CategoriesAreTokens(text: string)
    ensures forall c | c in Categories(text) :: IsToken(c)
  {
    PayloadsShortest(text, CategoryOpen, 0);
    FirstTokensAreTokens(Payloads(text, CategoryOpen, 0));
  }

  /** Every link is a non-empty token with no '|', no ':' and no line break. */
  lemma LinksAreArticleNames(text: string)
    ensures forall l | l in Links(text) :: IsToken(l) && ':' !in l
  {
    PayloadsShortest(text, LinkOpen, 0);
    FirstTokensAreTokens(Payloads(text, LinkOpen, 0));
  }

  /** The links are the category-free first tokens: each link is also a first token of a `[[…]]` payload. */
  lemma {:induction false} ArticleTokensAreFirstTokens(payloads: seq<string>)
    ensures forall t | t in ArticleTokens(payloads) :: t in FirstTokens(payloads)
  {
    if |payloads| > 0 {
      ArticleTokensAreFirstTokens(payloads[1..]);
    }
  }

  // ---- the classifier object ----

  /** The fields of a PageMeta; list fields and `redirect` may be null in Java, here None. */
  class PageMeta {
    var wikiText: string
    var pageCats: Option<seq<string>>
    var pageLinks: Option<seq<string>>
    var redirectString: Option<string>
    var redirect: Option<bool>
    var stub: bool
    var disambiguation: bool

    /** A cached `true` always comes with a non-empty target; an empty cache means the prefix test is still to run. */
    predicate Valid()
      reads this
    {
      (redirect == Some(true) ==> redirectString.Some? && redirectString.value != "")
      && (redirect.None? ==> !HasRedirectPrefix(wikiText))
    }

    /** `new PageMeta(article)` */
    constructor (article: Option<Article>)
      ensures Valid()
      ensures pageCats == Some([]) && pageLinks == Some([])
      ensures article.None? ==> wikiText == "" && redirect.None? && redirectString.None? && !stub && !disambiguation
      ensures article.Some? && article.value.text.None? ==>
        wikiText == "" && redirect == Some(false) && redirectString.None? && !stub && !disambiguation
      ensures article.Some? && article.value.text.Some? ==>
        var text := article.value.text.value;
        wikiText == text
        && redirect == Some(IsRedirectPage(text))
        && redirectString == RedirectText(text)
        && stub == IsStubText(text)
        && disambiguation == IsDisambiguationPage(article.value.title, text)
    {
      wikiText := "";
      pageCats := Some([]);
      pageLinks := Some([]);
      redirectString := None;
      redirect := None;
      stub := false;
      disambiguation := false;
      new;
      if article.Some? {
        if article.value.text.None? {
          wikiText := "";
          redirect := Some(false);
        } else {
          ReadText(article.value.title, article.value.text.value);
        }
      }
    }

    /**
     * The constructor's steps for a page with text: keep the text, settle
     * the redirect answer, then test for a stub marker and for a
     * disambiguation page.
     */
    method ReadText(title: string, text: string)
      requires redirect.None? && redirectString.None?
      modifies this
      ensures Valid()
      ensures wikiText == text
      ensures redirect == Some(IsRedirectPage(text))
      ensures redirectString == RedirectText(text)
      ensures stub == IsStubText(text)
      ensures disambiguation == IsDisambiguationPage(title, text)
      ensures pageCats == old(pageCats) && pageLinks == old(pageLinks)
    {
      wikiText := text;
      ReadRedirect();
      stub := Contains(wikiText, StubMarker);
      disambiguation := EndsWith(title, "(disambiguation)") || HasDisambiguationTemplate(wikiText);
    }

    /**
     * Run the prefix test; on a redirect keep the text between the first
     * "[[" and the next "]]", and withdraw the answer when there is none or
     * it is empty.
     */
    method ReadRedirect()
      requires redirect.None? && redirectString.None?
      modifies this
      ensures Valid()
      ensures redirect == Some(IsRedirectPage(wikiText))
      ensures redirectString == RedirectText(wikiText)
      ensures wikiText == old(wikiText) && pageCats == old(pageCats) && pageLinks == old(pageLinks)
    {
      var r := IsRedirect();
      if r {
        redirectString := SubstringBetween(wikiText, "[[", "]]");
        if redirectString.None? || redirectString.value == "" {
          redirect := Some(false);
        }
      }
    }

    /** `isRedirect()`: the cached answer, or the prefix test, cached. */
    method IsRedirect() returns (r: bool)
      modifies this
      ensures old(Valid()) ==> Valid()
      ensures redirect == Some(r)
      ensures old(redirect).Some? ==> r == old(redirect).value
      ensures old(redirect).None? ==> r == HasRedirectPrefix(wikiText)
      ensures old(Valid()) && r ==> redirectString.Some? && redirectString.value != ""
      ensures wikiText == old(wikiText) && redirectString == old(redirectString)
      ensures pageCats == old(pageCats) && pageLinks == old(pageLinks)
      ensures stub == old(stub) && disambiguation == old(disambiguation)
    {
      if redirect.None? {
        if |wikiText| < |RedirectPrefix| {
          redirect := Some(false);
        } else {
          var prefix := wikiText[..|RedirectPrefix|];
          redirect := Some(RedirectPrefix == UpperAscii(prefix));
        }
      }
      r := redirect.value;
    }

    /** `getRedirectedTitle()`: null unless a redirect, else the normalised target. */
    method GetRedirectedTitle() returns (t: Option<string>)
      requires Valid()
      modifies this
      ensures Valid()
      ensures t.Some? <==> redirect == Some(true)
      ensures t.Some? ==> t.value == Utils.Str2Wikilink(redirectString.value) && '_' !in t.value
      ensures old(redirect).Some? ==> redirect == old(redirect)
      ensures wikiText == old(wikiText) && redirectString == old(redirectString)
      ensures pageCats == old(pageCats) && pageLinks == old(pageLinks)
      ensures stub == old(stub) && disambiguation == old(disambiguation)
    {
      var r := IsRedirect();
      if r {
        t := Utils.Str2WikilinkOrNull(redirectString);
      } else {
        t := None;
      }
    }

    /** `parseCategories()`: a fresh list, filled match by match. */
    method ParseCategories()
      modifies this
      ensures pageCats == Some(Categories(wikiText))
      ensures wikiText == old(wikiText) && pageLinks == old(pageLinks)
      ensures redirect == old(redirect) && redirectString == old(redirectString)
      ensures stub == old(stub) && disambiguation == old(disambiguation)
    {
      pageCats := Some([]);
      if wikiText == "" {
        return;
      }
      var cats := CollectCategories(wikiText);
      pageCats := Some(cats);
    }

    /** `parseLinks()`: a fresh list, filled with the link targets that name an article. */
    method ParseLinks()
      modifies this
      ensures pageLinks == Some(Links(wikiText))
      ensures wikiText == old(wikiText) && pageCats == old(pageCats)
      ensures redirect == old(redirect) && redirectString == old(redirectString)
      ensures stub == old(stub) && disambiguation == old(disambiguation)
    {
      pageLinks := Some([]);
      var links := CollectLinks(wikiText);
      pageLinks := Some(links);
    }

    /** `getCategories()`: parses only when the field is null. */
    method GetCategories() returns (r: seq<string>)
      modifies this
      ensures old(pageCats).Some? ==> r == old(pageCats).value && pageCats == old(pageCats)
      ensures old(pageCats).None? ==> r == Categories(wikiText) && pageCats == Some(r)
      ensures wikiText == old(wikiText) && pageLinks == old(pageLinks)
      ensures redirect == old(redirect) && redirectString == old(redirectString)
      ensures stub == old(stub) && disambiguation == old(disambiguation)
    {
      if pageCats.None? {
        ParseCategories();
      }
      r := pageCats.value;
    }

    /** `getLinks()`: parses only when the field is null. */
    method GetLinks() returns (r: seq<string>)
      modifies this
      ensures old(pageLinks).Some? ==> r == old(pageLinks).value && pageLinks == old(pageLinks)
      ensures old(pageLinks).None? ==> r == Links(wikiText) && pageLinks == Some(r)
      ensures wikiText == old(wikiText) && pageCats == old(pageCats)
      ensures redirect == old(redirect) && redirectString == old(redirectString)
      ensures stub == old(stub) && disambiguation == old(disambiguation)
    {
      if pageLinks.None? {
        ParseLinks();
      }
      r := pageLinks.value;
    }
  }

  /** As written, a fresh classifier's category and link getters return empty lists, whatever the text. */
  method FreshGettersAreEmpty(article: Article) returns (cats: seq<string>, links: seq<string>)
    ensures cats == [] && links == []
  {
    var meta := new PageMeta(Some(article));
    cats := meta.GetCategories();
    links := meta.GetLinks();
  }
}
