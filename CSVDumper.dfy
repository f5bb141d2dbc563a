/**
 * wikiapi.CSVDumper: the `processAnnotation` callback that turns one page
 * into one CSV line, and the per-thread pool of chunk files it writes to.
 *
 * Fields are escaped as commons-lang `StringEscapeUtils.escapeCsv` does
 * (the rules of section 2 of RFC 4180): a field holding a comma, a double
 * quote, CR or LF is wrapped in double quotes with its double quotes
 * doubled, any other field is written as it is. `ParseFields` is an
 * RFC 4180 reader of one record, the partner the escaping is proved
 * against.
 */
module CSVDumper {
  import opened Wrappers
  import opened Strings
  import opened Wiki
  import opened Utils
  import opened PageMeta
  import opened WikiDumpParser

  // ---- escaping ----

  /** The characters that force a field into quotes. */
  predicate NeedsQuotes(s: string) {
    ',' in s || '"' in s || '\r' in s || '\n' in s
  }

  /** Every double quote written twice. */
  function DoubleQuotes(s: string): (r: string)
    ensures |r| >= |s|
    ensures '"' !in s ==> r == s
  {
    if |s| == 0 then "" else (if s[0] == '"' then "\"\"" else [s[0]]) + DoubleQuotes(s[1..])
  }

  /** `StringEscapeUtils.escapeCsv(s)` */
  function EscapeCsv(s: string): (r: string)
    ensures !NeedsQuotes(s) ==> r == s
    ensures NeedsQuotes(s) ==> |r| >= 2 && r[0] == '"' && r[|r| - 1] == '"'
  {
    if NeedsQuotes(s) then "\"" + DoubleQuotes(s) + "\"" else s
  }

  // ---- reading one record back ----

  /** A field read off the front of a text, and the text after it. */
  datatype Piece = Piece(field: string, rest: string)

  /** The rest of a quoted field after its opening quote: `""` stands for `"`, a lone `"` closes it. */
  function ParseQuoted(s: string): (p: Piece)
    decreases |s|
    ensures |p.rest| <= |s|
  {
    if |s| == 0 then Piece("", "")
    else if s[0] == '"' then
      if |s| >= 2 && s[1] == '"' then
        var p := ParseQuoted(s[2..]);
        Piece("\"" + p.field, p.rest)
      else Piece("", s[1..])
    else
      var p := ParseQuoted(s[1..]);
      Piece([s[0]] + p.field, p.rest)
  }

  /** An unquoted field runs to the next comma. */
  function ParseUnquoted(s: string): (p: Piece)
    ensures p.rest == "" || p.rest[0] == ','
    ensures p.field + p.rest == s
  {
    var f := SubstringBefore(s, ',');
    Piece(f, s[|f|..])
  }

  function ParseField(s: string): (p: Piece)
    ensures |p.rest| <= |s|
  {
    if |s| > 0 && s[0] == '"' then ParseQuoted(s[1..]) else ParseUnquoted(s)
  }

  /** The fields of one record, separated by commas. */
  function ParseFields(s: string): (r: seq<string>)
    decreases |s|
    ensures |r| > 0
  {
    var p := ParseField(s);
    if |p.rest| > 0 && p.rest[0] == ',' then [p.field] + ParseFields(p.rest[1..]) else [p.field]
  }

  /** A doubled quote stands for one quote of the field. */
  lemma ParseQuotedQuote(inner: string)
    ensures ParseQuoted("\"\"" + inner) == Piece("\"" + ParseQuoted(inner).field, ParseQuoted(inner).rest)
  {
    var s := "\"\"" + inner;
    assert s[0] == '"' && s[1] == '"';
    assert s[2..] == inner;
  }

  /** Any other character is copied. */
  lemma ParseQuotedChar(c: char, inner: string)
    requires c != '"'
    ensures ParseQuoted([c] + inner) == Piece([c] + ParseQuoted(inner).field, ParseQuoted(inner).rest)
  {
    assert ([c] + inner)[1..] == inner;
  }

  /** Doubling works character by character. */
  lemma DoubleQuotesCons(x: string, tail: string)
    requires |x| > 0
    ensures DoubleQuotes(x) + tail == (if x[0] == '"' then "\"\"" else [x[0]]) + (DoubleQuotes(x[1..]) + tail)
  {
    var head := if x[0] == '"' then "\"\"" else [x[0]];
    assert DoubleQuotes(x) == head + DoubleQuotes(x[1..]);
    AppendAssoc(head, DoubleQuotes(x[1..]), tail);
  }

  /** The step of `ParseQuotedDoubled`: one more character in front of a field that reads back. */
  lemma ParseQuotedDoubledStep(x: string, tail: string)
    requires |x| > 0
    requires ParseQuoted(DoubleQuotes(x[1..]) + "\"" + tail) == Piece(x[1..], tail)
    ensures ParseQuoted(DoubleQuotes(x) + "\"" + tail) == Piece(x, tail)
  {
    var q := "\"" + tail;
    var d := DoubleQuotes(x[1..]);
    var head := if x[0] == '"' then "\"\"" else [x[0]];
    var inner := d + q;
    AppendAssoc(d, "\"", tail);
    assert ParseQuoted(inner) == Piece(x[1..], tail);
    var whole := DoubleQuotes(x) + "\"" + tail;
    AppendAssoc(DoubleQuotes(x), "\"", tail);
    DoubleQuotesCons(x, q);
    assert whole == head + inner;
    assert x == [x[0]] + x[1..];
    if x[0] == '"' {
      ParseQuotedQuote(inner);
    } else {
      ParseQuotedChar(x[0], inner);
    }
  }

  /** A doubled field and its closing quote read back as the field. */
  lemma {:induction false} ParseQuotedDoubled(x: string, tail: string)
    requires tail == "" || tail[0] != '"'
    ensures ParseQuoted(DoubleQuotes(x) + "\"" + tail) == Piece(x, tail)
  {
    if |x| == 0 {
      var q := "\"" + tail;
      AppendAssoc(DoubleQuotes(x), "\"", tail);
      assert DoubleQuotes(x) + q == q;
      assert q[1..] == tail;
    } else {
      ParseQuotedDoubled(x[1..], tail);
      ParseQuotedDoubledStep(x, tail);
    }
  }

  /** The text before the first comma, when the first comma starts the tail. */
  lemma SubstringBeforeComma(a: string, tail: string)
    requires ',' !in a
    requires tail == "" || tail[0] == ','
    ensures SubstringBefore(a + tail, ',') == a
  {
    if tail == "" {
      assert a + tail == a;
    } else {
      assert a + tail == a + [','] + tail[1..];
      IndexOfCharAfter(a, ',', tail[1..]);
      assert (a + tail)[..|a|] == a;
    }
  }

  /** A quoted field: its doubled text and closing quote read back as the field. */
  lemma ParseEscapedQuoted(x: string, tail: string)
    requires NeedsQuotes(x)
    requires tail == "" || tail[0] == ','
    ensures ParseField(EscapeCsv(x) + tail) == Piece(x, tail)
  {
    var d := DoubleQuotes(x);
    var body := d + "\"" + tail;
    var s := EscapeCsv(x) + tail;
    assert EscapeCsv(x) == "\"" + d + "\"";
    AppendAssoc("\"", d, "\"");
    AppendAssoc("\"", d + "\"", tail);
    assert s == "\"" + body;
    assert s[0] == '"' && s[1..] == body;
    ParseQuotedDoubled(x, tail);
  }

  /** A field needing no quotes runs to the separator. */
  lemma ParseEscapedPlain(x: string, tail: string)
    requires !NeedsQuotes(x)
    requires tail == "" || tail[0] == ','
    ensures ParseField(EscapeCsv(x) + tail) == Piece(x, tail)
  {
    var s := x + tail;
    SubstringBeforeComma(x, tail);
    if |x| > 0 {
      assert s[0] == x[0];
    }
    assert s[|x|..] == tail;
  }

  /** An escaped field followed by a separator or the end of the record reads back as itself. */
  lemma ParseEscaped(x: string, tail: string)
    requires tail == "" || tail[0] == ','
    ensures ParseField(EscapeCsv(x) + tail) == Piece(x, tail)
  {
    if NeedsQuotes(x) {
      ParseEscapedQuoted(x, tail);
    } else {
      ParseEscapedPlain(x, tail);
    }
  }

  /** Each field escaped, in order. */
  function EscapeAll(xs: seq<string>): (r: seq<string>)
    ensures |r| == |xs|
    ensures forall i | 0 <= i < |xs| :: r[i] == EscapeCsv(xs[i])
  {
    if |xs| == 0 then [] else [EscapeCsv(xs[0])] + EscapeAll(xs[1..])
  }

  /** The escaped fields joined by commas. */
  function JoinCsv(xs: seq<string>): string {
    Join(EscapeAll(xs), ",")
  }

  /** Reading a joined record gives back every field, whatever characters the fields hold. */
  lemma {:induction false} JoinCsvParses(xs: seq<string>)
    requires |xs| > 0
    ensures ParseFields(JoinCsv(xs)) == xs
  {
    var e := EscapeCsv(xs[0]);
    if |xs| == 1 {
      assert JoinCsv(xs) == e + "";
      ParseEscaped(xs[0], "");
    } else {
      var rest := JoinCsv(xs[1..]);
      assert EscapeAll(xs)[1..] == EscapeAll(xs[1..]);
      assert JoinCsv(xs) == e + ("," + rest);
      ParseEscaped(xs[0], "," + rest);
      assert ("," + rest)[1..] == rest;
      JoinCsvParses(xs[1..]);
      assert xs == [xs[0]] + xs[1..];
    }
  }

  // ---- values and lines ----

  /** The objects `csvLine` and `csvArr` are given: a string or null, a Boolean, an Integer. */
  datatype Value = Text(text: Option<string>) | Flag(flag: bool) | Number(number: int)

  /** `String.valueOf(v)` */
  function ValueOf(v: Value): (r: string)
    ensures v == Text(None) ==> r == "null"
    ensures v.Text? && v.text.Some? ==> r == v.text.value
    ensures v.Flag? ==> r == if v.flag then "true" else "false"
    ensures v.Number? ==> r == IntToString(v.number)
  {
    match v
    case Text(t) => if t.Some? then t.value else "null"
    case Flag(b) => if b then "true" else "false"
    case Number(n) => IntToString(n)
  }

  function ValuesOf(vs: seq<Value>): (r: seq<string>)
    ensures |r| == |vs|
    ensures forall i | 0 <= i < |vs| :: r[i] == ValueOf(vs[i])
  {
    if |vs| == 0 then [] else [ValueOf(vs[0])] + ValuesOf(vs[1..])
  }

  /** `csvLine(fields…)`: the printed fields, escaped and joined by commas, with no line break. */
  function CsvLine(fields: seq<Value>): string {
    JoinCsv(ValuesOf(fields))
  }

  /** A CSV line reads back as the printed fields. */
  lemma CsvLineRoundTrip(fields: seq<Value>)
    requires |fields| > 0
    ensures ParseFields(CsvLine(fields)) == ValuesOf(fields)
  {
    JoinCsvParses(ValuesOf(fields));
  }

  /** `csvArr(stream)`: the printed values, escaped, joined by commas and braced. */
  function CsvArr(vs: seq<Value>): (r: string)
    ensures |r| >= 2 && r[0] == '{' && r[|r| - 1] == '}'
    ensures |vs| == 0 ==> r == "{}"
  {
    "{" + JoinCsv(ValuesOf(vs)) + "}"
  }

  /** The text between the braces of an array reads back as its printed elements. */
  lemma CsvArrRoundTrip(vs: seq<Value>)
    requires |vs| > 0
    ensures var a := CsvArr(vs); ParseFields(a[1..|a| - 1]) == ValuesOf(vs)
  {
    var a := CsvArr(vs);
    assert a[1..|a| - 1] == JoinCsv(ValuesOf(vs));
    JoinCsvParses(ValuesOf(vs));
  }

  function Starts(links: seq<Href>): (r: seq<Value>)
    ensures |r| == |links| && forall i | 0 <= i < |links| :: r[i] == Number(links[i].start)
  {
    if |links| == 0 then [] else [Number(links[0].start)] + Starts(links[1..])
  }

  function Ends(links: seq<Href>): (r: seq<Value>)
    ensures |r| == |links| && forall i | 0 <= i < |links| :: r[i] == Number(links[i].end)
  {
    if |links| == 0 then [] else [Number(links[0].end)] + Ends(links[1..])
  }

  function Targets(links: seq<Href>): (r: seq<Value>)
    ensures |r| == |links| && forall i | 0 <= i < |links| :: r[i] == Text(Some(links[i].link))
  {
    if |links| == 0 then [] else [Text(Some(links[0].link))] + Targets(links[1..])
  }

  function Texts(xs: seq<string>): (r: seq<Value>)
    ensures |r| == |xs| && forall i | 0 <= i < |xs| :: r[i] == Text(Some(xs[i]))
  {
    if |xs| == 0 then [] else [Text(Some(xs[0]))] + Texts(xs[1..])
  }

  /** `linkStr(links)`: the array of starts, the array of ends and the array of targets, comma separated. */
  function LinkStr(links: seq<Href>): string {
    CsvArr(Starts(links)) + "," + CsvArr(Ends(links)) + "," + CsvArr(Targets(links))
  }

  /** No links give three empty arrays. */
  lemma LinkStrEmpty()
    ensures LinkStr([]) == "{},{},{}"
  {
  }

  /** The text between the braces of an array. */
  function Inner(a: string): string
    requires |a| >= 2
  {
    a[1..|a| - 1]
  }

  /** The integers of an array read back as their decimal forms, in order. */
  lemma NumbersColumn(ns: seq<int>, vs: seq<Value>)
    requires |vs| == |ns| > 0
    requires forall i | 0 <= i < |ns| :: vs[i] == Number(ns[i])
    ensures |ParseFields(Inner(CsvArr(vs)))| == |ns|
    ensures forall i | 0 <= i < |ns| :: ParseFields(Inner(CsvArr(vs)))[i] == IntToString(ns[i])
  {
    CsvArrRoundTrip(vs);
  }

  /** The first array of `linkStr` reads back as the starts of the links, in order. */
  lemma StartsColumn(links: seq<Href>)
    requires |links| > 0
    ensures |ParseFields(Inner(CsvArr(Starts(links))))| == |links|
    ensures forall i | 0 <= i < |links| :: ParseFields(Inner(CsvArr(Starts(links))))[i] == IntToString(links[i].start)
  {
    NumbersColumn(seq(|links|, i requires 0 <= i < |links| => links[i].start), Starts(links));
  }

  /** The second array of `linkStr` reads back as the ends of the links, in the same order. */
  lemma EndsColumn(links: seq<Href>)
    requires |links| > 0
    ensures |ParseFields(Inner(CsvArr(Ends(links))))| == |links|
    ensures forall i | 0 <= i < |links| :: ParseFields(Inner(CsvArr(Ends(links))))[i] == IntToString(links[i].end)
  {
    NumbersColumn(seq(|links|, i requires 0 <= i < |links| => links[i].end), Ends(links));
  }

  /** The third array of `linkStr` reads back as the targets of the links, in the same order. */
  lemma TargetsColumn(links: seq<Href>)
    requires |links| > 0
    ensures |ParseFields(Inner(CsvArr(Targets(links))))| == |links|
    ensures forall i | 0 <= i < |links| :: ParseFields(Inner(CsvArr(Targets(links))))[i] == links[i].link
  {
    CsvArrRoundTrip(Targets(links));
    assert forall i | 0 <= i < |links| :: ValuesOf(Targets(links))[i] == links[i].link;
  }

  // ---- one page ----

  /** The five fixed columns: id, canonical title, plain text, disambiguation flag, redirect target. */
  function PageFields(page: Article, plain: string, disamb: bool, redirectTarget: Option<string>): seq<Value> {
    [Text(Some(page.id)), Text(Some(Str2Wikilink(page.title))), Text(Some(plain)), Flag(disamb), Text(redirectTarget)]
  }

  /** The line written for a page: the fixed columns, the link arrays, then the category array and a line break. */
  function PageRow(page: Article, plain: string, disamb: bool, redirectTarget: Option<string>,
                   links: seq<Href>, categories: seq<string>): (r: string)
    ensures EndsWith(r, "," + CsvArr(Texts(categories)) + "\n")
    ensures |r| >= 2 && r[|r| - 1] == '\n' && r[|r| - 2] == '}'
  {
    var head := CsvLine(PageFields(page, plain, disamb, redirectTarget)) + "," + LinkStr(links);
    var tail := "," + CsvArr(Texts(categories)) + "\n";
    assert (head + tail)[|head|..] == tail;
    head + tail
  }

  /**
   * The fixed columns read back as the id, the canonical title, the plain
   * text, "true" or "false", and the redirect target or "null".
   */
  lemma PageFieldsRoundTrip(page: Article, plain: string, disamb: bool, redirectTarget: Option<string>)
    ensures ParseFields(CsvLine(PageFields(page, plain, disamb, redirectTarget))) ==
      [page.id, Str2Wikilink(page.title), plain, if disamb then "true" else "false",
       if redirectTarget.Some? then redirectTarget.value else "null"]
  {
    var fields := PageFields(page, plain, disamb, redirectTarget);
    CsvLineRoundTrip(fields);
    ValuesOfFive(fields);
  }

  /** The printed forms of five values, one by one. */
  lemma ValuesOfFive(vs: seq<Value>)
    requires |vs| == 5
    ensures ValuesOf(vs) == [ValueOf(vs[0]), ValueOf(vs[1]), ValueOf(vs[2]), ValueOf(vs[3]), ValueOf(vs[4])]
  {
    var r := ValuesOf(vs);
    FiveFields(r, ValueOf(vs[0]), ValueOf(vs[1]), ValueOf(vs[2]), ValueOf(vs[3]), ValueOf(vs[4]));
  }

  /** Five fields given one by one make up the record. */
  lemma FiveFields(vs: seq<string>, a: string, b: string, c: string, d: string, e: string)
    requires |vs| == 5 && vs[0] == a && vs[1] == b && vs[2] == c && vs[3] == d && vs[4] == e
    ensures vs == [a, b, c, d, e]
  {
  }

  /** The disambiguation flag a fresh PageMeta has for the page. */
  function FreshDisambiguation(page: Article): bool {
    page.text.Some? && IsDisambiguationPage(page.title, page.text.value)
  }

  /** `getRedirectedTitle()` of a fresh PageMeta of the page. */
  function FreshRedirectTarget(page: Article): (r: Option<string>)
    ensures r.Some? ==> '_' !in r.value && r.value != ""
    ensures r.Some? <==> page.text.Some? && IsRedirectPage(page.text.value)
  {
    if page.text.Some? && IsRedirectPage(page.text.value) then Some(Str2Wikilink(RedirectText(page.text.value).value))
    else None
  }

  /**
   * `processAnnotation(page, meta, plain, links)`: the line for the page,
   * with the meta's disambiguation flag, redirect title and categories.
   */
  method ProcessAnnotation(page: Article, meta: PageMeta, plain: string, links: seq<Href>) returns (row: string)
    requires meta.Valid()
    modifies meta
    ensures meta.Valid() && meta.pageCats.Some?
    ensures meta.disambiguation == old(meta.disambiguation)
    ensures old(meta.pageCats).Some? ==> meta.pageCats == old(meta.pageCats)
    ensures old(meta.redirect).Some? ==> meta.redirect == old(meta.redirect)
    ensures meta.redirectString == old(meta.redirectString)
    ensures row == PageRow(page, plain, meta.disambiguation,
                           if meta.redirect == Some(true) then Some(Str2Wikilink(meta.redirectString.value)) else None,
                           links, meta.pageCats.value)
  {
    var id := page.id;
    var title := Str2Wikilink(page.title);
    var disamb := meta.disambiguation;
    var redirectTarget := meta.GetRedirectedTitle();
    var linkArrayStr := LinkStr(links);
    var categories := meta.GetCategories();
    var categoryStr := CsvArr(Texts(categories));
    var head := CsvLine([Text(Some(id)), Text(Some(title)), Text(Some(plain)), Flag(disamb), Text(redirectTarget)])
      + "," + linkArrayStr;
    row := head + ("," + categoryStr + "\n");
  }

  /**
   * The line a feeder's callback writes, with the `new PageMeta(page)` it is
   * handed: the categories column is always "{}", because a fresh PageMeta
   * holds an empty category list and `getCategories` does not parse again.
   */
  method DumpPage(page: Article, plain: string, links: seq<Href>) returns (row: string)
    ensures row == PageRow(page, plain, FreshDisambiguation(page), FreshRedirectTarget(page), links, [])
    ensures EndsWith(row, ",{}\n")
  {
    var meta := new PageMeta(Some(page));
    assert meta.pageCats == Some([]);
    assert meta.disambiguation == FreshDisambiguation(page);
    assert (if meta.redirect == Some(true) then Some(Str2Wikilink(meta.redirectString.value)) else None)
      == FreshRedirectTarget(page);
    row := ProcessAnnotation(page, meta, plain, links);
    EmptyCategoryColumn();
  }

  /** The category column of a page without categories. */
  lemma EmptyCategoryColumn()
    ensures "," + CsvArr(Texts([])) + "\n" == ",{}\n"
  {
    var a := CsvArr(Texts([]));
    assert a == "{}";
    var t := "," + a + "\n";
    assert |t| == 4 && t[0] == ',' && t[1] == '{' && t[2] == '}' && t[3] == '\n';
  }

  // ---- the chunk files ----

  /** The lines written in order, one after the other. */
  function Concat(rows: seq<string>): string {
    if |rows| == 0 then "" else Concat(rows[..|rows| - 1]) + rows[|rows| - 1]
  }

  /**
   * The per-thread writer pool of `main`: a ThreadLocal whose first `get()`
   * in a thread asks `initialValue()` for the thread's writer. When the
   * subclass overrides `initialValue`, that opens "chunks/<n>.csv" with the
   * next writer number; otherwise ThreadLocal's own `initialValue` gives
   * null. One thread is modelled (the parser is built with one thread);
   * `files` maps each writer number to what was written to it.
   */
  class ChunkWriters {
    const overridesInitialValue: bool
    var writerCount: int
    var files: map<int, string>
    /** The thread's value: None before the first `get()`, then the writer or null. */
    var current: Option<Option<int>>

    predicate Valid()
      reads this
    {
      (current.Some? && current.value.Some? ==> current.value.value in files)
      && (!overridesInitialValue ==> files == map[] && writerCount == 0)
    }

    constructor (overridesInitialValue: bool)
      ensures Valid()
      ensures this.overridesInitialValue == overridesInitialValue
      ensures writerCount == 0 && files == map[] && current.None?
    {
      this.overridesInitialValue := overridesInitialValue;
      writerCount := 0;
      files := map[];
      current := None;
    }

    /** `writerPool.get()` */
    method Get() returns (w: Option<int>)
      requires Valid()
      modifies this
      ensures Valid()
      ensures current == Some(w)
      ensures old(current).Some? ==> w == old(current).value && files == old(files) && writerCount == old(writerCount)
      ensures old(current).None? && !overridesInitialValue ==> w.None? && files == old(files)
      ensures old(current).None? && overridesInitialValue ==>
        writerCount == old(writerCount) + 1 && w == Some(writerCount) && files == old(files)[writerCount := ""]
    {
      if current.None? {
        var v: Option<int> := None;
        if overridesInitialValue {
          writerCount := writerCount + 1;
          files := files[writerCount := ""];
          v := Some(writerCount);
        }
        current := Some(v);
      }
      w := current.value;
    }

    /** `writerPool.get().write(row)`; false when the writer is null and the call throws. */
    method Write(row: string) returns (ok: bool)
      requires Valid()
      modifies this
      ensures Valid() && current.Some?
      ensures ok <==> current.value.Some?
      ensures !overridesInitialValue ==> !ok
      ensures old(current).None? && overridesInitialValue ==>
        writerCount == old(writerCount) + 1 && current == Some(Some(writerCount)) && files == old(files)[writerCount := row]
      ensures old(current).Some? ==> current == old(current) && writerCount == old(writerCount)
      ensures old(current).Some? && ok ==> files == old(files)[current.value.value := old(files)[current.value.value] + row]
      ensures !ok ==> files == old(files)
    {
      var w := Get();
      if w.None? {
        ok := false;
      } else {
        assert old(current).None? ==> files[w.value] == "" && files[w.value] + row == row;
        files := files[w.value := files[w.value] + row];
        ok := true;
      }
    }
  }

  /**
   * `main` as written: the anonymous subclass names its method `initValue`,
   * which ThreadLocal never calls, so every `get()` is null and the first
   * write throws a NullPointerException. `catch (IOException e)` does not
   * catch it: it leaves `processAnnotation`, `process` and `parseDump`, and
   * `main`'s `catch (Exception e)` ends the run. No line is written, no
   * chunk file is opened, and no row after the first is attempted.
   */
  method DumpAsWritten(rows: seq<string>) returns (attempted: nat, aborted: bool, files: map<int, string>)
    ensures aborted <==> |rows| > 0
    ensures attempted == if |rows| > 0 then 1 else 0
    ensures files == map[]
  {
    var pool := new ChunkWriters(false);
    attempted := 0;
    aborted := false;
    while attempted < |rows| && !aborted
      invariant 0 <= attempted <= |rows|
      invariant pool.Valid() && !pool.overridesInitialValue
      invariant attempted <= 1 && (aborted <==> attempted > 0)
    {
      var ok := pool.Write(rows[attempted]);
      attempted := attempted + 1;
      if !ok {
        aborted := true;
      }
    }
    files := pool.files;
  }

  /**
   * `main` with `initialValue` overridden: the thread's first write opens
   * "chunks/1.csv" and every line lands in it, in order; nothing throws, so
   * every row is attempted.
   */
  method DumpIntended(rows: seq<string>) returns (attempted: nat, aborted: bool, files: map<int, string>)
    ensures !aborted && attempted == |rows|
    ensures |rows| == 0 ==> files == map[]
    ensures |rows| > 0 ==> files == map[1 := Concat(rows)]
  {
    var pool := new ChunkWriters(true);
    attempted := 0;
    aborted := false;
    while attempted < |rows| && !aborted
      invariant 0 <= attempted <= |rows| && !aborted
      invariant pool.Valid() && pool.overridesInitialValue
      invariant attempted == 0 ==> pool.current.None? && pool.files == map[] && pool.writerCount == 0
      invariant attempted > 0 ==> pool.current == Some(Some(1)) && pool.files == map[1 := Concat(rows[..attempted])]
    {
      var i := attempted;
      assert rows[..i + 1][..i] == rows[..i];
      var ok := pool.Write(rows[i]);
      assert ok;
      if i == 0 {
        assert Concat(rows[..1]) == rows[0];
      }
      attempted := attempted + 1;
      if !ok {
        aborted := true;
      }
    }
    if |rows| > 0 {
      assert rows[..attempted] == rows;
    }
    files := pool.files;
  }
}
