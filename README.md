# dd-el Wikipedia pipeline: a Dafny model

This project models the Java tools of dd-el that read a Wikipedia XML dump.
They turn each page into rows for the entity-linking database, and then
compute statistics over the page and redirect tables. The model covers these parts:

- **The feeders.** `WikiDumpParser`, `WikiDumpFilter` and the two udf `DumpParser`s receive every page from the XML reader.
  - They decide which pages are rendered and hand one annotation or one output row per page on.
  - While progress is on, they count the pages in a Java `int`.
- **The renderer's converter.** `LinkAnnotationConverter` flattens bliki's token tree into plain text.
  - It removes `{{…}}` templates from the text runs.
  - It reports every non-blank anchor as a `(start, end, href)` span of the text.
- **The wiki model.** `PlainTextWikiModel` holds the title filter, the href gating of internal links and the namespace split of redirects.
- **The page classifier.** `PageMeta` recognises redirects and their targets, stubs, disambiguation pages, categories and links in the raw markup.
- **The helpers.** `Utils` provides the canonical title form, the special-title test and the thread-pool sizing. `HTMLWikiModel.normalizeTitle` is the title normaliser of the udf tools.
- **The CSV writer.** `CSVDumper` writes a page's CSV line. Its escaping is proved against an RFC 4180 reader (section 2 of RFC 4180), and the model includes its per-thread pool of chunk files.
- **The three `CollectStats` tools.** They build the title/id bimap and resolve redirect targets.
  - The udf tool flattens redirect chains in place.
  - The xml tool filters out redirect loops.
  - All of them print a report over the map.

Every core Java file has its own module. `Wrappers` holds `Option`, `Strings`
holds the JDK and commons-lang string helpers the source calls, and `Wiki` holds
bliki's `WikiArticle` record.

**Stateful parts are classes.** The Java objects whose fields change become classes in the model:
- the feeders;
- the converter and its output buffer;
- the wiki model;
- `PageMeta`;
- the chunk-writer pool;
- Guava's `HashBiMap`.

Their methods are proved against specification functions, such as `ListToText`,
`Expected`, `RedirectsOf`, `FlattenSpec` and `Filter`. The properties of the
source are then proved about those functions.

**HashMap iteration order is a parameter.** The `replaceAll` of the udf tool and
the `setValue` filter of the xml tool both see the map as it is being changed,
so iteration order matters. It is an explicit `order` parameter: any sequence
holding each key once.

**The flattening results are proved for every iteration order.**
- On an acyclic map, the in-place `replaceAll` equals the textbook flattening for every iteration order. Acyclic means some rank falls along every redirect (`Ranked`).
- The filter of the xml tool keeps every entry of an acyclic map and agrees with the `replaceAll`.
- The filter drops every self-redirect.
- On any map and for every iteration order, the filter keeps an entry exactly when the chain from its value never revisits a redirect, and a kept entry ends at the first value of its chain that is no redirect.
- On `1 → 2 → 3 → 2` it drops all three entries.

**Where the code and its description differ, the model follows the code:**
- `csvLine`'s doc comment promises a line break, but the code adds none; `PageRow` adds the `'\n'` where `main` does.
- `PageMeta` starts with empty, non-null category and link lists, so `getCategories` and `getLinks` never parse. A fresh `PageMeta` always reports no categories and no links (`FreshGettersAreEmpty`), and every CSV line ends in `,{}`.

## Model

| member | source | states |
|---|---|---|
| Utils.CapitalizeIfLower | input/wikiapi/src/main/java/wikiapi/Utils.java:33-35 | the length is kept and every character after the first is unchanged |
| Utils.Str2Wikilink | input/wikiapi/src/main/java/wikiapi/Utils.java:30-37 | the length is kept and no '_' is left; each later character is the input's with '_' as a space; the first is upper-cased or, if '_', a space |
| Utils.Str2WikilinkOrNull | input/wikiapi/src/main/java/wikiapi/Utils.java:30-32 | null comes back as null; any other title comes back normalised, with the same length |
| Utils.Str2WikilinkIdempotent | input/wikiapi/src/main/java/wikiapi/Utils.java:30-37 | normalising a canonical title again changes nothing |
| Utils.Str2WikilinkCat | input/wikiapi/src/main/java/wikiapi/Utils.java:30-37 | "cat" becomes "Cat" |
| Utils.SpecialTitleByFirstColon | input/wikiapi/src/main/java/wikiapi/Utils.java:93-98 | a title is special exactly when the text before its first ':' is one of the special prefixes |
| Utils.SpecialTitleLeadingColon | input/wikiapi/src/main/java/wikiapi/Utils.java:80-98 | a title that starts with ':' is special, because "" is a listed prefix |
| Utils.SpecialTitleCategory | input/wikiapi/src/main/java/wikiapi/Utils.java:93-98 | "Category:Mammals" is a special title |
| Utils.NotSpecialWithoutColon | input/wikiapi/src/main/java/wikiapi/Utils.java:93-98 | a title without ':' and the empty title are not special |
| Utils.IsSpecialTitle | input/wikiapi/src/main/java/wikiapi/Utils.java:93-98 | the special-page test: a non-empty title with a ':' whose text before the first ':' is a listed prefix; its properties are `SpecialTitleByFirstColon` and the three lemmas above |
| Utils.IsNoncontentPage | input/wikiapi/src/main/java/wikiapi/Utils.java:108-111 | a page is non-content exactly when it is outside the main namespace, has no text, is a disambiguation page or is a redirect |
| Utils.Dec32 | input/wikiapi/src/main/java/wikiapi/Utils.java:67 | `poolSize - 1` on a Java int: exact above Integer.MIN_VALUE, and always a Java int |
| Utils.Inc32 | input/wikiapi/src/main/java/wikiapi/WikiDumpParser.java:146 | `++totalParsed` on a Java int: exact below Integer.MAX_VALUE, and always a Java int |
| Utils.Wrap32 | input/wikiapi/src/main/java/wikiapi/WikiDumpParser.java:146 | reduces any integer to a Java int and leaves Java ints alone |
| Utils.Inc32Wraps | input/wikiapi/src/main/java/wikiapi/WikiDumpParser.java:146 | incrementing a wrapped counter equals wrapping the incremented count |
| Utils.Inc32Times | input/wikiapi/src/main/java/wikiapi/WikiDumpParser.java:146 | n increments of a Java int counter stay a Java int |
| Utils.Inc32TimesWraps | input/wikiapi/src/main/java/wikiapi/WikiDumpParser.java:146 | after n counted pages the counter holds the start plus n, reduced to a Java int |
| Utils.BoundedPool | input/wikiapi/src/main/java/wikiapi/Utils.java:66-77 | core size, maximum size and queue capacity are one number between 1 and the processor count: `poolSize - 1` when 2 ≤ poolSize ≤ processors + 1; 1 when poolSize ≤ 2, above Integer.MIN_VALUE; the processor count above processors + 1, and at Integer.MIN_VALUE, where `poolSize - 1` wraps to Integer.MAX_VALUE |
| Utils.DefaultPool | input/wikiapi/src/main/java/wikiapi/Utils.java:46-57 | the maximum size and the queue capacity are at least 80 and at least the processor count; the core size is between 1 and the maximum; on 80 or fewer processors the shape is 41/80/80, and on n > 80 it is n/2 + 1, n, n |
| HTMLWikiModel.NormalizeTitle | udf/wikiapi/src/main/java/wikiapi/HTMLWikiModel.java:24-26 | the result has the trimmed title's length and no '_'; later characters are the trimmed title's with '_' as a space, and the first is capitalised |
| HTMLWikiModel.NormalizeTitleIgnoresPadding | udf/wikiapi/src/main/java/wikiapi/HTMLWikiModel.java:25 | control and space padding around a title does not change its normal form |
| HTMLWikiModel.NormalizeTitleSpaces | udf/wikiapi/src/main/java/wikiapi/HTMLWikiModel.java:25 | " x " and "x" have the same normal form |
| HTMLWikiModel.NormalizeTitleNotIdempotent | udf/wikiapi/src/main/java/wikiapi/HTMLWikiModel.java:24-26 | normalisation is not idempotent: "a_" becomes "A ", which becomes "A" |
| HTMLWikiModel.NormalFormUnpadded | udf/wikiapi/src/main/java/wikiapi/HTMLWikiModel.java:24-26 | without '_' at either end of the trimmed title, the normal form has no padding and does not start lower-case |
| HTMLWikiModel.NormalFormFixed | udf/wikiapi/src/main/java/wikiapi/HTMLWikiModel.java:24-26 | a text with no '_' or padding that does not start lower-case is its own normal form |
| HTMLWikiModel.NormalizeTitleIdempotent | udf/wikiapi/src/main/java/wikiapi/HTMLWikiModel.java:24-26 | without '_' at either end of the trimmed title, normalising twice equals normalising once |
| HTMLWikiModel.Render | udf/wikiapi/src/main/java/wikiapi/HTMLWikiModel.java:29-41 | null markup renders to ""; any other markup renders to the body renderer's output |
| BiMaps.Put | udf/wikiapi/src/main/java/wikiapi/CollectStats.java:53 | `put` fails exactly when another key already holds the value; otherwise the key maps to the value |
| BiMaps.PutInjective | udf/wikiapi/src/main/java/wikiapi/CollectStats.java:53 | a successful `put` keeps the title/id table injective |
| BiMaps.HashBiMap.constructor | udf/wikiapi/src/main/java/wikiapi/CollectStats.java:48 | `HashBiMap.create()` is empty and consistent |
| BiMaps.HashBiMap.Put | udf/wikiapi/src/main/java/wikiapi/CollectStats.java:53 | a refused `put` changes nothing; a successful one maps the key to the value; both tables stay inverse to each other |
| BiMaps.HashBiMap.InverseGet | udf/wikiapi/src/main/java/wikiapi/CollectStats.java:115 | `inverse().get(v)` finds the key holding v exactly when there is one, and that key does hold v |
| BiMaps.ValidInjective | udf/wikiapi/src/main/java/wikiapi/CollectStats.java:46-59 | no two titles of a consistent bimap share an id |
| CollectStats.QuerySql | udf/wikiapi/src/main/java/wikiapi/CollectStats.java:32-35 | the statement is the query itself, followed by " limit 5" exactly when debug is on |
| CollectStats.IdsInjective | udf/wikiapi/src/main/java/wikiapi/CollectStats.java:46-59 | the id cache never gives two titles the same id |
| CollectStats.IdsFromRows | udf/wikiapi/src/main/java/wikiapi/CollectStats.java:46-59 | every cached title, with its id, comes from a row whose title normalises to it |
| CollectStats.GetIds | udf/wikiapi/src/main/java/wikiapi/CollectStats.java:46-59 | `getIds` returns a consistent bimap whose forward table is the rows put in order, each refused `put` skipped |
| CollectStats.IdOrMissing | udf/wikiapi/src/main/java/wikiapi/CollectStats.java:74 | `getOrDefault(title, -1)`: the cached id, or -1 when the title is not cached |
| CollectStats.RedirectTargetsAreIds | udf/wikiapi/src/main/java/wikiapi/CollectStats.java:70-82 | every redirect points at an id of the cache, and that id is at least 0 |
| CollectStats.RedirectsFromRows | udf/wikiapi/src/main/java/wikiapi/CollectStats.java:70-82 | every redirect comes from a row of that page whose normalised target resolves to the redirect's value |
| CollectStats.UnresolvedFromRows | udf/wikiapi/src/main/java/wikiapi/CollectStats.java:70-82 | every unresolved target is the normal form of some row's target and has no id of at least 0 |
| CollectStats.ReportedMembers | udf/wikiapi/src/main/java/wikiapi/CollectStats.java:78-81 | a target is reported exactly when it is unresolved and has no '#' |
| CollectStats.GetRedirects | udf/wikiapi/src/main/java/wikiapi/CollectStats.java:61-88 | `getRedirects` returns the map of resolved redirects and prints the unresolved targets without '#', in row order |
| CollectStats.SeqMin | udf/wikiapi/src/main/java/wikiapi/CollectStats.java:106 | `Collections.min(loop)` is an element of the loop and no larger than any element |
| CollectStats.MinOf | udf/wikiapi/src/main/java/wikiapi/CollectStats.java:106 | the scan returns `Collections.min` of the loop |
| CollectStats.FollowChain | udf/wikiapi/src/main/java/wikiapi/CollectStats.java:97-112 | the `replaceAll` callback returns the chain end from v on the map as it stands |
| CollectStats.Reachable | udf/wikiapi/src/main/java/wikiapi/CollectStats.java:97-112 | the values the chain loop may visit include the start value and every target |
| CollectStats.FollowBound | udf/wikiapi/src/main/java/wikiapi/CollectStats.java:98-111 | the chain loop ends at a value that is no key, or at the minimum of the visited loop; either way a value it could reach |
| CollectStats.ChainEndBound | udf/wikiapi/src/main/java/wikiapi/CollectStats.java:97-112 | a flattened value is no key or no larger than the old value; it is the old value or some redirect's target |
| CollectStats.ChainEndSelf | udf/wikiapi/src/main/java/wikiapi/CollectStats.java:97-112 | a self-redirect keeps its value |
| CollectStats.ChainEndTwoCycle | udf/wikiapi/src/main/java/wikiapi/CollectStats.java:101-107 | a redirect in a two-cycle becomes the smaller id of the cycle |
| CollectStats.RankedEnd | udf/wikiapi/src/main/java/wikiapi/CollectStats.java:100-111 | on an acyclic map, a chain ends at the first value that is no key |
| CollectStats.FollowRanked | udf/wikiapi/src/main/java/wikiapi/CollectStats.java:100-111 | on an acyclic map the chain loop never sees a repeat and returns the chain end |
| CollectStats.ChainEndRanked | udf/wikiapi/src/main/java/wikiapi/CollectStats.java:97-112 | on an acyclic map the `replaceAll` callback returns the chain end |
| CollectStats.ShortcutAt | udf/wikiapi/src/main/java/wikiapi/CollectStats.java:97-112 | replacing one value by a value further down its chain keeps the map acyclic and keeps the chain end from a start value |
| CollectStats.Shortcut | udf/wikiapi/src/main/java/wikiapi/CollectStats.java:97-112 | the same, for every start value at once |
| CollectStats.FlattenKeys | udf/wikiapi/src/main/java/wikiapi/CollectStats.java:97 | `replaceAll` keeps the key set |
| CollectStats.Flatten | udf/wikiapi/src/main/java/wikiapi/CollectStats.java:97-112 | the in-place `replaceAll`, entry by entry in iteration order, computes `FlattenSpec` |
| CollectStats.Flattened | udf/wikiapi/src/main/java/wikiapi/CollectStats.java:96-112 | the textbook flattening keeps the keys, and no value of the result is a key |
| CollectStats.FlattenRankedPart | udf/wikiapi/src/main/java/wikiapi/CollectStats.java:97-112 | after some entries have been replaced, the map is still acyclic with the same chain ends; replaced keys hold their chain end and the others are unchanged |
| CollectStats.FlattenAcyclic | udf/wikiapi/src/main/java/wikiapi/CollectStats.java:96-112 | on an acyclic map, `replaceAll` in any iteration order is the textbook flattening, and no value is left pointing at a redirect |
| CollectStats.Title | udf/wikiapi/src/main/java/wikiapi/CollectStats.java:115 | `titles.get(id)` finds the title exactly when the id has one |
| CollectStats.AsWrittenOutput | udf/wikiapi/src/main/java/wikiapi/CollectStats.java:113-118 | the keySet loop prints at most one line per key |
| CollectStats.AsWrittenPrintsEveryKey | udf/wikiapi/src/main/java/wikiapi/CollectStats.java:113-118 | as written, the report prints the title of every redirect, because `containsKey` of a key always holds |
| CollectStats.AsWrittenReportsFlatMap | udf/wikiapi/src/main/java/wikiapi/CollectStats.java:113-118 | the flat map {1 → 2} prints the title of 1, although no redirect points at another redirect |
| CollectStats.NonFlatAsWritten | udf/wikiapi/src/main/java/wikiapi/CollectStats.java:113-118 | the keySet loop prints `AsWrittenOutput` in iteration order |
| CollectStats.NonFlatEmpty | udf/wikiapi/src/main/java/edu/stanford/cs/hazy/wikiapi/CollectStats.java:86-91 | the values loop prints nothing exactly when no redirect points at another redirect |
| CollectStats.NonFlatLines | udf/wikiapi/src/main/java/edu/stanford/cs/hazy/wikiapi/CollectStats.java:86-91 | each line of the values loop is the title of a target that is itself a redirect |
| CollectStats.NonFlat | udf/wikiapi/src/main/java/edu/stanford/cs/hazy/wikiapi/CollectStats.java:86-91 | the intended report loop prints `NonFlatOutput` in iteration order |
| CollectStats.FlattenedReportsNothing | udf/wikiapi/src/main/java/wikiapi/CollectStats.java:96-118 | after an acyclic map is flattened, the intended report prints nothing |
| CollectStatsXml.ReportedMembers | udf/wikixmlapi/src/main/java/wikiapi/CollectStats.java:79-82 | a target is reported exactly when it is unresolved and has neither '#' nor ':' |
| CollectStatsXml.CollectRedirects | udf/wikixmlapi/src/main/java/wikiapi/CollectStats.java:70-87 | the query loop builds the resolved redirects and reports the unresolved targets without '#' or ':' |
| CollectStatsXml.Chase | udf/wikixmlapi/src/main/java/wikiapi/CollectStats.java:96-107 | the chain loop of one entry keeps the key set and every other entry, and a kept entry ends at a value that is no key |
| CollectStatsXml.ChaseEntry | udf/wikixmlapi/src/main/java/wikiapi/CollectStats.java:92-108 | the filter's handling of one entry keeps the key set, and all values stay within the reachable values |
| CollectStatsXml.FilterSpec | udf/wikixmlapi/src/main/java/wikiapi/CollectStats.java:88-109 | the filter over the entries in iteration order keeps the key set of the live map |
| CollectStatsXml.ChaseLoop | udf/wikixmlapi/src/main/java/wikiapi/CollectStats.java:92-108 | the entry's loop with `setValue` at each step returns the verdict and map of `ChaseEntry` |
| CollectStatsXml.DropLoops | udf/wikixmlapi/src/main/java/wikiapi/CollectStats.java:88-109 | the `filter(...)` and `collect(toMap(...))` step, entry by entry, computes `Filter`: on any map, an entry is kept exactly when the chain from its value never revisits a redirect, and a kept entry maps to the end of that chain |
| CollectStatsXml.GetRedirects | udf/wikixmlapi/src/main/java/wikiapi/CollectStats.java:62-110 | `getRedirects` returns the loop-filtered redirect map: an entry is kept exactly when its chain never revisits a redirect, with the chain end as its value; it reports the unresolved targets without '#' or ':' |
| CollectStatsXml.FilterKeepsEnds | udf/wikixmlapi/src/main/java/wikiapi/CollectStats.java:96-109 | every kept entry ends at a value that is no key of the redirect map |
| CollectStatsXml.FilterResultFlat | udf/wikixmlapi/src/main/java/wikiapi/CollectStats.java:88-109 | the result's keys are redirects, and none of its values is a redirect |
| CollectStatsXml.FilterDropsSelfPart | udf/wikixmlapi/src/main/java/wikiapi/CollectStats.java:96-103 | within a run of entries, a self-redirect is never newly kept, and keys outside the run keep their verdict |
| CollectStatsXml.FilterDropsSelf | udf/wikixmlapi/src/main/java/wikiapi/CollectStats.java:96-103 | the filter drops every self-redirect |
| CollectStatsXml.ChaseRanked | udf/wikixmlapi/src/main/java/wikiapi/CollectStats.java:96-108 | on an acyclic map an entry is kept, its value becomes its chain end, and the map stays acyclic with the same chain ends |
| CollectStatsXml.FilterRankedPart | udf/wikixmlapi/src/main/java/wikiapi/CollectStats.java:88-109 | on an acyclic map every entry of the run is kept with its chain end, and the live map stays acyclic |
| CollectStatsXml.FilterAcyclic | udf/wikixmlapi/src/main/java/wikiapi/CollectStats.java:88-109 | on an acyclic map the filter keeps every key and maps it to the end of its chain |
| CollectStatsXml.FilterAgreesWithFlatten | udf/wikixmlapi/src/main/java/wikiapi/CollectStats.java:88-109 | on an acyclic map the filter and the udf tool's `replaceAll` give the same map |
| CollectStatsXml.FilterDropsIntoLoop | udf/wikixmlapi/src/main/java/wikiapi/CollectStats.java:96-103 | on {1 → 2, 2 → 3, 3 → 2} the filter drops the loop and the entry that runs into it |
| CollectStatsXml.Iter | udf/wikixmlapi/src/main/java/wikiapi/CollectStats.java:96-107 | n steps along the chain, stopping at a value that is no key; `IterAdd` splits it |
| CollectStatsXml.ExitStep | udf/wikixmlapi/src/main/java/wikiapi/CollectStats.java:96-107 | one step from a key keeps whether the chain runs out and where, and the steps left fall by one |
| CollectStatsXml.ChaseTracks | udf/wikixmlapi/src/main/java/wikiapi/CollectStats.java:92-108 | on any map, one entry's loop keeps it exactly when the original chain from its value runs out, with the chain end as its value; every live value still leads to the original chain end |
| CollectStatsXml.FilterTracks | udf/wikixmlapi/src/main/java/wikiapi/CollectStats.java:88-109 | after a run of entries, a key is kept exactly when it was kept before or is in the run and its chain runs out, and kept values are chain ends |
| CollectStatsXml.FilterKeepsExactlyRunningOut | udf/wikixmlapi/src/main/java/wikiapi/CollectStats.java:88-109 | on any map and for every iteration order, the filter keeps a key exactly when its chain runs out of redirects, and maps it to the chain end |
| CollectStatsXml.Path | udf/wikixmlapi/src/main/java/wikiapi/CollectStats.java:96-107 | the first n + 1 values of the chain, in order |
| CollectStatsXml.DistinctWithin | udf/wikixmlapi/src/main/java/wikiapi/CollectStats.java:96-103 | pairwise distinct keys are no more than the key set: the pigeonhole step |
| CollectStatsXml.CycleKeys | udf/wikixmlapi/src/main/java/wikiapi/CollectStats.java:96-103 | every value on a cycle through a key is a key |
| CollectStatsXml.RevisitsIffStuck | udf/wikixmlapi/src/main/java/wikiapi/CollectStats.java:96-103 | a chain revisits a redirect exactly when it never leaves the redirects |
| CollectStatsXml.FilterDropsExactlyRevisits | udf/wikixmlapi/src/main/java/wikiapi/CollectStats.java:88-109 | on any map and for every iteration order, the filter drops a key exactly when the chain from its value revisits a redirect |
| HazyCollectStats.GetRedirects | udf/wikiapi/src/main/java/edu/stanford/cs/hazy/wikiapi/CollectStats.java:55-79 | the resolved redirect map, and every unresolved normalised target in row order |
| HazyCollectStats.ReportsUnresolved | udf/wikiapi/src/main/java/edu/stanford/cs/hazy/wikiapi/CollectStats.java:66-73 | every reported target is uncached or has a negative id; the udf tool reports exactly those of them without '#' |
| HazyCollectStats.PrintNonFlat | udf/wikiapi/src/main/java/edu/stanford/cs/hazy/wikiapi/CollectStats.java:86-91 | the values loop prints `NonFlatOutput` through the bimap's inverse |
| HazyCollectStats.NonFlatNeverNull | udf/wikiapi/src/main/java/edu/stanford/cs/hazy/wikiapi/CollectStats.java:84-91 | no printed line is null: each is a cached title whose id is itself a redirect |
| LinkAnnotationConverter.CleanAt | input/wikiapi/src/main/java/wikiapi/processors/LinkAnnotationConverter.java:42-57 | one step of the scan: "{{" raises the depth, "}}" lowers it, and any other character is copied only at depth 0 |
| LinkAnnotationConverter.Clean | input/wikiapi/src/main/java/wikiapi/processors/LinkAnnotationConverter.java:37-59 | the text `cleanContent` keeps at a brace depth: "{{" raises and "}}" lowers it, and other characters are copied only at depth 0; its properties are the Clean* lemmas below |
| LinkAnnotationConverter.CleanContent | input/wikiapi/src/main/java/wikiapi/processors/LinkAnnotationConverter.java:37-59 | the scan loop of `cleanContent` returns `Clean(content, 0)` |
| LinkAnnotationConverter.CleanSelects | input/wikiapi/src/main/java/wikiapi/processors/LinkAnnotationConverter.java:37-59 | the cleaned text is the input's characters picked by a mask, in order |
| LinkAnnotationConverter.CleanIsSubsequence | input/wikiapi/src/main/java/wikiapi/processors/LinkAnnotationConverter.java:37-59 | `cleanContent` only deletes characters |
| LinkAnnotationConverter.CleanWithoutDelimiters | input/wikiapi/src/main/java/wikiapi/processors/LinkAnnotationConverter.java:37-59 | text with neither "{{" nor "}}" is returned unchanged |
| LinkAnnotationConverter.CleanPlain | input/wikiapi/src/main/java/wikiapi/processors/LinkAnnotationConverter.java:53-56 | a run without braces is copied at depth 0 and dropped at any other depth |
| LinkAnnotationConverter.CleanDelimiter | input/wikiapi/src/main/java/wikiapi/processors/LinkAnnotationConverter.java:43-52 | a leading "{{" raises and a leading "}}" lowers the depth, and both are consumed |
| LinkAnnotationConverter.CleanFlatTemplate | input/wikiapi/src/main/java/wikiapi/processors/LinkAnnotationConverter.java:37-59 | a template without braces inside is removed at any depth of at least 0 |
| LinkAnnotationConverter.CleanNestedTemplate | input/wikiapi/src/main/java/wikiapi/processors/LinkAnnotationConverter.java:37-59 | a template nested in a template is removed whole, and the text around it is kept |
| LinkAnnotationConverter.CleanExample | input/wikiapi/src/main/java/wikiapi/processors/LinkAnnotationConverter.java:37-59 | "a {{b{{c}}d}} e" cleans to "a  e" |
| LinkAnnotationConverter.CleanUnmatchedClose | input/wikiapi/src/main/java/wikiapi/processors/LinkAnnotationConverter.java:48-52 | the depth is not clamped at 0: after an unmatched "}}" nothing more is copied |
| LinkAnnotationConverter.Blank | input/wikiapi/src/main/java/wikiapi/processors/LinkAnnotationConverter.java:167-171 | `blank`: an empty or negative range, or only white space in it; `BlankRange` states it on valid ranges |
| LinkAnnotationConverter.BlankRange | input/wikiapi/src/main/java/wikiapi/processors/LinkAnnotationConverter.java:167-171 | on a valid range, `blank` holds exactly when every character in it is white space |
| LinkAnnotationConverter.RenderSpecialTags | input/wikiapi/src/main/java/wikiapi/processors/LinkAnnotationConverter.java:28-35 | "" unless the body is the literal {{transl}}; then the href, same length, with each '_' as ' ' and every other character kept |
| LinkAnnotationConverter.ListToText | input/wikiapi/src/main/java/wikiapi/processors/LinkAnnotationConverter.java:75-165 | what `nodesToText` appends for a list: nothing for an empty list, only the error span past the limit, else the items one level deeper; its spans are characterised by `ListSpans` and the converter class is proved against it |
| LinkAnnotationConverter.ItemsToText | input/wikiapi/src/main/java/wikiapi/processors/LinkAnnotationConverter.java:85-160 | the items of a list converted in order, each after the text of those before it; `ItemsSpans` bounds its spans |
| LinkAnnotationConverter.AnchorToText | input/wikiapi/src/main/java/wikiapi/processors/LinkAnnotationConverter.java:100-129 | an anchor with an href: a space, its children, the {{transl}} fallback when blank, a space, and its own span last when not blank; `AnchorSpans` and `AnchorPadding` state its shape |
| LinkAnnotationConverter.ItemToText | input/wikiapi/src/main/java/wikiapi/processors/LinkAnnotationConverter.java:86-159 | one item by kind: content cleaned, lists and plain tags as their children, ref dropped, anchors by `AnchorToText`, section titles, a-nodes and br/hr end tags as the source does; `ItemSpans`, `RefDropped`, `UnlinkedTagIsPlain`, `TagNodeText` and `EndTagText` state it |
| LinkAnnotationConverter.ListSpans | input/wikiapi/src/main/java/wikiapi/processors/LinkAnnotationConverter.java:75-165 | every reported span lies in the appended text, right after a space, and covers a non-blank surface |
| LinkAnnotationConverter.ItemsSpans | input/wikiapi/src/main/java/wikiapi/processors/LinkAnnotationConverter.java:85-160 | the same for the items of a list converted in order |
| LinkAnnotationConverter.ItemSpans | input/wikiapi/src/main/java/wikiapi/processors/LinkAnnotationConverter.java:85-159 | the same for one item |
| LinkAnnotationConverter.AnchorSpans | input/wikiapi/src/main/java/wikiapi/processors/LinkAnnotationConverter.java:100-129 | the same for an anchor: its children's spans and its own |
| LinkAnnotationConverter.AnchorPadding | input/wikiapi/src/main/java/wikiapi/processors/LinkAnnotationConverter.java:103-127 | an anchor's text is its span with exactly one space on each side |
| LinkAnnotationConverter.BlankAnchorUnreported | input/wikiapi/src/main/java/wikiapi/processors/LinkAnnotationConverter.java:109-123 | a blank anchor whose body is not {{transl}} reports no span of its own |
| LinkAnnotationConverter.UnlinkedTagIsPlain | input/wikiapi/src/main/java/wikiapi/processors/LinkAnnotationConverter.java:100-131 | an anchor without an href, and any tag other than a and ref, renders as its bare children |
| LinkAnnotationConverter.RefDropped | input/wikiapi/src/main/java/wikiapi/processors/LinkAnnotationConverter.java:96-99 | a ref tag adds no text and no span |
| LinkAnnotationConverter.RecursionLimit | input/wikiapi/src/main/java/wikiapi/processors/LinkAnnotationConverter.java:78-84 | a non-empty list entered past the limit yields only the error span, with no span |
| LinkAnnotationConverter.EndTagText | input/wikiapi/src/main/java/wikiapi/processors/LinkAnnotationConverter.java:148-155 | only br and hr end tags add text: exactly two newlines |
| LinkAnnotationConverter.TagNodeText | input/wikiapi/src/main/java/wikiapi/processors/LinkAnnotationConverter.java:133-147 | a section-title span is dropped unless section titles are kept; a non-HTML a yields its body; any other tag node yields nothing |
| LinkAnnotationConverter.Converter.constructor | input/wikiapi/src/main/java/wikiapi/processors/LinkAnnotationConverter.java:61-72 | a new converter holds the given flags, an empty buffer, no spans and level 0 |
| LinkAnnotationConverter.Converter.NodesToText | input/wikiapi/src/main/java/wikiapi/processors/LinkAnnotationConverter.java:75-165 | the buffer grows by the list's text and the span list by its spans; the level is restored |
| LinkAnnotationConverter.Converter.ConvertItem | input/wikiapi/src/main/java/wikiapi/processors/LinkAnnotationConverter.java:85-159 | one loop iteration appends the item's text and spans |
| LinkAnnotationConverter.Converter.Anchor | input/wikiapi/src/main/java/wikiapi/processors/LinkAnnotationConverter.java:100-129 | an anchor with an href appends a space, its children, its fallback and a space, then reports its own span |
| LinkAnnotationConverter.Converter.CloseAnchor | input/wikiapi/src/main/java/wikiapi/processors/LinkAnnotationConverter.java:108-127 | a blank span gets the {{transl}} fallback, the span is reported only when not blank, and a closing space follows |
| PlainTextWikiModel.DefaultAcceptsByFirstColon | input/wikiapi/src/main/java/wikiapi/processors/PlainTextWikiModel.java:32-40 | the default filter accepts a title exactly when it has no ':' or the text before its first ':' is no namespace |
| PlainTextWikiModel.DefaultAccepts | input/wikiapi/src/main/java/wikiapi/processors/PlainTextWikiModel.java:32-40 | the default filter's test: no ':', or a text before the first ':' that is no namespace; `DefaultAcceptsByFirstColon` states it from the first ':' |
| PlainTextWikiModel.DefaultFilter | input/wikiapi/src/main/java/wikiapi/processors/PlainTextWikiModel.java:32-40 | the default filter as a predicate value, accepting exactly what `DefaultAccepts` accepts |
| PlainTextWikiModel.RedirectError | input/wikiapi/src/main/java/wikiapi/processors/PlainTextWikiModel.java:153-156 | the text returned past the parser's recursion limit: the fixed message, then namespace, ':' and article; `GetRedirectedWikiContent` returns it above the limit |
| PlainTextWikiModel.SplitRedirect | input/wikiapi/src/main/java/wikiapi/processors/PlainTextWikiModel.java:139-150 | a non-empty namespace prefix without ':' is split off, so namespace + ":" + article is the link; otherwise the whole link is the article |
| PlainTextWikiModel.SplitRedirectNamespaced | input/wikiapi/src/main/java/wikiapi/processors/PlainTextWikiModel.java:142-147 | a namespace prefix before the first ':' is always split off |
| PlainTextWikiModel.SplitRedirectPlain | input/wikiapi/src/main/java/wikiapi/processors/PlainTextWikiModel.java:142-150 | a link whose prefix is no namespace is looked up whole, in the main namespace |
| PlainTextWikiModel.PlainTextWikiModel.constructor | input/wikiapi/src/main/java/wikiapi/processors/PlainTextWikiModel.java:50-54 | a null filter keeps the default namespace filter, and any other filter replaces it |
| PlainTextWikiModel.PlainTextWikiModel.AppendInternalLink | input/wikiapi/src/main/java/wikiapi/processors/PlainTextWikiModel.java:173-188 | the anchor carries the href only when the filter accepts it, holds the parsed trimmed description, and is added either way |
| PlainTextWikiModel.PlainTextWikiModel.GetRedirectedWikiContent | input/wikiapi/src/main/java/wikiapi/processors/PlainTextWikiModel.java:132-164 | short or non-redirect text comes back as is; otherwise the split link is fetched one level deeper, or the error text is returned past the limit; the level is restored |
| PlainTextWikiModel.RejectedLinkIsPlain | input/wikiapi/src/main/java/wikiapi/processors/PlainTextWikiModel.java:181-187 | a link the filter rejects renders exactly as its description's text, with no span of its own |
| PageMeta.RedirectText | input/wikiapi/src/main/java/wikiapi/processors/PageMeta.java:66-70 | without the prefix there is no target; with it, the target is the `substringBetween` of "[[" and "]]"; a target never holds "]]" |
| PageMeta.RedirectSpelling | input/wikiapi/src/main/java/wikiapi/processors/PageMeta.java:77-87 | any nine characters that upper-case to "#REDIRECT" begin a redirect |
| PageMeta.RedirectPrefixAnyCase | input/wikiapi/src/main/java/wikiapi/processors/PageMeta.java:82-83 | "#REDIRECT", "#redirect" and "#Redirect" all begin a redirect |
| PageMeta.ShortTextNotRedirect | input/wikiapi/src/main/java/wikiapi/processors/PageMeta.java:79-80 | a text shorter than nine characters is never a redirect |
| PageMeta.RedirectTargetWhole | input/wikiapi/src/main/java/wikiapi/processors/PageMeta.java:66-70 | the target of a "#REDIRECT … [[target]] …" text is exactly the bracketed target |
| PageMeta.RedirectTargetKeepsPipe | input/wikiapi/src/main/java/wikiapi/processors/PageMeta.java:67 | "#REDIRECT [[A\|b]]" redirects to "A\|b": the pipe is kept |
| PageMeta.HasRedirectPrefix | input/wikiapi/src/main/java/wikiapi/processors/PageMeta.java:77-87 | `isRedirect()` on the text: at least nine characters whose first nine upper-case to "#REDIRECT"; `RedirectSpelling`, `RedirectPrefixAnyCase` and `ShortTextNotRedirect` state it |
| PageMeta.IsRedirectPage | input/wikiapi/src/main/java/wikiapi/processors/PageMeta.java:66-70 | the constructor's final redirect answer: the prefix and a non-empty `substringBetween` target; `PageMeta.constructor` caches it |
| PageMeta.IsStubText | input/wikiapi/src/main/java/wikiapi/processors/PageMeta.java:71 | `STUB_PATTERN.matcher(text).find()`: the literal "-stub}}" occurs in the text; `PageMeta.constructor` caches it as the stub flag |
| PageMeta.Uncapitalize | input/wikiapi/src/main/java/wikiapi/processors/PageMeta.java:42 | the first letter is lower-cased and the rest is kept |
| PageMeta.WithUncapitalized | input/wikiapi/src/main/java/wikiapi/processors/PageMeta.java:38-44 | each template name is followed by its uncapitalised form; the list is twice as long |
| PageMeta.DisambiguationNamesListed | input/wikiapi/src/main/java/wikiapi/processors/PageMeta.java:35-49 | the pattern has ten names, written out, with "DAB" becoming "dAB" |
| PageMeta.DisambiguationTemplateFound | input/wikiapi/src/main/java/wikiapi/processors/PageMeta.java:46-51 | "{{", any of the ten names and then '\|' or '}', anywhere in the text, makes a disambiguation page |
| PageMeta.HasDisambiguationTemplate | input/wikiapi/src/main/java/wikiapi/processors/PageMeta.java:46-51 | `DISAMB_TEMPLATE_PATTERN.matcher(text).find()`: "{{", one of the ten names and '\|' or '}' at some position; `DisambiguationTemplateFound` states it |
| PageMeta.IsDisambiguationPage | input/wikiapi/src/main/java/wikiapi/processors/PageMeta.java:73-74 | the constructor's disambiguation answer: the title ends in "(disambiguation)" or the text holds a template; `PageMeta.constructor` caches it |
| PageMeta.CloseFrom | input/wikiapi/src/main/java/wikiapi/processors/PageMeta.java:52-53 | the lazy `(.*?)\]\]` payload ends before a "]]" inside the text |
| PageMeta.CloseFromShortest | input/wikiapi/src/main/java/wikiapi/processors/PageMeta.java:52-53 | the payload ends at the first "]]" and holds no line terminator |
| PageMeta.Find | input/wikiapi/src/main/java/wikiapi/processors/PageMeta.java:123-124 | a match starts at or after the search position; its payload follows the opener and ends before a "]]" |
| PageMeta.FindLeftmost | input/wikiapi/src/main/java/wikiapi/processors/PageMeta.java:124 | `find()` returns the leftmost match at or after the search position, and nothing only when there is none |
| PageMeta.PayloadShortest | input/wikiapi/src/main/java/wikiapi/processors/PageMeta.java:52-53 | the payload of a match holds no "]]" and no line terminator |
| PageMeta.PayloadsShortest | input/wikiapi/src/main/java/wikiapi/processors/PageMeta.java:123-124 | every payload of the successive matches holds no "]]" and no line terminator |
| PageMeta.FirstToken | input/wikiapi/src/main/java/wikiapi/processors/PageMeta.java:125 | `StringUtils.split(p, '\|')[0]` is never empty |
| PageMeta.FirstTokenOf | input/wikiapi/src/main/java/wikiapi/processors/PageMeta.java:125 | the first token has no '\|' and only characters of the payload; there is none exactly when the payload is all '\|' |
| PageMeta.FirstTokens | input/wikiapi/src/main/java/wikiapi/processors/PageMeta.java:124-128 | at most one category per match |
| PageMeta.ArticleTokens | input/wikiapi/src/main/java/wikiapi/processors/PageMeta.java:134-142 | at most one link per match |
| PageMeta.AddCategory | input/wikiapi/src/main/java/wikiapi/processors/PageMeta.java:125-127 | the loop body adds the payload's first token, when there is one |
| PageMeta.AddLink | input/wikiapi/src/main/java/wikiapi/processors/PageMeta.java:135-141 | the loop body adds the payload's first token unless it has a ':' |
| PageMeta.CollectCategories | input/wikiapi/src/main/java/wikiapi/processors/PageMeta.java:123-128 | the `find()` loop collects the first token of each "[[Category:…]]" payload, in match order |
| PageMeta.CollectLinks | input/wikiapi/src/main/java/wikiapi/processors/PageMeta.java:133-142 | the `find()` loop collects the first token of each "[[…]]" payload that has no ':', in match order |
| PageMeta.Categories | input/wikiapi/src/main/java/wikiapi/processors/PageMeta.java:119-129 | what `parseCategories` collects: nothing for empty text, else the first token of each "[[Category:…]]" payload; `CollectCategories` is proved against it and `CategoriesAreTokens` bounds it |
| PageMeta.Links | input/wikiapi/src/main/java/wikiapi/processors/PageMeta.java:131-143 | what `parseLinks` collects: the first token of each "[[…]]" payload that has no ':'; `CollectLinks` is proved against it and `LinksAreArticleNames` bounds it |
| PageMeta.FirstTokensAreTokens | input/wikiapi/src/main/java/wikiapi/processors/PageMeta.java:125-140 | the collected categories and links are non-empty, with no '\|' and no line break; links have no ':' |
| PageMeta.CategoriesAreTokens | input/wikiapi/src/main/java/wikiapi/processors/PageMeta.java:119-129 | every category is non-empty, with no '\|' and no line break |
| PageMeta.LinksAreArticleNames | input/wikiapi/src/main/java/wikiapi/processors/PageMeta.java:131-143 | every link is non-empty, with no '\|', no ':' and no line break |
| PageMeta.ArticleTokensAreFirstTokens | input/wikiapi/src/main/java/wikiapi/processors/PageMeta.java:131-143 | every link is also the first token of some "[[…]]" payload |
| PageMeta.PageMeta.constructor | input/wikiapi/src/main/java/wikiapi/processors/PageMeta.java:57-75 | caches the redirect answer and target, the stub flag and the disambiguation flag for the text; a null article keeps the defaults; null text is "" and no redirect |
| PageMeta.PageMeta.ReadText | input/wikiapi/src/main/java/wikiapi/processors/PageMeta.java:66-74 | the fields for a non-null text: redirect answer, target, stub flag and disambiguation flag |
| PageMeta.PageMeta.ReadRedirect | input/wikiapi/src/main/java/wikiapi/processors/PageMeta.java:66-70 | the redirect answer is the prefix test plus a non-empty target, and the target is cached |
| PageMeta.PageMeta.IsRedirect | input/wikiapi/src/main/java/wikiapi/processors/PageMeta.java:77-87 | returns the cached answer, or runs the prefix test and caches it; a cached true keeps a non-empty target |
| PageMeta.PageMeta.GetRedirectedTitle | input/wikiapi/src/main/java/wikiapi/processors/PageMeta.java:97-101 | a canonical title exactly when the page is a redirect; null otherwise |
| PageMeta.PageMeta.ParseCategories | input/wikiapi/src/main/java/wikiapi/processors/PageMeta.java:119-129 | sets the category list to the categories of the text and changes nothing else |
| PageMeta.PageMeta.ParseLinks | input/wikiapi/src/main/java/wikiapi/processors/PageMeta.java:131-143 | sets the link list to the links of the text and changes nothing else |
| PageMeta.PageMeta.GetCategories | input/wikiapi/src/main/java/wikiapi/processors/PageMeta.java:107-111 | returns the stored list when there is one, and parses only when the field is null |
| PageMeta.PageMeta.GetLinks | input/wikiapi/src/main/java/wikiapi/processors/PageMeta.java:113-117 | returns the stored list when there is one, and parses only when the field is null |
| PageMeta.FreshGettersAreEmpty | input/wikiapi/src/main/java/wikiapi/processors/PageMeta.java:107-117 | a fresh PageMeta's category and link getters return empty lists, whatever the text |
| WikiDumpParser.GetSurface | input/wikiapi/src/main/java/wikiapi/WikiDumpParser.java:52-54 | the surface is the characters of the text in the span, and its length is the span's |
| WikiDumpParser.NormalizedLink | input/wikiapi/src/main/java/wikiapi/WikiDumpParser.java:61-63 | the link as a canonical title: no '_', the same length, stable under renormalisation |
| WikiDumpParser.HrefsOf | input/wikiapi/src/main/java/wikiapi/WikiDumpParser.java:131-136 | one Href per `hasLink` call, with its target and span, in call order |
| WikiDumpParser.Admits | input/wikiapi/src/main/java/wikiapi/WikiDumpParser.java:125-126 | the pages `process` renders: main namespace, non-empty text, not a special title |
| WikiDumpParser.Rendered | input/wikiapi/src/main/java/wikiapi/WikiDumpParser.java:127-137 | what a fresh converter with section titles dropped makes of the page's parse tree, from level 0 |
| WikiDumpParser.TaskResult | input/wikiapi/src/main/java/wikiapi/WikiDumpParser.java:129-145 | the parsing task's annotation: "" and no links for an empty rendering, else the text and one Href per span |
| WikiDumpParser.Expected | input/wikiapi/src/main/java/wikiapi/WikiDumpParser.java:120-159 | the annotation for any page: the task's for an admitted page, "" and no links for the others; `AnnotationShape` and `Process` state it |
| WikiDumpParser.ExpectedAll | input/wikiapi/src/main/java/wikiapi/WikiDumpParser.java:120-159 | one annotation per page, in page order |
| WikiDumpParser.AnnotationShape | input/wikiapi/src/main/java/wikiapi/WikiDumpParser.java:125-158 | each annotation belongs to its page; an unrendered or empty page has "" and no links; every span lies in the text, after a space, over a non-blank surface |
| WikiDumpParser.WikiDumpParser.constructor | input/wikiapi/src/main/java/wikiapi/WikiDumpParser.java:86-89 | a new feeder holds its filter, counts from 0 and has handed nothing over |
| WikiDumpParser.WikiDumpParser.Silence | input/wikiapi/src/main/java/wikiapi/WikiDumpParser.java:105-108 | progress is switched off and nothing else changes |
| WikiDumpParser.WikiDumpParser.SetTitleFilter | input/wikiapi/src/main/java/wikiapi/WikiDumpParser.java:115-118 | the filter is replaced and nothing else changes |
| WikiDumpParser.WikiDumpParser.GetParsedPageCount | input/wikiapi/src/main/java/wikiapi/WikiDumpParser.java:190-192 | the number of counted parsing jobs, a Java int |
| WikiDumpParser.WikiDumpParser.RunTask | input/wikiapi/src/main/java/wikiapi/WikiDumpParser.java:129-145 | the parsing task hands over the converter's text and spans, or "" and no links when the text is empty |
| WikiDumpParser.WikiDumpParser.Process | input/wikiapi/src/main/java/wikiapi/WikiDumpParser.java:120-159 | every page gets its annotation; an admitted page is counted while progress is on, with a progress line at each multiple of 500 |
| WikiDumpFilter.FilterAll | input/wikiapi/src/main/java/wikiapi/WikiDumpFilter.java:109-145 | at most one annotation per page |
| WikiDumpFilter.FilterResult | input/wikiapi/src/main/java/wikiapi/WikiDumpFilter.java:114-144 | the filter's call for a page: none for an admitted page that renders to "", else the rendering or "" and no links; `FilterAgreesWithParser` relates it to `Expected` |
| WikiDumpFilter.FilterAgreesWithParser | input/wikiapi/src/main/java/wikiapi/WikiDumpFilter.java:126-130 | the filter hands over what WikiDumpParser does, except that an admitted page rendering to "" is dropped |
| WikiDumpFilter.FilterAllShape | input/wikiapi/src/main/java/wikiapi/WikiDumpFilter.java:114-144 | each annotation belongs to one of the pages; an admitted page has non-empty text, and any other page has "" and no links |
| WikiDumpFilter.FilterAllUnadmitted | input/wikiapi/src/main/java/wikiapi/WikiDumpFilter.java:142-144 | a run without admitted pages is handed over page for page, exactly like WikiDumpParser |
| WikiDumpFilter.WikiDumpFilter.constructor | input/wikiapi/src/main/java/wikiapi/WikiDumpFilter.java:75-78 | a new filter feeder holds its filter, counts from 0 and has handed nothing over |
| WikiDumpFilter.WikiDumpFilter.Silence | input/wikiapi/src/main/java/wikiapi/WikiDumpFilter.java:94-97 | progress is switched off and nothing else changes |
| WikiDumpFilter.WikiDumpFilter.SetTitleFilter | input/wikiapi/src/main/java/wikiapi/WikiDumpFilter.java:104-107 | the filter is replaced and nothing else changes |
| WikiDumpFilter.WikiDumpFilter.GetParsedPageCount | input/wikiapi/src/main/java/wikiapi/WikiDumpFilter.java:177-179 | the number of counted parsing jobs, a Java int |
| WikiDumpFilter.WikiDumpFilter.RunTask | input/wikiapi/src/main/java/wikiapi/WikiDumpFilter.java:118-131 | the task hands over the rendering only when it is not empty |
| WikiDumpFilter.WikiDumpFilter.Process | input/wikiapi/src/main/java/wikiapi/WikiDumpFilter.java:109-145 | an admitted page is rendered and counted while progress is on; any other page gets "" and no links |
| DumpParser.DefaultThreadCount | udf/wikiapi/src/main/java/wikiapi/DumpParser.java:54-57 | half the processors, but at most 80 |
| DumpParser.DefaultPoolSize | udf/wikiapi/src/main/java/wikiapi/DumpParser.java:168-179 | default pool: 1 thread below 4 processors, half the processors minus 1 up to 161, and 79 from 162 on |
| DumpParser.IsContentPage | udf/wikiapi/src/main/java/wikiapi/DumpParser.java:80-81 | the pages rendered: main or category namespace, with non-empty text |
| DumpParser.Row | udf/wikiapi/src/main/java/wikiapi/DumpParser.java:90-93 | the four columns escaped and joined by commas; `RowRoundTrip` reads it back |
| DumpParser.RowOf | udf/wikiapi/src/main/java/wikiapi/DumpParser.java:80-100 | a content page that renders gives its row, and any other page (or a throwing render) gives none; `RowsOfPages` states it for a run |
| DumpParser.RowRoundTrip | udf/wikiapi/src/main/java/wikiapi/DumpParser.java:90-93 | a printed row reads back as exactly the id, title, HTML and markup |
| DumpParser.RowsOf | udf/wikiapi/src/main/java/wikiapi/DumpParser.java:80-100 | at most one row per page |
| DumpParser.RowsOfPages | udf/wikiapi/src/main/java/wikiapi/DumpParser.java:80-100 | every row comes from a content page that rendered, and reads back as its four columns |
| DumpParser.DumpParser.constructor | udf/wikiapi/src/main/java/wikiapi/DumpParser.java:41-61 | the counters start at 0, progress is on and nothing is printed |
| DumpParser.DumpParser.Silence | udf/wikiapi/src/main/java/wikiapi/DumpParser.java:68-71 | progress is switched off and nothing else changes |
| DumpParser.DumpParser.Process | udf/wikiapi/src/main/java/wikiapi/DumpParser.java:76-111 | a content page prints its row unless rendering throws; every call is counted while progress is on |
| HazyDumpParser.DefaultThreadCount | udf/wikiapi/src/main/java/edu/stanford/cs/hazy/wikiapi/DumpParser.java:61-64 | half the processors, but at most 10 |
| HazyDumpParser.DefaultPoolSize | udf/wikiapi/src/main/java/edu/stanford/cs/hazy/wikiapi/DumpParser.java:188-198 | default pool: 1 thread below 4 processors, half the processors minus 1 up to 21, and 9 from 22 on |
| HazyDumpParser.Columns | udf/wikiapi/src/main/java/edu/stanford/cs/hazy/wikiapi/DumpParser.java:102-105 | four columns, none holding a tab |
| HazyDumpParser.TabRow | udf/wikiapi/src/main/java/edu/stanford/cs/hazy/wikiapi/DumpParser.java:102-105 | the four tab-free columns joined by tabs; `TabRowFields` splits it back |
| HazyDumpParser.TabRowFields | udf/wikiapi/src/main/java/edu/stanford/cs/hazy/wikiapi/DumpParser.java:102-105 | a row has exactly three tabs, and splitting it at them gives back the four columns |
| HazyDumpParser.PrintATable | udf/wikiapi/src/main/java/edu/stanford/cs/hazy/wikiapi/DumpParser.java:80-83 | nothing without "<table>"; otherwise the text up to the next "</table>", delimited in the HTML, or "null" when no "</table>" follows |
| HazyDumpParser.RowsOf | udf/wikiapi/src/main/java/edu/stanford/cs/hazy/wikiapi/DumpParser.java:92-112 | at most one row per page |
| HazyDumpParser.RowOf | udf/wikiapi/src/main/java/edu/stanford/cs/hazy/wikiapi/DumpParser.java:92-112 | a content page that renders gives its tab row, and any other page gives none; `SameRowsAsCsv` relates it to the udf rows |
| HazyDumpParser.SameRowsAsCsv | udf/wikiapi/src/main/java/edu/stanford/cs/hazy/wikiapi/DumpParser.java:92-93 | the tab rows and the udf CSV rows are printed for the same pages |
| HazyDumpParser.HazyDumpParser.constructor | udf/wikiapi/src/main/java/edu/stanford/cs/hazy/wikiapi/DumpParser.java:43-47 | the counter starts at 0, progress is on and nothing is printed |
| HazyDumpParser.HazyDumpParser.Silence | udf/wikiapi/src/main/java/edu/stanford/cs/hazy/wikiapi/DumpParser.java:75-78 | progress is switched off and nothing else changes |
| HazyDumpParser.HazyDumpParser.Process | udf/wikiapi/src/main/java/edu/stanford/cs/hazy/wikiapi/DumpParser.java:88-121 | a content page prints its tab row unless rendering throws; every call is counted while progress is on |
| CSVDumper.DoubleQuotes | input/wikiapi/src/main/java/wikiapi/CSVDumper.java:39 | quote doubling never shortens a field and leaves a field without quotes alone |
| CSVDumper.EscapeCsv | input/wikiapi/src/main/java/wikiapi/CSVDumper.java:39 | a field needing no quotes is written as it is; any other field is wrapped in quotes |
| CSVDumper.ParseFields | input/wikiapi/src/main/java/wikiapi/CSVDumper.java:39 | an independent RFC 4180 reader for the escaped records: at least one field, split at commas outside quotes |
| CSVDumper.JoinCsv | input/wikiapi/src/main/java/wikiapi/CSVDumper.java:37-40 | the fields escaped and joined by commas; `JoinCsvParses` reads it back |
| CSVDumper.ParseEscaped | input/wikiapi/src/main/java/wikiapi/CSVDumper.java:39 | an escaped field, followed by a comma or the end, reads back as itself |
| CSVDumper.JoinCsvParses | input/wikiapi/src/main/java/wikiapi/CSVDumper.java:36-41 | a joined record reads back as its fields, whatever characters they hold |
| CSVDumper.ValueOf | input/wikiapi/src/main/java/wikiapi/CSVDumper.java:38 | `String.valueOf`: null is "null", a Boolean is "true"/"false", an Integer is its decimal form |
| Strings.NatToStringRoundTrip | input/wikiapi/src/main/java/wikiapi/CSVDumper.java:38 | the decimal form of a natural number is all digits, reads back as the number, and has no leading zero except for 0 |
| Strings.IntToStringRoundTrip | input/wikiapi/src/main/java/wikiapi/CSVDumper.java:38 | `String.valueOf` of an Integer: an optional '-' and digits that read back as the integer |
| CSVDumper.ValuesOf | input/wikiapi/src/main/java/wikiapi/CSVDumper.java:38 | each value printed, in order |
| CSVDumper.CsvLine | input/wikiapi/src/main/java/wikiapi/CSVDumper.java:36-41 | `csvLine`: the printed fields escaped and joined, with no line break; `CsvLineRoundTrip` reads it back |
| CSVDumper.CsvLineRoundTrip | input/wikiapi/src/main/java/wikiapi/CSVDumper.java:36-41 | a CSV line reads back as its printed fields |
| CSVDumper.CsvArr | input/wikiapi/src/main/java/wikiapi/CSVDumper.java:43-47 | an array is braced, and the empty array is "{}" |
| CSVDumper.CsvArrRoundTrip | input/wikiapi/src/main/java/wikiapi/CSVDumper.java:43-47 | the text between an array's braces reads back as its printed elements |
| CSVDumper.Starts | input/wikiapi/src/main/java/wikiapi/CSVDumper.java:50 | the start offsets, in link order |
| CSVDumper.Ends | input/wikiapi/src/main/java/wikiapi/CSVDumper.java:51 | the end offsets, in link order |
| CSVDumper.Targets | input/wikiapi/src/main/java/wikiapi/CSVDumper.java:52 | the link targets, in link order |
| CSVDumper.Texts | input/wikiapi/src/main/java/wikiapi/CSVDumper.java:99 | the categories as string values, in order |
| CSVDumper.LinkStr | input/wikiapi/src/main/java/wikiapi/CSVDumper.java:49-53 | the start, end and target arrays, comma separated; the three *Column lemmas read each back |
| CSVDumper.LinkStrEmpty | input/wikiapi/src/main/java/wikiapi/CSVDumper.java:49-53 | no links give three empty arrays |
| CSVDumper.StartsColumn | input/wikiapi/src/main/java/wikiapi/CSVDumper.java:50 | the first link array reads back as the starts, in order |
| CSVDumper.EndsColumn | input/wikiapi/src/main/java/wikiapi/CSVDumper.java:51 | the second link array reads back as the ends, in the same order |
| CSVDumper.TargetsColumn | input/wikiapi/src/main/java/wikiapi/CSVDumper.java:52 | the third link array reads back as the targets, in the same order |
| CSVDumper.PageRow | input/wikiapi/src/main/java/wikiapi/CSVDumper.java:102-111 | a page's line ends with the category array and a line break |
| CSVDumper.PageFieldsRoundTrip | input/wikiapi/src/main/java/wikiapi/CSVDumper.java:102-107 | the fixed part reads back as id, canonical title, plain text, flag and redirect title (or "null") |
| CSVDumper.FreshRedirectTarget | input/wikiapi/src/main/java/wikiapi/CSVDumper.java:95 | the redirect column holds a non-empty canonical title exactly when the page is a redirect |
| CSVDumper.ProcessAnnotation | input/wikiapi/src/main/java/wikiapi/CSVDumper.java:88-117 | the line holds the meta's flag, redirect title and categories; the meta stays consistent |
| CSVDumper.DumpPage | input/wikiapi/src/main/java/wikiapi/CSVDumper.java:86-117 | with a fresh PageMeta the line uses the page's own classification and ends in ",{}" and a line break |
| CSVDumper.ChunkWriters.constructor | input/wikiapi/src/main/java/wikiapi/CSVDumper.java:73-83 | no chunk file is open and no writer has a number yet |
| CSVDumper.ChunkWriters.Get | input/wikiapi/src/main/java/wikiapi/CSVDumper.java:113 | the first `get()` asks `initialValue` (a new numbered chunk file when overridden, null otherwise); later calls return the same value |
| CSVDumper.ChunkWriters.Write | input/wikiapi/src/main/java/wikiapi/CSVDumper.java:113-116 | writing appends the line to the thread's chunk file, and fails without change when the writer is null |
| CSVDumper.DumpAsWritten | input/wikiapi/src/main/java/wikiapi/CSVDumper.java:73-83 | as written, the first write throws and ends the run: at most one row is attempted, the run aborts exactly when there is a row, and no chunk file is opened |
| CSVDumper.DumpIntended | input/wikiapi/src/main/java/wikiapi/CSVDumper.java:73-83 | with `initialValue` overridden, nothing aborts, every row is attempted, and every line goes, in order, into one chunk file |

## Left out

- **File, stream, JDBC and XML I/O.** Dump reading, `parseDump`/`parseDumpWith` and SQL execution are not modelled. Query results are sequences of rows, and printed output is a sequence of lines.
- **The `main` methods, in part.** Argument handling, opening the dump and closing the writers are not modelled. The modelled parts of each `main` are:
  - CSVDumper's: the writer pool and its writes (`ChunkWriters`, `DumpAsWritten`, `DumpIntended`);
  - the udf CollectStats's: the id cache, the redirect query, the `replaceAll` and the report loop (`GetIds`, `GetRedirects`, `Flatten`, `NonFlat*`);
  - the edu CollectStats's: the redirect query and the values loop (`HazyCollectStats.GetRedirects`, `PrintNonFlat`);
  - the xml CollectStats's: the redirect query and the loop filter (`CollectStatsXml.GetRedirects`).
- CSVDumper.DumpAsWritten: models the writes made on `main`'s own thread, where the NullPointerException reaches `main`'s `catch (Exception)`. That thread calls `processAnnotation` for every page `process` does not render, and for a rendering task when the full queue hands it back (`CallerRunsPolicy`). A rendered page written on a pool thread throws only inside its task, and the run goes on without any line being written. That interleaving is not modelled.
- **Clocks, rates and messages.** Clocks, the pages-per-second rates and every stderr message are not modelled. Only the counts at which a progress line is printed are kept.
- **Concurrency.** Thread pools, `execute`, `CallerRunsPolicy`, `synchronized` blocks and the xml tool's `parallelStream` are not modelled. Tasks run one after the other in submission order, and the streamed filter runs entry by entry in the given order. Only the pool's sizing arithmetic is modelled.
- **finishUp, close and thread-local connections.** `finishUp`, `close` and the edu parser's thread-local DB connections are not modelled, since they only shut down threads and connections.
- **bliki.** The parser itself, `render`, `parseRedirect`, `parseRecursive`, `encodeTitleToUrl`, `getRawWikiContent`, `isNamespace` and the Siteinfo namespace lookups are not modelled. They are function parameters. `RENDERER_RECURSION_LIMIT` and `PARSER_RECURSION_LIMIT` are parameters too, because their values are not visible here.
- **Node kinds.** The converter's nodes are a datatype of the kinds `nodesToText` tests. `renderHTMLWithoutTag` is taken to be the conversion of the tag's children.
- **Case mapping is ASCII only.** `toUpperCase`, `isLowerCase`, `capitalize` and `uncapitalize` are modelled for ASCII letters, and other characters are left as they are. NormalizeTitle, Str2Wikilink, Uncapitalize and RedirectSpelling are therefore weaker than Java's Unicode case mapping.
- LinkAnnotationConverter.CleanContent: the `escapeXml` and `unescapeHtml4` pre-pass is not modelled (it decodes entities, so "AT&amp;T" becomes "AT&T"). The model's content tokens stand for the text after that pass, for which commons-lang's entity tables would be needed.
- **Converter members with no effect on output.** `nodeToHTML`, `imageNodeToText` and `noLinks` are not modelled. None of them is reached from the conversion of a page's text, and the last two have empty bodies or only return a flag.
- **PageMeta text helpers.** `getPlainText` and `getTranslatedTitle` are not modelled, because no core caller uses them; the regular-expression rewriting they do is out of scope.
- **The edu HTMLWikiModel.** It has no `normalizeTitle`, although the edu CollectStats imports one. The model uses the udf `normalizeTitle` for it.
- **The remaining PlainTextWikiModel overrides.** `getRawWikiContent`, `getCategoryNamespace` and the other Siteinfo overrides, the image no-ops and the static `addAllowedAttribute` are not modelled. They only forward to bliki or do nothing.
- CollectStats.GetIds: `ids.size()` is not modelled; the model counts the map instead. An exception from a row (a null title, whose normalisation throws in `trim`) is modelled as a skipped row; a null id reads as 0 and does not throw.
- **Exceptions as values.** A `put` into the bimap that throws skips that row, and a redirect row with a null target is skipped. Both happen because the per-row `catch` prints the exception and goes on.
- **URLDecoder.** `URLDecoder.decode` is inside `hrefOf`. The encoding is "UTF-8", so the `UnsupportedEncodingException` path that would leave the href null cannot occur.
- **Writers are never closed.** CSVDumper's `writers` list is never filled, so the closing loop of `main` closes nothing. This is not modelled.
- **Unbounded counters.** The feeders' `int` counters wrap as Java ints (`Inc32`). `writerCount` and the chunk-file numbers are unbounded, because their wrap needs more than 2^31 threads.
- **The edu getIdCache.** It is the udf `getIds` under another name, so `CollectStats.GetIds` stands for both.

## Findings

| source | as written | input that shows it | evidently intended | confidence | as-written member | corrected member |
|---|---|---|---|---|---|---|
| input/wikiapi/src/main/java/wikiapi/CSVDumper.java:73-83 | the anonymous ThreadLocal subclass defines `initValue`, which ThreadLocal never calls, so `initialValue` stays null and every `writerPool.get()` is null | a first page that `process` does not render (a talk page, say): its `writerPool.get().write(pageStr)` on `main`'s thread throws a NullPointerException, which the `catch (IOException)` does not catch; `main`'s `catch (Exception)` ends the run, so no chunk file opens, no line is written and no later page is dumped | override `initialValue`, so each thread opens "chunks/<n>.csv" and its lines land there | not executed | CSVDumper.DumpAsWritten | CSVDumper.DumpIntended |
| udf/wikiapi/src/main/java/wikiapi/CollectStats.java:113-118 | the non-flat report loops over `redirects.keySet()` and tests `containsKey(target)`, which always holds, so it prints every redirect's title | the flat map {1 → 2} with titles {1: "A", 2: "B"} prints "A" | loop over `redirects.values()` as the edu tool does (udf/wikiapi/src/main/java/edu/stanford/cs/hazy/wikiapi/CollectStats.java:86-91), printing only targets that are still redirects, which is nothing after flattening | not executed | CollectStats.AsWrittenReportsFlatMap | CollectStats.FlattenedReportsNothing |
| input/wikiapi/src/main/java/wikiapi/processors/PageMeta.java:26-27 | `pageCats` and `pageLinks` start as non-null empty lists, so the `== null` guards of `getCategories` and `getLinks` (input/wikiapi/src/main/java/wikiapi/processors/PageMeta.java:107-117) never parse | any page with "[[Category:Mammals]]" in its text: `getCategories()` returns the empty list, and its CSVDumper line ends in ",{}" | start both lists as null, so the first getter call parses the text lazily | not executed | PageMeta.FreshGettersAreEmpty | PageMeta.PageMeta.ParseCategories |
