/**
 * wikiapi.Utils: the title normaliser used for every canonical title, the
 * special-page test, the content-page test and the sizing arithmetic of
 * the two bounded thread pools.
 */
module Utils {
  import opened Wrappers
  import opened Strings
  import opened Wiki

  /** The first character upper-cased when it is a lower-case letter. */
  function CapitalizeIfLower(s: string): (r: string)
    ensures |r| == |s|
    ensures forall i | 0 < i < |s| :: r[i] == s[i]
  {
    if |s| > 0 && IsLowerAscii(s[0]) then [ToUpperAscii(s[0])] + s[1..] else s
  }

  /**
   * `str2wikilink`: the empty string is returned as is; otherwise a
   * lower-case first character is upper-cased and every '_' becomes a space.
   */
  function Str2Wikilink(s: string): (r: string)
    ensures |r| == |s|
    ensures '_' !in r
    ensures forall i | 0 < i < |s| :: r[i] == if s[i] == '_' then ' ' else s[i]
    ensures |s| > 0 ==> r[0] == if s[0] == '_' then ' ' else ToUpperAscii(s[0])
  {
    if s == "" then s else ReplaceChar(CapitalizeIfLower(s), '_', ' ')
  }

  /** `str2wikilink` on a reference that may be null: null stays null. */
  function Str2WikilinkOrNull(s: Option<string>): (r: Option<string>)
    ensures r.None? <==> s.None?
    ensures r.Some? ==> '_' !in r.value && |r.value| == |s.value|
  {
    match s
    case None => None
    case Some(v) => Some(Str2Wikilink(v))
  }

  /** Normalising an already normalised title changes nothing. */
  lemma Str2WikilinkIdempotent(s: string)
    ensures Str2Wikilink(Str2Wikilink(s)) == Str2Wikilink(s)
  {
    var r := Str2Wikilink(s);
    var rr := Str2Wikilink(r);
    if |s| > 0 {
      assert rr[0] == r[0];
      forall i | 0 <= i < |r| ensures rr[i] == r[i] {
      }
    }
  }

  lemma Str2WikilinkCat()
    ensures Str2Wikilink("cat") == "Cat"
  {
    var a := Str2Wikilink("cat");
    assert a[0] == 'C' && a[1] == 'a' && a[2] == 't';
  }

  /** The prefixes (before the first ':') that mark a special page; "" is one of them. */
  const SpecialPrefixes: set<string> := {
    "Media", "Special", "", "Talk", "User", "User_talk",
    "Meta", "Meta_talk", "Image", "Image_talk", "MediaWiki",
    "MediaWiki_talk", "Template", "Template_talk", "Help", "Help_talk",
    "Category", "Category_talk", "File", "File_talk", "Wikipedia",
    "Wikipedia_talk", "Portal", "Portal_talk", "WP", "Project", "CAT",
    "MOS", "Media"}

  /** `isSpecialTitle`: a non-empty title with a ':' whose text before the first ':' is a special prefix. */
  predicate IsSpecialTitle(title: string) {
    |title| > 0 && ':' in title && SubstringBefore(title, ':') in SpecialPrefixes
  }

  /** The special-page test seen from the first ':' of the title. */
  lemma SpecialTitleByFirstColon(title: string)
    ensures IsSpecialTitle(title) <==>
      exists i | 0 <= i < |title| :: title[i] == ':' && ':' !in title[..i] && title[..i] in SpecialPrefixes
  {
    if IsSpecialTitle(title) {
      var p := SubstringBefore(title, ':');
      assert title[..|p|] == p;
    }
    if exists i | 0 <= i < |title| :: title[i] == ':' && ':' !in title[..i] && title[..i] in SpecialPrefixes {
      var i :| 0 <= i < |title| && title[i] == ':' && ':' !in title[..i] && title[..i] in SpecialPrefixes;
      var p := SubstringBefore(title, ':');
      assert p == title[..i];
    }
  }

  lemma SpecialTitleLeadingColon()
    ensures IsSpecialTitle(":x")
  {
    assert SubstringBefore(":x", ':') == "";
  }

  lemma SpecialTitleCategory()
    ensures IsSpecialTitle("Category:Mammals")
  {
    var title := "Category:Mammals";
    var prefix := title[..8];
    assert prefix == "Category" && title[8] == ':';
    assert ':' !in prefix && prefix in SpecialPrefixes;
    SpecialTitleByFirstColon(title);
  }

  lemma NotSpecialWithoutColon()
    ensures !IsSpecialTitle("Dog") && !IsSpecialTitle("")
  {
    assert ':' !in "Dog";
  }

  /**
   * `isNoncontentPage(page, meta)`, with the classifier's two answers for the
   * page passed in: not main, no text, a disambiguation page or a redirect.
   */
  function IsNoncontentPage(page: Article, isDisambiguation: bool, isRedirect: bool): (r: bool)
    ensures !page.isMain || page.text.None? ==> r
    ensures isDisambiguation || isRedirect ==> r
    ensures page.isMain && page.text.Some? && !isDisambiguation && !isRedirect ==> !r
  {
    !page.isMain || page.text.None? || isDisambiguation || isRedirect
  }

  // ---- thread-pool sizing ----

  const IntMin: int := -0x8000_0000
  const IntMax: int := 0x7fff_ffff

  predicate IsInt32(x: int) {
    IntMin <= x <= IntMax
  }

  /** `x - 1` on a Java int, wrapping below Integer.MIN_VALUE. */
  function Dec32(x: int): (r: int)
    requires IsInt32(x)
    ensures IsInt32(r)
    ensures x > IntMin ==> r == x - 1
  {
    if x == IntMin then IntMax else x - 1
  }

  /** `++x` on a Java int, wrapping past Integer.MAX_VALUE. */
  function Inc32(x: int): (r: int)
    requires IsInt32(x)
    ensures IsInt32(r)
    ensures x < IntMax ==> r == x + 1
  {
    if x == IntMax then IntMin else x + 1
  }

  /** The Java int an unbounded integer wraps to. */
  function Wrap32(x: int): (r: int)
    ensures IsInt32(r)
    ensures IsInt32(x) ==> r == x
  {
    (x - IntMin) % 0x1_0000_0000 + IntMin
  }

  /** Incrementing a wrapped value wraps the incremented value. */
  lemma Inc32Wraps(x: int)
    ensures Inc32(Wrap32(x)) == Wrap32(x + 1)
  {
    var q := (x - IntMin) / 0x1_0000_0000;
    assert x - IntMin == q * 0x1_0000_0000 + (x - IntMin) % 0x1_0000_0000;
    var w := Wrap32(x);
    if w == IntMax {
      assert x + 1 - IntMin == (q + 1) * 0x1_0000_0000;
    } else {
      assert x + 1 - IntMin == q * 0x1_0000_0000 + (w + 1 - IntMin);
    }
  }

  /** `n` increments of a Java int, one after the other. */
  function Inc32Times(x: int, n: nat): (r: int)
    requires IsInt32(x)
    ensures IsInt32(r)
  {
    if n == 0 then x else Inc32(Inc32Times(x, n - 1))
  }

  /** `n` increments wrap the sum once: `x` plus `n`, reduced to a Java int. */
  lemma {:induction false} Inc32TimesWraps(x: int, n: nat)
    requires IsInt32(x)
    ensures Inc32Times(x, n) == Wrap32(x + n)
  {
    if n > 0 {
      Inc32TimesWraps(x, n - 1);
      Inc32Wraps(x + (n - 1));
    }
  }

  function Min(a: int, b: int): int { if a <= b then a else b }
  function Max(a: int, b: int): int { if a >= b then a else b }

  /** Core size, maximum size and queue capacity of a ThreadPoolExecutor. */
  datatype PoolShape = PoolShape(coreSize: int, maxSize: int, queueCapacity: int)

  /**
   * `getBoundedThreadPool(poolSize)`: `min(max(1, poolSize - 1), processors)`
   * used for the core size, the maximum size and the queue capacity alike.
   */
  function BoundedPool(poolSize: int, processors: int): (p: PoolShape)
    requires IsInt32(poolSize) && 1 <= processors <= IntMax
    ensures 1 <= p.coreSize <= processors
    ensures p.coreSize == p.maxSize == p.queueCapacity
    ensures 2 <= poolSize <= processors + 1 ==> p.coreSize == poolSize - 1
    ensures poolSize <= 2 && poolSize > IntMin ==> p.coreSize == 1
    ensures poolSize > processors + 1 || poolSize == IntMin ==> p.coreSize == processors
  {
    var n := Min(Max(1, Dec32(poolSize)), processors);
    PoolShape(n, n, n)
  }

  /**
   * `getBoundedThreadPool()`: `coreCount = max(processors, 80)`, core size
   * `coreCount / 2 + 1`, maximum size and queue capacity `coreCount`.
   */
  function DefaultPool(processors: int): (p: PoolShape)
    requires processors >= 1
    ensures p.maxSize >= 80 && p.maxSize >= processors
    ensures 1 <= p.coreSize <= p.maxSize
    ensures p.maxSize == p.queueCapacity
    ensures processors <= 80 ==> p == PoolShape(41, 80, 80)
    ensures processors > 80 ==> p == PoolShape(processors / 2 + 1, processors, processors)
  {
    var coreCount := Max(processors, 80);
    PoolShape(coreCount / 2 + 1, coreCount, coreCount)
  }
}
