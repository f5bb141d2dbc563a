/**
 * wikiapi.HTMLWikiModel of the udf tools: the title normaliser every
 * CollectStats applies to titles and redirect targets, and the null guard
 * of `render`.
 */
module HTMLWikiModel {
  import opened Wrappers
  import opened Strings

  /**
   * `normalizeTitle(title)`: trimmed, then capitalised, then every '_'
   * replaced by a space.
   */
  function NormalizeTitle(title: string): (r: string)
    ensures '_' !in r
    ensures |r| == |Trim(title)|
    ensures forall i | 0 < i < |r| :: r[i] == if Trim(title)[i] == '_' then ' ' else Trim(title)[i]
    ensures |r| > 0 ==> r[0] == if Trim(title)[0] == '_' then ' ' else ToUpperAscii(Trim(title)[0])
  {
    var t := Trim(title);
    var r := ReplaceChar(Capitalize(t), '_', ' ');
    CapitalizedReplaced(t, r);
    r
  }

  /** The characters of a capitalised text with every '_' replaced by a space. */
  lemma CapitalizedReplaced(t: string, r: string)
    requires r == ReplaceChar(Capitalize(t), '_', ' ')
    ensures '_' !in r
    ensures |r| == |t|
    ensures forall i | 0 < i < |r| :: r[i] == if t[i] == '_' then ' ' else t[i]
    ensures |r| > 0 ==> r[0] == if t[0] == '_' then ' ' else ToUpperAscii(t[0])
  {
    var c := Capitalize(t);
    assert forall i | 0 < i < |t| :: c[i] == t[i];
  }

  /** Padding up to U+0020 around a title does not change its normal form. */
  lemma NormalizeTitleIgnoresPadding(a: string, title: string, b: string)
    requires IsPadding(a) && IsPadding(b)
    ensures NormalizeTitle(a + title + b) == NormalizeTitle(title)
  {
    TrimPadded(a, title, b);
  }

  lemma NormalizeTitleSpaces()
    ensures NormalizeTitle(" x ") == NormalizeTitle("x")
  {
    assert " x " == " " + "x" + " ";
    NormalizeTitleIgnoresPadding(" ", "x", " ");
  }

  /**
   * The replacement comes after the trim, so a trailing '_' survives as a
   * trailing space that a second pass trims away: "a_" gives "A ", and
   * "A " gives "A".
   */
  lemma NormalizeTitleNotIdempotent()
    ensures NormalizeTitle("a_") == "A "
    ensures NormalizeTitle("A ") == "A"
  {
    var t := "a_";
    assert t[0] == 'a' && t[1] == '_' && |t| == 2;
    TrimUnpadded(t);
    var r := NormalizeTitle(t);
    assert |r| == 2 && r[0] == 'A' && r[1] == ' ';
    assert r == "A ";
    var u := "A";
    assert u[0] == 'A' && |u| == 1;
    assert u + " " == "A ";
    TrimEndPadded(u, " ");
    TrimUnpadded(u);
    var r2 := NormalizeTitle(u + " ");
    assert |r2| == 1 && r2[0] == 'A';
    assert r2 == "A";
  }

  /** Without a '_' at either end of the trimmed title, the normal form has no padding to trim. */
  lemma NormalFormUnpadded(title: string)
    requires var t := Trim(title); t == "" || (t[0] != '_' && t[|t| - 1] != '_')
    ensures var r := NormalizeTitle(title); r == "" || (' ' < r[0] && ' ' < r[|r| - 1] && !IsLowerAscii(r[0]))
  {
    var r := NormalizeTitle(title);
    if |r| > 0 {
      var t := Trim(title);
      assert ' ' < t[0] && ' ' < t[|t| - 1];
      assert r[0] == ToUpperAscii(t[0]);
      assert r[|r| - 1] == t[|t| - 1] || |r| == 1;
    }
  }

  /** A text without '_' that trimming leaves alone and that does not start with a lower-case letter is its own normal form. */
  lemma NormalFormFixed(r: string)
    requires '_' !in r
    requires Trim(r) == r
    requires r == "" || !IsLowerAscii(r[0])
    ensures NormalizeTitle(r) == r
  {
    NormalFormChars(r);
    SameElements(NormalizeTitle(r), r);
  }

  /** Under the same conditions, every character of the normal form is the text's own. */
  lemma NormalFormChars(r: string)
    requires '_' !in r
    requires Trim(r) == r
    requires r == "" || !IsLowerAscii(r[0])
    ensures |NormalizeTitle(r)| == |r|
    ensures forall i | 0 <= i < |r| :: NormalizeTitle(r)[i] == r[i]
  {
    var rr := NormalizeTitle(r);
    forall i | 0 <= i < |r|
      ensures rr[i] == r[i]
    {
      assert r[i] != '_';
    }
  }

  /** Without a '_' at either end of the trimmed title, normalising twice changes nothing more. */
  lemma NormalizeTitleIdempotent(title: string)
    requires var t := Trim(title); t == "" || (t[0] != '_' && t[|t| - 1] != '_')
    ensures NormalizeTitle(NormalizeTitle(title)) == NormalizeTitle(title)
  {
    var r := NormalizeTitle(title);
    NormalFormUnpadded(title);
    TrimUnpadded(r);
    NormalFormFixed(r);
  }

  /**
   * `render(converter, rawWikiText, templateTopic)`: "" for a null text,
   * otherwise what the bliki renderer `renderBody` makes of it.
   */
  function Render(rawWikiText: Option<string>, renderBody: string -> string): (r: string)
    ensures rawWikiText.None? ==> r == ""
    ensures rawWikiText.Some? ==> r == renderBody(rawWikiText.value)
  {
    match rawWikiText
    case None => ""
    case Some(text) => renderBody(text)
  }
}
