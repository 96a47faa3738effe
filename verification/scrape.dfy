/** The page-side scrape of `extractRelatedSources` (index.js and its copy in
    crawler.js): every matched result anchor becomes one source record. */
module Scrape {
  import opened Outcomes
  import opened JsString

  /** One matched `li.anSuc a.GZrdsf` element, as far as the scrape reads it:
      the inner text of the title, source and dimension sub-elements, the
      `src` of the logo and thumbnail images (each `None` when that
      sub-element is absent), and the anchor's own `href`. */
  datatype Element = Element(
    titleText: Option<string>,
    sourceText: Option<string>,
    logoSrc: Option<string>,
    href: string,
    thumbnailSrc: Option<string>,
    dimensionText: Option<string>)

  /** The pixel size read from a dimension label; each side is `null`
      (`None`), NaN, or an integer. */
  datatype Dimensions = Dimensions(width: Option<NumberValue>, height: Option<NumberValue>)

  /** One entry of `image_sources`. */
  datatype SourceRecord = SourceRecord(
    position: int,
    title: Option<string>,
    source: Option<string>,
    sourceLogo: Option<string>,
    link: string,
    thumbnail: Option<string>,
    actualImageWidth: Option<NumberValue>,
    actualImageHeight: Option<NumberValue>)

  const Unknown := Dimensions(None, None)

  /** The trimmed inner text of a sub-element, or `null` when it is absent. */
  function TrimmedText(text: Option<string>): (r: Option<string>)
    ensures r.None? <==> text.None?
    ensures r.Some? ==> r.value == Trim(text.value) && IsTrimmed(r.value)
  {
    match text
    case None => None
    case Some(t) => Some(Trim(t))
  }

  /** The dimension label is trimmed; an absent or empty label gives no
      size; otherwise it is split on lower-case `x`, and exactly two pieces
      give `parseInt` of each, any other number of pieces no size. Both
      sides are present exactly when the trimmed label holds exactly one
      `x`. */
  function ParseDimensions(dimensionText: Option<string>): (d: Dimensions)
    ensures d.width.Some? <==> d.height.Some?
    ensures d.width.Some? <==>
      dimensionText.Some? && Count(Trim(dimensionText.value), 'x') == 1
  {
    match TrimmedText(dimensionText)
    case None => Unknown
    case Some(dimensions) =>
      // `if (dimensions)`: the empty string is falsy
      if |dimensions| == 0 then Unknown
      else
        var parts := Split(dimensions, 'x');
        if |parts| == 2 then Dimensions(Some(ParseInt(parts[0])), Some(ParseInt(parts[1])))
        else Unknown
  }

  /** With exactly one `x` in the trimmed label, the width is `parseInt` of
      the text before it and the height `parseInt` of the text after it. */
  lemma DimensionsAroundSeparator(text: string, i: int)
    requires var t := Trim(text); 0 <= i < |t| && t[i] == 'x' && Count(t, 'x') == 1
    ensures var t := Trim(text);
      ParseDimensions(Some(text))
        == Dimensions(Some(ParseInt(t[..i])), Some(ParseInt(t[i + 1..])))
  {
    SplitAtOnlySeparator(Trim(text), i, 'x');
  }

  /** An absent label, or one that is only white space, gives no size. */
  lemma DimensionsOfBlankText(text: Option<string>)
    requires text.None? || AllWhiteSpace(text.value)
    ensures ParseDimensions(text) == Unknown
  {
    if text.Some? {
      TrimUnique(text.value, [], []);
      assert text.value + [] + [] == text.value;
    }
  }

  /** A trimmed label made of two `x`-free pieces around one `x`. */
  lemma DimensionsOfPair(before: string, after: string)
    requires 'x' !in before && 'x' !in after
    requires IsTrimmed(before + "x" + after)
    ensures ParseDimensions(Some(before + "x" + after))
         == Dimensions(Some(ParseInt(before)), Some(ParseInt(after)))
  {
    var text := before + "x" + after;
    TrimUnique([], text, []);
    assert [] + text + [] == text;
    OnlySeparator(before, after);
    DimensionsAroundSeparator(text, |before|);
  }

  lemma OnlySeparator(before: string, after: string)
    requires 'x' !in before && 'x' !in after
    ensures var text := before + "x" + after;
      && text[|before|] == 'x'
      && text[..|before|] == before
      && text[|before| + 1..] == after
      && Count(text, 'x') == 1
  {
    var text := before + "x" + after;
    assert text == before + ("x" + after);
    assert text[..|before|] == before && text[|before| + 1..] == after;
    CountZero(before, 'x');
    CountZero(after, 'x');
    CountAppend(before, "x" + after, 'x');
    CountAppend("x", after, 'x');
  }

  /** A label `WxH` written with decimal numerals reads back as W by H. */
  lemma DimensionsRoundTrip(width: nat, height: nat)
    ensures ParseDimensions(Some(NatToString(width) + "x" + NatToString(height)))
         == Dimensions(Some(Num(width)), Some(Num(height)))
  {
    var w, h := NatToString(width), NatToString(height);
    NotSpaceOrSign(w[0]);
    NotSpaceOrSign(h[|h| - 1]);
    assert (w + "x" + h)[0] == w[0];
    assert (w + "x" + h)[|w + "x" + h| - 1] == h[|h| - 1];
    NoDigitIsX(w);
    NoDigitIsX(h);
    DimensionsOfPair(w, h);
    ParseIntRoundTrip(width, []);
    ParseIntRoundTrip(height, []);
    assert w + [] == w && h + [] == h;
  }

  /** A label with nothing after the `x` (such as "1200x") gives NaN, not
      `null`, for the height. */
  lemma DimensionsMissingHeight(width: nat)
    ensures ParseDimensions(Some(NatToString(width) + "x"))
         == Dimensions(Some(Num(width)), Some(NaN))
  {
    var w := NatToString(width);
    NotSpaceOrSign(w[0]);
    assert (w + "x")[0] == w[0];
    assert w + "x" == w + "x" + [];
    NoDigitIsX(w);
    DimensionsOfPair(w, []);
    ParseIntRoundTrip(width, []);
    assert w + [] == w;
    ParseIntNoDigits([], [], []);
  }

  lemma NoDigitIsX(digits: string)
    requires AllDigits(digits)
    ensures 'x' !in digits
  {
    assert forall i :: 0 <= i < |digits| ==> digits[i] != 'x';
  }

  /** The record of one element at a 1-based position. */
  function BuildRecord(element: Element, position: int): (r: SourceRecord)
    ensures r.position == position && r.link == element.href
    ensures r.title.None? <==> element.titleText.None?
    ensures r.title.Some? ==> IsTrimmed(r.title.value) && r.title.value == Trim(element.titleText.value)
    ensures r.source.None? <==> element.sourceText.None?
    ensures r.source.Some? ==> IsTrimmed(r.source.value) && r.source.value == Trim(element.sourceText.value)
    ensures r.sourceLogo == element.logoSrc && r.thumbnail == element.thumbnailSrc
    ensures r.actualImageWidth.Some? <==> r.actualImageHeight.Some?
    ensures r.actualImageWidth.Some? <==>
      element.dimensionText.Some? && Count(Trim(element.dimensionText.value), 'x') == 1
    ensures Dimensions(r.actualImageWidth, r.actualImageHeight) == ParseDimensions(element.dimensionText)
  {
    var dimensions := ParseDimensions(element.dimensionText);
    SourceRecord(
      position,
      TrimmedText(element.titleText),
      TrimmedText(element.sourceText),
      element.logoSrc,
      element.href,
      element.thumbnailSrc,
      dimensions.width,
      dimensions.height)
  }

  /** `extractRelatedSources`: one record per matched element, in
      enumeration order, numbered from 1; the link is the anchor's `href`,
      text fields are trimmed, and each optional field is `null` exactly
      when its sub-element is absent. */
  function ExtractRelatedSources(elements: seq<Element>): (sources: seq<SourceRecord>)
    ensures |sources| == |elements|
    ensures forall i :: 0 <= i < |sources| ==>
      var s, e := sources[i], elements[i];
      && s.position == i + 1
      && s.link == e.href
      && (s.title.None? <==> e.titleText.None?)
      && (s.title.Some? ==> s.title.value == Trim(e.titleText.value))
      && (s.source.None? <==> e.sourceText.None?)
      && (s.source.Some? ==> s.source.value == Trim(e.sourceText.value))
      && s.sourceLogo == e.logoSrc
      && s.thumbnail == e.thumbnailSrc
      && Dimensions(s.actualImageWidth, s.actualImageHeight) == ParseDimensions(e.dimensionText)
  {
    seq(|elements|, i requires 0 <= i < |elements| => BuildRecord(elements[i], i + 1))
  }

  /** Positions are the ranks 1..n, strictly increasing in page order. */
  lemma PositionsAreRanks(elements: seq<Element>, i: int, j: int)
    requires 0 <= i < j < |elements|
    ensures 1 <= ExtractRelatedSources(elements)[i].position
    ensures ExtractRelatedSources(elements)[i].position < ExtractRelatedSources(elements)[j].position
    ensures ExtractRelatedSources(elements)[j].position <= |elements|
  {
  }

  /** Elements appended after the first ones (more matches loaded at the end
      of the list) leave the records of the first ones as they were. */
  lemma ExtractPrefixStable(earlier: seq<Element>, later: seq<Element>)
    ensures ExtractRelatedSources(earlier + later)[..|earlier|] == ExtractRelatedSources(earlier)
  {
  }
}
