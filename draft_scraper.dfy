/** main.py, an earlier draft of the scraper with its own rules: a year is only a trailing
    `(dddd)`, only the first script with thumbnails is read and each of its matches binds a
    single id, an item is a plain dict whose `extensions` key is present only when there is a
    year, and the link is the raw `href`. */
module DraftScraper {
  import opened Wrappers
  import opened Text
  import opened Values
  import opened Html
  import ScraperTitle
  import ScraperImages

  /** `\d`, taken as the ASCII digits. */
  predicate IsDigit(c: char)
  {
    '0' <= c <= '9'
  }

  /** What group 2 of the title pattern can capture: exactly four digits. */
  predicate IsYear(y: string)
  {
    |y| == 4 && forall i :: 0 <= i < 4 ==> IsDigit(y[i])
  }

  /** `\((\d{4})\)` followed by `$`, tried at w. */
  predicate FourDigitGroupAt(t: string, w: nat)
  {
    w + 6 <= |t| && t[w] == '(' && IsYear(t[w + 1..w + 5]) && t[w + 5] == ')' && EndAnchorAt(t, w + 6)
  }

  /** The title pattern `^(.*?)\s*(?:\((\d{4})\))?$` in the regex engine's search order: the
      lazy group 1 ends at k = 0, 1, 2, ...; the greedy `\s*` then runs to the end of the
      whitespace, the optional group is tried before it is skipped, and `$` must follow.
      Giving back whitespace cannot help: `\(` does not match whitespace, and `$` before a
      final newline already matched after it. */
  function DraftMatchFrom(t: string, k: nat): (m: Option<(string, Option<string>)>)
    requires k <= |t|
    ensures m.Some? ==> k <= |m.value.0| <= |t| && m.value.0 == t[..|m.value.0|]
    ensures m.Some? && m.value.1.Some? ==> IsYear(m.value.1.value)
    decreases |t| - k
  {
    var w := SpaceRunEnd(t, k);
    if FourDigitGroupAt(t, w) then Some((t[..k], Some(t[w + 1..w + 5])))
    else if EndAnchorAt(t, w) then Some((t[..k], None))
    else if k < |t| && t[k] != '\n' then DraftMatchFrom(t, k + 1)
    else None
  }

  /** `scrape_item_title`: None when `re.match` finds no match; otherwise the stripped group 1
      and the four digits of group 2, if it matched. */
  function ScrapeItemTitle(title: string): (r: Option<ScraperTitle.TitleParts>)
    ensures r.Some? ==> Strip(r.value.name) == r.value.name
    ensures r.Some? && r.value.year.Some? ==> IsYear(r.value.year.value)
  {
    match DraftMatchFrom(title, 0)
    case None => None
    case Some((name, year)) =>
      var n := Strip(name);
      StripUnique([], n, []);
      assert [] + n + [] == n;
      Some(ScraperTitle.TitleParts(n, year))
  }

  /** The title ends with a parenthesised four-digit group. */
  predicate EndsWithYear(t: string)
  {
    6 <= |t| && FourDigitGroupAt(t, |t| - 6)
  }

  /** Without a newline the year group can only sit at the very end. */
  lemma FourDigitGroupNoNewline(t: string, w: nat)
    requires NoNewline(t)
    ensures FourDigitGroupAt(t, w) ==> w + 6 == |t| && EndsWithYear(t)
  {
    EndAnchorNoNewline(t, w + 6);
  }

  /** Before the whitespace that precedes a final year group, group 1 cannot stop. */
  lemma {:induction false} DraftMatchBeforeYear(t: string, s: nat, k: nat)
    requires NoNewline(t) && EndsWithYear(t) && s == SpaceRunStart(t, |t| - 6)
    requires k <= s
    ensures DraftMatchFrom(t, k) == Some((t[..s], Some(t[|t| - 5..|t| - 1])))
    decreases s - k
  {
    var w := SpaceRunEnd(t, k);
    if k < s {
      assert !IsSpace(t[s - 1]);
      assert w < s;
      FourDigitGroupNoNewline(t, w);
      EndAnchorNoNewline(t, w);
      assert t[k] in t;
      DraftMatchBeforeYear(t, s, k + 1);
    } else {
      assert !IsSpace(t[|t| - 6]);
      assert w == |t| - 6;
    }
  }

  /** Without a final year group, group 1 runs up to the trailing whitespace. */
  lemma {:induction false} DraftMatchNoYear(t: string, s: nat, k: nat)
    requires NoNewline(t) && !EndsWithYear(t) && s == SpaceRunStart(t, |t|)
    requires k <= s
    ensures DraftMatchFrom(t, k) == Some((t[..s], None))
    decreases s - k
  {
    var w := SpaceRunEnd(t, k);
    FourDigitGroupNoNewline(t, w);
    if k < s {
      assert !IsSpace(t[s - 1]);
      assert w < s;
      EndAnchorNoNewline(t, w);
      assert t[k] in t;
      DraftMatchNoYear(t, s, k + 1);
    } else {
      assert w == |t|;
    }
  }

  /** The rule `scrape_item_title` implements for a single-line title: when the title ends
      with `(dddd)`, the year is those four digits and the name is the stripped text before
      the group; otherwise there is no year and the name is the whole title, stripped, a
      `(2022-2024)` suffix included. */
  lemma DraftTitleRule(t: string)
    requires NoNewline(t)
    ensures ScrapeItemTitle(t).Some?
    ensures EndsWithYear(t) ==>
      ScrapeItemTitle(t).value == ScraperTitle.TitleParts(Strip(t[..|t| - 6]), Some(t[|t| - 5..|t| - 1]))
    ensures !EndsWithYear(t) ==> ScrapeItemTitle(t).value == ScraperTitle.TitleParts(Strip(t), None)
  {
    if EndsWithYear(t) {
      var g := |t| - 6;
      var s := SpaceRunStart(t, g);
      DraftMatchBeforeYear(t, s, 0);
      SpaceRunStartAllSpace(t, g);
      ScraperTitle.StripBeforeParen(t, g, s);
    } else {
      var s := SpaceRunStart(t, |t|);
      DraftMatchNoYear(t, s, 0);
      SpaceRunStartAllSpace(t, |t|);
      ScraperTitle.StripBeforeParen(t, |t|, s);
      assert t[..|t|] == t;
    }
  }

  /** The shape of `name (year)`: a final year group, and what lies before and inside it. */
  lemma YearTitleShape(name: string, year: string, t: string)
    requires IsYear(year) && t == name + " (" + year + ")"
    ensures EndsWithYear(t) && t[..|t| - 6] == name + " " && t[|t| - 5..|t| - 1] == year
  {
    assert t[|t| - 5..|t| - 1] == year;
    assert t[|t| - 6] == '(' && t[|t| - 1] == ')';
  }

  lemma YearNoNewline(year: string)
    requires IsYear(year)
    ensures NoNewline(year)
  {
    assert forall i :: 0 <= i < |year| ==> year[i] != '\n';
  }

  /** Writing a name and a four-digit year as `name (year)` and parsing it back gives both,
      as for the title "Item 1 (2021)" of the tests. */
  lemma DraftTitleRoundTrip(name: string, year: string)
    requires NoNewline(name) && Strip(name) == name && IsYear(year)
    ensures ScrapeItemTitle(name + " (" + year + ")") == Some(ScraperTitle.TitleParts(name, Some(year)))
  {
    var t := name + " (" + year + ")";
    YearNoNewline(year);
    ScraperTitle.NoNewlineParenTitle(name, year, t);
    YearTitleShape(name, year, t);
    DraftTitleRule(t);
    assert AllSpace(" ") by { assert " "[0] == ' '; }
    StripIgnoresTrailingSpace(name, " ");
  }

  /** The third title of the tests keeps its year range inside the name. */
  lemma DraftTitleKeepsRange()
    ensures ScrapeItemTitle("Item 3 (2022-2024)") == Some(ScraperTitle.TitleParts("Item 3 (2022-2024)", None))
  {
    var t := "Item 3 (2022-2024)";
    assert t[|t| - 6] == '-';
    DraftTitleRule(t);
    StripUnique([], t, []);
    assert [] + t + [] == t;
  }

  /** One match of the script pattern: the thumbnail and the one id it binds. */
  datatype DraftBinding = DraftBinding(payload: string, id: string)

  /** What `([^']+)` guarantees of both captures: not empty and free of quotes. */
  predicate DraftWellFormed(b: DraftBinding)
  {
    b.payload != [] && b.id != [] && ScraperImages.QUOTE !in b.payload && ScraperImages.QUOTE !in b.id
  }

  /** The dict the loop of lines 20-22 fills: each match in turn assigns its id. Its keys are
      the ids of the matches, and the last match's id holds that match's thumbnail. */
  function DraftImageMap(bs: seq<DraftBinding>): (m: map<string, string>)
    ensures forall j :: 0 <= j < |bs| ==> bs[j].id in m
    ensures forall id :: id in m ==> exists j :: 0 <= j < |bs| && bs[j].id == id
    ensures bs != [] ==> m[bs[|bs| - 1].id] == bs[|bs| - 1].payload
    decreases |bs|
  {
    if bs == [] then map[]
    else
      assert forall j :: 0 <= j < |bs| - 1 ==> bs[..|bs| - 1][j] == bs[j];
      DraftImageMap(bs[..|bs| - 1])[bs[|bs| - 1].id := bs[|bs| - 1].payload]
  }

  /** The last match that binds id, if any. */
  function LastIndex(bs: seq<DraftBinding>, id: string): (r: Option<nat>)
    ensures r.Some? ==> r.value < |bs| && bs[r.value].id == id && forall j :: r.value < j < |bs| ==> bs[j].id != id
    ensures r.None? ==> forall j :: 0 <= j < |bs| ==> bs[j].id != id
    decreases |bs|
  {
    if bs == [] then None
    else if bs[|bs| - 1].id == id then Some(|bs| - 1)
    else
      var r := LastIndex(bs[..|bs| - 1], id);
      assert forall j :: 0 <= j < |bs| - 1 ==> bs[..|bs| - 1][j] == bs[j];
      r
  }

  /** The keys are the ids of the matches, and each holds the thumbnail of the last match binding it. */
  lemma {:induction false} DraftImageMapLastWins(bs: seq<DraftBinding>, id: string)
    ensures id in DraftImageMap(bs) <==> LastIndex(bs, id).Some?
    ensures LastIndex(bs, id).Some? ==> DraftImageMap(bs)[id] == bs[LastIndex(bs, id).value].payload
    decreases |bs|
  {
    if bs != [] {
      DraftImageMapLastWins(bs[..|bs| - 1], id);
    }
  }

  /** Every id bound is a non-empty, quote-free string, and so is every thumbnail. */
  lemma {:induction false} DraftImageMapChars(bs: seq<DraftBinding>)
    requires forall k :: 0 <= k < |bs| ==> DraftWellFormed(bs[k])
    ensures forall id :: id in DraftImageMap(bs) ==>
      id != [] && ScraperImages.QUOTE !in id && DraftImageMap(bs)[id] != [] && ScraperImages.QUOTE !in DraftImageMap(bs)[id]
    decreases |bs|
  {
    if bs != [] {
      assert forall k :: 0 <= k < |bs| - 1 ==> bs[..|bs| - 1][k] == bs[k];
      DraftImageMapChars(bs[..|bs| - 1]);
      assert DraftWellFormed(bs[|bs| - 1]);
    }
  }

  /** Lines 20-23: fill a dict from the matches of one script. */
  method BuildImageMap(matches: seq<DraftBinding>) returns (images: map<string, string>)
    ensures images == DraftImageMap(matches)
  {
    images := map[];
    var i := 0;
    while i < |matches|
      invariant 0 <= i <= |matches|
      invariant images == DraftImageMap(matches[..i])
    {
      assert matches[..i + 1][..i] == matches[..i];
      images := images[matches[i].id := matches[i].payload];
      i := i + 1;
    }
    assert matches[..i] == matches;
  }

  /** What `grather_carousel_image_sources` returns: the empty list when no script holds
      thumbnails, a dict otherwise. */
  datatype ImageSources = EmptyList | ImageDict(images: map<string, string>)

  /** `grather_carousel_image_sources` as written (lines 9-23). `scripts` are the match
      sequences of the scripts holding thumbnails, in document order; `soup.find` takes the
      first. The `not script_tag.string` test cannot hold for a tag found by its string. */
  method GratherCarouselImageSources(scripts: seq<seq<DraftBinding>>) returns (r: ImageSources)
    ensures scripts == [] ==> r == EmptyList
    ensures scripts != [] ==> r == ImageDict(DraftImageMap(scripts[0]))
  {
    if scripts == [] {
      return EmptyList;
    }
    var images := BuildImageMap(scripts[0]);
    return ImageDict(images);
  }

  /** The thumbnails of the first script, and none without one. */
  function FirstScriptImages(scripts: seq<seq<DraftBinding>>): (m: map<string, string>)
    ensures scripts == [] ==> m == map[]
  {
    if scripts == [] then map[] else DraftImageMap(scripts[0])
  }

  /** `grather_carousel_image_sources` with `return {}` for the missing script: always a dict. */
  method GratherCarouselImageSourcesFixed(scripts: seq<seq<DraftBinding>>) returns (images: map<string, string>)
    ensures images == FirstScriptImages(scripts)
    ensures scripts != [] ==> images == DraftImageMap(scripts[0])
  {
    if scripts == [] {
      return map[];
    }
    images := BuildImageMap(scripts[0]);
  }

  /** `scrape_item_image` (lines 44-48) as written: `img` is the anchor's first image (outer
      Option) and its id (inner Option). `.get` on the empty list raises. */
  function ScrapeItemImage(img: Option<Option<string>>, images: ImageSources): (r: Result<Option<string>, ScrapeError>)
    ensures img.None? ==> r == Success(None)
    ensures img.Some? && images.EmptyList? ==> r == Failure(ImagesNotADict)
    ensures images.ImageDict? ==> r == Success(ImageLookup(img, images.images))
  {
    match img
    case None => Success(None)
    case Some(id) =>
      match images
      case EmptyList => Failure(ImagesNotADict)
      case ImageDict(m) => Success(ImageLookup(img, m))
  }

  /** A page without a thumbnail script whose first anchor has an image: the written code
      fails on it, the fixed one reports no image. */
  lemma NoScriptImageFails(scripts: seq<seq<DraftBinding>>, img: Option<Option<string>>)
    requires scripts == [] && img.Some?
    ensures ScrapeItemImage(img, EmptyList) == Failure(ImagesNotADict)
    ensures ImageLookup(img, FirstScriptImages(scripts)) == None
  {
  }

  /** Whether `if year:` holds. */
  predicate Truthy(year: Option<string>)
  {
    year.Some? && year.value != []
  }

  /** The dict lines 54-58 build: its keys in insertion order are `name`, `extensions` only
      when the year is truthy, `link` and `image`. */
  function ItemDict(name: string, year: Option<string>, href: Option<string>, image: Option<string>): (d: Dict)
    ensures Keys(d) == ["name"] + (if Truthy(year) then ["extensions"] else []) + ["link", "image"]
  {
    var n, l, i := ("name", Str(name)), ("link", OptionalStr(href)), ("image", OptionalStr(image));
    if Truthy(year) then
      var e := ("extensions", StrList([year.value]));
      Literal4(n, e, l, i);
      [n, e, l, i]
    else
      Literal3(n, l, i);
      [n, l, i]
  }

  /** The dict `scrape_carousel_item` returns, in insertion order, or the exception it raises. */
  function DraftItemOf(tag: Anchor, images: map<string, string>): (r: Result<Dict, ScrapeError>)
    ensures tag.title.None? ==> r == Failure(MissingTitle)
    ensures tag.title.Some? && ScrapeItemTitle(tag.title.value).None? ==> r == Failure(TitleNoMatch)
    ensures tag.title.Some? && ScrapeItemTitle(tag.title.value).Some? ==> r.Success?
  {
    match tag.title
    case None => Failure(MissingTitle)
    case Some(t) =>
      match ScrapeItemTitle(t)
      case None => Failure(TitleNoMatch)
      case Some(p) => Success(ItemDict(p.name, p.year, tag.href, ImageLookup(tag.img, images)))
  }

  /** A built item always has a name, a link that is the raw `href` (or None) and an image;
      it has `extensions` exactly when the year is not empty, and its value is then `[year]`. */
  lemma DraftItemKeys(tag: Anchor, images: map<string, string>)
    requires DraftItemOf(tag, images).Success?
    ensures tag.title.Some? && ScrapeItemTitle(tag.title.value).Some?
    ensures Get(DraftItemOf(tag, images).value, "name") == Some(Str(ScrapeItemTitle(tag.title.value).value.name))
    ensures Get(DraftItemOf(tag, images).value, "link") == Some(OptionalStr(tag.href))
    ensures Get(DraftItemOf(tag, images).value, "image") == Some(OptionalStr(ImageLookup(tag.img, images)))
    ensures "extensions" in Keys(DraftItemOf(tag, images).value) <==> Truthy(ScrapeItemTitle(tag.title.value).value.year)
    ensures Truthy(ScrapeItemTitle(tag.title.value).value.year) ==>
      Get(DraftItemOf(tag, images).value, "extensions") == Some(StrList([ScrapeItemTitle(tag.title.value).value.year.value]))
  {
    var p := ScrapeItemTitle(tag.title.value).value;
    var d := DraftItemOf(tag, images).value;
    var n := ("name", Str(p.name));
    var l := ("link", OptionalStr(tag.href));
    var i := ("image", OptionalStr(ImageLookup(tag.img, images)));
    if Truthy(p.year) {
      var e := ("extensions", StrList([p.year.value]));
      assert d == [n, e, l, i];
      Literal4(n, e, l, i);
    } else {
      assert d == [n, l, i];
      Literal3(n, l, i);
    }
  }

  /** For a single-line title, the keys follow the title rule: `extensions` is there exactly
      when the title ends with `(dddd)`, holding those digits. */
  lemma DraftItemRule(tag: Anchor, images: map<string, string>)
    requires tag.title.Some? && NoNewline(tag.title.value)
    ensures DraftItemOf(tag, images).Success?
    ensures EndsWithYear(tag.title.value) ==>
      Get(DraftItemOf(tag, images).value, "name") == Some(Str(Strip(tag.title.value[..|tag.title.value| - 6]))) &&
      Get(DraftItemOf(tag, images).value, "extensions") ==
        Some(StrList([tag.title.value[|tag.title.value| - 5..|tag.title.value| - 1]]))
    ensures !EndsWithYear(tag.title.value) ==>
      Get(DraftItemOf(tag, images).value, "name") == Some(Str(Strip(tag.title.value))) &&
      "extensions" !in Keys(DraftItemOf(tag, images).value)
  {
    DraftTitleRule(tag.title.value);
    DraftItemKeys(tag, images);
  }

  /** The empty dict of line 52 and the assignments of lines 54-58. */
  method FillItem(name: string, year: Option<string>, href: Option<string>, image: Option<string>)
    returns (filled: Dict)
    ensures filled == ItemDict(name, year, href, image)
  {
    filled := [];
    SetFreshKey(filled, "name", Str(name));
    KeysSnoc(filled, "name", Str(name));
    filled := Set(filled, "name", Str(name));
    if Truthy(year) {
      SetFreshKey(filled, "extensions", StrList([year.value]));
      KeysSnoc(filled, "extensions", StrList([year.value]));
      filled := Set(filled, "extensions", StrList([year.value]));
    }
    assert filled == [("name", Str(name))] + (if Truthy(year) then [("extensions", StrList([year.value]))] else []);
    SetFreshKey(filled, "link", OptionalStr(href));
    KeysSnoc(filled, "link", OptionalStr(href));
    filled := Set(filled, "link", OptionalStr(href));
    SetFreshKey(filled, "image", OptionalStr(image));
    filled := Set(filled, "image", OptionalStr(image));
  }

  /** With the fix, a page without a thumbnail script still gives every anchor a dict, with
      `image` set to None. */
  lemma NoScriptItemsHaveNoImage(scripts: seq<seq<DraftBinding>>, tag: Anchor)
    requires scripts == [] && tag.title.Some? && ScrapeItemTitle(tag.title.value).Some?
    ensures DraftItemOf(tag, FirstScriptImages(scripts)).Success?
    ensures Get(DraftItemOf(tag, FirstScriptImages(scripts)).value, "image") == Some(Null)
  {
    DraftItemKeys(tag, FirstScriptImages(scripts));
  }

  /** `scrape_carousel_item` (lines 51-59): the dict is built by successive assignments, so
      its keys come in the order name, extensions, link, image. */
  method ScrapeCarouselItem(tag: Anchor, images: map<string, string>) returns (r: Result<Dict, ScrapeError>)
    ensures r == DraftItemOf(tag, images)
  {
    if tag.title.None? {
      return Failure(MissingTitle);
    }
    var parts := ScrapeItemTitle(tag.title.value);
    if parts.None? {
      return Failure(TitleNoMatch);
    }
    var result := FillItem(parts.value.name, parts.value.year, tag.href, ImageLookup(tag.img, images));
    return Success(result);
  }

  /** `scrape_google_result_page`'s loop as one value: one dict per anchor, or an error. */
  function DraftPage(anchors: seq<Anchor>, images: map<string, string>): (r: Result<seq<Dict>, ScrapeError>)
    ensures r.Success? ==> |r.value| == |anchors|
  {
    TraverseSpec(anchors, (a: Anchor) => DraftItemOf(a, images));
    Traverse(anchors, (a: Anchor) => DraftItemOf(a, images))
  }

  /** One result per carousel anchor, in anchor order, when every anchor can be built; the
      failure of an anchor all of whose predecessors can be built otherwise. */
  lemma DraftPageSpec(anchors: seq<Anchor>, images: map<string, string>)
    ensures DraftPage(anchors, images).Success? <==>
      forall k :: 0 <= k < |anchors| ==> DraftItemOf(anchors[k], images).Success?
    ensures DraftPage(anchors, images).Success? ==>
      (|DraftPage(anchors, images).value| == |anchors| &&
       forall k :: 0 <= k < |anchors| ==> DraftPage(anchors, images).value[k] == DraftItemOf(anchors[k], images).value)
    ensures DraftPage(anchors, images).Failure? ==>
      exists k :: 0 <= k < |anchors| && DraftItemOf(anchors[k], images) == Failure(DraftPage(anchors, images).error) &&
        (forall j :: 0 <= j < k ==> DraftItemOf(anchors[j], images).Success?)
  {
    TraverseSpec(anchors, (a: Anchor) => DraftItemOf(a, images));
  }

  /** One more anchor built. */
  lemma DraftPageStep(anchors: seq<Anchor>, images: map<string, string>, i: nat, built: seq<Dict>, d: Dict)
    requires i < |anchors| && DraftPage(anchors[..i], images) == Success(built)
    requires DraftItemOf(anchors[i], images) == Success(d)
    ensures DraftPage(anchors[..i + 1], images) == Success(built + [d])
  {
    TraverseStep(anchors, (a: Anchor) => DraftItemOf(a, images), i);
  }

  /** An anchor that cannot be built after a run of anchors that can decides the page. */
  lemma DraftPageStop(anchors: seq<Anchor>, images: map<string, string>, i: nat, built: seq<Dict>)
    requires i < |anchors| && DraftPage(anchors[..i], images) == Success(built)
    requires DraftItemOf(anchors[i], images).Failure?
    ensures DraftPage(anchors, images) == Failure(DraftItemOf(anchors[i], images).error)
  {
    TraverseStep(anchors, (a: Anchor) => DraftItemOf(a, images), i);
    TraverseStops(anchors, (a: Anchor) => DraftItemOf(a, images), i + 1);
  }

  /** `scrape_google_result_page` (lines 62-73) once the page is parsed, with the image
      sources returning a dict in every case. */
  method ScrapeGoogleResultPage(scripts: seq<seq<DraftBinding>>, anchors: seq<Anchor>)
    returns (r: Result<seq<Dict>, ScrapeError>)
    ensures r == DraftPage(anchors, FirstScriptImages(scripts))
  {
    var images := GratherCarouselImageSourcesFixed(scripts);
    var results: seq<Dict> := [];
    var i := 0;
    while i < |anchors|
      invariant 0 <= i <= |anchors|
      invariant DraftPage(anchors[..i], images) == Success(results)
    {
      var item := ScrapeCarouselItem(anchors[i], images);
      if item.Failure? {
        DraftPageStop(anchors, images, i, results);
        return Failure(item.error);
      }
      DraftPageStep(anchors, images, i, results, item.value);
      results := results + [item.value];
      i := i + 1;
    }
    assert anchors[..i] == anchors;
    return Success(results);
  }

  /** `scrape_carousel_item` as written, over what `grather_carousel_image_sources` returned:
      the title is parsed first (lines 53-56), then the image is looked up (line 58), which
      raises on the empty list when the anchor has an image. */
  function DraftItemAsWritten(tag: Anchor, sources: ImageSources): (r: Result<Dict, ScrapeError>)
    ensures tag.title.None? ==> r == Failure(MissingTitle)
    ensures tag.title.Some? && ScrapeItemTitle(tag.title.value).None? ==> r == Failure(TitleNoMatch)
    ensures sources.ImageDict? ==> r == DraftItemOf(tag, sources.images)
    ensures sources.EmptyList? ==>
      (r == Failure(ImagesNotADict) <==> tag.title.Some? && ScrapeItemTitle(tag.title.value).Some? && tag.img.Some?)
  {
    match tag.title
    case None => Failure(MissingTitle)
    case Some(t) =>
      match ScrapeItemTitle(t)
      case None => Failure(TitleNoMatch)
      case Some(p) =>
        match ScrapeItemImage(tag.img, sources)
        case Failure(e) => Failure(e)
        case Success(image) => Success(ItemDict(p.name, p.year, tag.href, image))
  }

  /** The page loop of lines 68-73 as written, over what `grather_carousel_image_sources` returned. */
  function DraftPageAsWritten(anchors: seq<Anchor>, sources: ImageSources): (r: Result<seq<Dict>, ScrapeError>)
    ensures r.Success? ==> |r.value| == |anchors|
  {
    TraverseSpec(anchors, (a: Anchor) => DraftItemAsWritten(a, sources));
    Traverse(anchors, (a: Anchor) => DraftItemAsWritten(a, sources))
  }

  /** When a script holds thumbnails the written page and the corrected one agree. */
  lemma AsWrittenPageWithDict(anchors: seq<Anchor>, m: map<string, string>)
    ensures DraftPageAsWritten(anchors, ImageDict(m)) == DraftPage(anchors, m)
  {
    TraverseCongruent(anchors, (a: Anchor) => DraftItemAsWritten(a, ImageDict(m)), (a: Anchor) => DraftItemOf(a, m));
  }

  /** Without a thumbnail script, the written page fails at the first anchor that has an image,
      as long as the anchors before it have matching titles (and so have no image). */
  lemma AsWrittenPageWithoutScript(anchors: seq<Anchor>, i: nat)
    requires i < |anchors| && anchors[i].img.Some?
    requires anchors[i].title.Some? && ScrapeItemTitle(anchors[i].title.value).Some?
    requires forall j :: 0 <= j < i ==>
      anchors[j].title.Some? && ScrapeItemTitle(anchors[j].title.value).Some? && anchors[j].img.None?
    ensures DraftPageAsWritten(anchors, EmptyList) == Failure(ImagesNotADict)
  {
    var f := (a: Anchor) => DraftItemAsWritten(a, EmptyList);
    forall j | 0 <= j < i ensures f(anchors[j]).Success? {
      assert ScrapeItemImage(anchors[j].img, EmptyList) == Success(None);
    }
    TraverseFirstError(anchors, f, i);
  }

  /** One anchor with a matching title and an image, on a page without a thumbnail script:
      the written page raises, the corrected one gives that anchor's dict. */
  lemma NoScriptOneAnchorPage(a: Anchor)
    requires a.title.Some? && ScrapeItemTitle(a.title.value).Some? && a.img.Some?
    ensures DraftPageAsWritten([a], EmptyList) == Failure(ImagesNotADict)
    ensures DraftPage([a], FirstScriptImages([])) == Success([DraftItemOf(a, map[]).value])
  {
    AsWrittenPageWithoutScript([a], 0);
    var d := DraftItemOf(a, map[]).value;
    assert [a][..0] == [] && [a][..1] == [a];
    DraftPageStep([a], map[], 0, [], d);
    assert [] + [d] == [d];
  }
}
