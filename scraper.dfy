/** The records serpapi_code_challenge/scraper.py builds from a page: one CarouselItem per
    carousel anchor, with the name and year taken from the anchor's title, an absolute link
    and the thumbnail the page's scripts bind to the anchor's image; and the dictionary the
    JSON encoder writes for an item. */
module Scraper {
  import opened Wrappers
  import opened Text
  import opened Values
  import opened Html
  import opened ScraperTitle
  import ScraperImages

  /** The origin every carousel link is made absolute against (line 101). */
  const ORIGIN := "https://www.google.com"

  /** What the f-string writes for the `href` attribute: its text, or `None` when it is missing. */
  function HrefText(href: Option<string>): string
  {
    match href
    case Some(h) => h
    case None => "None"
  }

  /** Line 101: the origin followed by the `href` text. */
  function Link(href: Option<string>): (link: string)
    ensures |link| == |ORIGIN| + |HrefText(href)|
    ensures link[..|ORIGIN|] == ORIGIN && link[|ORIGIN|..] == HrefText(href)
  {
    ORIGIN + HrefText(href)
  }

  /** `get_carousel_item_image`: the thumbnail bound to the id of the anchor's image, or None
      when there is no image, the image has no id, or nothing is bound to that id. */
  function GetCarouselItemImage(tag: Anchor, images: map<string, string>): (r: Option<string>)
    ensures r.Some? <==> tag.img.Some? && tag.img.value.Some? && tag.img.value.value in images
    ensures r.Some? ==> r.value == images[tag.img.value.value]
  {
    ImageLookup(tag.img, images)
  }

  /** The state of a CarouselItem, as `dataclasses.asdict` sees it. */
  datatype ItemRecord = ItemRecord(name: string, link: string, image: Option<string>, extensions: seq<string>)

  /** The `extensions` an item is given: `[year]` when a year was parsed, even an empty one,
      and the default empty list otherwise. */
  function Extensions(year: Option<string>): (e: seq<string>)
    ensures e == [] <==> year.None?
    ensures year.Some? ==> e == [year.value]
  {
    match year
    case Some(y) => [y]
    case None => []
  }

  /** The dataclass `CarouselItem` (lines 24-31). */
  class CarouselItem {
    var name: string
    var link: string
    var image: Option<string>
    var extensions: seq<string>

    /** The generated `__init__`, with `extensions` left to its default factory. */
    constructor (name: string, link: string, image: Option<string>)
      ensures this.name == name && this.link == link && this.image == image && extensions == []
    {
      this.name := name;
      this.link := link;
      this.image := image;
      extensions := [];
    }

    function Record(): ItemRecord
      reads this
    {
      ItemRecord(name, link, image, extensions)
    }

    /** `CarouselItem.create` (lines 33-38): builds the item, then replaces its extensions
        with `[year]` when a year is given. */
    static method Create(name: string, link: string, image: Option<string>, year: Option<string>)
      returns (item: CarouselItem)
      ensures fresh(item)
      ensures item.Record() == ItemRecord(name, link, image, Extensions(year))
    {
      item := new CarouselItem(name, link, image);
      if year.Some? {
        item.extensions := [year.value];
      }
    }
  }

  /** What `build_carousel_item` makes of an anchor: a missing title raises, a title the
      pattern does not match raises, otherwise the record of the item it creates. */
  function CarouselItemOf(tag: Anchor, images: map<string, string>): (r: Result<ItemRecord, ScrapeError>)
    ensures tag.title.None? ==> r == Failure(MissingTitle)
    ensures tag.title.Some? && ParseItemTitle(tag.title.value).None? ==> r == Failure(TitleNoMatch)
    ensures r.Success? ==> r.value.link == Link(tag.href) && r.value.image == GetCarouselItemImage(tag, images)
    ensures r.Success? ==> Strip(r.value.name) == r.value.name
  {
    match tag.title
    case None => Failure(MissingTitle)
    case Some(t) =>
      match ParseItemTitle(t)
      case None => Failure(TitleNoMatch)
      case Some(p) => Success(ItemRecord(p.name, Link(tag.href), GetCarouselItemImage(tag, images), Extensions(p.year)))
  }

  /** `build_carousel_item` (lines 95-103), creating the item on the heap. */
  method BuildCarouselItem(tag: Anchor, images: map<string, string>) returns (r: Result<CarouselItem, ScrapeError>)
    ensures r.Failure? ==> CarouselItemOf(tag, images) == Failure(r.error)
    ensures r.Success? ==> fresh(r.value) && CarouselItemOf(tag, images) == Success(r.value.Record())
  {
    if tag.title.None? {
      return Failure(MissingTitle);
    }
    var parts := ParseItemTitle(tag.title.value);
    if parts.None? {
      return Failure(TitleNoMatch);
    }
    var link := Link(tag.href);
    var image := GetCarouselItemImage(tag, images);
    var item := CarouselItem.Create(parts.value.name, link, image, parts.value.year);
    return Success(item);
  }

  /** For a single-line title the item's name and extensions follow the title rule: with a
      `(`...`)` suffix, the stripped text before the first `(` and `[` the text up to the final `)` `]`;
      otherwise the stripped title and no extensions. */
  lemma CarouselItemRule(tag: Anchor, images: map<string, string>)
    requires tag.title.Some? && NoNewline(tag.title.value)
    ensures CarouselItemOf(tag, images).Success?
    ensures HasParenSuffix(tag.title.value) ==>
      IndexOf(tag.title.value, '(', 0) < |tag.title.value| - 1 &&
      CarouselItemOf(tag, images).value.name == Strip(tag.title.value[..IndexOf(tag.title.value, '(', 0)]) &&
      CarouselItemOf(tag, images).value.extensions ==
        [tag.title.value[IndexOf(tag.title.value, '(', 0) + 1..|tag.title.value| - 1]]
    ensures !HasParenSuffix(tag.title.value) ==>
      CarouselItemOf(tag, images).value.name == Strip(tag.title.value) && CarouselItemOf(tag, images).value.extensions == []
  {
    ParseItemTitleRule(tag.title.value);
    var p := ParseItemTitle(tag.title.value).value;
    assert CarouselItemOf(tag, images) ==
      Success(ItemRecord(p.name, Link(tag.href), GetCarouselItemImage(tag, images), Extensions(p.year)));
  }

  /** An anchor titled `name (year)` gives an item with that name and `[year]`, as the first
      anchor of the test page does. */
  lemma CarouselItemWithYear(tag: Anchor, images: map<string, string>, name: string, year: string)
    requires tag.title == Some(name + " (" + year + ")")
    requires NoNewline(name) && NoNewline(year) && '(' !in name && Strip(name) == name
    ensures CarouselItemOf(tag, images) ==
      Success(ItemRecord(name, Link(tag.href), GetCarouselItemImage(tag, images), [year]))
  {
    ParseItemTitleRoundTrip(name, year);
  }

  /** An anchor whose image id is bound by the page's scripts shows the thumbnail of the last
      match listing that id; with none listing it, it has no image. */
  lemma ItemImageFromScripts(scripts: seq<seq<ScraperImages.Binding>>, tag: Anchor, id: string)
    requires tag.img == Some(Some(id))
    ensures var bs := ScraperImages.Flatten(scripts);
      match ScraperImages.LastBinder(bs, id)
      case Some(j) => GetCarouselItemImage(tag, ScraperImages.ImageMap(scripts)) == Some(bs[j].payload)
      case None => GetCarouselItemImage(tag, ScraperImages.ImageMap(scripts)) == None
  {
    ScraperImages.ImageMapLastWins(scripts, id);
    var bs := ScraperImages.Flatten(scripts);
    var last := ScraperImages.LastBinder(bs, id);
    if last.None? {
      assert forall j :: 0 <= j < |bs| ==> !ScraperImages.Lists(bs[j], id);
    }
  }

  /** `dataclasses.asdict` (line 19): one member per field, in declaration order, each holding
      that field's value. */
  function AsDict(r: ItemRecord): (d: Dict)
    ensures Keys(d) == ["name", "link", "image", "extensions"]
    ensures Get(d, "name") == Some(Str(r.name)) && Get(d, "link") == Some(Str(r.link))
    ensures Get(d, "image") == Some(OptionalStr(r.image)) && Get(d, "extensions") == Some(StrList(r.extensions))
  {
    var n, l, i, e := ("name", Str(r.name)), ("link", Str(r.link)), ("image", OptionalStr(r.image)), ("extensions", StrList(r.extensions));
    Literal4(n, l, i, e);
    [n, l, i, e]
  }

  /** The comprehension of line 20: every item except those whose value equals `[]`. */
  function DropEmptyArrays(d: Dict): (r: Dict)
    ensures |r| <= |d|
    decreases |d|
  {
    if d == [] then []
    else
      var rest := DropEmptyArrays(d[1..]);
      if d[0].1 == StrList([]) then rest else [d[0]] + rest
  }

  /** The items kept are exactly the items whose value is not the empty list. */
  lemma {:induction false} DropEmptyArraysMembers(d: Dict)
    ensures forall e :: e in DropEmptyArrays(d) <==> e in d && e.1 != StrList([])
    decreases |d|
  {
    if d != [] {
      DropEmptyArraysMembers(d[1..]);
      assert forall e :: e in d <==> e == d[0] || e in d[1..];
    }
  }

  /** The filter keeps the order: filtering two halves one after the other is filtering the whole. */
  lemma {:induction false} DropEmptyArraysAppend(a: Dict, b: Dict)
    ensures DropEmptyArrays(a + b) == DropEmptyArrays(a) + DropEmptyArrays(b)
    decreases |a|
  {
    if a != [] {
      assert (a + b)[0] == a[0] && (a + b)[1..] == a[1..] + b;
      DropEmptyArraysAppend(a[1..], b);
    } else {
      assert a + b == b;
    }
  }

  /** Filtering twice is filtering once. */
  lemma {:induction false} DropEmptyArraysIdempotent(d: Dict)
    ensures DropEmptyArrays(DropEmptyArrays(d)) == DropEmptyArrays(d)
    decreases |d|
  {
    if d != [] {
      DropEmptyArraysIdempotent(d[1..]);
      var rest := DropEmptyArrays(d[1..]);
      if d[0].1 != StrList([]) {
        assert ([d[0]] + rest)[0] == d[0] && ([d[0]] + rest)[1..] == rest;
      }
    }
  }

  /** `DropEmptyArrayEncoder.default` for a CarouselItem (lines 17-20): name, link and image
      always, the image even when it is None, and extensions exactly when the list is not empty. */
  function Encode(item: CarouselItem): (d: Dict)
    reads item
    ensures d == [("name", Str(item.name)), ("link", Str(item.link)), ("image", OptionalStr(item.image))] +
      (if item.extensions == [] then [] else [("extensions", StrList(item.extensions))])
  {
    EncodeShape(item.Record());
    DropEmptyArrays(AsDict(item.Record()))
  }

  /** What the encoder writes: name, link and image always, the image even when it is None,
      and extensions exactly when the list is not empty, as in the encoder test. */
  lemma EncodeShape(r: ItemRecord)
    ensures DropEmptyArrays(AsDict(r)) ==
      [("name", Str(r.name)), ("link", Str(r.link)), ("image", OptionalStr(r.image))] +
      (if r.extensions == [] then [] else [("extensions", StrList(r.extensions))])
  {
    var e := [("extensions", StrList(r.extensions))];
    assert e[1..] == [];
    var tail := if r.extensions == [] then [] else e;
    assert DropEmptyArrays(e) == tail;
    var c := [("image", OptionalStr(r.image))] + e;
    assert c[1..] == e;
    assert DropEmptyArrays(c) == [c[0]] + tail;
    var b := [("link", Str(r.link))] + c;
    assert b[1..] == c;
    assert DropEmptyArrays(b) == [b[0]] + ([c[0]] + tail);
    var a := [("name", Str(r.name))] + b;
    assert a[1..] == b && a == AsDict(r);
    assert DropEmptyArrays(a) == [a[0]] + ([b[0]] + ([c[0]] + tail));
  }

  /** `parse_google_result_page`'s result loop as one value: the records of the anchors in
      order, or the failure of the first anchor that cannot be built. */
  function PageRecords(anchors: seq<Anchor>, images: map<string, string>): (r: Result<seq<ItemRecord>, ScrapeError>)
    ensures r.Success? ==> |r.value| == |anchors|
  {
    TraverseSpec(anchors, (a: Anchor) => CarouselItemOf(a, images));
    Traverse(anchors, (a: Anchor) => CarouselItemOf(a, images))
  }

  /** The page succeeds exactly when every anchor can be built, and then holds one record per
      anchor, in anchor order; a failing page reports the failure of an anchor all of whose
      predecessors can be built, which makes it the first anchor that cannot. */
  lemma PageRecordsSpec(anchors: seq<Anchor>, images: map<string, string>)
    ensures PageRecords(anchors, images).Success? <==>
      forall k :: 0 <= k < |anchors| ==> CarouselItemOf(anchors[k], images).Success?
    ensures PageRecords(anchors, images).Success? ==>
      (|PageRecords(anchors, images).value| == |anchors| &&
       forall k :: 0 <= k < |anchors| ==> PageRecords(anchors, images).value[k] == CarouselItemOf(anchors[k], images).value)
    ensures PageRecords(anchors, images).Failure? ==>
      exists k :: 0 <= k < |anchors| && CarouselItemOf(anchors[k], images) == Failure(PageRecords(anchors, images).error) &&
        (forall j :: 0 <= j < k ==> CarouselItemOf(anchors[j], images).Success?)
  {
    TraverseSpec(anchors, (a: Anchor) => CarouselItemOf(a, images));
  }

  /** The failure the page reports is the one of the first anchor that cannot be built. */
  lemma PageRecordsFirstError(anchors: seq<Anchor>, images: map<string, string>, i: nat)
    requires i < |anchors| && CarouselItemOf(anchors[i], images).Failure?
    requires forall j :: 0 <= j < i ==> CarouselItemOf(anchors[j], images).Success?
    ensures PageRecords(anchors, images) == Failure(CarouselItemOf(anchors[i], images).error)
  {
    TraverseFirstError(anchors, (a: Anchor) => CarouselItemOf(a, images), i);
  }

  /** One more anchor built. */
  lemma PageRecordsStep(anchors: seq<Anchor>, images: map<string, string>, i: nat, built: seq<ItemRecord>, rec: ItemRecord)
    requires i < |anchors| && PageRecords(anchors[..i], images) == Success(built)
    requires CarouselItemOf(anchors[i], images) == Success(rec)
    ensures PageRecords(anchors[..i + 1], images) == Success(built + [rec])
  {
    TraverseStep(anchors, (a: Anchor) => CarouselItemOf(a, images), i);
  }

  /** An anchor that cannot be built after a run of anchors that can decides the page. */
  lemma PageRecordsStop(anchors: seq<Anchor>, images: map<string, string>, i: nat, built: seq<ItemRecord>)
    requires i < |anchors| && PageRecords(anchors[..i], images) == Success(built)
    requires CarouselItemOf(anchors[i], images).Failure?
    ensures PageRecords(anchors, images) == Failure(CarouselItemOf(anchors[i], images).error)
  {
    TraverseStep(anchors, (a: Anchor) => CarouselItemOf(a, images), i);
    TraverseStops(anchors, (a: Anchor) => CarouselItemOf(a, images), i + 1);
  }

  /** The items hold the records, one for one. */
  ghost predicate Holds(items: seq<CarouselItem>, records: seq<ItemRecord>)
    reads items
  {
    |items| == |records| && forall k :: 0 <= k < |items| ==> items[k].Record() == records[k]
  }

  lemma HoldsAppend(items: seq<CarouselItem>, records: seq<ItemRecord>, item: CarouselItem)
    requires Holds(items, records)
    ensures Holds(items + [item], records + [item.Record()])
  {
  }

  /** `parse_google_result_page` (lines 106-120) once the page is parsed: the thumbnails from
      the scripts' matches, then one item per carousel anchor, appended in anchor order; the
      first anchor that cannot be built aborts the page. */
  method ParseGoogleResultPage(scripts: seq<seq<ScraperImages.Binding>>, anchors: seq<Anchor>)
    returns (r: Result<seq<CarouselItem>, ScrapeError>)
    ensures r.Failure? ==> PageRecords(anchors, ScraperImages.ImageMap(scripts)) == Failure(r.error)
    ensures r.Success? ==> PageRecords(anchors, ScraperImages.ImageMap(scripts)).Success?
    ensures r.Success? ==>
      (|r.value| == |anchors| && |PageRecords(anchors, ScraperImages.ImageMap(scripts)).value| == |anchors| &&
       forall k :: 0 <= k < |anchors| ==>
         fresh(r.value[k]) && r.value[k].Record() == PageRecords(anchors, ScraperImages.ImageMap(scripts)).value[k])
  {
    var images := ScraperImages.GatherCarouselImageSources(scripts);
    var results: seq<CarouselItem> := [];
    ghost var built: seq<ItemRecord> := [];
    var i := 0;
    while i < |anchors|
      invariant 0 <= i <= |anchors| && |results| == i
      invariant PageRecords(anchors[..i], images) == Success(built)
      invariant Holds(results, built)
      invariant forall k :: 0 <= k < i ==> fresh(results[k])
    {
      var item := BuildCarouselItem(anchors[i], images);
      TraverseStep(anchors, (a: Anchor) => CarouselItemOf(a, images), i);
      if item.Failure? {
        TraverseStops(anchors, (a: Anchor) => CarouselItemOf(a, images), i + 1);
        return Failure(item.error);
      }
      HoldsAppend(results, built, item.value);
      results := results + [item.value];
      built := built + [item.value.Record()];
      i := i + 1;
    }
    assert anchors[..i] == anchors;
    return Success(results);
  }
}
