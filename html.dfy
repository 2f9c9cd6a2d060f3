/** What the scrapers read from the parsed document, with the markup parser abstracted away. */
module Html {
  import opened Wrappers

  /** One `a` element of the carousel: its `title` and `href` attributes, and its first `img`
      descendant (outer Option: whether there is one) with that element's `id` (inner Option). */
  datatype Anchor = Anchor(title: Option<string>, href: Option<string>, img: Option<Option<string>>)

  /** The exceptions that abort scraping a page.
      MissingTitle:   the anchor has no `title` attribute (a KeyError in
                      serpapi_code_challenge/scraper.py, a TypeError from `re.match(pattern, None)` in main.py);
      TitleNoMatch:   the title pattern does not match, so `match.groups()` is called on None;
      ImagesNotADict: `.get` is called on the empty list main.py returns when no script binds images. */
  datatype ScrapeError = MissingTitle | TitleNoMatch | ImagesNotADict

  /** `images.get(img.attrs.get("id", None), None)` after the `if not img: return None` test,
      the same in both scrapers: the thumbnail bound to the image's id, or None when there is
      no image, the image has no id, or nothing is bound to that id. */
  function ImageLookup(img: Option<Option<string>>, images: map<string, string>): (r: Option<string>)
    ensures r.Some? <==> img.Some? && img.value.Some? && img.value.value in images
    ensures r.Some? ==> r.value == images[img.value.value]
  {
    match img
    case None => None
    case Some(id) =>
      match id
      case None => None
      case Some(i) => if i in images then Some(images[i]) else None
  }
}
