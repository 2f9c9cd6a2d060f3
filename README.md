# Google carousel scraper, modelled in Dafny

The repository scrapes a saved Google results page for the items of its "scrolling carousel"
(for example the paintings of an artist). One record per item holds:

- `name`: the item's title with a trailing parenthesised part removed;
- `extensions`: that parenthesised part (a year);
- `link`: from the anchor's `href`;
- `image`: the base64 thumbnail that an inline `_setImagesSrc` script binds to the id of the
  anchor's `<img>`.

The repository holds two versions of the scraper:

- `serpapi_code_challenge/scraper.py` is the finished one. It builds `CarouselItem` objects
  and encodes them to JSON through an encoder that drops empty arrays.
- `main.py` is an earlier draft. It builds plain dictionaries with a stricter title pattern
  and its own script pattern.

The model covers both versions, module by module:

- `Wrappers` holds Option, Result and `Traverse`. `Traverse` is the loop "build each item in
  order; the first raised error ends the page", with its specification lemmas.
- `Text` holds Python's `str.isspace` set (also what `\s` matches), `str.strip()` and the
  end anchor `$`.
- `Html` holds the anchor as the scrapers see it: its `title`, its `href`, and whether it has
  an `<img>` and which `id` that has. It also holds the errors the scrapers raise.
- `Values` holds the JSON-like values and the insertion-ordered dictionary, with Python's
  assignment `d[k] = v` as `Set`.
- `ScraperTitle` holds `parse_item_title`. Its pattern `^(.*?)(?:\s*\((.*?)\))?$` is modelled
  as Python's backtracking matcher explores it: the lazy group grows one character at a
  time, and the optional group is tried before it is skipped.
- `ScraperImages` holds `gather_carousel_image_sources`. The inner `re.findall(r"'([^']*)'")`
  is modelled exactly, and the triple loop is an imperative method proved equal to a fold.
- `Scraper` holds the rest of `scraper.py`:
  - the `CarouselItem` class with its `create` constructor;
  - the item builder;
  - the encoder's dictionary;
  - the page loop, as a method that allocates one object per anchor.
- `DraftScraper` holds `main.py`: the title pattern `^(.*?)\s*(?:\((\d{4})\))?$`, the
  single-script image map, the item dictionary and the page loop.

Raised exceptions are modelled as `Failure` values of a `Result`:

- a title attribute that is missing, or whose pattern fails to match, gives `MissingTitle` or
  `TitleNoMatch`;
- calling `.get` on the list that `main.py` returns gives `ImagesNotADict`.

HTML parsing and the outer script regexes are not modelled. The scrapers receive what they
would have produced, as parameters:

- the anchors of the carousel, in document order;
- for every `_setImagesSrc` script, in document order, the sequence of matches of its outer
  pattern (`Binding` pairs of thumbnail and id text in `scraper.py`, `DraftBinding` pairs of
  thumbnail and one id in `main.py`).

What the outer patterns guarantee about their groups is stated by `WellFormed` and
`DraftWellFormed`.

Behaviour of the code that the docstrings and tests leave open, as the model states it:

- `scraper.py` builds the link as `f"https://www.google.com{href}"` (line 101). For an anchor
  without `href`, the link is the text `https://www.google.comNone` (`Scraper.HrefText`).
  Every anchor in the tests has an `href`.
- The docstring of `parse_item_title` (`scraper.py` lines 78-79) expects titles of the form
  `{name} ({extensions})`. For other titles the lazy `(.*?)` stops at the FIRST ` (` that a
  `)` at the very end still closes. So `Name (A) (B)` gives the name `Name` and the extension
  `A) (B`. The test title `Item 3 (2022-2024)` keeps its range as the extension in
  `scraper.py`. In `main.py`, whose group is `\d{4}`, the range stays in the name
  (`DraftScraper.DraftTitleKeepsRange`).
- A missing `title` raises:
  - in `scraper.py`, `tag.attrs["title"]` raises a KeyError (line 97);
  - in `main.py`, `re.match` on `None` raises a TypeError (line 53).

  Both are `Failure(MissingTitle)` here, and such a failure ends the page.
- `DropEmptyArrayEncoder` removes every member whose value equals `[]` (`scraper.py`
  line 20). For a `CarouselItem` only `extensions` can be a list. So the encoded item is
  `name`, `link` and `image`, with `image` kept when it is None, followed by `extensions` only
  when it is not empty. The encoder test expects exactly this (`Scraper.Encode`).
- In `main.py` a page without a thumbnail script gets `[]` rather than a dict; see Findings.

## Model

| member | source | states |
|---|---|---|
| Text.Strip | serpapi_code_challenge/scraper.py:84 | the stripped name is empty or neither starts nor ends with a whitespace character |
| Text.StripParts | serpapi_code_challenge/scraper.py:84 | the input is exactly leading whitespace, then the stripped text, then trailing whitespace: strip removes whitespace and nothing else |
| Text.StripIgnoresTrailingSpace | serpapi_code_challenge/scraper.py:81-84 | whitespace appended to a string does not change what strip returns, so the `\s*` before the group does not change the name |
| ScraperTitle.ParseItemTitle | serpapi_code_challenge/scraper.py:77-84 | whenever the pattern matches, the returned name is already stripped: stripping it again leaves it unchanged |
| ScraperTitle.LazyCloseAt | serpapi_code_challenge/scraper.py:81 | where the lazy `(.*?)\)$` started at i stops: a `)` at which `$` holds, with no newline between i and it |
| ScraperTitle.OptionalGroupAt | serpapi_code_challenge/scraper.py:81 | when the optional group matches at k, group 2 lies strictly between a `(` after k and a final `)` at which `$` holds, and holds no newline |
| ScraperTitle.MatchFrom | serpapi_code_challenge/scraper.py:81-82 | the search of `re.match` from group-1 end k on: group 1 is a prefix of the title at least k long, and group 2 holds no newline |
| ScraperTitle.ParseItemTitleRule | serpapi_code_challenge/scraper.py:81-84 | for every newline-free title the pattern matches; if the title ends in `)` after some `(`, the name is the stripped text before the first `(` and the year is everything between it and the final `)`; otherwise the name is the whole title stripped and the year is None |
| ScraperTitle.ParseItemTitleRoundTrip | serpapi_code_challenge/scraper.py:77-84 | a title written as `name (year)`, where the name is stripped and holds no `(` or newline, parses back to exactly that name and year, as the test title `Item 1 (2021)` does |
| ScraperTitle.ParseItemTitleNoGroup | serpapi_code_challenge/scraper.py:81-84 | a newline-free title that does not end in `)` parses to its stripped self with no year |
| ScraperTitle.ParseItemTitleNoMatch | serpapi_code_challenge/scraper.py:81-83 | a title with a newline before its last character and no `)` makes `re.match` return None, so the builder fails rather than returning a name |
| ScraperTitle.MatchWithParen | serpapi_code_challenge/scraper.py:81 | the match of a newline-free title ending in a closed group: group 1 ends where the whitespace before the first `(` begins, and group 2 runs from after that `(` to before the final `)` |
| ScraperImages.Scan | serpapi_code_challenge/scraper.py:56 | the match-by-match scan of `re.findall(r"'([^']*)'")` yields one id per pair of quotes, counting an already open quote |
| ScraperImages.SplitIds | serpapi_code_challenge/scraper.py:56 | `re.findall(r"'([^']*)'")` returns as many ids as there are complete pairs of quotes, so an unpaired trailing quote gives none, and no id holds a quote |
| ScraperImages.SplitIdsAvoid | serpapi_code_challenge/scraper.py:56 | no returned id contains a quote, nor any character absent from the array text |
| ScraperImages.SplitInterleave | serpapi_code_challenge/scraper.py:56 | quoting a list of quote-free ids between quote-free separators and splitting the text again gives back exactly the list |
| ScraperImages.ScanInterleave | serpapi_code_challenge/scraper.py:56 | scanning a laid-out id array and then any further text yields the array's ids in order, then the ids of the further text |
| ScraperImages.SplitUnpairedQuote | serpapi_code_challenge/scraper.py:56 | a laid-out id array followed by an unpaired quote and quote-free text splits to exactly the array's ids: the unclosed quote adds nothing |
| ScraperImages.BindIds | serpapi_code_challenge/scraper.py:56-58 | after one match the keys are the old keys plus the ids of its array; every such id maps to its thumbnail, and every other key keeps its value |
| ScraperImages.ApplyBindings | serpapi_code_challenge/scraper.py:54-58 | the matches of one script, in match order, never remove an id from the map |
| ScraperImages.ApplyScripts | serpapi_code_challenge/scraper.py:52-58 | the scripts, in document order, never remove an id from the map |
| ScraperImages.ImageMap | serpapi_code_challenge/scraper.py:41-60 | the returned map is the fold, from the empty map, over every match of every script in document order |
| ScraperImages.ApplyBindingsLastWins | serpapi_code_challenge/scraper.py:54-58 | an id is bound after the matches exactly when it was bound before or some match lists it; it then maps to the thumbnail of the last such match, or keeps its earlier value when no match lists it |
| ScraperImages.ApplyBindingsAppend | serpapi_code_challenge/scraper.py:54-58 | applying two runs of matches in turn is the same as applying their concatenation |
| ScraperImages.ApplyScriptsFlatten | serpapi_code_challenge/scraper.py:52-58 | the loop over scripts is the loop over all their matches in document order |
| ScraperImages.ImageMapLastWins | serpapi_code_challenge/scraper.py:41-60 | over the whole page, an id is in the map exactly when some match lists it, and it maps to the thumbnail of the last match in document order that lists it |
| ScraperImages.NoPairNoChange | serpapi_code_challenge/scraper.py:54-58 | a match whose array text holds fewer than two quotes leaves the map unchanged |
| ScraperImages.ImageMapEmpty | serpapi_code_challenge/scraper.py:41-60 | when no match lists an id the result is the empty map, so a page without these scripts gives `{}` |
| ScraperImages.ImageMapChars | serpapi_code_challenge/scraper.py:41-60 | when the matches are well formed, every id in the map is free of quotes, `]` and newlines, and every thumbnail is free of newlines |
| ScraperImages.TwoBlocksExample | serpapi_code_challenge/scraper.py:41-60 | the test's two scripts, one binding `img1` and one binding `img2` and `img3` together, give `img1` the first thumbnail and `img2` and `img3` the second, and nothing else |
| ScraperImages.GatherCarouselImageSources | serpapi_code_challenge/scraper.py:41-60 | the triple loop that assigns `images[img_id] = b64img` returns exactly the fold `ImageMap` about which the lemmas above are proved |
| Scraper.Link | serpapi_code_challenge/scraper.py:100-101 | the link is `https://www.google.com` followed by the href text, which is `None` when the anchor has no href |
| Scraper.GetCarouselItemImage | serpapi_code_challenge/scraper.py:87-92 | there is an image exactly when the anchor has an `<img>` with an id that is a key of the map, and it is that key's thumbnail |
| Html.ImageLookup | main.py:44-48 | there is an image exactly when an `<img>` with an id that is a key of the map is present, and it is that key's thumbnail; `get_carousel_item_image` and the dict case of `scrape_item_image` both are this lookup |
| Scraper.Extensions | serpapi_code_challenge/scraper.py:34-37 | the extensions are empty exactly when the year is None, and the one-element list of the year otherwise |
| Scraper.CarouselItem.constructor | serpapi_code_challenge/scraper.py:24-31 | the dataclass constructor stores name, link and image, and `extensions` defaults to `[]` |
| Scraper.CarouselItem.Create | serpapi_code_challenge/scraper.py:33-38 | a fresh item whose fields are the given name, link and image, with `extensions` set to `[year]` only when a year is given |
| Scraper.CarouselItemOf | serpapi_code_challenge/scraper.py:95-103 | a missing title and a title the pattern cannot match are errors; a built record has the link of the href, the image of the map, and a stripped name |
| Scraper.BuildCarouselItem | serpapi_code_challenge/scraper.py:95-103 | the method fails exactly as `CarouselItemOf` does, or it allocates a fresh `CarouselItem` whose fields are the record `CarouselItemOf` specifies |
| Scraper.CarouselItemRule | serpapi_code_challenge/scraper.py:95-103 | every anchor with a newline-free title gives an item; its name and extensions follow the title rule of `ParseItemTitleRule` |
| Scraper.CarouselItemWithYear | serpapi_code_challenge/scraper.py:95-103 | the anchor titled `name (year)` gives the item with that name, link, image and `extensions` `[year]`, as in the test item `Item 1` with `2021` |
| Scraper.ItemImageFromScripts | serpapi_code_challenge/scraper.py:87-92 | the image an anchor gets from the page's scripts is the thumbnail of the last match that lists the anchor's image id, or None when none does |
| Scraper.AsDict | serpapi_code_challenge/scraper.py:19 | `asdict` has the keys `name`, `link`, `image` and `extensions` in field order, each holding that field's value |
| Scraper.DropEmptyArrays | serpapi_code_challenge/scraper.py:20 | the filtered dictionary is never longer than the input |
| Scraper.DropEmptyArraysMembers | serpapi_code_challenge/scraper.py:20 | a member is kept exactly when it is in the input and its value is not `[]` |
| Scraper.DropEmptyArraysAppend | serpapi_code_challenge/scraper.py:20 | the filter acts member by member: filtering a concatenation is concatenating the filtered parts |
| Scraper.DropEmptyArraysIdempotent | serpapi_code_challenge/scraper.py:20 | filtering twice gives the same as filtering once |
| Scraper.EncodeShape | serpapi_code_challenge/scraper.py:17-20 | the encoded item is `name`, `link` and `image` in field order, with `image` kept even when null, followed by `extensions` only when it is non-empty |
| Scraper.Encode | serpapi_code_challenge/scraper.py:17-20 | the encoder's dictionary for an item: `name`, `link` and `image` always, the null image included, then `extensions` only when the item's list is not empty |
| Scraper.PageRecords | serpapi_code_challenge/scraper.py:115-120 | a successful page has exactly one record per anchor |
| Scraper.PageRecordsSpec | serpapi_code_challenge/scraper.py:115-120 | the page succeeds exactly when every anchor builds, and then it holds one record per anchor in order; otherwise it fails with the error of the first anchor that fails |
| Scraper.PageRecordsFirstError | serpapi_code_challenge/scraper.py:115-120 | when anchor i is the first to fail, the page fails with anchor i's error |
| Scraper.ParseGoogleResultPage | serpapi_code_challenge/scraper.py:106-120 | the page loop either returns the error `PageRecords` gives, or one freshly allocated item per anchor whose fields are the specified record at its position, the image map being the one the page's scripts give |
| DraftScraper.ScrapeItemTitle | main.py:37-41 | whenever the draft pattern matches, the name is stripped and any year is exactly four digits |
| DraftScraper.DraftMatchFrom | main.py:38-39 | the search of `re.match` from group-1 end k on: group 1 is a prefix of the title at least k long, and group 2, if taken, is four digits |
| DraftScraper.DraftTitleRule | main.py:38-41 | for every newline-free title the pattern matches; if the title ends in `(dddd)`, the name is the stripped text before it and the year is the four digits; otherwise the name is the whole title stripped and there is no year |
| DraftScraper.DraftTitleRoundTrip | main.py:38-41 | a title written as `name (year)`, with a stripped newline-free name and a four-digit year, parses back to that name and year |
| DraftScraper.DraftTitleKeepsRange | main.py:38-41 | a parenthesised part that is not four digits stays in the name: `Item 3 (2022-2024)` has no year |
| DraftScraper.DraftImageMap | main.py:20-22 | every id of the matches is a key, every key is the id of some match, and the last match's id holds its thumbnail |
| DraftScraper.DraftImageMapLastWins | main.py:20-22 | an id is in the map exactly when some match names it, and then it maps to the thumbnail of the last such match |
| DraftScraper.DraftImageMapChars | main.py:15-22 | keys and thumbnails are non-empty and free of quotes when the matches are well formed |
| DraftScraper.BuildImageMap | main.py:20-23 | the loop that assigns `images[img_id] = b64img` returns exactly `DraftImageMap` of the matches |
| DraftScraper.GratherCarouselImageSources | main.py:9-23 | as written: with no thumbnail script the result is the empty list, otherwise the map of the first script's matches |
| DraftScraper.GratherCarouselImageSourcesFixed | main.py:9-23 | corrected: the empty map with no script, otherwise the map of the first script's matches |
| DraftScraper.ScrapeItemImage | main.py:44-48 | as written: no `<img>` gives None; an `<img>` when the sources are the empty list raises; over a dict it is `Html.ImageLookup` |
| DraftScraper.NoScriptImageFails | main.py:12-13 | on a page without a thumbnail script, an anchor with an `<img>` makes the written code fail and the corrected code return None |
| DraftScraper.NoScriptItemsHaveNoImage | main.py:12-13 | with the correction, a page without a thumbnail script still gives every titled anchor a dictionary, whose `image` is None |
| DraftScraper.ItemDict | main.py:52-58 | the keys, in insertion order, are `name`, then `extensions` only when the year is truthy, then `link` and `image` |
| DraftScraper.DraftItemOf | main.py:51-59 | a missing title and a title the pattern cannot match are errors, and every matched title gives a dictionary |
| DraftScraper.DraftItemKeys | main.py:52-58 | the dictionary holds `name`, `link` (the raw href, or None) and `image`; it holds `extensions` exactly when the year is truthy, and then its value is `[year]` |
| DraftScraper.DraftItemRule | main.py:53-58 | every anchor with a newline-free title gives a dictionary; its name and extensions follow `DraftTitleRule` |
| DraftScraper.FillItem | main.py:52-58 | the successive assignments `result[k] = v` build exactly the dictionary `ItemDict`, keys in insertion order |
| DraftScraper.ScrapeCarouselItem | main.py:51-59 | the method returns exactly `DraftItemOf` of the anchor |
| DraftScraper.DraftPageSpec | main.py:68-73 | the page succeeds exactly when every anchor does, with one dictionary per anchor in order; otherwise it fails with the first anchor's error |
| DraftScraper.DraftPage | main.py:68-73 | a successful page has exactly one dictionary per anchor |
| DraftScraper.ScrapeGoogleResultPage | main.py:62-73 | the corrected page loop (an empty dict without a thumbnail script) returns exactly `DraftPage` of the anchors |
| DraftScraper.DraftItemAsWritten | main.py:51-59 | as written: title errors come first; then an anchor with an `<img>` raises on the empty list, and the empty list raises for exactly those anchors; over a dict it is `DraftItemOf` |
| DraftScraper.DraftPageAsWritten | main.py:65-73 | as written: a successful page has exactly one dictionary per anchor |
| DraftScraper.AsWrittenPageWithDict | main.py:65-73 | when the first thumbnail script exists, the page as written and the corrected page give the same result |
| DraftScraper.AsWrittenPageWithoutScript | main.py:65-73 | without a thumbnail script, the page as written fails with the `.get` error at the first anchor with an `<img>`, as long as the anchors before it have matching titles |
| DraftScraper.NoScriptOneAnchorPage | main.py:65-73 | a page without a thumbnail script and one titled anchor with an `<img>`: the page as written raises, and the corrected page yields that anchor's dictionary |
| Values.SetSpec | main.py:54-58 | after `d[k] = v` the key maps to v and every other key keeps its value; a new key goes to the end of the insertion order, an existing one keeps its place |
| Values.SetFreshKey | main.py:54-58 | assigning a key not yet present appends the member at the end |

## Left out

- BeautifulSoup is not modelled: neither parsing nor `find`/`find_all`. The carousel anchors
  (`gather_carousel_item_tags`, `grather_carousel_items`) and the `_setImagesSrc` scripts are
  parameters, in document order.
- The outer script patterns (`scraper.py` line 46, `main.py` lines 15-17) are not modelled as
  regexes. Their matches are given as `Binding`/`DraftBinding` sequences, and what the
  patterns guarantee about the groups is stated as `WellFormed`/`DraftWellFormed`.
- Nothing outside the scrapers is modelled: JSON serialisation, file reading and writing
  (`save_results_to_json`, `process_html_file`, `write_results`, including its
  `json_str[1:-1]`), the command line (`main`, the `.html`/`.json` suffix checks) and logging.
- DraftScraper.ScrapeGoogleResultPage: runs the page with the corrected image sources. The
  page as written is the function `DraftPageAsWritten`, with the lemmas about it, not a method.
- Scraper.Encode: models `DropEmptyArrayEncoder.default` for `CarouselItem` only. The
  `super().default(obj)` branch, which raises for any other object, is left out.
- DraftScraper.ScrapeItemTitle: models `\d` as the ASCII digits `0`-`9`. Python's `\d` in a
  str pattern also accepts other Unicode decimal digits.
- Raised exceptions are modelled as `Failure` values, and the failing page as the first
  failure. The traceback and the partial state are not modelled.
- `main.py` line 12 also tests `not script_tag.string`. The script's text is not modelled,
  so a script whose string is None is the same as having no script.

## Findings

| source | as written | input that shows it | evidently intended | confidence | as-written member | corrected member |
|---|---|---|---|---|---|---|
| main.py:12-13 | with no `_setImagesSrc` script, `grather_carousel_image_sources` returns `[]`, a list, although it is annotated and used as a dict | a page without a thumbnail script whose carousel anchor has an `<img>`: `scrape_item_image` calls `[].get(...)`, which raises AttributeError, and the page yields nothing | return the empty dict `{}`, so every such image is None | not executed | DraftScraper.DraftPageAsWritten (with DraftScraper.AsWrittenPageWithoutScript) | DraftScraper.GratherCarouselImageSourcesFixed (with DraftScraper.NoScriptItemsHaveNoImage) |
