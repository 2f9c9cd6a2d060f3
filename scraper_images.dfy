/** `gather_carousel_image_sources` of serpapi_code_challenge/scraper.py: the map from image
    ids to base64 thumbnails that the page's inline scripts bind.

    The outer script pattern is not modelled as a regex: each script's matches arrive as a
    sequence of Bindings, in match order. What that pattern guarantees about its two groups
    is stated by WellFormed. The inner `re.findall(r"'([^']*)'", ...)` is modelled exactly. */
module ScraperImages {
  import opened Wrappers
  import opened Text

  /** One match of the outer pattern: the thumbnail (group 1, `var s = '...'`) and the text
      of the id array (group 2, between `var ii = [` and `]`). */
  datatype Binding = Binding(payload: string, idsText: string)

  /** Both groups are lazy `.*?`, so neither holds a newline, and group 2 stops at the first `]`. */
  predicate WellFormed(b: Binding)
  {
    NoNewline(b.payload) && NoNewline(b.idsText) && ']' !in b.idsText
  }

  const QUOTE := '\''

  /** `re.findall(r"'([^']*)'", s)`, as a scan over the characters: outside a match, a quote
      opens one; inside, characters other than a quote are collected in `cur` and a quote closes
      the match and yields `cur`. Every successful match of the pattern starts at an opening
      quote and ends at the next quote, and the search resumes after it; an opening quote with
      no closing one matches nothing, so what is collected after it is dropped. */
  function Scan(s: string, open: bool, cur: string): (ids: seq<string>)
    ensures |ids| == (QuoteCount(s) + if open then 1 else 0) / 2
    decreases |s|
  {
    if s == [] then []
    else if s[0] == QUOTE then
      if open then [cur] + Scan(s[1..], false, []) else Scan(s[1..], true, [])
    else if open then Scan(s[1..], true, cur + [s[0]])
    else Scan(s[1..], false, cur)
  }

  /** Line 56: the ids listed in the text of a JS array, one per pair of quotes (a trailing
      unpaired quote gives none), none of them holding a quote. */
  function SplitIds(s: string): (ids: seq<string>)
    ensures |ids| == QuoteCount(s) / 2
    ensures forall k :: 0 <= k < |ids| ==> QUOTE !in ids[k]
  {
    ScanAvoid(s, false, [], QUOTE);
    Scan(s, false, [])
  }

  /** The number of quotes in s. */
  function QuoteCount(s: string): nat
    decreases |s|
  {
    if s == [] then 0 else (if s[0] == QUOTE then 1 else 0) + QuoteCount(s[1..])
  }

  /** No id holds a quote, nor any character the text does not hold. */
  lemma {:induction false} ScanAvoid(s: string, open: bool, cur: string, ch: char)
    requires ch !in cur && (ch == QUOTE || ch !in s)
    ensures forall k :: 0 <= k < |Scan(s, open, cur)| ==> ch !in Scan(s, open, cur)[k]
    decreases |s|
  {
    if s != [] {
      assert s == [s[0]] + s[1..];
      if s[0] == QUOTE {
        ScanAvoid(s[1..], !open, [], ch);
      } else if open {
        ScanAvoid(s[1..], true, cur + [s[0]], ch);
      } else {
        ScanAvoid(s[1..], false, cur, ch);
      }
    }
  }

  /** The ids of the text hold no quote, nor any character the text does not hold. */
  lemma SplitIdsAvoid(s: string, ch: char)
    requires ch == QUOTE || ch !in s
    ensures forall k :: 0 <= k < |SplitIds(s)| ==> ch !in SplitIds(s)[k]
  {
    ScanAvoid(s, false, [], ch);
  }

  /** Inside a match, the characters up to the next quote are the id. */
  lemma {:induction false} ScanClose(id: string, t: string, cur: string)
    requires QUOTE !in id
    ensures Scan(id + [QUOTE] + t, true, cur) == [cur + id] + Scan(t, false, [])
    decreases |id|
  {
    var s := id + [QUOTE] + t;
    if id == [] {
      assert s == [QUOTE] + t && s[1..] == t;
      assert cur + id == cur;
    } else {
      assert s[0] == id[0] && s[1..] == id[1..] + [QUOTE] + t;
      ScanClose(id[1..], t, cur + [id[0]]);
      assert cur + [id[0]] + id[1..] == cur + id;
    }
  }

  /** Outside a match, characters other than a quote are passed over. */
  lemma {:induction false} ScanSkip(gap: string, t: string)
    requires QUOTE !in gap
    ensures Scan(gap + t, false, []) == Scan(t, false, [])
    decreases |gap|
  {
    if gap != [] {
      var s := gap + t;
      assert s[0] == gap[0] && gap[0] in gap && s[1..] == gap[1..] + t;
      assert Scan(s, false, []) == Scan(s[1..], false, []);
      ScanSkip(gap[1..], t);
    } else {
      assert gap + t == t;
    }
  }

  /** The layout of an id array's text: gaps[0] 'ids[0]' gaps[1] 'ids[1]' ... gaps[n], where
      the gaps hold the separators (commas, whitespace) between the quoted ids. */
  function Interleave(gaps: seq<string>, ids: seq<string>): string
    requires |gaps| == |ids| + 1
    decreases |ids|
  {
    if ids == [] then gaps[0]
    else gaps[0] + [QUOTE] + ids[0] + [QUOTE] + Interleave(gaps[1..], ids[1..])
  }

  /** Scanning a laid-out id array, then whatever follows it, yields the ids of the array in
      order and then the ids of what follows. */
  lemma {:induction false} ScanInterleave(gaps: seq<string>, ids: seq<string>, t: string)
    requires |gaps| == |ids| + 1
    requires forall k :: 0 <= k < |gaps| ==> QUOTE !in gaps[k]
    requires forall k :: 0 <= k < |ids| ==> QUOTE !in ids[k]
    ensures Scan(Interleave(gaps, ids) + t, false, []) == ids + Scan(t, false, [])
    decreases |ids|
  {
    if ids == [] {
      ScanSkip(gaps[0], t);
    } else {
      var rest := Interleave(gaps[1..], ids[1..]);
      ScanInterleave(gaps[1..], ids[1..], t);
      assert Interleave(gaps, ids) + t == gaps[0] + [QUOTE] + ids[0] + [QUOTE] + (rest + t);
      ScanQuoted(gaps[0], ids[0], rest + t);
      assert ids == [ids[0]] + ids[1..];
    }
  }

  /** A separator, then one quoted id: the scan yields the id and resumes after its quote. */
  lemma ScanQuoted(gap: string, id: string, rest: string)
    requires QUOTE !in gap && QUOTE !in id
    ensures Scan(gap + [QUOTE] + id + [QUOTE] + rest, false, []) == [id] + Scan(rest, false, [])
  {
    var tail := id + [QUOTE] + rest;
    assert gap + [QUOTE] + id + [QUOTE] + rest == gap + ([QUOTE] + tail);
    ScanSkip(gap, [QUOTE] + tail);
    assert ([QUOTE] + tail)[1..] == tail;
    ScanClose(id, rest, []);
    assert [] + id == id;
  }

  /** Splitting a laid-out id array gives the ids back, in order, whatever the separators, as
      long as neither ids nor separators hold a quote. */
  lemma SplitInterleave(gaps: seq<string>, ids: seq<string>)
    requires |gaps| == |ids| + 1
    requires forall k :: 0 <= k < |gaps| ==> QUOTE !in gaps[k]
    requires forall k :: 0 <= k < |ids| ==> QUOTE !in ids[k]
    ensures SplitIds(Interleave(gaps, ids)) == ids
  {
    ScanInterleave(gaps, ids, []);
    assert Interleave(gaps, ids) + [] == Interleave(gaps, ids);
  }

  /** An opening quote that is never closed matches nothing: what it collects is dropped. */
  lemma {:induction false} ScanUnclosed(t: string, cur: string)
    requires QUOTE !in t
    ensures Scan(t, true, cur) == []
    decreases |t|
  {
    if t != [] {
      assert t[0] in t;
      assert forall c :: c in t[1..] ==> c in t;
      ScanUnclosed(t[1..], cur + [t[0]]);
    }
  }

  /** An unpaired quote after a laid-out id array, and the text after it, add no id. */
  lemma SplitUnpairedQuote(gaps: seq<string>, ids: seq<string>, tail: string)
    requires |gaps| == |ids| + 1
    requires forall k :: 0 <= k < |gaps| ==> QUOTE !in gaps[k]
    requires forall k :: 0 <= k < |ids| ==> QUOTE !in ids[k]
    requires QUOTE !in tail
    ensures SplitIds(Interleave(gaps, ids) + [QUOTE] + tail) == ids
  {
    ScanInterleave(gaps, ids, [QUOTE] + tail);
    assert Interleave(gaps, ids) + [QUOTE] + tail == Interleave(gaps, ids) + ([QUOTE] + tail);
    assert ([QUOTE] + tail)[1..] == tail;
    ScanUnclosed(tail, []);
    assert ids + [] == ids;
  }

  /** Lines 56-58 for one match: `images[img_id] = b64img` for each listed id in turn. After
      it the keys are the old ones plus the listed ids; each listed id maps to the thumbnail,
      every other key keeps its value. */
  function BindIds(images: map<string, string>, ids: seq<string>, payload: string): (r: map<string, string>)
    ensures forall id :: id in r <==> id in images || id in ids
    ensures forall id :: id in ids ==> r[id] == payload
    ensures forall id :: id in images && id !in ids ==> r[id] == images[id]
    decreases |ids|
  {
    if ids == [] then images
    else
      var front := ids[..|ids| - 1];
      assert forall id :: id in ids <==> id in front || id == ids[|ids| - 1];
      BindIds(images, front, payload)[ids[|ids| - 1] := payload]
  }

  /** Lines 54-58: every match of one script, in match order. No match removes an id. */
  function ApplyBindings(images: map<string, string>, bs: seq<Binding>): (r: map<string, string>)
    ensures images.Keys <= r.Keys
    decreases |bs|
  {
    if bs == [] then images
    else
      var b := bs[|bs| - 1];
      BindIds(ApplyBindings(images, bs[..|bs| - 1]), SplitIds(b.idsText), b.payload)
  }

  /** Lines 52-58: every script, in document order. No script removes an id. */
  function ApplyScripts(images: map<string, string>, scripts: seq<seq<Binding>>): (r: map<string, string>)
    ensures images.Keys <= r.Keys
    decreases |scripts|
  {
    if scripts == [] then images
    else ApplyBindings(ApplyScripts(images, scripts[..|scripts| - 1]), scripts[|scripts| - 1])
  }

  /** The map `gather_carousel_image_sources` returns: the fold over every match of every
      script, in document order, from the empty map. */
  function ImageMap(scripts: seq<seq<Binding>>): (m: map<string, string>)
    ensures m == ApplyBindings(map[], Flatten(scripts))
  {
    ApplyScriptsFlatten(map[], scripts);
    ApplyScripts(map[], scripts)
  }

  /** All matches of all scripts, in the order the loops visit them. */
  function Flatten(scripts: seq<seq<Binding>>): (bs: seq<Binding>)
    ensures forall b :: b in bs ==> exists i :: 0 <= i < |scripts| && b in scripts[i]
    decreases |scripts|
  {
    if scripts == [] then []
    else
      var front := scripts[..|scripts| - 1];
      var r := Flatten(front) + scripts[|scripts| - 1];
      assert forall i :: 0 <= i < |front| ==> front[i] == scripts[i];
      r
  }

  /** Does the match list `id` among its ids? */
  predicate Lists(b: Binding, id: string)
  {
    id in SplitIds(b.idsText)
  }

  /** The index of the last match that lists `id`, if any. */
  function LastBinder(bs: seq<Binding>, id: string): (r: Option<nat>)
    ensures r.Some? ==>
      r.value < |bs| && Lists(bs[r.value], id) && forall j :: r.value < j < |bs| ==> !Lists(bs[j], id)
    ensures r.None? ==> forall j :: 0 <= j < |bs| ==> !Lists(bs[j], id)
    decreases |bs|
  {
    if bs == [] then None
    else if Lists(bs[|bs| - 1], id) then Some(|bs| - 1)
    else
      var r := LastBinder(bs[..|bs| - 1], id);
      assert forall j :: 0 <= j < |bs| - 1 ==> bs[..|bs| - 1][j] == bs[j];
      r
  }

  /** The matches of one block after the other are applied one block after the other. */
  lemma {:induction false} ApplyBindingsAppend(m: map<string, string>, a: seq<Binding>, b: seq<Binding>)
    ensures ApplyBindings(m, a + b) == ApplyBindings(ApplyBindings(m, a), b)
    decreases |b|
  {
    if b == [] {
      assert a + b == a;
    } else {
      var ab := a + b;
      assert ab[..|ab| - 1] == a + b[..|b| - 1];
      assert ab[|ab| - 1] == b[|b| - 1];
      ApplyBindingsAppend(m, a, b[..|b| - 1]);
    }
  }

  /** The three nested loops do what one loop over all matches in visiting order does. */
  lemma {:induction false} ApplyScriptsFlatten(m: map<string, string>, scripts: seq<seq<Binding>>)
    ensures ApplyScripts(m, scripts) == ApplyBindings(m, Flatten(scripts))
    decreases |scripts|
  {
    if scripts != [] {
      var front := scripts[..|scripts| - 1];
      ApplyScriptsFlatten(m, front);
      ApplyBindingsAppend(m, Flatten(front), scripts[|scripts| - 1]);
    }
  }

  /** Later matches overwrite earlier ones: an id is bound exactly when some match lists it or
      it was bound before, and then to the thumbnail of the last match that lists it. */
  lemma {:induction false} ApplyBindingsLastWins(m: map<string, string>, bs: seq<Binding>, id: string)
    ensures var r, last := ApplyBindings(m, bs), LastBinder(bs, id);
      (id in r <==> id in m || last.Some?) &&
      (last.Some? ==> r[id] == bs[last.value].payload) &&
      (last.None? && id in m ==> r[id] == m[id])
    decreases |bs|
  {
    if bs != [] {
      var front := bs[..|bs| - 1];
      var b := bs[|bs| - 1];
      ApplyBindingsLastWins(m, front, id);
      if !Lists(b, id) {
        assert LastBinder(bs, id) == LastBinder(front, id);
        var last := LastBinder(front, id);
        if last.Some? {
          assert bs[last.value] == front[last.value];
        }
      }
    }
  }

  /** Key set and values of the thumbnail map: the ids listed in any match of any script, each
      bound to the thumbnail of the last match (script order, then match order) listing it. */
  lemma ImageMapLastWins(scripts: seq<seq<Binding>>, id: string)
    ensures var bs := Flatten(scripts); var last := LastBinder(bs, id);
      (id in ImageMap(scripts) <==> exists j :: 0 <= j < |bs| && Lists(bs[j], id)) &&
      (last.Some? ==> ImageMap(scripts)[id] == bs[last.value].payload)
  {
    ApplyScriptsFlatten(map[], scripts);
    ApplyBindingsLastWins(map[], Flatten(scripts), id);
  }

  /** A match whose id text holds fewer than two quotes lists no id and leaves the map as it was. */
  lemma NoPairNoChange(m: map<string, string>, b: Binding)
    requires QuoteCount(b.idsText) < 2
    ensures ApplyBindings(m, [b]) == m
  {
    assert [b][..0] == [];
  }

  /** With no script, or none of whose matches lists an id, the map is empty. */
  lemma ImageMapEmpty(scripts: seq<seq<Binding>>)
    requires forall i, j :: 0 <= i < |scripts| && 0 <= j < |scripts[i]| ==> SplitIds(scripts[i][j].idsText) == []
    ensures ImageMap(scripts) == map[]
  {
    var bs := Flatten(scripts);
    forall id ensures id !in ImageMap(scripts) {
      ImageMapLastWins(scripts, id);
      forall j | 0 <= j < |bs| ensures !Lists(bs[j], id) {
        assert bs[j] in bs;
        var i :| 0 <= i < |scripts| && bs[j] in scripts[i];
        var l :| 0 <= l < |scripts[i]| && scripts[i][l] == bs[j];
      }
    }
  }

  /** What the outer pattern guarantees carries over to the map: ids hold no quote, no `]` and
      no newline, thumbnails no newline. */
  lemma ImageMapChars(scripts: seq<seq<Binding>>)
    requires forall i, j :: 0 <= i < |scripts| && 0 <= j < |scripts[i]| ==> WellFormed(scripts[i][j])
    ensures forall id :: id in ImageMap(scripts) ==>
      QUOTE !in id && ']' !in id && NoNewline(id) && NoNewline(ImageMap(scripts)[id])
  {
    var bs := Flatten(scripts);
    forall id | id in ImageMap(scripts)
      ensures QUOTE !in id && ']' !in id && NoNewline(id) && NoNewline(ImageMap(scripts)[id])
    {
      ImageMapLastWins(scripts, id);
      var j := LastBinder(bs, id).value;
      assert bs[j] in bs;
      var i :| 0 <= i < |scripts| && bs[j] in scripts[i];
      var l :| 0 <= l < |scripts[i]| && scripts[i][l] == bs[j];
      assert WellFormed(bs[j]);
      SplitIdsAvoid(bs[j].idsText, QUOTE);
      SplitIdsAvoid(bs[j].idsText, ']');
      SplitIdsAvoid(bs[j].idsText, '\n');
      var ids := SplitIds(bs[j].idsText);
      var k :| 0 <= k < |ids| && ids[k] == id;
    }
  }

  /** The test page: one script binding `img1` to a first thumbnail, then `img2` and `img3` to
      a second (its id text `'img2','img3'`); the map then has those three entries. */
  lemma TwoBlocksExample(id1: string, id2: string, id3: string, p1: string, p2: string)
    requires QUOTE !in id1 && QUOTE !in id2 && QUOTE !in id3
    requires id1 != id2 && id1 != id3 && id2 != id3
    ensures var t1, t2 := Interleave(["", ""], [id1]), Interleave(["", ",", ""], [id2, id3]);
      var m := ImageMap([[Binding(p1, t1), Binding(p2, t2)]]);
      m == map[id1 := p1, id2 := p2, id3 := p2] && |m| == 3
  {
    var t1, t2 := Interleave(["", ""], [id1]), Interleave(["", ",", ""], [id2, id3]);
    SplitInterleave(["", ""], [id1]);
    assert QUOTE !in [','];
    SplitInterleave(["", ",", ""], [id2, id3]);
    var b1, b2 := Binding(p1, t1), Binding(p2, t2);
    ImageMapOneScript([b1, b2]);
    ApplyTwoBindings(map[], b1, b2);
    BindTwoIds(map[], [id1], p1);
    BindTwoIds(map[id1 := p1], [id2, id3], p2);
    var m := map[id1 := p1, id2 := p2, id3 := p2];
    assert m.Keys == {id1, id2, id3};
  }

  /** A page with one thumbnail script. */
  lemma ImageMapOneScript(bs: seq<Binding>)
    ensures ImageMap([bs]) == ApplyBindings(map[], bs)
  {
    assert [bs][..0] == [];
    assert ApplyScripts(map[], [bs]) == ApplyBindings(ApplyScripts(map[], []), bs);
  }

  /** Two matches, one after the other. */
  lemma ApplyTwoBindings(m: map<string, string>, b1: Binding, b2: Binding)
    ensures ApplyBindings(m, [b1, b2]) ==
      BindIds(BindIds(m, SplitIds(b1.idsText), b1.payload), SplitIds(b2.idsText), b2.payload)
  {
    assert [b1, b2][..1] == [b1] && [b1][..0] == [];
    assert ApplyBindings(m, [b1]) == BindIds(ApplyBindings(m, []), SplitIds(b1.idsText), b1.payload);
    assert ApplyBindings(m, [b1, b2]) == BindIds(ApplyBindings(m, [b1]), SplitIds(b2.idsText), b2.payload);
  }

  /** An id list of one or two ids. */
  lemma BindTwoIds(m: map<string, string>, ids: seq<string>, p: string)
    requires 1 <= |ids| <= 2
    ensures |ids| == 1 ==> BindIds(m, ids, p) == m[ids[0] := p]
    ensures |ids| == 2 ==> BindIds(m, ids, p) == m[ids[0] := p][ids[1] := p]
  {
    assert ids[..1][..0] == [];
    if |ids| == 2 {
      assert ids[..1] == [ids[0]];
    }
  }

  /** Lines 43-60 as the source runs them: three nested loops filling `images` in place. */
  method GatherCarouselImageSources(scripts: seq<seq<Binding>>) returns (images: map<string, string>)
    ensures images == ImageMap(scripts)
  {
    images := map[];
    var i := 0;
    while i < |scripts|
      invariant 0 <= i <= |scripts|
      invariant images == ApplyScripts(map[], scripts[..i])
    {
      var matches := scripts[i];
      ghost var before := images;
      var j := 0;
      while j < |matches|
        invariant 0 <= j <= |matches|
        invariant images == ApplyBindings(before, matches[..j])
      {
        var b := matches[j];
        var ids := SplitIds(b.idsText);
        ghost var start := images;
        var l := 0;
        while l < |ids|
          invariant 0 <= l <= |ids|
          invariant images == BindIds(start, ids[..l], b.payload)
        {
          assert ids[..l + 1][..l] == ids[..l];
          images := images[ids[l] := b.payload];
          l := l + 1;
        }
        assert ids[..|ids|] == ids;
        assert matches[..j + 1][..j] == matches[..j];
        j := j + 1;
      }
      assert matches[..|matches|] == matches;
      assert scripts[..i + 1][..i] == scripts[..i];
      i := i + 1;
    }
    assert scripts[..|scripts|] == scripts;
  }
}
