/** `parse_item_title` of serpapi_code_challenge/scraper.py: `re.match` of the pattern
    `^(.*?)(?:\s*\((.*?)\))?$` against a carousel anchor's title, then `name.strip()`.

    The matcher below follows the regex engine's search order: group 1 is lazy, so the
    engine tries ends k = 0, 1, 2, ... for it; at each k the optional group is tried
    before it is skipped; `.` never matches a newline, `\s` may. */
module ScraperTitle {
  import opened Wrappers
  import opened Text

  datatype TitleParts = TitleParts(name: string, year: Option<string>)

  /** The lazy `(.*?)\)$` started at i: the index of the `)` it stops at. It grows one
      non-newline character at a time until a `)` followed by the end anchor is found. */
  function LazyCloseAt(t: string, i: nat): (m: Option<nat>)
    requires i <= |t|
    ensures m.Some? ==> i <= m.value < |t| && t[m.value] == ')' && EndAnchorAt(t, m.value + 1)
    ensures m.Some? ==> NoNewline(t[i..m.value])
    decreases |t| - i
  {
    if i == |t| then None
    else if t[i] == ')' && EndAnchorAt(t, i + 1) then Some(i)
    else if t[i] == '\n' then None
    else
      var m := LazyCloseAt(t, i + 1);
      assert m.Some? ==> t[i..m.value] == [t[i]] + t[i + 1..m.value];
      m
  }

  /** The optional group `\s*\((.*?)\)` followed by `$`, tried at k: the bounds of group 2.
      The greedy `\s*` ends at the end of the whitespace run; giving characters back cannot
      help, because each one given back is whitespace where `\(` is needed. */
  function OptionalGroupAt(t: string, k: nat): (g: Option<(nat, nat)>)
    requires k <= |t|
    ensures g.Some? ==> k < g.value.0 <= g.value.1 < |t| && t[g.value.0 - 1] == '(' && t[g.value.1] == ')'
    ensures g.Some? ==> EndAnchorAt(t, g.value.1 + 1) && NoNewline(t[g.value.0..g.value.1])
  {
    var w := SpaceRunEnd(t, k);
    if w < |t| && t[w] == '(' then
      match LazyCloseAt(t, w + 1)
      case Some(m) => Some((w + 1, m))
      case None => None
    else None
  }

  /** The groups of the first match whose group 1 ends at k or later, or None (no match).
      Group 1 is a prefix of the title (the pattern is anchored at the start), and group 2
      holds no newline. */
  function MatchFrom(t: string, k: nat): (m: Option<(string, Option<string>)>)
    requires k <= |t|
    ensures m.Some? ==> k <= |m.value.0| <= |t| && m.value.0 == t[..|m.value.0|]
    ensures m.Some? && m.value.1.Some? ==> NoNewline(m.value.1.value)
    decreases |t| - k
  {
    match OptionalGroupAt(t, k)
    case Some((a, b)) => Some((t[..k], Some(t[a..b])))
    case None =>
      if EndAnchorAt(t, k) then Some((t[..k], None))
      else if k < |t| && t[k] != '\n' then MatchFrom(t, k + 1)
      else None
  }

  /** `parse_item_title`: None when `re.match` finds no match (the source then fails on
      `match.groups()`); otherwise the stripped group 1 and group 2 as they are. */
  function ParseItemTitle(title: string): (r: Option<TitleParts>)
    ensures r.Some? ==> Strip(r.value.name) == r.value.name
  {
    match MatchFrom(title, 0)
    case None => None
    case Some((name, year)) =>
      var n := Strip(name);
      StripUnique([], n, []);
      assert [] + n + [] == n;
      Some(TitleParts(n, year))
  }

  /** The title ends with `)` and has a `(` somewhere: the case where the year group is taken. */
  predicate HasParenSuffix(t: string)
  {
    0 < |t| && t[|t| - 1] == ')' && '(' in t
  }

  /** Without a newline, the lazy group runs to the final character exactly when that is `)`. */
  lemma {:induction false} LazyCloseNoNewline(t: string, i: nat)
    requires NoNewline(t) && i <= |t|
    ensures LazyCloseAt(t, i) == if i < |t| && t[|t| - 1] == ')' then Some(|t| - 1) else None
    decreases |t| - i
  {
    if i < |t| {
      EndAnchorNoNewline(t, i + 1);
      assert t[i] in t;
      LazyCloseNoNewline(t, i + 1);
    }
  }

  /** Before the whitespace that precedes the first `(`, the optional group cannot start. */
  lemma NoGroupBeforeParen(t: string, p: nat, s: nat, k: nat)
    requires p == IndexOf(t, '(', 0) && p < |t| && s == SpaceRunStart(t, p)
    requires k < s
    ensures OptionalGroupAt(t, k).None?
  {
    var w := SpaceRunEnd(t, k);
    assert !IsSpace(t[s - 1]);
    assert w <= s - 1 < p;
  }

  /** At the start of that whitespace, the optional group runs from the first `(` to the final `)`. */
  lemma GroupAtParen(t: string, p: nat, s: nat)
    requires NoNewline(t) && HasParenSuffix(t)
    requires p == IndexOf(t, '(', 0) && p < |t| && s == SpaceRunStart(t, p)
    ensures OptionalGroupAt(t, s) == Some((p + 1, |t| - 1))
  {
    var w := SpaceRunEnd(t, s);
    assert !IsSpace(t[p]);
    assert w == p;
    LazyCloseNoNewline(t, p + 1);
  }

  /** From any k up to that whitespace, the match found is the one at its start. */
  lemma {:induction false} MatchBeforeParen(t: string, p: nat, s: nat, k: nat)
    requires NoNewline(t) && HasParenSuffix(t)
    requires p == IndexOf(t, '(', 0) && p < |t| && s == SpaceRunStart(t, p)
    requires k <= s
    ensures MatchFrom(t, k) == Some((t[..s], Some(t[p + 1..|t| - 1])))
    decreases s - k
  {
    if k < s {
      NoGroupBeforeParen(t, p, s, k);
      EndAnchorNoNewline(t, k);
      assert t[k] in t;
      MatchBeforeParen(t, p, s, k + 1);
    } else {
      GroupAtParen(t, p, s);
    }
  }

  /** With no `(`...`)` suffix the optional group never matches, and the skip succeeds at the end. */
  lemma {:induction false} MatchWithoutParen(t: string, k: nat)
    requires NoNewline(t) && !HasParenSuffix(t)
    requires k <= |t|
    ensures MatchFrom(t, k) == Some((t, None))
    decreases |t| - k
  {
    var w := SpaceRunEnd(t, k);
    if w < |t| && t[w] == '(' {
      assert t[w] in t;
      LazyCloseNoNewline(t, w + 1);
    }
    assert OptionalGroupAt(t, k).None?;
    EndAnchorNoNewline(t, k);
    if k < |t| {
      assert t[k] in t;
      MatchWithoutParen(t, k + 1);
    } else {
      assert t[..k] == t;
    }
  }

  /** The parse of a title is the stripped group 1 and the group 2 of its match. */
  lemma ParseOfMatch(t: string, name: string, year: Option<string>)
    requires MatchFrom(t, 0) == Some((name, year))
    ensures ParseItemTitle(t) == Some(TitleParts(Strip(name), year))
  {
  }

  /** The match of a title with a `(`...`)` suffix: group 1 runs up to the whitespace before the
      first `(`, group 2 from that `(` to the final `)`. */
  lemma MatchWithParen(t: string) returns (p: nat, s: nat)
    requires NoNewline(t) && HasParenSuffix(t)
    ensures p == IndexOf(t, '(', 0) && s <= p < |t| - 1 && AllSpace(t[s..p])
    ensures MatchFrom(t, 0) == Some((t[..s], Some(t[p + 1..|t| - 1])))
  {
    p := IndexOf(t, '(', 0);
    assert p < |t| by { assert t[0..] == t; }
    s := SpaceRunStart(t, p);
    MatchBeforeParen(t, p, s, 0);
    SpaceRunStartAllSpace(t, p);
  }

  /** Strip of group 1 is the strip of everything before the first `(`. */
  lemma StripBeforeParen(t: string, p: nat, s: nat)
    requires s <= p <= |t| && AllSpace(t[s..p])
    ensures Strip(t[..s]) == Strip(t[..p])
  {
    assert t[..p] == t[..s] + t[s..p];
    StripIgnoresTrailingSpace(t[..s], t[s..p]);
  }

  /** The year case: the text between the first `(` and the final `)`, and the stripped text before that `(`. */
  lemma ParseWithParen(t: string) returns (p: nat)
    requires NoNewline(t) && HasParenSuffix(t)
    ensures p == IndexOf(t, '(', 0) && p < |t| - 1
    ensures ParseItemTitle(t) == Some(TitleParts(Strip(t[..p]), Some(t[p + 1..|t| - 1])))
  {
    var s;
    p, s := MatchWithParen(t);
    ParseOfMatch(t, t[..s], Some(t[p + 1..|t| - 1]));
    StripBeforeParen(t, p, s);
  }

  /** The rule `parse_item_title` implements for a single-line title: when the title ends with
      `)` and contains a `(`, the year is the text between the FIRST `(` and the final `)`,
      verbatim, and the name is what precedes that `(`, stripped; otherwise there is no year
      and the name is the whole title, stripped. */
  lemma ParseItemTitleRule(t: string)
    requires NoNewline(t)
    ensures ParseItemTitle(t).Some?
    ensures HasParenSuffix(t) ==>
      var p := IndexOf(t, '(', 0);
      p < |t| - 1 && ParseItemTitle(t).value == TitleParts(Strip(t[..p]), Some(t[p + 1..|t| - 1]))
    ensures !HasParenSuffix(t) ==> ParseItemTitle(t).value == TitleParts(Strip(t), None)
  {
    if HasParenSuffix(t) {
      var p := ParseWithParen(t);
    } else {
      MatchWithoutParen(t, 0);
      ParseOfMatch(t, t, None);
    }
  }

  /** The shape of `name (year)`: where its first `(` is, and what lies on either side. */
  lemma ParenTitleShape(name: string, year: string, t: string)
    requires '(' !in name && t == name + " (" + year + ")"
    ensures HasParenSuffix(t) && IndexOf(t, '(', 0) == |name| + 1
    ensures t[..|name| + 1] == name + " " && t[|name| + 2..|t| - 1] == year
  {
    assert t[|name| + 1] == '(';
    assert forall i :: 0 <= i < |name| ==> t[i] == name[i] && name[i] in name;
    IndexOfFirst(t, '(', |name| + 1);
  }

  lemma NoNewlineParenTitle(name: string, year: string, t: string)
    requires NoNewline(name) && NoNewline(year) && t == name + " (" + year + ")"
    ensures NoNewline(t)
  {
    assert forall c :: c in t ==> c in name || c in year || c == ' ' || c == '(' || c == ')';
  }

  /** Writing a name and a year as `name (year)` and parsing it back gives both unchanged,
      as for the titles "Item 1 (2021)" and "Item 3 (2022-2024)" of the tests; the year may
      itself hold parentheses. */
  lemma ParseItemTitleRoundTrip(name: string, year: string)
    requires NoNewline(name) && NoNewline(year)
    requires '(' !in name && Strip(name) == name
    ensures ParseItemTitle(name + " (" + year + ")") == Some(TitleParts(name, Some(year)))
  {
    var t := name + " (" + year + ")";
    NoNewlineParenTitle(name, year, t);
    ParenTitleShape(name, year, t);
    var p := ParseWithParen(t);
    assert AllSpace(" ") by { assert " "[0] == ' '; }
    StripIgnoresTrailingSpace(name, " ");
  }

  /** A single-line title that does not end in a parenthesised group is kept whole, stripped,
      as for the title "Item 2" of the tests. */
  lemma ParseItemTitleNoGroup(t: string)
    requires NoNewline(t) && (t == [] || t[|t| - 1] != ')')
    ensures ParseItemTitle(t) == Some(TitleParts(Strip(t), None))
  {
    ParseItemTitleRule(t);
  }

  /** Without a `)` the lazy group never closes. */
  lemma {:induction false} LazyCloseNoParen(t: string, i: nat)
    requires ')' !in t && i <= |t|
    ensures LazyCloseAt(t, i) == None
    decreases |t| - i
  {
    if i < |t| {
      assert t[i] in t;
      LazyCloseNoParen(t, i + 1);
    }
  }

  /** A newline that is not the last character stops group 1 before `$` can match, so in a
      title without `)` it leaves `re.match` with no match. */
  lemma {:induction false} MatchStopsAtNewline(t: string, i: nat, k: nat)
    requires i + 1 < |t| && t[i] == '\n' && NoNewline(t[..i]) && ')' !in t
    requires k <= i
    ensures MatchFrom(t, k) == None
    decreases i - k
  {
    var w := SpaceRunEnd(t, k);
    if w < |t| && t[w] == '(' {
      LazyCloseNoParen(t, w + 1);
    }
    if k < i {
      assert t[k] == t[..i][k];
      MatchStopsAtNewline(t, i, k + 1);
    }
  }

  /** The title of an anchor spread over two lines, such as "Item\n4", has no match: the
      scraper fails on it. */
  lemma ParseItemTitleNoMatch(t: string, i: nat)
    requires i + 1 < |t| && t[i] == '\n' && NoNewline(t[..i]) && ')' !in t
    ensures ParseItemTitle(t) == None
  {
    MatchStopsAtNewline(t, i, 0);
  }
}
