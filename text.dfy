/** Character classes and string operations of Python that the scrapers rely on:
    `str.isspace` (which is also what the regex class `\s` matches in a str pattern),
    `str.strip()`, and the end anchor `$` of a pattern compiled without MULTILINE. */
module Text {

  /** Python's whitespace: the characters `str.isspace()` accepts and `\s` matches. */
  predicate IsSpace(c: char)
  {
    || ('\t' <= c <= '\r')
    || ('\U{1C}' <= c <= ' ')
    || c == '\U{85}' || c == '\U{A0}' || c == '\U{1680}'
    || ('\U{2000}' <= c <= '\U{200A}')
    || c == '\U{2028}' || c == '\U{2029}' || c == '\U{202F}' || c == '\U{205F}' || c == '\U{3000}'
  }

  predicate AllSpace(s: string)
  {
    forall i :: 0 <= i < |s| ==> IsSpace(s[i])
  }

  /** No newline anywhere: the regex `.` matches every character of such a string. */
  predicate NoNewline(s: string)
  {
    '\n' !in s
  }

  /** Where `$` (without MULTILINE) can match: at the very end, or just before a final newline. */
  predicate EndAnchorAt(t: string, i: nat)
  {
    i == |t| || (i + 1 == |t| && t[i] == '\n')
  }

  lemma EndAnchorNoNewline(t: string, i: nat)
    requires NoNewline(t)
    ensures EndAnchorAt(t, i) <==> i == |t|
  {
    if i + 1 == |t| { assert t[i] in t; }
  }

  /** The end of the run of whitespace starting at k: how far a greedy `\s*` reaches. */
  function SpaceRunEnd(s: string, k: nat): (j: nat)
    requires k <= |s|
    ensures k <= j <= |s|
    ensures forall i :: k <= i < j ==> IsSpace(s[i])
    ensures j < |s| ==> !IsSpace(s[j])
    decreases |s| - k
  {
    if k < |s| && IsSpace(s[k]) then SpaceRunEnd(s, k + 1) else k
  }

  /** The start of the run of whitespace that ends at j. */
  function SpaceRunStart(s: string, j: nat): (i: nat)
    requires j <= |s|
    ensures i <= j
    ensures forall k :: i <= k < j ==> IsSpace(s[k])
    ensures 0 < i ==> !IsSpace(s[i - 1])
    decreases j
  {
    if 0 < j && IsSpace(s[j - 1]) then SpaceRunStart(s, j - 1) else j
  }

  lemma SpaceRunStartAllSpace(s: string, j: nat)
    requires j <= |s|
    ensures AllSpace(s[SpaceRunStart(s, j)..j])
  {
    var i := SpaceRunStart(s, j);
    forall k | 0 <= k < j - i ensures IsSpace(s[i..j][k]) { assert s[i..j][k] == s[i + k]; }
  }

  /** Python's `str.strip()` with no argument: the text without its leading and trailing whitespace. */
  function Strip(s: string): (r: string)
    ensures r == [] || (!IsSpace(r[0]) && !IsSpace(r[|r| - 1]))
  {
    var i := SpaceRunEnd(s, 0);
    if i == |s| then []
    else
      var j := SpaceRunStart(s, |s|);
      assert i < j;
      s[i..j]
  }

  /** What strip removes is whitespace only, on either side of the text it keeps. */
  lemma StripParts(s: string) returns (lead: string, rest: string)
    ensures s == lead + Strip(s) + rest && AllSpace(lead) && AllSpace(rest)
  {
    var i := SpaceRunEnd(s, 0);
    if i == |s| {
      lead, rest := s, [];
      assert AllSpace(lead) by {
        forall k | 0 <= k < |lead| ensures IsSpace(lead[k]) { }
      }
      assert s == lead + [] + rest;
    } else {
      var j := SpaceRunStart(s, |s|);
      lead, rest := s[..i], s[j..];
      SliceThree(s, i, j);
      assert AllSpace(lead) by {
        forall k | 0 <= k < |lead| ensures IsSpace(lead[k]) { assert lead[k] == s[k]; }
      }
      assert AllSpace(rest) by {
        forall k | 0 <= k < |rest| ensures IsSpace(rest[k]) { assert rest[k] == s[j + k]; }
      }
    }
  }

  lemma SliceThree(s: string, i: nat, j: nat)
    requires i <= j <= |s|
    ensures s == s[..i] + s[i..j] + s[j..]
  {
  }

  /** Strip has only one possible answer: whatever lies between an all-whitespace prefix and
      suffix, as long as it neither starts nor ends with whitespace. */
  lemma StripUnique(lead: string, r: string, trail: string)
    requires AllSpace(lead) && AllSpace(trail)
    requires r == [] || (!IsSpace(r[0]) && !IsSpace(r[|r| - 1]))
    ensures Strip(lead + r + trail) == r
  {
    var s := lead + r + trail;
    var i := SpaceRunEnd(s, 0);
    if r == [] {
      assert s == lead + trail;
      assert AllSpace(s);
      assert i == |s|;
    } else {
      assert s[|lead|] == r[0];
      assert i == |lead|;
      var j := SpaceRunStart(s, |s|);
      assert s[|lead| + |r| - 1] == r[|r| - 1];
      assert j == |lead| + |r|;
      assert s[i..j] == r;
    }
  }

  /** Whitespace appended to a string does not change what strip returns. */
  lemma StripIgnoresTrailingSpace(s: string, w: string)
    requires AllSpace(w)
    ensures Strip(s + w) == Strip(s)
  {
    var r := Strip(s);
    var lead, rest := StripParts(s);
    AllSpaceAppend(rest, w);
    AppendRegroup(lead, r, rest, w);
    StripUnique(lead, r, rest + w);
  }

  lemma AppendRegroup(a: string, b: string, c: string, d: string)
    ensures (a + b + c) + d == a + b + (c + d)
  {
  }

  lemma AllSpaceAppend(a: string, b: string)
    requires AllSpace(a) && AllSpace(b)
    ensures AllSpace(a + b)
  {
    forall k | 0 <= k < |a + b| ensures IsSpace((a + b)[k]) {
      if k < |a| { assert (a + b)[k] == a[k]; } else { assert (a + b)[k] == b[k - |a|]; }
    }
  }

  /** First index at or after `from` holding c, or |s| when there is none. */
  function IndexOf(s: string, c: char, from: nat): (p: nat)
    requires from <= |s|
    ensures from <= p <= |s|
    ensures forall i :: from <= i < p ==> s[i] != c
    ensures p < |s| ==> s[p] == c
    ensures p == |s| ==> c !in s[from..]
    decreases |s| - from
  {
    if from == |s| || s[from] == c then from
    else
      assert s[from..] == [s[from]] + s[from + 1..];
      IndexOf(s, c, from + 1)
  }

  /** IndexOf finds the first occurrence. */
  lemma IndexOfFirst(s: string, c: char, p: nat)
    requires p < |s| && s[p] == c
    requires forall i :: 0 <= i < p ==> s[i] != c
    ensures IndexOf(s, c, 0) == p
  {
    var q := IndexOf(s, c, 0);
    assert !(q < p) && !(p < q);
  }
}
