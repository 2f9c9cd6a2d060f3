/** The Python values a scraped record is made of, and a `dict` as the list of its items
    in insertion order (the order `json.dump` writes them in). */
module Values {
  import opened Wrappers

  /** A `str`, `None`, or a `list` of `str`. */
  datatype Value = Str(s: string) | Null | StrList(items: seq<string>)

  type Dict = seq<(string, Value)>

  /** A value that is a `str` or `None`. */
  function OptionalStr(o: Option<string>): Value
  {
    match o
    case Some(s) => Str(s)
    case None => Null
  }

  function Keys(d: Dict): seq<string>
  {
    if d == [] then [] else [d[0].0] + Keys(d[1..])
  }

  /** `d.get(k)`: the value stored under k, if any. */
  function Get(d: Dict, k: string): (v: Option<Value>)
    ensures v.Some? <==> k in Keys(d)
  {
    if d == [] then None
    else if d[0].0 == k then Some(d[0].1)
    else Get(d[1..], k)
  }

  /** `d[k] = v`: replaces the value in place when k is present, appends the item otherwise. */
  function Set(d: Dict, k: string, v: Value): Dict
  {
    if d == [] then [(k, v)]
    else if d[0].0 == k then [(k, v)] + d[1..]
    else [d[0]] + Set(d[1..], k, v)
  }

  /** After `d[k] = v`, k holds v, every other key holds what it held, and a new key is added last. */
  lemma {:induction false} SetSpec(d: Dict, k: string, v: Value)
    ensures Get(Set(d, k, v), k) == Some(v)
    ensures forall k' :: k' != k ==> Get(Set(d, k, v), k') == Get(d, k')
    ensures Keys(Set(d, k, v)) == if k in Keys(d) then Keys(d) else Keys(d) + [k]
    decreases |d|
  {
    var r := Set(d, k, v);
    if d == [] {
      assert r[1..] == [];
    } else if d[0].0 == k {
      assert r[1..] == d[1..];
    } else {
      SetSpec(d[1..], k, v);
      assert r[0] == d[0] && r[1..] == Set(d[1..], k, v);
    }
  }

  /** Assigning a key that is not there yet appends exactly that item. */
  lemma {:induction false} SetFreshKey(d: Dict, k: string, v: Value)
    requires k !in Keys(d)
    ensures Set(d, k, v) == d + [(k, v)]
    decreases |d|
  {
    if d != [] {
      assert Keys(d) == [d[0].0] + Keys(d[1..]);
      assert k != d[0].0 && k !in Keys(d[1..]);
      SetFreshKey(d[1..], k, v);
      assert d + [(k, v)] == [d[0]] + (d[1..] + [(k, v)]);
    }
  }

  /** An item appended at the end adds its key at the end. */
  lemma {:induction false} KeysSnoc(d: Dict, k: string, v: Value)
    ensures Keys(d + [(k, v)]) == Keys(d) + [k]
    decreases |d|
  {
    if d == [] {
      assert [(k, v)][1..] == [];
    } else {
      assert (d + [(k, v)])[0] == d[0] && (d + [(k, v)])[1..] == d[1..] + [(k, v)];
      KeysSnoc(d[1..], k, v);
    }
  }

  /** The keys, one per item, in item order. */
  lemma {:induction false} KeysIndex(d: Dict)
    ensures |Keys(d)| == |d| && forall i :: 0 <= i < |d| ==> Keys(d)[i] == d[i].0
    decreases |d|
  {
    if d != [] {
      KeysIndex(d[1..]);
    }
  }

  /** `d.get(k)` finds the first item with key k. */
  lemma {:induction false} GetAt(d: Dict, j: nat)
    requires j < |d| && forall i :: 0 <= i < j ==> d[i].0 != d[j].0
    ensures Get(d, d[j].0) == Some(d[j].1)
    decreases j
  {
    if j > 0 {
      assert d[1..][j - 1] == d[j];
      GetAt(d[1..], j - 1);
    }
  }

  /** A dict literal with three distinct keys. */
  lemma Literal3(a: (string, Value), b: (string, Value), c: (string, Value))
    requires a.0 != b.0 && a.0 != c.0 && b.0 != c.0
    ensures Keys([a, b, c]) == [a.0, b.0, c.0]
    ensures Get([a, b, c], a.0) == Some(a.1) && Get([a, b, c], b.0) == Some(b.1) && Get([a, b, c], c.0) == Some(c.1)
  {
    KeysIndex([a, b, c]);
    GetAt([a, b, c], 0);
    GetAt([a, b, c], 1);
    GetAt([a, b, c], 2);
  }

  /** A dict literal with four distinct keys. */
  lemma Literal4(a: (string, Value), b: (string, Value), c: (string, Value), e: (string, Value))
    requires a.0 != b.0 && a.0 != c.0 && a.0 != e.0 && b.0 != c.0 && b.0 != e.0 && c.0 != e.0
    ensures Keys([a, b, c, e]) == [a.0, b.0, c.0, e.0]
    ensures Get([a, b, c, e], a.0) == Some(a.1) && Get([a, b, c, e], b.0) == Some(b.1)
    ensures Get([a, b, c, e], c.0) == Some(c.1) && Get([a, b, c, e], e.0) == Some(e.1)
  {
    KeysIndex([a, b, c, e]);
    GetAt([a, b, c, e], 0);
    GetAt([a, b, c, e], 1);
    GetAt([a, b, c, e], 2);
    GetAt([a, b, c, e], 3);
  }
}
