/**
 * A Python dict of request parameters, as its items in iteration order.
 * Python 2 leaves that order unspecified; the model fixes one.
 */
module ParamDict {
  import opened Wrappers

  type Items<V> = seq<(string, V)>

  /** `urllib.urlencode`, whose percent-encoding is not modelled. */
  type Encoder = Items<string> -> string

  function Keys<V>(items: Items<V>): set<string> {
    if items == [] then {} else {items[0].0} + Keys(items[1..])
  }

  /** Python dicts never hold a key twice. */
  predicate DistinctKeys<V>(items: Items<V>) {
    items == [] || (items[0].0 !in Keys(items[1..]) && DistinctKeys(items[1..]))
  }

  /** `d.get(k)`. */
  function Lookup<V>(items: Items<V>, k: string): (r: Option<V>)
    ensures r.None? <==> k !in Keys(items)
  {
    if items == [] then None
    else if items[0].0 == k then Some(items[0].1)
    else Lookup(items[1..], k)
  }

  /** `d[k] = v`: an existing key keeps its place, a new one goes last. */
  function Updated<V>(items: Items<V>, k: string, v: V): (r: Items<V>)
    ensures Keys(r) == Keys(items) + {k}
    ensures Lookup(r, k) == Some(v)
    ensures forall j :: j != k ==> Lookup(r, j) == Lookup(items, j)
    ensures k in Keys(items) ==> |r| == |items|
    ensures k !in Keys(items) ==> r == items + [(k, v)]
    ensures forall i :: 0 <= i < |r| ==> r[i] == (k, v) || r[i] in items
  {
    if items == [] then [(k, v)]
    else if items[0].0 == k then [(k, v)] + items[1..]
    else
      var rest := Updated(items[1..], k, v);
      assert ([items[0]] + rest)[1..] == rest;
      assert items == [items[0]] + items[1..];
      [items[0]] + rest
  }

  lemma {:induction false} KeyAt<V>(items: Items<V>, i: nat)
    requires i < |items|
    ensures items[i].0 in Keys(items)
  {
    if i > 0 {
      KeyAt(items[1..], i - 1);
    }
  }

  /** In a dict, `d[k] = v` changes the entry of `k` where it stands and no other entry. */
  lemma {:induction false} UpdatedInPlace<V>(items: Items<V>, k: string, v: V)
    requires DistinctKeys(items)
    ensures forall i :: 0 <= i < |items| ==> Updated(items, k, v)[i] == (if items[i].0 == k then (k, v) else items[i])
  {
    if items != [] {
      var r := Updated(items, k, v);
      if items[0].0 == k {
        forall i | 1 <= i < |items| ensures items[i].0 != k {
          KeyAt(items[1..], i - 1);
        }
      } else {
        UpdatedInPlace(items[1..], k, v);
        assert forall i :: 1 <= i < |items| ==> r[i] == Updated(items[1..], k, v)[i - 1];
      }
    }
  }

  lemma {:induction false} UpdatedKeepsDistinct<V>(items: Items<V>, k: string, v: V)
    requires DistinctKeys(items)
    ensures DistinctKeys(Updated(items, k, v))
  {
    if items != [] && items[0].0 != k {
      UpdatedKeepsDistinct(items[1..], k, v);
      var r := Updated(items, k, v);
      assert r[1..] == Updated(items[1..], k, v);
    }
  }

  /** A Python dict object, which callers and callees share and update in place. */
  class Dict<V> {
    var items: Items<V>

    ghost predicate Valid()
      reads this
    {
      DistinctKeys(items)
    }

    /** `{}` */
    constructor ()
      ensures items == [] && Valid()
    {
      items := [];
    }

    /** `d[k] = v` */
    method Assign(k: string, v: V)
      modifies this
      ensures items == Updated(old(items), k, v)
      ensures old(Valid()) ==> Valid()
    {
      if Valid() {
        UpdatedKeepsDistinct(items, k, v);
      }
      items := Updated(items, k, v);
    }
  }
}
