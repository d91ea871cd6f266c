/** String-keyed maps that remember insertion order, as a JavaScript `Map` does:
    a sequence of (key, value) entries whose keys are distinct. */
module OrderedMaps {
  import opened Outcomes

  function Keys<V>(m: seq<(string, V)>): (ks: seq<string>)
    ensures |ks| == |m|
    ensures forall i :: 0 <= i < |m| ==> ks[i] == m[i].0
  {
    if m == [] then [] else [m[0].0] + Keys(m[1..])
  }

  function Values<V>(m: seq<(string, V)>): (vs: seq<V>)
    ensures |vs| == |m|
    ensures forall i :: 0 <= i < |m| ==> vs[i] == m[i].1
  {
    if m == [] then [] else [m[0].1] + Values(m[1..])
  }

  predicate DistinctKeys<V>(m: seq<(string, V)>) {
    forall i, j :: 0 <= i < j < |m| ==> m[i].0 != m[j].0
  }

  /** `m.get(k)`: the value of the first entry with key `k`. */
  function Get<V>(m: seq<(string, V)>, k: string): (r: Option<V>)
    ensures r.None? <==> k !in Keys(m)
    ensures r.Some? ==> exists i :: 0 <= i < |m| && m[i] == (k, r.value)
  {
    if m == [] then None
    else if m[0].0 == k then Some(m[0].1)
    else
      var r := Get(m[1..], k);
      assert r.Some? ==> exists i :: 0 <= i < |m[1..]| && m[1..][i] == (k, r.value);
      assert Keys(m) == [m[0].0] + Keys(m[1..]);
      r
  }

  /** `m.set(k, v)`: an existing key keeps its position and gets the new value;
      a new key is appended at the end. */
  function Set<V>(m: seq<(string, V)>, k: string, v: V): (r: seq<(string, V)>)
    ensures k !in Keys(m) ==> r == m + [(k, v)]
    ensures k in Keys(m) && DistinctKeys(m) ==>
      |r| == |m| && forall i :: 0 <= i < |m| ==> r[i] == (if m[i].0 == k then (k, v) else m[i])
  {
    if m == [] then [(k, v)]
    else if m[0].0 == k then [(k, v)] + m[1..]
    else
      assert Keys(m) == [m[0].0] + Keys(m[1..]);
      [m[0]] + Set(m[1..], k, v)
  }

  /** Registration keeps the keys distinct, keeps their order, and appends a new key at the end. */
  lemma {:induction false} SetKeys<V>(m: seq<(string, V)>, k: string, v: V)
    requires DistinctKeys(m)
    ensures DistinctKeys(Set(m, k, v))
    ensures Keys(Set(m, k, v)) == if k in Keys(m) then Keys(m) else Keys(m) + [k]
  {
    var r := Set(m, k, v);
    if k in Keys(m) {
      assert forall i :: 0 <= i < |m| ==> r[i].0 == m[i].0;
    } else {
      assert forall i :: 0 <= i < |m| ==> m[i].0 != k;
    }
  }

  /** After `m.set(k, v)`, `get(k)` is `v` and every other key reads as before. */
  lemma {:induction false} SetThenGet<V>(m: seq<(string, V)>, k: string, v: V, k': string)
    requires DistinctKeys(m)
    ensures Get(Set(m, k, v), k') == if k' == k then Some(v) else Get(m, k')
  {
    if m != [] && m[0].0 != k {
      SetThenGet(m[1..], k, v, k');
    }
  }

  /** Every entry after `m.set(k, v)` is the new entry or the entry of `m` at
      the same position. */
  lemma {:induction false} SetEntry<V>(m: seq<(string, V)>, k: string, v: V, i: nat)
    requires DistinctKeys(m) && i < |Set(m, k, v)|
    ensures Set(m, k, v)[i] == (k, v) || (i < |m| && Set(m, k, v)[i] == m[i])
  {
  }

  /** The values after appending an entry. */
  lemma {:induction false} ValuesAppend<V>(m: seq<(string, V)>, e: (string, V))
    ensures Values(m + [e]) == Values(m) + [e.1]
  {
  }

  /** The map a `new Map()` becomes when, entry by entry in order, the key of
      each entry is set to the output paired with it. */
  function Collect<V, W>(m: seq<(string, V)>, outs: seq<W>): map<string, W>
    requires |m| == |outs|
  {
    if m == [] then map[]
    else Collect(m[..|m| - 1], outs[..|m| - 1])[m[|m| - 1].0 := outs[|m| - 1]]
  }

  /** Collecting one more entry is one more `set`. */
  lemma {:induction false} CollectSnoc<V, W>(m: seq<(string, V)>, i: nat, outs: seq<W>, out: W)
    requires i < |m| && |outs| == i
    ensures Collect(m[..i + 1], outs + [out]) == Collect(m[..i], outs)[m[i].0 := out]
  {
    assert m[..i + 1][..i] == m[..i];
    assert (outs + [out])[..i] == outs;
  }

  /** The collected map has exactly the keys of `m`. */
  lemma {:induction false} CollectKeys<V, W>(m: seq<(string, V)>, outs: seq<W>, k: string)
    requires |m| == |outs|
    ensures k in Collect(m, outs) <==> k in Keys(m)
  {
    if m != [] {
      var n := |m| - 1;
      CollectKeys(m[..n], outs[..n], k);
      if k in Keys(m) && k != m[n].0 {
        var i :| 0 <= i < |m| && Keys(m)[i] == k;
        assert Keys(m[..n])[i] == k;
      }
      if k in Keys(m[..n]) {
        var i :| 0 <= i < n && Keys(m[..n])[i] == k;
        assert Keys(m)[i] == k;
      }
    }
  }

  /** With distinct keys, the key of the `j`-th entry holds the `j`-th output. */
  lemma {:induction false} CollectAt<V, W>(m: seq<(string, V)>, outs: seq<W>, j: nat)
    requires |m| == |outs| && DistinctKeys(m) && j < |m|
    ensures m[j].0 in Collect(m, outs) && Collect(m, outs)[m[j].0] == outs[j]
  {
    var n := |m| - 1;
    if j < n {
      var m', o' := m[..n], outs[..n];
      assert DistinctKeys(m');
      CollectAt(m', o', j);
      assert m'[j] == m[j] && o'[j] == outs[j];
    }
  }

  /** The collected map has exactly the keys of `m`; with distinct keys, each
      key holds the output paired with it. */
  lemma {:induction false} CollectNamed<V, W>(m: seq<(string, V)>, outs: seq<W>)
    requires |m| == |outs| && DistinctKeys(m)
    ensures forall k :: k in Collect(m, outs) <==> k in Keys(m)
    ensures forall j :: 0 <= j < |m| ==> Collect(m, outs)[m[j].0] == outs[j]
  {
    forall k
      ensures k in Collect(m, outs) <==> k in Keys(m)
    {
      CollectKeys(m, outs, k);
    }
    forall j | 0 <= j < |m|
      ensures m[j].0 in Collect(m, outs) && Collect(m, outs)[m[j].0] == outs[j]
    {
      CollectAt(m, outs, j);
    }
  }
}
