/** Registering a child in a shape snapshot: the pure facts behind
    `requires(name, partial)`, which gives a node a new list of children. */
module Wiring {
  import opened Staleness

  /** Two shapes record every node they share the same way. */
  ghost predicate Agree<K>(g1: Graph<K>, g2: Graph<K>)
  {
    forall x :: x in g1 && x in g2 ==> g1[x] == g2[x]
  }

  /** `Union` looks only at the children it is given. */
  lemma {:induction false} UnionAgree<K>(g1: Graph<K>, g2: Graph<K>, cs: seq<K>)
    requires forall i :: 0 <= i < |cs| ==> cs[i] in g1 && cs[i] in g2 && g1[cs[i]] == g2[cs[i]]
    ensures Union(g1, cs) == Union(g2, cs)
  {
    if cs != [] {
      assert forall i :: 0 <= i < |cs[1..]| ==> cs[1..][i] == cs[i + 1];
      UnionAgree(g1, g2, cs[1..]);
    }
  }

  /** In a closed shape the nodes below some children are all recorded. */
  lemma {:induction false} UnionKeys<K>(g: Graph<K>, cs: seq<K>)
    requires Closed(g)
    ensures Union(g, cs) <= g.Keys
  {
    forall y | y in Union(g, cs)
      ensures y in g
    {
      var i := UnionIndex(g, cs, y);
      assert NodeOk(g, cs[i]);
    }
  }

  /** The nodes below some children and one more child. */
  lemma {:induction false} UnionAppend<K>(g: Graph<K>, cs: seq<K>, c: K)
    ensures Union(g, cs + [c]) == Union(g, cs) + (if c in g then g[c].below else {})
  {
    UnionSnoc(g, cs + [c], |cs|);
    assert (cs + [c])[..|cs| + 1] == cs + [c];
    assert (cs + [c])[..|cs|] == cs;
  }

  /** `NodeOk` at `x` carries over to a shape that records every node at or
      below `x` the same way. */
  lemma {:induction false} NodeOkAgree<K>(g: Graph<K>, h: Graph<K>, x: K)
    requires Closed(g) && x in g
    requires forall y :: y in g[x].below ==> y in g && y in h && h[y] == g[y]
    ensures x in h && NodeOk(h, x)
  {
    assert NodeOk(g, x);
    var cs := g[x].children;
    forall i | 0 <= i < |cs|
      ensures cs[i] in h && h[cs[i]] == g[cs[i]]
    {
      UnionContains(g, cs, i);
      assert NodeOk(g, cs[i]);
    }
    UnionAgree(g, h, cs);
  }

  /** A merge of two shapes that agree records the nodes of the first as the
      first does. */
  lemma {:induction false} MergeLeft<K>(g1: Graph<K>, g2: Graph<K>)
    requires Agree(g1, g2)
    ensures forall x :: x in g1 ==> x in g1 + g2 && (g1 + g2)[x] == g1[x]
  {
  }

  /** Two closed shapes that agree merge into a closed shape. */
  lemma {:induction false} MergeClosed<K>(g1: Graph<K>, g2: Graph<K>)
    requires Closed(g1) && Closed(g2) && Agree(g1, g2)
    ensures Closed(g1 + g2)
  {
    var h := g1 + g2;
    forall x | x in h
      ensures NodeOk(h, x)
    {
      if x in g2 {
        assert NodeOk(g2, x);
        forall y | y in g2[x].below
          ensures y in g2 && y in h && h[y] == g2[y]
        {
        }
        NodeOkAgree(g2, h, x);
      } else {
        assert NodeOk(g1, x);
        forall y | y in g1[x].below
          ensures y in g1 && y in h && h[y] == g1[y]
        {
          if y in g2 {
            assert y in g1;
          }
        }
        NodeOkAgree(g1, h, x);
      }
    }
  }

  /** The shape `h` after node `x` is given the children `cs`: `x` is at or
      above exactly itself and the nodes below `cs`, and the nodes below `cs`
      are recorded as `h` records them. */
  ghost function Attach<K>(h: Graph<K>, x: K, cs: seq<K>, local: nat -> bool): Graph<K>
    requires Closed(h)
  {
    UnionKeys(h, cs);
    var b := {x} + Union(h, cs);
    map y | y in b :: if y == x then Node(cs, b, local) else h[y]
  }

  /** Attaching records `x` with the children `cs` over exactly the nodes at
      or below it, and every other node as `h` does. */
  lemma {:induction false} AttachAt<K>(h: Graph<K>, x: K, cs: seq<K>, local: nat -> bool)
    requires Closed(h)
    ensures var a := Attach(h, x, cs, local);
      && a.Keys == {x} + Union(h, cs) && a[x] == Node(cs, a.Keys, local)
      && forall y :: y in a && y != x ==> y in h && a[y] == h[y]
  {
    UnionKeys(h, cs);
  }

  /** Giving `x` children none of which has `x` below it keeps the shape
      closed. */
  lemma {:induction false} AttachClosed<K>(h: Graph<K>, x: K, cs: seq<K>, local: nat -> bool)
    requires Closed(h)
    requires forall i :: 0 <= i < |cs| ==> cs[i] in h && x !in h[cs[i]].below
    ensures Closed(Attach(h, x, cs, local))
  {
    var a := Attach(h, x, cs, local);
    var b := {x} + Union(h, cs);
    UnionKeys(h, cs);
    UnionDownward(h, cs);
    forall y | y in a
      ensures NodeOk(a, y)
    {
      if y == x {
        forall i | 0 <= i < |cs|
          ensures cs[i] in a && a[cs[i]] == h[cs[i]]
        {
          UnionContains(h, cs, i);
          assert NodeOk(h, cs[i]);
        }
        UnionAgree(h, a, cs);
        forall i | 0 <= i < |cs|
          ensures a[cs[i]].below < a[x].below
        {
          UnionContains(h, cs, i);
        }
      } else {
        var j := UnionIndex(h, cs, y);
        BelowTrans(h, cs[j], y);
        forall z | z in h[y].below
          ensures z in h && z in a && a[z] == h[z]
        {
        }
        NodeOkAgree(h, a, y);
      }
    }
  }

  /** Appending a child `c` recorded in `pg` to the children of `x`: `x` is
      then at or above what it was at or above, and everything at or below
      `c`. */
  lemma {:induction false} AppendBelow<K>(g: Graph<K>, pg: Graph<K>, x: K, c: K)
    requires Closed(g) && x in g && c in pg && Agree(g, pg)
    ensures {x} + Union(g + pg, g[x].children + [c]) == g[x].below + pg[c].below
  {
    var h := g + pg;
    assert NodeOk(g, x);
    MergeLeft(g, pg);
    UnionAppend(h, g[x].children, c);
    UnionAgree(g, h, g[x].children);
  }

  /** The nodes below some children of a merged shape include everything
      below the child at `k`, and are recorded in one of the two shapes. */
  lemma {:induction false} UnionBounds<K>(g: Graph<K>, pg: Graph<K>, cs: seq<K>, k: nat)
    requires Closed(g + pg) && k < |cs| && cs[k] in pg
    ensures pg[cs[k]].below <= Union(g + pg, cs) <= g.Keys + pg.Keys
  {
    UnionContains(g + pg, cs, k);
    UnionKeys(g + pg, cs);
  }
}
