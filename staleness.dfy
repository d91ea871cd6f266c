/** Staleness verdicts of an acyclic dependency graph, as pure functions over a
    snapshot of the graph's shape and of every node's memo pair. Nodes are of
    any type `K`; the engine instantiates `K` with its node class. */
module Staleness {
  import opened Outcomes

  /** One node of a shape snapshot: its children in registration order, the
      nodes at or below it, and its local staleness predicate. */
  datatype Node<K> = Node(children: seq<K>, below: set<K>, local: nat -> bool)

  type Graph<K> = map<K, Node<K>>

  /** A memo pair: the time a verdict was memoised for, and that verdict. */
  datatype Memo = Memo(time: Option<nat>, verdict: bool)

  type Memos<K> = map<K, Memo>

  /** The nodes at or below some children. */
  ghost function Union<K>(g: Graph<K>, cs: seq<K>): set<K>
  {
    if cs == [] then {} else (if cs[0] in g then g[cs[0]].below else {}) + Union(g, cs[1..])
  }

  /** At node `x` the shape is acyclic and `below` is exactly the node and the
      nodes below its children. Children may be shared. */
  ghost predicate NodeOk<K>(g: Graph<K>, x: K)
    requires x in g
  {
    && g[x].below <= g.Keys
    && g[x].below == {x} + Union(g, g[x].children)
    && forall i :: 0 <= i < |g[x].children| ==>
         var c := g[x].children[i];
         c in g && g[c].below < g[x].below && x !in g[c].below
  }

  /** The shape is acyclic at every node. The facts about a node are brought
      in by mentioning `NodeOk` for it. */
  ghost predicate Closed<K>(g: Graph<K>)
  {
    forall x {:trigger NodeOk(g, x)} :: x in g ==> NodeOk(g, x)
  }

  /** The default local staleness predicate `_needsUpdate`: never stale. */
  function NeverStale(t: nat): (r: bool)
    ensures !r
  {
    false
  }

  /** What `needsUpdate(t)` answers on node `x` when the memo pairs are `m`. */
  ghost function Verdict<K>(g: Graph<K>, m: Memos<K>, t: nat, x: K): bool
    requires Closed(g) && x in g
    decreases g[x].below, 2
  {
    if x in m && m[x].time == Some(t) then m[x].verdict else Recalc(g, m, t, x)
  }

  /** What `_recalcNeedsUpdate(t)` answers on node `x`: locally stale, or some
      child's `needsUpdate(t)` is true. */
  ghost function Recalc<K>(g: Graph<K>, m: Memos<K>, t: nat, x: K): bool
    requires Closed(g) && x in g
    decreases g[x].below, 1
  {
    || g[x].local(t)
    || exists i :: 0 <= i < |g[x].children| && ChildVerdict(g, m, t, x, i)
  }

  /** The answer of the `i`-th child of `x`. */
  ghost predicate ChildVerdict<K>(g: Graph<K>, m: Memos<K>, t: nat, x: K, i: int)
    requires Closed(g) && x in g && 0 <= i < |g[x].children|
    decreases g[x].below, 0
  {
    assert NodeOk(g, x);
    Verdict(g, m, t, g[x].children[i])
  }

  /** The reference meaning of staleness: some node at or below `x` is locally
      stale at `t`. */
  ghost predicate StaleAt<K>(g: Graph<K>, x: K, t: nat)
    requires x in g
  {
    exists y :: y in g[x].below && y in g && g[y].local(t)
  }

  /** Every memoised verdict of a node in `s` is that node's true staleness at
      the memoised time. */
  ghost predicate CoherentOn<K>(g: Graph<K>, m: Memos<K>, s: set<K>)
  {
    forall y {:trigger CoherentAt(g, m, y)} :: y in s ==> CoherentAt(g, m, y)
  }

  /** The memoised verdict of `y`, if any, is its true staleness. */
  ghost predicate CoherentAt<K>(g: Graph<K>, m: Memos<K>, y: K)
  {
    y in g && y in m && m[y].time.Some? ==> m[y].verdict == StaleAt(g, y, m[y].time.value)
  }

  /** `m1` differs from `m0` only at nodes of `s` that memoised, for `t`, the
      verdict `m0` gives them. */
  ghost predicate Refreshed<K>(g: Graph<K>, m0: Memos<K>, m1: Memos<K>, t: nat, s: set<K>)
    requires Closed(g)
  {
    && m1.Keys == m0.Keys
    && forall y {:trigger RefreshedAt(g, m0, m1, t, s, y)} :: y in m0 ==> RefreshedAt(g, m0, m1, t, s, y)
  }

  /** The memo pair of `y` is unchanged, or `y` is in `s` and memoised the
      verdict for `t` that `m0` gives it. */
  ghost predicate RefreshedAt<K>(g: Graph<K>, m0: Memos<K>, m1: Memos<K>, t: nat, s: set<K>, y: K)
    requires Closed(g)
  {
    y in m0 && y in m1 ==>
      m1[y] == m0[y] || (y in s && y in g && m1[y] == Memo(Some(t), Verdict(g, m0, t, y)))
  }

  /** A node below some children is below one of them. */
  lemma {:induction false} UnionIndex<K>(g: Graph<K>, cs: seq<K>, y: K) returns (i: nat)
    requires y in Union(g, cs)
    ensures i < |cs| && cs[i] in g && y in g[cs[i]].below
  {
    if cs[0] in g && y in g[cs[0]].below {
      i := 0;
    } else {
      var k := UnionIndex(g, cs[1..], y);
      i := k + 1;
    }
  }

  /** Everything below a child is in the union. */
  lemma {:induction false} UnionContains<K>(g: Graph<K>, cs: seq<K>, i: nat)
    requires i < |cs| && cs[i] in g
    ensures g[cs[i]].below <= Union(g, cs)
  {
    if i > 0 {
      UnionContains(g, cs[1..], i - 1);
    }
  }

  /** The union of a prefix grows by the next child's nodes. */
  lemma {:induction false} UnionSnoc<K>(g: Graph<K>, cs: seq<K>, i: nat)
    requires i < |cs|
    ensures Union(g, cs[..i + 1]) == Union(g, cs[..i]) + (if cs[i] in g then g[cs[i]].below else {})
  {
    if i > 0 {
      assert cs[..i + 1][1..] == cs[1..][..i];
      assert cs[..i][1..] == cs[1..][..i - 1];
      UnionSnoc(g, cs[1..], i - 1);
    }
  }

  /** `below` is transitive. */
  lemma {:induction false} BelowTrans<K>(g: Graph<K>, x: K, y: K)
    requires Closed(g) && x in g && y in g[x].below
    ensures y in g && g[y].below <= g[x].below
    decreases g[x].below
  {
    assert NodeOk(g, x);
    if y != x {
      var i := UnionIndex(g, g[x].children, y);
      BelowTrans(g, g[x].children[i], y);
    }
  }

  /** No node is below one of its own descendants. */
  lemma {:induction false} NotAbove<K>(g: Graph<K>, x: K, y: K)
    requires Closed(g) && x in g && y in g[x].below && y != x
    ensures y in g && x !in g[y].below
  {
    assert NodeOk(g, x);
    var i := UnionIndex(g, g[x].children, y);
    BelowTrans(g, g[x].children[i], y);
  }

  /** A verdict depends only on the memo pairs at or below the node. */
  lemma {:induction false} VerdictLocal<K>(g: Graph<K>, m0: Memos<K>, m1: Memos<K>, t: nat, x: K)
    requires Closed(g) && x in g
    requires forall y :: y in g[x].below ==> (y in m0 <==> y in m1) && (y in m0 ==> m0[y] == m1[y])
    ensures Verdict(g, m1, t, x) == Verdict(g, m0, t, x)
    decreases g[x].below, 1
  {
    assert NodeOk(g, x);
    assert x in g[x].below;
    RecalcLocal(g, m0, m1, t, x);
  }

  /** A recalculation does not depend on the node's own memo pair. */
  lemma {:induction false} RecalcLocal<K>(g: Graph<K>, m0: Memos<K>, m1: Memos<K>, t: nat, x: K)
    requires Closed(g) && x in g
    requires forall y :: y in g[x].below && y != x ==> (y in m0 <==> y in m1) && (y in m0 ==> m0[y] == m1[y])
    ensures Recalc(g, m1, t, x) == Recalc(g, m0, t, x)
    decreases g[x].below, 0
  {
    assert NodeOk(g, x);
    forall i | 0 <= i < |g[x].children|
      ensures ChildVerdict(g, m1, t, x, i) == ChildVerdict(g, m0, t, x, i)
    {
      var c := g[x].children[i];
      VerdictLocal(g, m0, m1, t, c);
    }
  }

  /** Memoising verdicts `m0` already gave changes no verdict. */
  lemma {:induction false} VerdictKept<K>(g: Graph<K>, m0: Memos<K>, m1: Memos<K>, t: nat, s: set<K>, x: K)
    requires Closed(g) && x in g && Refreshed(g, m0, m1, t, s)
    ensures Verdict(g, m1, t, x) == Verdict(g, m0, t, x)
    decreases g[x].below
  {
    assert NodeOk(g, x);
    assert RefreshedAt(g, m0, m1, t, s, x);
    if x in m0 && m1[x] != m0[x] {
      return;
    }
    forall i | 0 <= i < |g[x].children|
      ensures ChildVerdict(g, m1, t, x, i) == ChildVerdict(g, m0, t, x, i)
    {
      VerdictKept(g, m0, m1, t, s, g[x].children[i]);
    }
    assert Recalc(g, m1, t, x) == Recalc(g, m0, t, x);
  }

  /** Two refreshes in a row are one refresh of both sets. */
  lemma {:induction false} RefreshedTrans<K>(g: Graph<K>, m0: Memos<K>, m1: Memos<K>, m2: Memos<K>, t: nat, s: set<K>, s': set<K>)
    requires Closed(g) && Refreshed(g, m0, m1, t, s) && Refreshed(g, m1, m2, t, s')
    ensures Refreshed(g, m0, m2, t, s + s')
  {
    forall y | y in m0
      ensures RefreshedAt(g, m0, m2, t, s + s', y)
    {
      assert RefreshedAt(g, m0, m1, t, s, y) && RefreshedAt(g, m1, m2, t, s', y);
      if m2[y] != m1[y] {
        VerdictKept(g, m0, m1, t, s, y);
      }
    }
  }

  /** Leaving every memo as it is refreshes nothing. */
  lemma {:induction false} RefreshedRefl<K>(g: Graph<K>, m: Memos<K>, t: nat, s: set<K>)
    requires Closed(g)
    ensures Refreshed(g, m, m, t, s)
  {
    forall y | y in m
      ensures RefreshedAt(g, m, m, t, s, y)
    {
    }
  }

  /** A refresh of some nodes is a refresh of any larger set. */
  lemma {:induction false} RefreshedWeaken<K>(g: Graph<K>, m0: Memos<K>, m1: Memos<K>, t: nat, s: set<K>, s': set<K>)
    requires Closed(g) && Refreshed(g, m0, m1, t, s) && s <= s'
    ensures Refreshed(g, m0, m1, t, s')
  {
    forall y | y in m0
      ensures RefreshedAt(g, m0, m1, t, s', y)
    {
      assert RefreshedAt(g, m0, m1, t, s, y);
    }
  }

  /** The nodes below the first `i` children of `x` are strictly below `x`. */
  lemma {:induction false} UnionPrefixBelow<K>(g: Graph<K>, x: K, i: nat)
    requires Closed(g) && x in g && i <= |g[x].children|
    ensures Union(g, g[x].children[..i]) <= g[x].below - {x}
  {
    assert NodeOk(g, x);
    var cs := g[x].children;
    forall y | y in Union(g, cs[..i])
      ensures y in g[x].below - {x}
    {
      var j := UnionIndex(g, cs[..i], y);
      UnionContains(g, cs, j);
    }
  }

  /** One step of `_recalcNeedsUpdate(t)` on `x`: asking child `i`, which
      answered `b` and refreshed the nodes below it, extends the refresh of the
      first `i` children to the first `i + 1`, and `b` is the child's verdict
      under the starting memos `m0`. */
  lemma {:induction false} RecalcStep<K>(g: Graph<K>, m0: Memos<K>, m1: Memos<K>, m2: Memos<K>, t: nat, x: K, i: nat, b: bool)
    requires Closed(g) && x in g && i < |g[x].children| && g[x].children[i] in g
    requires Refreshed(g, m0, m1, t, Union(g, g[x].children[..i]))
    requires b == Verdict(g, m1, t, g[x].children[i])
    requires Refreshed(g, m1, m2, t, g[g[x].children[i]].below)
    ensures Refreshed(g, m0, m2, t, Union(g, g[x].children[..i + 1]))
    ensures ChildVerdict(g, m0, t, x, i) == b
  {
    var cs := g[x].children;
    VerdictKept(g, m0, m1, t, Union(g, cs[..i]), cs[i]);
    RefreshedTrans(g, m0, m1, m2, t, Union(g, cs[..i]), g[cs[i]].below);
    UnionSnoc(g, cs, i);
  }

  /** The nodes below some children include everything below each of them. */
  lemma {:induction false} UnionDownward<K>(g: Graph<K>, cs: seq<K>)
    requires Closed(g)
    ensures forall y :: y in Union(g, cs) && y in g ==> g[y].below <= Union(g, cs)
  {
    forall y | y in Union(g, cs) && y in g
      ensures g[y].below <= Union(g, cs)
    {
      var j := UnionIndex(g, cs, y);
      UnionContains(g, cs, j);
      BelowTrans(g, cs[j], y);
    }
  }

  /** A memo for `t` answers `needsUpdate(t)` without changing any memo; with
      coherent memos the answer is the node's staleness. */
  lemma {:induction false} MemoHit<K>(g: Graph<K>, m: Memos<K>, t: nat, x: K, s: set<K>)
    requires Closed(g) && x in g && x in m && m[x].time == Some(t)
    ensures Verdict(g, m, t, x) == m[x].verdict
    ensures Refreshed(g, m, m, t, s)
    ensures CoherentOn(g, m, s) && x in s ==> m[x].verdict == StaleAt(g, x, t)
  {
    if CoherentOn(g, m, s) && x in s {
      assert CoherentAt(g, m, x);
    }
    RefreshedRefl(g, m, t, s);
  }

  /** The memo step of `needsUpdate(t)` on `x`: the time is stored first
      (`m1`), the recalculation then refreshes nodes strictly below `x` (`m2`),
      and its answer `r` is stored last. The answer is the verdict of the
      starting memos `m0`, and the whole step is a refresh of the nodes at or
      below `x`. */
  lemma {:induction false} MemoStep<K>(g: Graph<K>, m0: Memos<K>, m1: Memos<K>, m2: Memos<K>, t: nat, x: K, r: bool)
    requires Closed(g) && x in g && x in m0 && m0[x].time != Some(t)
    requires m1 == m0[x := Memo(Some(t), m0[x].verdict)]
    requires Refreshed(g, m1, m2, t, g[x].below - {x})
    requires r == Recalc(g, m1, t, x)
    ensures r == Verdict(g, m0, t, x)
    ensures Refreshed(g, m0, m2[x := Memo(Some(t), r)], t, g[x].below)
  {
    RecalcIgnoresOwnMemo(g, m0, t, x, m1[x]);
    MemoStepRefreshed(g, m0, m1, m2, t, x, r);
  }

  lemma {:induction false} MemoStepRefreshed<K>(g: Graph<K>, m0: Memos<K>, m1: Memos<K>, m2: Memos<K>, t: nat, x: K, r: bool)
    requires Closed(g) && x in g && x in m0
    requires m1 == m0[x := Memo(Some(t), m0[x].verdict)]
    requires Refreshed(g, m1, m2, t, g[x].below - {x})
    requires r == Verdict(g, m0, t, x)
    ensures Refreshed(g, m0, m2[x := Memo(Some(t), r)], t, g[x].below)
  {
    var m3 := m2[x := Memo(Some(t), r)];
    assert NodeOk(g, x);
    forall y | y in m0
      ensures RefreshedAt(g, m0, m3, t, g[x].below, y)
    {
      assert RefreshedAt(g, m1, m2, t, g[x].below - {x}, y);
      if y != x && m2[y] != m1[y] {
        OwnMemoHidden(g, m0, t, x, m1[x], y);
        assert m0[x := m1[x]] == m1;
      }
    }
  }

  /** The memo pair of `x` plays no part in its own recalculation. */
  lemma {:induction false} RecalcIgnoresOwnMemo<K>(g: Graph<K>, m0: Memos<K>, t: nat, x: K, v: Memo)
    requires Closed(g) && x in g
    ensures Recalc(g, m0[x := v], t, x) == Recalc(g, m0, t, x)
  {
    assert NodeOk(g, x);
    var m1 := m0[x := v];
    forall i | 0 <= i < |g[x].children|
      ensures ChildVerdict(g, m1, t, x, i) == ChildVerdict(g, m0, t, x, i)
    {
      var c := g[x].children[i];
      assert NodeOk(g, c);
      UnionContains(g, g[x].children, i);
      OwnMemoHidden(g, m0, t, x, v, c);
    }
    assert Recalc(g, m1, t, x) == Recalc(g, m0, t, x);
  }

  /** The memo pair of `x` plays no part in the verdicts of its descendants. */
  lemma {:induction false} OwnMemoHidden<K>(g: Graph<K>, m0: Memos<K>, t: nat, x: K, v: Memo, y: K)
    requires Closed(g) && x in g && y in g[x].below && y != x
    ensures y in g && Verdict(g, m0[x := v], t, y) == Verdict(g, m0, t, y)
  {
    NotAbove(g, x, y);
    VerdictLocal(g, m0, m0[x := v], t, y);
  }

  /** Staleness unfolds along the children. */
  lemma {:induction false} StaleAtUnfold<K>(g: Graph<K>, x: K, t: nat)
    requires Closed(g) && x in g
    ensures StaleAt(g, x, t) <==>
      g[x].local(t) ||
      exists i :: 0 <= i < |g[x].children| && g[x].children[i] in g && StaleAt(g, g[x].children[i], t)
  {
    assert NodeOk(g, x);
    if StaleAt(g, x, t) {
      var y :| y in g[x].below && y in g && g[y].local(t);
      if y != x {
        var i := UnionIndex(g, g[x].children, y);
        assert StaleAt(g, g[x].children[i], t);
      }
    }
    forall i | 0 <= i < |g[x].children| && g[x].children[i] in g && StaleAt(g, g[x].children[i], t)
      ensures StaleAt(g, x, t)
    {
      var y :| y in g[g[x].children[i]].below && y in g && g[y].local(t);
    }
  }

  /** With coherent memos below `x`, `needsUpdate(t)` on `x` answers exactly
      whether some node at or below `x` is locally stale at `t`. */
  lemma {:induction false} VerdictOfCoherent<K>(g: Graph<K>, m: Memos<K>, t: nat, x: K)
    requires Closed(g) && x in g && CoherentOn(g, m, g[x].below)
    ensures Verdict(g, m, t, x) == StaleAt(g, x, t)
    decreases g[x].below
  {
    assert NodeOk(g, x);
    assert x in g[x].below && CoherentAt(g, m, x);
    if x in m && m[x].time == Some(t) {
      return;
    }
    forall i | 0 <= i < |g[x].children|
      ensures ChildVerdict(g, m, t, x, i) == StaleAt(g, g[x].children[i], t)
    {
      VerdictOfCoherent(g, m, t, g[x].children[i]);
    }
    StaleAtUnfold(g, x, t);
    assert Recalc(g, m, t, x) == StaleAt(g, x, t);
  }

  /** A refresh of the nodes in `s` keeps memos that were coherent on `s`
      coherent. */
  lemma {:induction false} RefreshKeepsCoherent<K>(g: Graph<K>, m0: Memos<K>, m1: Memos<K>, t: nat, s: set<K>)
    requires Closed(g) && Refreshed(g, m0, m1, t, s) && CoherentOn(g, m0, s)
    requires forall y :: y in s && y in g ==> g[y].below <= s
    ensures CoherentOn(g, m1, s)
  {
    forall y | y in s
      ensures CoherentAt(g, m1, y)
    {
      assert CoherentAt(g, m0, y) && RefreshedAt(g, m0, m1, t, s, y);
      if y in g && y in m0 && m1[y] != m0[y] {
        VerdictOfCoherent(g, m0, t, y);
      }
    }
  }

  /** Memos holding no time are coherent. */
  lemma {:induction false} ClearedIsCoherent<K>(g: Graph<K>, m: Memos<K>, s: set<K>)
    requires forall y :: y in s && y in m ==> m[y].time == None
    ensures CoherentOn(g, m, s)
  {
    forall y | y in s
      ensures CoherentAt(g, m, y)
    {
    }
  }

  /** A node without children whose local predicate is the default
      `_needsUpdate` recalculates as not stale, and is not stale. */
  lemma {:induction false} DefaultLeafNeverStale<K>(g: Graph<K>, m: Memos<K>, t: nat, x: K)
    requires Closed(g) && x in g && g[x].children == [] && g[x].local == NeverStale
    ensures !Recalc(g, m, t, x)
    ensures !StaleAt(g, x, t)
  {
    assert NodeOk(g, x);
    assert g[x].below == {x};
  }

  /** A locally stale node makes every ancestor's `needsUpdate(t)` true when
      their memos are coherent (for instance when none holds a time). */
  lemma {:induction false} StaleLeafMakesAncestorsStale<K>(g: Graph<K>, m: Memos<K>, t: nat, x: K, y: K)
    requires Closed(g) && x in g && CoherentOn(g, m, g[x].below)
    requires y in g[x].below && y in g && g[y].local(t)
    ensures Verdict(g, m, t, x)
  {
    VerdictOfCoherent(g, m, t, x);
  }
}
