/** One-time initialisation over a snapshot of every node's initialisation
    flags: what `init()` does to them, as a pure function that follows the
    calls of `init` and `_doInit`, and its closed form. */
module Initialisation {
  import opened Staleness

  /** A node's `_hasInit` and `_initPromise` flags and how many times its
      `_init` hook has run. */
  datatype InitFlags = InitFlags(hasInit: bool, initializing: bool, runs: nat)

  type Inits<K> = map<K, InitFlags>

  /** What `init()` on `x` does to the flags `f`: nothing if `x` is initialised
      or being initialised; otherwise `_init` runs, `x` is marked initialised
      and being initialised, its children are initialised in registration
      order, and `x` is no longer being initialised. */
  ghost function InitRun<K>(g: Graph<K>, f: Inits<K>, x: K): (r: Inits<K>)
    requires Closed(g) && x in g
    ensures r.Keys == f.Keys
    ensures forall y :: y in f && f[y].hasInit ==> r[y].hasInit
    decreases g[x].below, 1
  {
    if x !in f || f[x].hasInit || f[x].initializing then f
    else
      var f1 := f[x := InitFlags(true, true, f[x].runs + 1)];
      var f2 := InitChildren(g, f1, x, 0);
      f2[x := f2[x].(initializing := false)]
  }

  /** The children of `x` from the `i`-th on, initialised in order. */
  ghost function InitChildren<K>(g: Graph<K>, f: Inits<K>, x: K, i: nat): (r: Inits<K>)
    requires Closed(g) && x in g && i <= |g[x].children|
    ensures r.Keys == f.Keys
    ensures forall y :: y in f && f[y].hasInit ==> r[y].hasInit
    decreases g[x].below, 0, |g[x].children| - i
  {
    if i == |g[x].children| then f
    else
      assert NodeOk(g, x);
      InitChildren(g, InitRun(g, f, g[x].children[i]), x, i + 1)
  }

  /** `InitRun` on a node that is neither initialised nor being initialised,
      in terms of the flags after its children have been initialised. */
  lemma {:induction false} InitRunUnfold<K>(g: Graph<K>, f: Inits<K>, x: K, f2: Inits<K>)
    requires Closed(g) && x in g && x in f && !f[x].hasInit && !f[x].initializing
    requires f2 == InitChildren(g, f[x := InitFlags(true, true, f[x].runs + 1)], x, 0)
    ensures x in f2 && InitRun(g, f, x) == f2[x := f2[x].(initializing := false)]
  {
  }

  /** Every node of `s` not yet initialised is initialised, with one more run
      of its hook, and is not being initialised. */
  ghost function InitAll<K>(f: Inits<K>, s: set<K>): (r: Inits<K>)
    ensures r.Keys == f.Keys
    ensures forall y :: y in f && y in s ==> r[y].hasInit && r[y].runs == f[y].runs + (if f[y].hasInit then 0 else 1)
    ensures forall y :: y in f && y !in s ==> r[y] == f[y]
  {
    map y | y in f :: if y in s && !f[y].hasInit then InitFlags(true, false, f[y].runs + 1) else f[y]
  }

  /** No node of `s` is being initialised. */
  ghost predicate QuietOn<K>(f: Inits<K>, s: set<K>)
  {
    forall y :: y in s && y in f ==> !f[y].initializing
  }

  /** An initialised node of `s` has every node below it initialised. */
  ghost predicate InitClosedOn<K>(g: Graph<K>, f: Inits<K>, s: set<K>)
  {
    forall y {:trigger InitClosedAt(g, f, y)} :: y in s ==> InitClosedAt(g, f, y)
  }

  ghost predicate InitClosedAt<K>(g: Graph<K>, f: Inits<K>, y: K)
  {
    y in g && y in f && f[y].hasInit ==> forall z :: z in g[y].below ==> z in f && f[z].hasInit
  }

  /** Initialising `s1` and then `s2` initialises both. */
  lemma {:induction false} InitAllCompose<K>(f: Inits<K>, s1: set<K>, s2: set<K>)
    ensures InitAll(InitAll(f, s1), s2) == InitAll(f, s1 + s2)
  {
  }

  /** Initialising a set closed under `below` keeps the flags closed. */
  lemma {:induction false} InitAllClosed<K>(g: Graph<K>, f: Inits<K>, s: set<K>, t: set<K>)
    requires Closed(g) && InitClosedOn(g, f, t)
    requires forall y :: y in s && y in g ==> g[y].below <= s
    requires forall y :: y in s && y in g ==> g[y].below <= f.Keys
    ensures InitClosedOn(g, InitAll(f, s), t)
  {
    var h := InitAll(f, s);
    forall y | y in t
      ensures InitClosedAt(g, h, y)
    {
      assert InitClosedAt(g, f, y);
    }
  }

  /** Initialising `x` first and the rest of `s` after is initialising `s`. */
  lemma {:induction false} InitAllTop<K>(f: Inits<K>, x: K, s: set<K>)
    requires x in f && x in s && !f[x].hasInit
    ensures
      var h := InitAll(f[x := InitFlags(true, true, f[x].runs + 1)], s - {x});
      h[x := h[x].(initializing := false)] == InitAll(f, s)
  {
  }

  /** The flags of `x` play no part in closedness strictly below `x`. */
  lemma {:induction false} InitClosedWithoutTop<K>(g: Graph<K>, f: Inits<K>, x: K, v: InitFlags)
    requires Closed(g) && x in g && InitClosedOn(g, f, g[x].below)
    ensures InitClosedOn(g, f[x := v], g[x].below - {x})
  {
    forall y | y in g[x].below - {x}
      ensures InitClosedAt(g, f[x := v], y)
    {
      assert InitClosedAt(g, f, y);
      NotAbove(g, x, y);
    }
  }

  /** With no initialisation in flight and the flags closed below `x`,
      `init()` on `x` initialises exactly the nodes below `x` that were not
      initialised. */
  lemma {:induction false} InitRunAll<K>(g: Graph<K>, f: Inits<K>, x: K)
    requires Closed(g) && x in g && g[x].below <= f.Keys
    requires QuietOn(f, g[x].below) && InitClosedOn(g, f, g[x].below)
    ensures InitRun(g, f, x) == InitAll(f, g[x].below)
    decreases g[x].below, 1
  {
    assert NodeOk(g, x);
    assert InitClosedAt(g, f, x);
    if f[x].hasInit {
      assert InitAll(f, g[x].below) == f;
    } else {
      var f1 := f[x := InitFlags(true, true, f[x].runs + 1)];
      InitClosedWithoutTop(g, f, x, InitFlags(true, true, f[x].runs + 1));
      assert g[x].children[..0] == [];
      assert InitAll(f1, {}) == f1;
      InitChildrenAll(g, f1, x, 0);
      UnionPrefixBelow(g, x, |g[x].children|);
      assert g[x].children[..|g[x].children|] == g[x].children;
      InitAllTop(f, x, g[x].below);
    }
  }

  /** The children loop of `_doInit` on `x`, from child `i` on, with the
      flags `f1` the loop started from. */
  lemma {:induction false} InitChildrenAll<K>(g: Graph<K>, f1: Inits<K>, x: K, i: nat)
    requires Closed(g) && x in g && i <= |g[x].children| && g[x].below <= f1.Keys
    requires QuietOn(f1, g[x].below - {x}) && InitClosedOn(g, f1, g[x].below - {x})
    ensures InitChildren(g, InitAll(f1, Union(g, g[x].children[..i])), x, i)
      == InitAll(f1, Union(g, g[x].children))
    decreases g[x].below, 0, |g[x].children| - i
  {
    var cs := g[x].children;
    var h := InitAll(f1, Union(g, cs[..i]));
    if i == |cs| {
      assert cs[..i] == cs;
    } else {
      assert NodeOk(g, x);
      var c := cs[i];
      UnionContains(g, cs, i);
      UnionPrefixBelow(g, x, i);
      UnionDownward(g, cs[..i]);
      InitAllClosed(g, f1, Union(g, cs[..i]), g[x].below - {x});
      InitRunAll(g, h, c);
      InitAllCompose(f1, Union(g, cs[..i]), g[c].below);
      UnionSnoc(g, cs, i);
      InitChildrenAll(g, f1, x, i + 1);
    }
  }

  /** `init()` is idempotent: a second call changes nothing. */
  lemma {:induction false} InitRunIdempotent<K>(g: Graph<K>, f: Inits<K>, x: K)
    requires Closed(g) && x in g
    ensures InitRun(g, InitRun(g, f, x), x) == InitRun(g, f, x)
  {
  }

  /** The effect of `init()` on one node, in the source's terms: with nothing
      in flight and the flags closed, every node below `x` ends initialised and
      not in flight, its hook has run once more exactly when it was not
      initialised before, and nodes elsewhere keep their flags. */
  lemma {:induction false} InitRunEffect<K>(g: Graph<K>, f: Inits<K>, x: K, y: K)
    requires Closed(g) && x in g && g[x].below <= f.Keys && y in f
    requires QuietOn(f, g[x].below) && InitClosedOn(g, f, g[x].below)
    ensures y in g[x].below ==>
      && InitRun(g, f, x)[y].hasInit && !InitRun(g, f, x)[y].initializing
      && InitRun(g, f, x)[y].runs == f[y].runs + (if f[y].hasInit then 0 else 1)
    ensures y !in g[x].below ==> InitRun(g, f, x)[y] == f[y]
  {
    InitRunAll(g, f, x);
  }

  /** The hypotheses of `InitRunAll` are kept by `init()`: on a set of nodes
      that holds every node below `x`, nothing is left in flight and the flags
      stay closed below every initialised node. */
  lemma {:induction false} InitRunKeepsQuietClosed<K>(g: Graph<K>, f: Inits<K>, x: K, s: set<K>)
    requires Closed(g) && x in g && g[x].below <= s && s <= f.Keys
    requires QuietOn(f, s) && InitClosedOn(g, f, s)
    ensures QuietOn(InitRun(g, f, x), s) && InitClosedOn(g, InitRun(g, f, x), s)
  {
    var b := g[x].below;
    forall y | y in b
      ensures InitClosedAt(g, f, y)
    {
    }
    InitRunAll(g, f, x);
    forall y | y in b && y in g
      ensures g[y].below <= b && g[y].below <= f.Keys
    {
      BelowTrans(g, x, y);
    }
    InitAllClosed(g, f, b, s);
  }
}
