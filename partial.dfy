/** The `Partial` engine: a node of a dependency graph that caches the output of
    its generation function and regenerates it only when the node or one of its
    descendants reports that it is stale. Every operation here runs to
    completion before the next one starts (the suspension points of
    Partial.js are treated as synchronous calls). */
module PartialEngine {
  import opened Outcomes
  import opened OrderedMaps
  import opened Staleness
  import opened Initialisation
  import opened Wiring

  /** A generated output. `False` is JavaScript's `false`, which the engine uses
      as "nothing cached"; a generation function may also return it. */
  datatype Value = False | Output(text: string)

  /** A generation function (`_generate`): it reads the children's outputs
      through the node's `partial(name)` accessor. */
  type Generator = (string -> Result<Value>) -> Value

  /** `partial(name)` given the lock flag and the outputs collected by the last
      regeneration. */
  function PartialLookup(locked: bool, outputs: map<string, Value>, name: string): (r: Result<Value>)
    ensures r == Err(LockedError) <==> locked
    ensures r == Err(UnknownPartial(name)) <==> !locked && name !in outputs
    ensures !locked && name in outputs ==> r == Ok(outputs[name])
  {
    if locked then Err(LockedError)
    else if name !in outputs then Err(UnknownPartial(name))
    else Ok(outputs[name])
  }

  /** The time source standing for `new Date()`: every reading is a new, larger
      value, so two readings are never equal, as two `Date` objects never are
      under `===`. */
  class Clock {
    var now: nat

    constructor (start: nat)
      ensures now == start
    {
      now := start;
    }

    method Tick() returns (t: nat)
      modifies this
      ensures now == old(now) + 1 && t == now
    {
      now := now + 1;
      t := now;
    }
  }

  /* The heap-reading map comprehensions below guard their value by their own
     domain. Dafny's encoding keeps a comprehension's value function as a whole,
     outside the domain as well; unguarded, two heaps that agree on the nodes of
     the domain (so that the frame axiom equates the two maps) but not on some
     node outside it would make that value function disagree with itself. */

  /** The memo pairs of the nodes of a shape snapshot. */
  ghost function Snapshot(g: Graph<Partial>): Memos<Partial>
    reads g.Keys`memoTime, g.Keys`memoVal
  {
    map x | x in g :: if x in g then Memo(x.memoTime, x.memoVal) else Memo(None, false)
  }

  /** The flags of a node `new Partial()` creates. */
  const NotInitialised := InitFlags(false, false, 0)

  /** The initialisation flags of the nodes of a shape snapshot. */
  ghost function InitSnapshot(g: Graph<Partial>): Inits<Partial>
    reads g.Keys`hasInit, g.Keys`initializing, g.Keys`initRuns
  {
    map x | x in g :: if x in g then InitFlags(x.hasInit, x.initializing, x.initRuns) else NotInitialised
  }

  class Partial {
    // the overridable hooks
    const generator: Option<Generator>        // `_generate`, absent on a bare Partial
    const localNeedsUpdate: nat -> bool      // `_needsUpdate(since)`

    // the dependency graph: `_requiredPartials`, in registration order
    var requiredPartials: seq<(string, Partial)>

    // generation state
    var partialCache: map<string, Value>     // `_requiredPartialCache`
    var partialLock: bool                    // `_getPartialLock`
    var genCache: Value                      // `_genCache`
    var genTime: nat                         // `genTime`
    var rendering: bool                      // `_renderPromise` is set

    // initialisation state
    var hasInit: bool                        // `_hasInit`
    var initializing: bool                   // `_initPromise` is set

    // staleness memo
    var memoTime: Option<nat>                // `_needsUpdateCacheTime`
    var memoVal: bool                        // `_needsUpdateCacheVal`

    // how many times the `_init` and `_generate` hooks of this node have run
    ghost var initRuns: nat
    ghost var genRuns: nat
    // the `since` argument of the last `generate` call on this node, if any
    ghost var lastSince: Option<Option<nat>>

    // this node and all its descendants
    ghost var Repr: set<Partial>

    /** This node as a shape snapshot records it. */
    ghost function Shape(): Node<Partial>
      reads this`requiredPartials, this`Repr
    {
      Node(Values(requiredPartials), Repr, localNeedsUpdate)
    }

    /** Registration names are distinct and every child has a generation
        function. */
    ghost predicate Wired()
      reads this`requiredPartials
    {
      && DistinctKeys(requiredPartials)
      && forall i :: 0 <= i < |requiredPartials| ==> requiredPartials[i].1.generator.Some?
    }

    /** `g` is an acyclic shape that records this node and every node below it
        as they are. */
    ghost predicate Within(g: Graph<Partial>)
      reads this`Repr, Repr`requiredPartials, Repr`Repr
    {
      && Closed(g)
      && this in Repr && this in g && g[this] == Shape()
      && forall x {:trigger Recorded(g, x)} :: x in Repr ==> Recorded(g, x)
    }

    /** The shape of this node and its descendants. */
    ghost function Graph(): Graph<Partial>
      reads this`Repr, Repr`requiredPartials, Repr`Repr
    {
      map x | x in Repr :: if x in Repr then x.Shape() else Node([], {}, NeverStale)
    }

    /** The class invariant: the graph below this node is acyclic and `Repr`
        is exactly this node and its descendants. */
    ghost predicate Valid()
      reads this`Repr, Repr`requiredPartials, Repr`Repr
    {
      Within(Graph())
    }

    /** The node's own generation function applied to `partial` over the lock
        flag `locked` and the outputs `outputs`. */
    function Render(locked: bool, outputs: map<string, Value>): Value
      requires generator.Some?
    {
      generator.value(name => PartialLookup(locked, outputs, name))
    }

    /** `new Partial()`, with the hooks of the concrete node kind. */
    constructor (generator: Option<Generator>, localNeedsUpdate: nat -> bool, clock: Clock)
      modifies clock
      ensures Valid() && Repr == {this}
      ensures this.generator == generator && this.localNeedsUpdate == localNeedsUpdate
      ensures requiredPartials == [] && partialCache == map[] && partialLock && !rendering
      ensures genCache == False && genTime == clock.now && clock.now == old(clock.now) + 1
      ensures !hasInit && !initializing && memoTime == None
      ensures initRuns == 0 && genRuns == 0 && lastSince == None
    {
      this.generator := generator;
      this.localNeedsUpdate := localNeedsUpdate;
      requiredPartials := [];
      partialCache := map[];
      partialLock := true;
      genCache := False;
      var now := clock.Tick();
      genTime := now;
      rendering := false;
      hasInit := false;
      initializing := false;
      memoTime := None;
      memoVal := false;
      initRuns := 0;
      genRuns := 0;
      lastSince := None;
      Repr := {this};
      new;
      assert Graph() == map[this := Shape()];
    }

    /** `requires(name, partial)`: a dependency without a generation function
        is refused with a `TypeError` and nothing changes; otherwise it is
        registered under `name`, and when this node is initialised the new
        dependency is initialised as well. */
    method Requires(name: string, p: Partial) returns (res: Outcome)
      requires Valid() && p.Valid() && this !in p.Repr
      modifies this`requiredPartials, this`Repr, p.Repr`hasInit, p.Repr`initializing, p.Repr`initRuns
      ensures Valid() && p.Valid()
      ensures p.generator.None? ==> res == Fail(TypeError) && unchanged(this) && unchanged(p.Repr)
      ensures p.generator.Some? ==> res == Pass && requiredPartials == Set(old(requiredPartials), name, p)
      ensures p.generator.Some? ==> p.Repr <= Repr <= old(Repr) + p.Repr
      ensures p.generator.Some? && name !in Keys(old(requiredPartials)) ==> Repr == old(Repr) + p.Repr
      ensures p.generator.Some? && hasInit ==>
        InitSnapshot(old(p.Graph())) == InitRun(old(p.Graph()), old(InitSnapshot(p.Graph())), p)
      ensures !hasInit ==> unchanged(p.Repr`hasInit, p.Repr`initializing, p.Repr`initRuns)
    {
      if p.generator.None? {
        return Fail(TypeError);
      }
      ghost var pg := p.Graph();
      Register(name, p);
      Untouched(p);
      InitRequired(p, pg);
      return Pass;
    }

    /** The initialisation step of `requires`: when this node is initialised,
        the dependency `p` just registered is initialised too. */
    method InitRequired(p: Partial, ghost pg: Graph<Partial>)
      requires Valid() && p.Valid() && pg == p.Graph() && this !in p.Repr && p in Repr
      modifies p.Repr`hasInit, p.Repr`initializing, p.Repr`initRuns
      ensures Valid() && p.Valid()
      ensures hasInit ==> InitSnapshot(pg) == InitRun(pg, old(InitSnapshot(pg)), p)
      ensures !hasInit ==> unchanged(p.Repr`hasInit, p.Repr`initializing, p.Repr`initRuns)
    {
      if hasInit {
        p.Init(pg);
        ShapeKept(this);
        ShapeKept(p);
      }
    }

    /** The registration step of `requires`: `name` is set to `p` in the
        ordered map of dependencies, and the footprint of this node grows by
        the nodes at or below `p` (and loses those of a dependency `p`
        replaces, unless they are still below another one). */
    method Register(name: string, p: Partial)
      requires Valid() && p.Valid() && this !in p.Repr && p.generator.Some?
      modifies this`requiredPartials, this`Repr
      ensures requiredPartials == Set(old(requiredPartials), name, p)
      ensures Valid() && p.Valid() && p.Repr <= Repr <= old(Repr) + p.Repr
      ensures name !in Keys(old(requiredPartials)) ==> Repr == old(Repr) + p.Repr
    {
      ghost var g, pg := Graph(), p.Graph();
      ghost var h := g + pg;
      var rp := Set(requiredPartials, name, p);
      WireFacts(this, p, name, g, pg);
      RecordedMerge(this, p, g, pg);
      ghost var a := Attach(h, this, Values(rp), localNeedsUpdate);
      requiredPartials := rp;
      Repr := a.Keys;
      forall y | y in h && y != this
        ensures h[y] == y.Shape() && y.Wired()
      {
      }
      Rewired(this, p, h, a);
    }

    /** `partial(name)`. */
    function PartialOutput(name: string): (r: Result<Value>)
      reads this`partialLock, this`partialCache
      ensures r == Err(LockedError) <==> partialLock
      ensures r == Err(UnknownPartial(name)) <==> !partialLock && name !in partialCache
      ensures !partialLock && name in partialCache ==> r == Ok(partialCache[name])
    {
      PartialLookup(partialLock, partialCache, name)
    }

    /** `init()`: runs `_doInit` unless the node is initialised or being
        initialised; the new flags are those `InitRun` gives. */
    method Init(ghost g: Graph<Partial>)
      requires Within(g)
      modifies Repr`hasInit, Repr`initializing, Repr`initRuns
      ensures InitSnapshot(g) == InitRun(g, old(InitSnapshot(g)), this)
      decreases Repr, 1
    {
      if initializing || hasInit {
        return;
      }
      ghost var f := InitSnapshot(g);
      assert f[this] == InitFlags(false, false, initRuns);
      ghost var f1 := f[this := InitFlags(true, true, f[this].runs + 1)];
      StoreInit(hasInit, true, initRuns, g);
      assert InitSnapshot(g)[this := InitFlags(true, true, initRuns + 1)] == f1;
      DoInit(g);
      ghost var f2 := InitSnapshot(g);
      assert f2 == InitChildren(g, f1, this, 0);
      assert f2[this] == InitFlags(hasInit, initializing, initRuns);
      StoreInit(hasInit, false, initRuns, g);
      InitRunUnfold(g, f, this, f2);
    }

    /** `_doInit()`: runs the `_init` hook, marks the node initialised, then
        initialises the children in registration order. */
    method DoInit(ghost g: Graph<Partial>)
      requires Within(g)
      modifies Repr`hasInit, Repr`initializing, Repr`initRuns
      ensures InitSnapshot(g) ==
        InitChildren(g, old(InitSnapshot(g))[this := InitFlags(true, old(initializing), old(initRuns) + 1)], this, 0)
      decreases Repr, 0
    {
      StoreInit(true, initializing, initRuns + 1, g);
      ghost var f1 := InitSnapshot(g);
      for i := 0 to |requiredPartials|
        invariant InitChildren(g, InitSnapshot(g), this, i) == InitChildren(g, f1, this, 0)
      {
        ChildWithin(this, g, i);
        requiredPartials[i].1.Init(g);
      }
    }

    /** Stores the initialisation flags of this node. */
    method StoreInit(hasInit: bool, initializing: bool, ghost runs: nat, ghost g: Graph<Partial>)
      requires this in g
      modifies this`hasInit, this`initializing, this`initRuns
      ensures this.hasInit == hasInit && this.initializing == initializing && initRuns == runs
      ensures InitSnapshot(g) == old(InitSnapshot(g))[this := InitFlags(hasInit, initializing, runs)]
    {
      this.hasInit := hasInit;
      this.initializing := initializing;
      initRuns := runs;
    }

    /** Whether `_doGenerate(since)` regenerates: nothing is cached, or the
        staleness query answers true. */
    ghost predicate Regenerates(since: Option<nat>, g: Graph<Partial>)
      requires Closed(g) && this in g
      reads this`genCache, this`genTime, g.Keys`memoTime, g.Keys`memoVal
    {
      genCache == False || Verdict(g, Snapshot(g), since.GetOr(genTime), this)
    }

    /** Every child of this node is in its footprint, and is not this node. */
    ghost predicate ChildrenInRepr()
      reads this`requiredPartials, this`Repr
    {
      forall j :: 0 <= j < |requiredPartials| ==> requiredPartials[j].1 in Repr - {this}
    }

    /** `generate(since)`: releases the lock, marks the node as rendering, runs
        `_doGenerate`, then re-sets the lock, clears the rendering mark and
        forgets the staleness memos of the node and all its descendants. */
    method Generate(since: Option<nat>, clock: Clock, ghost g: Graph<Partial>) returns (r: Value)
      requires Within(g) && generator.Some?
      requires forall x :: x in Repr ==> !x.rendering
      modifies Repr`partialCache, Repr`partialLock, Repr`genCache, Repr`genTime, Repr`rendering
      modifies Repr`memoTime, Repr`memoVal, Repr`genRuns, Repr`lastSince, clock
      ensures r == genCache && partialLock && lastSince == Some(since) && ChildrenInRepr()
      ensures forall x :: x in Repr ==> !x.rendering && x.memoTime == None
      ensures forall x :: x in Repr ==> x.lastSince == old(x.lastSince) || x.lastSince == Some(since)
      ensures old(clock.now) <= clock.now
      ensures !old(Regenerates(since, g)) ==>
        && r == old(genCache)
        && unchanged(Repr`partialCache, Repr`genCache, Repr`genTime, Repr`genRuns, clock)
        && unchanged((Repr - {this})`partialLock, (Repr - {this})`lastSince)
      ensures old(Regenerates(since, g)) ==> Regenerated(old(genRuns), old(clock.now), clock) && Collected(since, g)
      decreases Repr, 4
    {
      StoreRendering(Some(since), false, true);
      r := DoGenerate(since, clock, g);
      Finish(g);
    }

    /** The end of `generate`: the lock is set again, the rendering mark
        cleared and the staleness memos below the node forgotten. */
    method Finish(ghost g: Graph<Partial>)
      requires Within(g)
      modifies this`partialLock, this`rendering, this`lastSince, Repr`memoTime
      ensures partialLock && !rendering && lastSince == old(lastSince)
      ensures forall x :: x in Repr ==> x.memoTime == None
    {
      StoreRendering(lastSince, true, false);
      ClearNeedsUpdate(g);
    }

    /** Stores the last `since`, the lock flag and the rendering mark of this
        node. */
    method StoreRendering(ghost since: Option<Option<nat>>, locked: bool, busy: bool)
      modifies this`lastSince, this`partialLock, this`rendering
      ensures since == old(lastSince) ==> unchanged(this`lastSince)
      ensures lastSince == since && partialLock == locked && rendering == busy
    {
      lastSince := since;
      partialLock := locked;
      rendering := busy;
    }

    /** What a regeneration leaves on the node itself: the hook ran once more,
        `genTime` is a new reading of the clock, the collected outputs are keyed
        by exactly the registration names, and the cached output is the
        generation function applied, with the lock released, to the collected
        outputs. */
    ghost predicate Regenerated(runs: nat, start: nat, clock: Clock)
      requires generator.Some?
      reads this`genRuns, this`genTime, this`partialCache, this`genCache, this`requiredPartials, clock`now
    {
      && genRuns == runs + 1
      && start < genTime == clock.now
      && (forall n :: n in partialCache <==> n in Keys(requiredPartials))
      && genCache == Render(false, partialCache)
    }

    /** What a regeneration leaves on the children: every child was generated
        with the same `since`, and the output collected under a child's name is
        the child's cached output, unless a later child has it below itself
        (its generation may then have renewed that output after it was
        collected). */
    ghost predicate Collected(since: Option<nat>, g: Graph<Partial>)
      requires this in g && g[this] == Shape() && ChildrenInRepr()
      reads this`partialCache, this`requiredPartials, this`Repr, Repr`genCache, Repr`lastSince
    {
      && (forall j :: 0 <= j < |requiredPartials| ==> requiredPartials[j].1.lastSince == Some(since))
      && forall j :: 0 <= j < |requiredPartials| && LastBelow(g, g[this].children, j) ==>
           requiredPartials[j].0 in partialCache && requiredPartials[j].1.genCache == partialCache[requiredPartials[j].0]
    }

    /** `_doGenerate(since)`: the cached output when something is cached and
        the node is not stale; otherwise the children are generated, their
        outputs collected, `genTime` renewed and the generation function run
        with the lock as it is. */
    method DoGenerate(since: Option<nat>, clock: Clock, ghost g: Graph<Partial>) returns (r: Value)
      requires Within(g) && generator.Some? && !partialLock
      requires forall x :: x in Repr - {this} ==> !x.rendering
      modifies Repr`partialCache, Repr`genCache, Repr`genTime, Repr`memoTime, Repr`memoVal, Repr`genRuns
      modifies (Repr - {this})`partialLock, (Repr - {this})`rendering, (Repr - {this})`lastSince, clock
      ensures r == genCache && ChildrenInRepr()
      ensures forall x :: x in Repr - {this} ==> !x.rendering
      ensures forall x :: x in Repr - {this} ==> x.lastSince == old(x.lastSince) || x.lastSince == Some(since)
      ensures old(clock.now) <= clock.now
      ensures !old(Regenerates(since, g)) ==>
        && r == old(genCache)
        && unchanged(Repr`partialCache, Repr`genCache, Repr`genTime, Repr`genRuns, clock)
        && unchanged((Repr - {this})`partialLock, (Repr - {this})`lastSince)
      ensures old(Regenerates(since, g)) ==> Regenerated(old(genRuns), old(clock.now), clock) && Collected(since, g)
      decreases Repr, 3
    {
      ChildrenWithin(this, g);
      var regen := genCache == False;
      if !regen {
        regen := NeedsUpdate(since, g);
      }
      if !regen {
        return genCache;
      }
      r := Regenerate(since, clock, g);
    }

    /** The regenerating branch of `_doGenerate`. */
    method Regenerate(since: Option<nat>, clock: Clock, ghost g: Graph<Partial>) returns (r: Value)
      requires Within(g) && generator.Some? && !partialLock
      requires forall x :: x in Repr - {this} ==> !x.rendering
      modifies Repr`partialCache, Repr`genCache, Repr`genTime, (Repr - {this})`memoTime, (Repr - {this})`memoVal, Repr`genRuns
      modifies (Repr - {this})`partialLock, (Repr - {this})`rendering, (Repr - {this})`lastSince, clock
      ensures r == genCache && ChildrenInRepr()
      ensures forall x :: x in Repr - {this} ==> !x.rendering
      ensures forall x :: x in Repr - {this} ==> x.lastSince == old(x.lastSince) || x.lastSince == Some(since)
      ensures old(clock.now) <= clock.now
      ensures Regenerated(old(genRuns), old(clock.now), clock) && Collected(since, g)
      decreases Repr, 2
    {
      ChildrenWithin(this, g);
      var contents := GenerateChildren(since, clock, g);
      r := StoreGeneration(contents, clock);
    }

    /** The end of a regeneration: the collected outputs are stored, `genTime`
        is renewed and the generation function runs. */
    method StoreGeneration(contents: map<string, Value>, clock: Clock) returns (r: Value)
      requires generator.Some?
      modifies this`partialCache, this`genTime, this`genRuns, this`genCache, clock
      ensures partialCache == contents && genTime == clock.now == old(clock.now) + 1 && genRuns == old(genRuns) + 1
      ensures r == genCache == Render(partialLock, contents)
    {
      partialCache := contents;
      genTime := clock.Tick();
      genRuns := genRuns + 1;
      genCache := Render(partialLock, partialCache);
      r := genCache;
    }

    /** The children loop of `_doGenerate`: every child is generated with
        `since`, in registration order, and its output stored under its name.
        A child's cached output can still change after it is collected when a
        later child has it below itself, so only the children below no later
        child are promised to hold the collected output. */
    method GenerateChildren(since: Option<nat>, clock: Clock, ghost g: Graph<Partial>)
      returns (contents: map<string, Value>)
      requires Within(g)
      requires forall x :: x in Repr - {this} ==> !x.rendering
      modifies (Repr - {this})`partialCache, (Repr - {this})`genCache, (Repr - {this})`genTime
      modifies (Repr - {this})`memoTime, (Repr - {this})`memoVal, (Repr - {this})`genRuns
      modifies (Repr - {this})`partialLock, (Repr - {this})`rendering, (Repr - {this})`lastSince, clock
      ensures forall n :: n in contents <==> n in Keys(requiredPartials)
      ensures forall j :: 0 <= j < |requiredPartials| && LastBelow(g, g[this].children, j) ==>
        requiredPartials[j].0 in contents && requiredPartials[j].1.genCache == contents[requiredPartials[j].0]
      ensures forall j :: 0 <= j < |requiredPartials| ==> requiredPartials[j].1.lastSince == Some(since)
      ensures forall x :: x in Repr - {this} ==> !x.rendering
      ensures forall x :: x in Repr - {this} ==> x.lastSince == old(x.lastSince) || x.lastSince == Some(since)
      ensures old(clock.now) <= clock.now
      decreases Repr, 1
    {
      ghost var cs := g[this].children;
      var rp := requiredPartials;
      ghost var outs: seq<Value> := [];
      contents := map[];
      for i := 0 to |rp|
        invariant |outs| == i && contents == Collect(rp[..i], outs)
        invariant forall j :: 0 <= j < i && LastBelow(g, cs, j) ==> rp[j].1.genCache == outs[j]
        invariant forall j :: 0 <= j < i ==> rp[j].1.lastSince == Some(since)
        invariant forall x :: x in Repr - {this} ==> !x.rendering
        invariant forall x :: x in Repr - {this} ==> x.lastSince == old(x.lastSince) || x.lastSince == Some(since)
        invariant old(clock.now) <= clock.now
      {
        var out := GenerateChild(i, since, clock, g, outs);
        CollectSnoc(rp, i, outs, out);
        contents := contents[rp[i].0 := out];
        outs := outs + [out];
      }
      assert rp[..|rp|] == rp;
      WiredNames(this, g);
      CollectNamed(rp, outs);
    }

    /** One step of the children loop: child `i` is generated, and what the
        loop knows of the outputs `outs` collected before it still holds with
        its output added. */
    method GenerateChild(i: nat, since: Option<nat>, clock: Clock, ghost g: Graph<Partial>, ghost outs: seq<Value>)
      returns (out: Value)
      requires Within(g) && i < |requiredPartials| && |outs| == i
      requires forall x :: x in Repr - {this} ==> !x.rendering
      requires forall j :: 0 <= j < i && LastBelow(g, g[this].children, j) ==> requiredPartials[j].1.genCache == outs[j]
      requires forall j :: 0 <= j < i ==> requiredPartials[j].1.lastSince == Some(since)
      modifies (Repr - {this})`partialCache, (Repr - {this})`genCache, (Repr - {this})`genTime
      modifies (Repr - {this})`memoTime, (Repr - {this})`memoVal, (Repr - {this})`genRuns
      modifies (Repr - {this})`partialLock, (Repr - {this})`rendering, (Repr - {this})`lastSince, clock
      ensures out == requiredPartials[i].1.genCache
      ensures forall j :: 0 <= j <= i && LastBelow(g, g[this].children, j) ==>
        requiredPartials[j].1.genCache == (outs + [out])[j]
      ensures forall j :: 0 <= j <= i ==> requiredPartials[j].1.lastSince == Some(since)
      ensures forall x :: x in Repr - {this} ==> !x.rendering
      ensures forall x :: x in Repr - {this} ==> x.lastSince == old(x.lastSince) || x.lastSince == Some(since)
      ensures old(clock.now) <= clock.now
      decreases Repr, 0
    {
      var c := requiredPartials[i].1;
      ChildWithin(this, g, i);
      out := c.Generate(since, clock, g);
      ChildrenWithin(this, g);
      forall j | 0 <= j < i && LastBelow(g, g[this].children, j)
        ensures requiredPartials[j].1.genCache == outs[j]
      {
        assert g[this].children[j] !in g[g[this].children[i]].below;
      }
    }

    /** `needsUpdate(since)`: `since` defaults to `genTime`; a memo for exactly
        that time is answered without recomputation, otherwise the verdict is
        recomputed and memoised. `g` is the shape of the graph. */
    method NeedsUpdate(since: Option<nat>, ghost g: Graph<Partial>) returns (r: bool)
      requires Within(g)
      modifies Repr`memoTime, Repr`memoVal
      ensures r == Verdict(g, old(Snapshot(g)), since.GetOr(genTime), this)
      ensures memoTime == Some(since.GetOr(genTime)) && memoVal == r
      ensures old(memoTime) == Some(since.GetOr(genTime)) ==> r == old(memoVal) && unchanged(Repr)
      ensures Refreshed(g, old(Snapshot(g)), Snapshot(g), since.GetOr(genTime), Repr)
      decreases Repr, 1
    {
      var t := since.GetOr(genTime);
      if memoTime == Some(t) {
        r := memoVal;
        MemoHit(g, Snapshot(g), t, this, Repr);
        return;
      }
      ghost var m0 := Snapshot(g);
      StoreMemo(Some(t), memoVal, g);
      ghost var m1 := Snapshot(g);
      ghost var asked;
      r, asked := RecalcNeedsUpdate(t, g);
      ghost var m2 := Snapshot(g);
      UnionPrefixBelow(g, this, asked);
      RefreshedWeaken(g, m1, m2, t, Union(g, g[this].children[..asked]), g[this].below - {this});
      StoreMemo(Some(t), r, g);
      MemoStep(g, m0, m1, m2, t, this, r);
    }

    /** Stores a memo pair on this node. */
    method StoreMemo(time: Option<nat>, verdict: bool, ghost g: Graph<Partial>)
      requires this in g
      modifies this`memoTime, this`memoVal
      ensures memoTime == time && memoVal == verdict
      ensures Snapshot(g) == old(Snapshot(g))[this := Memo(time, verdict)]
    {
      memoTime := time;
      memoVal := verdict;
    }

    /** `_recalcNeedsUpdate(t)`: true without asking the children when the node
        is locally stale; otherwise the children are asked in registration
        order until one answers true. `asked` is how many were asked: every
        one before the last answered false, and only the nodes below those
        children had their memos refreshed. */
    method RecalcNeedsUpdate(t: nat, ghost g: Graph<Partial>) returns (r: bool, ghost asked: nat)
      requires Within(g)
      modifies (Repr - {this})`memoTime, (Repr - {this})`memoVal
      ensures r == Recalc(g, old(Snapshot(g)), t, this)
      ensures localNeedsUpdate(t) ==> r && asked == 0 && Snapshot(g) == old(Snapshot(g))
      ensures asked <= |requiredPartials| && (!r ==> asked == |requiredPartials|)
      ensures !localNeedsUpdate(t) && r ==> 0 < asked
      ensures forall j :: 0 <= j < asked ==>
        ChildVerdict(g, old(Snapshot(g)), t, this, j) == (r && j == asked - 1)
      ensures Refreshed(g, old(Snapshot(g)), Snapshot(g), t, Union(g, g[this].children[..asked]))
      decreases Repr, 0
    {
      if localNeedsUpdate(t) {
        return true, 0;
      }
      ghost var m0 := Snapshot(g);
      ghost var cs := g[this].children;
      assert cs[..0] == [];
      RefreshedRefl(g, m0, t, {});
      var i := 0;
      while i < |requiredPartials|
        invariant 0 <= i <= |requiredPartials|
        invariant Refreshed(g, m0, Snapshot(g), t, Union(g, cs[..i]))
        invariant forall j :: 0 <= j < i ==> !ChildVerdict(g, m0, t, this, j)
      {
        var c := requiredPartials[i].1;
        ChildWithin(this, g, i);
        ghost var pre := Snapshot(g);
        var b := c.NeedsUpdate(Some(t), g);
        RecalcStep(g, m0, pre, Snapshot(g), t, this, i, b);
        if b {
          return true, i + 1;
        }
        i := i + 1;
      }
      return false, i;
    }

    /** `_clearNeedsUpdate()`: forgets the memoised time of this node and of
        every descendant. */
    method ClearNeedsUpdate(ghost g: Graph<Partial>)
      requires Within(g)
      modifies Repr`memoTime
      ensures forall x :: x in Repr ==> x.memoTime == None
      decreases Repr
    {
      memoTime := None;
      for i := 0 to |requiredPartials|
        invariant memoTime == None
        invariant forall j, x :: 0 <= j < i && x in requiredPartials[j].1.Repr ==> x.memoTime == None
      {
        ChildWithin(this, g, i);
        requiredPartials[i].1.ClearNeedsUpdate(g);
      }
      forall x | x in Repr && x != this
        ensures x.memoTime == None
      {
        assert NodeOk(g, this);
        var j := UnionIndex(g, g[this].children, x);
        ChildWithin(this, g, j);
      }
    }
  }

  /** `x` is in the shape as it is, and wired correctly. */
  ghost predicate Recorded(g: Graph<Partial>, x: Partial)
    reads x`requiredPartials, x`Repr
  {
    x in g && g[x] == x.Shape() && x.Wired()
  }

  /** Once `n` has been given the children of the attached shape `a` and its
      nodes as footprint, `n` and every node below it are valid. */
  lemma {:induction false} Rewired(n: Partial, p: Partial, h: Graph<Partial>, a: Graph<Partial>)
    requires Closed(h) && a == Attach(h, n, Values(n.requiredPartials), n.localNeedsUpdate)
    requires Closed(a) && n.Repr == a.Keys && n.Wired() && p in a
    requires forall y :: y in h && y != n ==> h[y] == y.Shape() && y.Wired()
    ensures n.Valid() && p.Valid() && n.Graph() == a
  {
    AttachAt(h, n, Values(n.requiredPartials), n.localNeedsUpdate);
    assert n.Graph() == a;
    forall y | y in n.Repr
      ensures Recorded(a, y)
    {
    }
    ValidBelow(n, a, p);
  }

  /** A node none of whose footprint has changed has the same shape and the
      same initialisation flags. */
  twostate lemma Untouched(p: Partial)
    requires p in old(p.Repr) && forall x :: x in old(p.Repr) ==> unchanged(x)
    ensures p.Graph() == old(p.Graph()) && InitSnapshot(p.Graph()) == old(InitSnapshot(p.Graph()))
  {
  }

  /** A node none of whose footprint has been rewired stays valid. */
  twostate lemma ShapeKept(n: Partial)
    requires old(n.Valid())
    requires n in old(n.Repr) && forall x :: x in old(n.Repr) ==> unchanged(x`requiredPartials, x`Repr)
    ensures n.Valid()
  {
  }

  /** Every node inside a shape is valid on its own. */
  lemma {:induction false} ValidBelow(n: Partial, g: Graph<Partial>, x: Partial)
    requires n.Within(g) && x in n.Repr
    ensures x.Valid()
  {
    assert Recorded(g, n);
    assert Recorded(g, x);
    BelowTrans(g, n, x);
    var r := x.Graph();
    forall y | y in x.Repr
      ensures y in g && r[y] == g[y]
    {
      assert Recorded(g, y);
    }
    forall y | y in r
      ensures NodeOk(r, y)
    {
      BelowTrans(g, x, y);
      NodeOkAgree(g, r, y);
    }
    assert NodeOk(g, x);
    forall y | y in x.Repr
      ensures Recorded(r, y)
    {
      assert Recorded(g, y);
    }
  }

  /** What registering `p` under `name` on `n` needs of the shapes `g` of `n`
      and `pg` of `p`: they merge into a closed shape in which no new child of
      `n` has `n` below it, so that attaching the new children to `n` keeps
      it closed; every new child has a generation function; and the nodes
      below the new children include those of `p` and are all recorded. */
  lemma {:induction false} WireFacts(n: Partial, p: Partial, name: string, g: Graph<Partial>, pg: Graph<Partial>)
    requires n.Within(g) && p.Within(pg) && g == n.Graph() && pg == p.Graph()
    requires n !in p.Repr && p.generator.Some?
    ensures var rp := Set(n.requiredPartials, name, p); var h := g + pg;
      && Closed(h) && Closed(Attach(h, n, Values(rp), n.localNeedsUpdate))
      && DistinctKeys(rp) && (forall i :: 0 <= i < |rp| ==> rp[i].1.generator.Some?)
      && p.Repr <= Union(h, Values(rp)) <= n.Repr + p.Repr
      && (name !in Keys(n.requiredPartials) ==> {n} + Union(h, Values(rp)) == n.Repr + p.Repr)
  {
    var rp := Set(n.requiredPartials, name, p);
    var h := g + pg;
    assert Agree(g, pg);
    MergeClosed(g, pg);
    WireChildren(n, p, name, g, pg);
    AttachClosed(h, n, Values(rp), n.localNeedsUpdate);
    var k := WireIndex(n, p, name, g, pg);
    UnionBounds(g, pg, Values(rp), k);
    assert g.Keys + pg.Keys == n.Repr + p.Repr;
    if name !in Keys(n.requiredPartials) {
      ValuesAppend(n.requiredPartials, (name, p));
      AppendBelow(g, pg, n, p);
      assert Recorded(g, n);
    }
  }

  /** The new children of `n` are recorded in the merged shape without `n`
      below them, and have generation functions; their names stay distinct. */
  lemma {:induction false} WireChildren(n: Partial, p: Partial, name: string, g: Graph<Partial>, pg: Graph<Partial>)
    requires n.Within(g) && p.Within(pg) && pg == p.Graph() && n !in p.Repr && p.generator.Some?
    ensures var rp := Set(n.requiredPartials, name, p);
      && DistinctKeys(rp)
      && forall i :: 0 <= i < |rp| ==> rp[i].1 in g + pg && n !in (g + pg)[rp[i].1].below && rp[i].1.generator.Some?
  {
    WiredNames(n, g);
    SetKeys(n.requiredPartials, name, p);
    var rp := Set(n.requiredPartials, name, p);
    forall i | 0 <= i < |rp|
      ensures rp[i].1 in g + pg && n !in (g + pg)[rp[i].1].below && rp[i].1.generator.Some?
    {
      WireChild(n, p, name, g, pg, i);
    }
  }

  /** One new child of `n`: `p` itself or a child `n` had before. */
  lemma {:induction false} WireChild(n: Partial, p: Partial, name: string, g: Graph<Partial>, pg: Graph<Partial>, i: nat)
    requires n.Within(g) && p.Within(pg) && pg == p.Graph() && n !in p.Repr && p.generator.Some?
    requires DistinctKeys(n.requiredPartials) && i < |Set(n.requiredPartials, name, p)|
    ensures var c := Set(n.requiredPartials, name, p)[i].1;
      c in g + pg && n !in (g + pg)[c].below && c.generator.Some?
  {
    var c := Set(n.requiredPartials, name, p)[i].1;
    SetEntry(n.requiredPartials, name, p, i);
    if c == p {
      assert Recorded(pg, p);
    } else {
      ChildWithin(n, g, i);
      if c in pg {
        assert Recorded(pg, c);
      }
    }
  }

  /** Every node of the merged shapes of `n` and `p` is recorded as it is,
      and wired correctly. */
  lemma {:induction false} RecordedMerge(n: Partial, p: Partial, g: Graph<Partial>, pg: Graph<Partial>)
    requires n.Within(g) && p.Within(pg) && g == n.Graph() && pg == p.Graph()
    ensures forall y :: y in g + pg ==> (g + pg)[y] == y.Shape() && y.Wired()
  {
    forall y | y in g + pg
      ensures (g + pg)[y] == y.Shape() && y.Wired()
    {
      if y in pg {
        assert Recorded(pg, y);
      } else {
        assert Recorded(g, y);
      }
    }
  }

  /** Where `p` sits among the new children of `n`. */
  lemma {:induction false} WireIndex(n: Partial, p: Partial, name: string, g: Graph<Partial>, pg: Graph<Partial>)
    returns (k: nat)
    requires n.Within(g) && p.Within(pg)
    ensures var rp := Set(n.requiredPartials, name, p);
      k < |rp| && Values(rp)[k] == p && p in pg
  {
    assert Recorded(g, n);
    assert Recorded(pg, p);
    SetThenGet(n.requiredPartials, name, p, name);
    var rp := Set(n.requiredPartials, name, p);
    k :| 0 <= k < |rp| && rp[k] == (name, p);
  }

  /** A child of a node inside a shape is inside it too, strictly below the
      node. */
  lemma {:induction false} ChildWithin(n: Partial, g: Graph<Partial>, i: int)
    requires n.Within(g) && 0 <= i < |n.requiredPartials|
    ensures var c := n.requiredPartials[i].1;
      && c.Within(g) && c in n.Repr && c.Repr <= n.Repr - {n} && c.Repr < n.Repr
      && c == g[n].children[i] && g[c].below == c.Repr && c.generator.Some?
  {
    var c := n.requiredPartials[i].1;
    assert Recorded(g, n);
    assert NodeOk(g, n);
    assert c == g[n].children[i];
    assert NodeOk(g, c);
    UnionContains(g, g[n].children, i);
    assert Recorded(g, c);
  }

  /** No child registered after the `j`-th of `cs` has the `j`-th below it. */
  ghost predicate LastBelow(g: Graph<Partial>, cs: seq<Partial>, j: int)
    requires 0 <= j < |cs|
  {
    forall k :: j < k < |cs| && cs[k] in g ==> cs[j] !in g[cs[k]].below
  }

  /** The registration names of a node inside a shape are distinct. */
  lemma {:induction false} WiredNames(n: Partial, g: Graph<Partial>)
    requires n.Within(g)
    ensures DistinctKeys(n.requiredPartials)
  {
    assert Recorded(g, n);
  }

  /** The children of a node inside a shape are in its footprint. */
  lemma {:induction false} ChildrenWithin(n: Partial, g: Graph<Partial>)
    requires n.Within(g)
    ensures n.ChildrenInRepr()
  {
    forall j | 0 <= j < |n.requiredPartials|
      ensures n.requiredPartials[j].1 in n.Repr - {n}
    {
      ChildWithin(n, g, j);
    }
  }

  /** Once the memos at and below `n` are forgotten, as every `generate` leaves
      them, whether the next `_doGenerate(since)` regenerates follows the
      reference meaning of staleness: nothing is cached, or some node at or
      below `n` is locally stale at `since`, or at `genTime` when `since` is
      absent. */
  lemma {:induction false} RegeneratesWhenCleared(n: Partial, since: Option<nat>, g: Graph<Partial>)
    requires n.Within(g) && forall x :: x in n.Repr ==> x.memoTime == None
    ensures n.Regenerates(since, g) <==> n.genCache == False || StaleAt(g, n, since.GetOr(n.genTime))
  {
    var m := Snapshot(g);
    ClearedIsCoherent(g, m, g[n].below);
    VerdictOfCoherent(g, m, since.GetOr(n.genTime), n);
  }
}
