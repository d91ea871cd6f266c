# Partial.js engine in Dafny

This project models the `Partial` engine of Partial.js. A `Partial` is a node in
a dependency graph. It caches the output of its generation function
(`_generate`) and regenerates only when nothing is cached or when the node or
one of its descendants reports that it is stale. The files are:

- `outcomes.dfy` (module `Outcomes`): `Option`, `Result` and `Outcome`, and the
  three errors of the engine: the `TypeError` of `requires`, the locked-accessor
  error and the unknown-partial error of `partial`.
- `ordered_map.dfy` (module `OrderedMaps`): the insertion-ordered JavaScript
  `Map` of registered children, as a sequence of `(name, node)` entries. It has
  `get` and `set`, and a `set` on an existing name keeps that name's position.
  It also has the map of child outputs that a regeneration collects.
- `staleness.dfy` (module `Staleness`): the staleness query as pure functions
  over a snapshot of the graph's shape and of every node's memo pair:
  - `Verdict` is `needsUpdate`;
  - `Recalc` is `_recalcNeedsUpdate`;
  - `StaleAt` is the reference meaning ("some node at or below is locally
    stale").

  The lemmas relate the three, and describe how the memos change.
- `initialisation.dfy` (module `Initialisation`): `init`/`_doInit` as a pure
  function over every node's initialisation flags, and its closed form.
- `wiring.dfy` (module `Wiring`): changes to a shape snapshot when `requires`
  gives a node a new list of children.
- `partial.dfy` (module `PartialEngine`): the class `Partial` with the fields
  of the JavaScript object. Its methods change those fields step by step, as
  the source does. A `Clock` stands for `new Date()`.

Every operation runs to completion before the next one starts. Each `yield`
of the source is treated as a synchronous call. A ghost footprint `Repr` (the
node and every node below it) and a shape snapshot `g` (each node's children,
footprint and local predicate) make the recursion over the graph terminate. The
class invariant `Valid()` says the graph below a node is acyclic, as the source
assumes without checking it.

## Model

| member | source | states |
|---|---|---|
| OrderedMaps.Get | Partial.js:98 | `get(name)` is absent exactly when no entry has that name; otherwise it is the value of an entry with that name |
| OrderedMaps.Set | Partial.js:32 | `set` on a new name appends the entry at the end; on an existing name it replaces that entry's value in place and leaves every other entry as it was |
| OrderedMaps.SetKeys | Partial.js:32 | after `set`, the names stay distinct, keep their order, and a new name comes last |
| OrderedMaps.SetThenGet | Partial.js:32 | after `set(k, v)`, `get(k)` is `v` and every other name reads as before |
| OrderedMaps.SetEntry | Partial.js:32 | every entry after `set` is the new entry or the old entry at the same position |
| OrderedMaps.Collect | Partial.js:96-100 | defines the `new Map()` of child outputs: entry by entry in registration order, the entry's name is set to the output paired with it; its keys and values are stated by `CollectKeys`, `CollectAt` and `CollectNamed` |
| OrderedMaps.CollectKeys | Partial.js:96-100 | a name is a key of the collected outputs exactly when it is a registration name |
| OrderedMaps.CollectAt | Partial.js:99 | with distinct names, the output produced for an entry is stored under that entry's name |
| OrderedMaps.CollectNamed | Partial.js:96-100 | the map of collected outputs has exactly the registration names as keys, and each name maps to the output produced for its entry |
| Staleness.Verdict | Partial.js:108-116 | defines the answer of `needsUpdate(t)` over a memo snapshot: the memoised verdict when the memo holds exactly `t`, otherwise `Recalc`; `VerdictOfCoherent` proves it equal to `StaleAt` when the memos are coherent |
| Staleness.Recalc | Partial.js:127-136 | defines the answer of `_recalcNeedsUpdate(t)`: locally stale, or some child's `needsUpdate(t)` is true |
| Staleness.ChildVerdict | Partial.js:132-133 | defines the answer of the `i`-th registered child to `needsUpdate(t)` |
| Staleness.StaleAtUnfold | Partial.js:127-136 | a node is stale exactly when it is locally stale or one of its children is stale |
| Staleness.VerdictOfCoherent | Partial.js:108-136 | when every memo below a node holds its true staleness, `needsUpdate(t)` answers exactly whether some node at or below it is locally stale at `t` |
| Staleness.MemoHit | Partial.js:113 | a memo for exactly `t` is the answer, no memo changes, and with coherent memos it is the true staleness |
| Staleness.MemoStep | Partial.js:113-115 | the miss path stores `t` first, then recomputes and stores the verdict; the answer is the verdict of the memos the call started from, and the memos below change only by memoising verdicts for `t` |
| Staleness.RecalcStep | Partial.js:132-134 | asking the `i`-th child gives that child's verdict, and memo changes grow only by the nodes below that child |
| Staleness.VerdictKept | Partial.js:113-115 | memoising verdicts for `t` does not change the answer of any later `needsUpdate(t)` |
| Staleness.RefreshKeepsCoherent | Partial.js:114-115 | memoising true verdicts keeps every memo equal to the node's true staleness |
| Staleness.ClearedIsCoherent | Partial.js:118-125 | forgotten memos are coherent |
| Staleness.NeverStale | Partial.js:47-49 | the default `_needsUpdate` answers false at every time |
| Staleness.DefaultLeafNeverStale | Partial.js:127-136 | a node with no children whose local predicate is the default `_needsUpdate` (`NeverStale`, always false) recalculates as not stale, and is not stale |
| Staleness.StaleLeafMakesAncestorsStale | Partial.js:127-136 | a locally stale node makes `needsUpdate(t)` true on every ancestor whose memos are coherent |
| Initialisation.InitRun | Partial.js:53-59 | `init` keeps the set of nodes and never unsets `_hasInit` |
| Initialisation.InitChildren | Partial.js:65 | initialising the children in order keeps the set of nodes and never unsets `_hasInit` |
| Initialisation.InitAll | Partial.js:53-66 | the closed form of `init`: the set of nodes is kept, every node of the given set ends initialised with one more run of `_init` exactly when it was not initialised, and every other node keeps its flags |
| Initialisation.InitRunIdempotent | Partial.js:53-59 | a second `init` changes nothing |
| Initialisation.InitRunAll | Partial.js:53-66 | with nothing in flight and the flags closed below, `init` on a node initialises exactly the nodes below it that were not initialised, with one more run of each one's `_init`, and leaves none in flight |
| Initialisation.InitRunKeepsQuietClosed | Partial.js:53-66 | `init` keeps the hypotheses of `InitRunAll`: on any set holding every node below the initialised node, nothing is left in flight and every initialised node still has every node below it initialised |
| Initialisation.InitRunEffect | Partial.js:53-66 | per node: every node below ends initialised and not in flight, its `_init` ran once more exactly when it was not initialised before, and nodes elsewhere keep their flags |
| Wiring.AttachClosed | Partial.js:32 | giving a node children none of which has the node below it keeps the graph acyclic |
| Wiring.AttachAt | Partial.js:32 | the new shape records the node with its new children over exactly the nodes at or below them, and every other node unchanged |
| PartialEngine.PartialLookup | Partial.js:41-45 | the lookup behind `partial(name)`: the lock error exactly when locked, the unknown-partial error exactly when unlocked and `name` was not collected, and the output collected for `name` otherwise |
| PartialEngine.Clock.Tick | Partial.js:103 | every reading of the clock is new and larger than every earlier one |
| PartialEngine.Partial.constructor | Partial.js:14-27 | a new node has no children and no collected outputs, the lock set, nothing cached, `genTime` a new reading of the clock, no rendering, no initialisation and no memo |
| PartialEngine.Partial.Requires | Partial.js:29-39 | a dependency without a generation function gives `TypeError` and changes nothing; otherwise `name` is set to it in the ordered map of children, the graph stays acyclic, and when this node is initialised the dependency's flags become what `init` gives |
| PartialEngine.Partial.Register | Partial.js:32 | the children become `set(children, name, p)`; both nodes stay valid; the footprint gains the nodes below `p`, and is exactly the old one plus `p`'s for a new name |
| PartialEngine.Partial.InitRequired | Partial.js:33-36 | when this node is initialised, the dependency's flags become what `init` gives; otherwise no flag changes |
| PartialEngine.Partial.PartialOutput | Partial.js:41-45 | `partial(name)` fails with the lock error exactly when the lock is set, with the unknown-partial error exactly when it is not set and `name` was not collected, and returns the output collected for `name` when it is not locked and `name` was collected |
| PartialEngine.Partial.Render | Partial.js:105 | defines the call `_generate()`: the node's generation function applied to the `partial(name)` of the given lock flag and outputs; `StoreGeneration` applies it with the lock released to the collected outputs |
| PartialEngine.Partial.Init | Partial.js:53-59 | the new initialisation flags of every node are those `InitRun` gives |
| PartialEngine.Partial.DoInit | Partial.js:61-66 | `_init` ran once more, this node is initialised, and the children are initialised in registration order |
| PartialEngine.Partial.StoreInit | Partial.js:56-58 | the node's flags are stored, and only its own entry of the flag snapshot changes |
| PartialEngine.Partial.Generate | Partial.js:68-86 | the result is the cached output; afterwards the lock is set, no node below is rendering, and every memo below is forgotten; without regeneration the cached output, `genTime` and collected outputs of every node at or below, and the clock, are as before; with regeneration the properties of `Regenerated` and `Collected` hold |
| PartialEngine.Partial.StoreRendering | Partial.js:78-83 | the lock flag and the rendering mark are stored |
| PartialEngine.Partial.Finish | Partial.js:82-84 | the lock is set again, the rendering mark is cleared, and every memo at or below the node is forgotten |
| PartialEngine.Partial.Regenerates | Partial.js:89 | defines the test `regen` of `_doGenerate`: nothing is cached, or `needsUpdate(since)` is true over the current memos; `DoGenerate` and `Generate` branch on it, and `RegeneratesWhenCleared` states it in terms of `StaleAt` |
| PartialEngine.Partial.DoGenerate | Partial.js:88-106 | regenerates exactly when nothing is cached or `needsUpdate(since)` is true; on a hit it returns the cached output and leaves the children, `genTime` and the collected outputs untouched |
| PartialEngine.Partial.Regenerate | Partial.js:95-105 | every child is generated with the same `since`; the outputs, keyed by registration name, replace the collected outputs; `genTime` becomes a new clock reading and the cache becomes the generation function's result |
| PartialEngine.Partial.GenerateChildren | Partial.js:96-100 | the collected outputs have exactly the registration names as keys; every child has been generated with `since`, and a child below no later child holds the output collected under its name |
| PartialEngine.Partial.GenerateChild | Partial.js:98-99 | the output is the child's cached output after its `generate(since)`, and what was known of the children before it still holds |
| PartialEngine.Partial.StoreGeneration | Partial.js:102-105 | the outputs are stored, `genTime` is a new clock reading, and the cache is the generation function applied to those outputs |
| PartialEngine.Partial.NeedsUpdate | Partial.js:108-116 | the answer is the `needsUpdate` verdict for `since`, or for `genTime` when `since` is absent; a memo for exactly that time is returned with nothing changed; otherwise the new time and verdict are memoised, and memos below change only by memoising verdicts for the same time |
| PartialEngine.Partial.StoreMemo | Partial.js:114-115 | the memo pair is stored, and only the node's own entry of the memo snapshot changes |
| PartialEngine.Partial.RecalcNeedsUpdate | Partial.js:127-136 | true without asking the children when locally stale; otherwise the children are asked in registration order, the answer is true exactly when some child answers true, every child asked before the last answered false, and the asking stops at the first true |
| PartialEngine.Partial.ClearNeedsUpdate | Partial.js:118-125 | the memoised time of the node and of every descendant is forgotten |
| PartialEngine.RegeneratesWhenCleared | Partial.js:89 | once the memos at and below a node are forgotten, as every `generate` leaves them, the next `_doGenerate(since)` regenerates exactly when nothing is cached or some node at or below is locally stale at `since` (or at `genTime`) |

## Left out

- EJSPartial.js is not part of this model. Its `_init` reads files and compiles templates through an external library, and its `_generate` wraps the compiled template. They appear here only as the abstract hooks: `generator` for `_generate`, and a ghost run counter for `_init`.
- test.js is not part of this model: it only configures a subclass.
- Promise and `co` scheduling and interleaved callers are not modelled. Every operation runs to completion. Waiting on `_initPromise` (Partial.js:34, 70, 110) is therefore a no-op, and child generation and child initialisation (which the source runs in parallel) run one after the other in registration order.
- PartialEngine.Partial.Generate: requires that no node at or below is rendering, so the single-flight hold on `_renderPromise` (Partial.js:73-76) is not modelled. The hold matters for concurrent callers, and also inside one `generate`. `_doGenerate` starts every child's `generate` before waiting on any (Partial.js:97-99), and `co` runs each one up to its first `yield`. In a diamond, the second parent to reach a shared descendant therefore finds it rendering and joins that render. The model generates the descendant again instead (see `GenerateChildren` below).
- PartialEngine.Partial.Generate: requires a generation function on the node itself. On a bare `Partial` without `_generate`, the source fails at Partial.js:105 with an error that the model does not represent.
- Rejected promises (an `_init` or `_generate` that throws) are not modelled. The hooks are total.
- The `debug` logging, the `setImmediate` shim and the `partialId` counter have no effect on behaviour and are left out.
- Time: a `Date` is a reading of a `Clock` counter. Fresh readings are always distinct. The memo check `_needsUpdateCacheTime === since` (Partial.js:113) compares `Date` objects by reference in the source, and here it compares times by value. The two differ only when a caller passes two different `Date` objects for the same instant.
- `_needsUpdateCacheVal` starts as `null` in the source and as `false` here. It is never read before a time has been memoised.
- PartialEngine.Partial.Requires: requires that the new child `p` does not have this node below it, so cycles are excluded, and that both nodes are valid. The source checks neither.
- PartialEngine.Partial.Requires: only this node's own footprint is updated. An ancestor that already has this node below it keeps its old footprint and is no longer valid. The model therefore covers graphs built bottom-up, where a node's dependencies are registered before the node itself is registered.
- PartialEngine.Partial.Register: when an existing name is overwritten, the new footprint is only bounded between `p`'s footprint and the old footprint plus `p`'s. The dropped child's nodes stay only if another child still has them below.
- PartialEngine.Partial.Requires: does not forget this node's memo, as the source does not. A memo taken before the new child was registered can still answer a later `needsUpdate` for the same time, so coherence with `StaleAt` is promised only once the memos are forgotten (PartialEngine.RegeneratesWhenCleared).
- PartialEngine.Partial.GenerateChildren: the output collected for a child is promised to equal that child's final cached output only when no later child has it below itself. Because the children run one after the other, a later child's `generate` may regenerate a shared descendant again. When the descendant reports stale, its `genRuns` and `genTime` advance a second time, where the source would join the render already in flight (Partial.js:73-76).
- The local predicate `_needsUpdate` is `localNeedsUpdate`, a constant of each node and a fixed function of the time. It cannot read the node's state or the outside world. This loses a behaviour of Partial.js: a memo survives until the next `generate` clears it (Partial.js:84, 113-115). So `needsUpdate()`, then a change to the resource behind `_needsUpdate`, then `generate()` answers from the memo, because `since` falls back to the same `genTime` (Partial.js:111, 113), and returns the stale output. In the model a recomputation always agrees with the memo. `VerdictOfCoherent` and `RefreshKeepsCoherent` therefore say nothing about memos outliving such a change.
- Initialisation.InitRun and PartialEngine.Partial.Init: the `_init` hook is only a run counter and cannot change the graph. A hook that registers dependencies, as EJSPartial.js:13-28 does with `yield this.requires(...)` while `_hasInit` is still false, is outside the model. In the source those children are initialised by Partial.js:65, because `_hasInit` is set at line 64 before the children are read. Graphs built this way, top down during `init`, are not covered. Only graphs registered bottom up before `init` are (see `Requires` above).
- Initialisation.InitRunAll and Initialisation.InitRunEffect: their hypotheses (nothing in flight, and the flags closed below every initialised node) are proved to be kept by `init` (`InitRunKeepsQuietClosed`), and they hold for a new node. They are not proved to be kept by `requires` or stated as part of `Valid()`, so callers of the two lemmas supply them.
- The ghost shape `g` passed to the recursive methods stands for the graph that the source walks implicitly. It changes only in `requires`.
