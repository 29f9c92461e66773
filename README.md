# Hierarchical event emitters — a Dafny model

This project models the dispatch core of a namespaced, hierarchical
publish/subscribe library. Listeners are registered per *target* and per
*event name*. An emission calls the target's listeners and then bubbles up
through the target's parents (`emit`) or down through its children
(`broadcast`). The library ships three revisions of this engine that share
one storage design:

- `HierarchyEventEmitter`: one emitter per namespace. Snapshots are
  de-duplicated. The "had listeners" flag is per event name. It warns once
  per name when a name collects too many listeners, and it throws when a
  strict target emits `'error'` and nobody hears it.
- `TargetEventEmitter`: one emitter per namespace. Snapshots are
  de-duplicated. One flag is shared by every name of an emission, and
  recursive results never set it. `emit` answers nothing.
- `GlobalEventEmitter`: a new instance on every construction. Instances
  built with the same namespace key share one store. Snapshots are plain
  copies (a listener added twice runs twice). Bubbling reaches every member
  of the next tier.

The event descriptors (`Event`, `EmitterEvent` and the listener and
hierarchy events) are modelled too, because dispatch reads their `stopped`
and `bubbling` flags.

Layout, one Dafny module per file:

- `seqs.dfy` (`Seqs`): the lodash helpers `pull`, `uniq` and `flatten` as
  sequence functions, with their laws.
- `store.dfy` (`Store`): the per-namespace store. A target maps to an
  insertion-ordered table from name to array. The reserved names `Parents`
  and `Children` hold the hierarchy edges. Lookups auto-create arrays.
- `events.dfy` (`Events`): the `Event` class and its flavours.
- `dispatch.dfy` (`Dispatch`):
  - the reading of the first argument: `getStoppedFunc` and the `bubbling`
    default;
  - the listener loop over a snapshot;
  - the snapshot `listeners(t, n)` takes in each revision;
  - meta-event delivery;
  - the asynchronous loop.
- `lifecycle.dfy` (`Lifecycle`): the store-changing operations of all three
  revisions, specified as functions over a `World`. A `World` holds the
  store, the trace of listener calls and the leak-warning log. The
  operations are registration, removal, edges and `removeAllListeners`,
  each followed by its meta-events. This file also holds the leak warning.
- `hierarchy_dispatch.dfy`, `target_dispatch.dfy`, `global_dispatch.dfy`:
  each revision's synchronous `emit` as specification functions, with the
  lemmas that state what it promises.
- `hierarchy.dfy`, `target.dfy`, `global.dfy`: the classes themselves. Their
  methods update the store in place, with loops proved against the
  specification functions.

Listeners are opaque identities (`Ref = nat`). What a listener does to the
descriptor is a parameter `Behaviour`: the sets of listeners that call
`cancelEvent()` or `stopBubbling()`, and each listener's parameter count.
Every invocation is appended to a trace of `Call(target, name, listener)`.
`console.warn` appends to a `Log`. Termination of bubbling rests on a ghost
rank that strictly decreases along every `Parents` edge, so the model only
bubbles through stores without any cycle.

Where the code and its documentation comments disagree, the model follows
the code:

- `HierarchyEventEmitter.removeListener` announces each removal under the
  *new*-listener symbol (plus `'removeListener'` for Node-style targets).
  It does not use the remove-listener symbol.
- `removeAllListeners(t, name)` tests `!!eventName` the wrong way round. A
  truthy name empties *every* array of `t`, the edge arrays included, and
  leaves the mirror entries on the neighbours. The empty name empties only
  the array under it. Because each array is emptied before it is iterated,
  no remove meta-event is ever emitted.
- In `TargetEventEmitter` and `GlobalEventEmitter`, `emit`/`broadcast`
  return `this` of a module-level function, which is `undefined`, so no
  result is returned. For the same reason, a recursive `emit` never sets
  the caller's `hasListeners` flag.
- In all three revisions, the hierarchy step of `emitAsync` iterates
  `$private.get(emitter, NEXT, [])`. Nothing in the library writes that
  slot, so asynchronous emission never bubbles. Its result is whether some
  name had a non-empty snapshot on the target.
- `listenerCount(t)` without a name, in the hierarchy and target
  revisions, adds up the parameter counts of the distinct listeners. In the
  global revision it adds up the lengths of all of the target's arrays,
  the edge arrays included.

## Model

| member | source | states |
|---|---|---|
| Events.Event.constructor | src/event.mjs:4-9 | a new event is not stopped; `bubbling` is the option, true by default; `target` is the option |
| Events.Event.Emitter | src/event.mjs:32-37 | an emitter event is not stopped and its `bubbling` defaults to false |
| Events.Event.ListenerEvent | src/event.mjs:39-52 | a listener event defaults to not bubbling and carries the listener it was given |
| Events.Event.HierarchyEvent | src/event.mjs:54-74 | a hierarchy event defaults to not bubbling and carries the parent and child it was given |
| Events.Event.CancelEvent | src/event.mjs:11-13 | afterwards the event is stopped; only `stopped` may change |
| Events.Event.StopBubbling | src/event.mjs:15-17 | afterwards the event does not bubble; only `bubbling` may change |
| Dispatch.Apply | src/event.mjs:3-30 | a listener's effect never clears `stopped` or restores `bubbling`; the event is stopped afterwards iff it was or the listener cancels it; it bubbles iff it did and the listener does not stop it |
| Dispatch.RunBody | src/event.mjs:11-17 | running a listener body changes the descriptor exactly as `Apply` says |
| Seqs.Pull | src/hierarchyEventEmitter.mjs:475 | `pull` removes every occurrence of the given values and keeps the multiplicity of everything else |
| Seqs.PullTwice | src/hierarchyEventEmitter.mjs:475 | pulling the same values twice is the same as pulling them once |
| Seqs.Uniq | src/hierarchyEventEmitter.mjs:344-346 | `uniq` has no duplicates, the same members and is no longer than its input |
| Seqs.UniqFirstOccurrenceOrder | src/hierarchyEventEmitter.mjs:344-346 | `uniq` keeps members in the order of their first occurrence |
| Seqs.UniqOfDistinct | src/hierarchyEventEmitter.mjs:344-346 | `uniq` of a sequence without duplicates is that sequence |
| Seqs.Flatten | src/hierarchyEventEmitter.mjs:343 | `flatten` has the summed length and holds exactly the members of the parts |
| Store.Touch | src/hierarchyEventEmitter.mjs:42-46 | a lookup adds the name to the target's names (appended, if new) and changes no array |
| Store.Push | src/hierarchyEventEmitter.mjs:386 | `push` appends to that one array and leaves every other array unchanged |
| Store.Unshift | src/hierarchyEventEmitter.mjs:512 | `unshift` inserts at the head of that one array and leaves every other array unchanged |
| Store.PullFrom | src/hierarchyEventEmitter.mjs:475 | `pull` on an array after its lookup removes the values from that array only |
| Dispatch.Snapshot | src/hierarchyEventEmitter.mjs:342-346 | a snapshot holds exactly the registered listeners (all of the target's for a falsy name in the de-duplicating revisions) and has no duplicates when de-duplicated |
| Dispatch.Lookup | src/hierarchyEventEmitter.mjs:42-46 | the lookup before a snapshot never changes an existing array |
| Dispatch.AllListsCover | src/hierarchyEventEmitter.mjs:343 | the flattened arrays of a target hold exactly the listeners registered under some name |
| Dispatch.RunLocal | src/hierarchyEventEmitter.mjs:68-73 | the listener loop calls only listeners of the snapshot, on the target under the name; the flag ends true iff it was or something ran; the descriptor only moves forward |
| Dispatch.RunLocalWhenStopped | src/hierarchyEventEmitter.mjs:69 | once the event is stopped no listener runs |
| Dispatch.RunLocalRunsAll | src/hierarchyEventEmitter.mjs:52-57 | with a non-object first argument, or an object not stopped whose listeners never cancel, nothing stops, so every snapshot entry is called in order |
| Dispatch.RunLocalOnce | src/hierarchyEventEmitter.mjs:68-73 | a loop over a snapshot without duplicates never calls the same listener twice |
| Dispatch.LocalStep | src/hierarchyEventEmitter.mjs:66-73 | one name's local loop calls registered listeners only, all on the target under that name, and sets the flag iff something ran |
| Dispatch.LocalStepRunsAll | src/hierarchyEventEmitter.mjs:68-73 | when nothing can stop the event, one name's local loop calls the whole snapshot and the event still cannot be stopped |
| Dispatch.FalsyNameCallsEdgeMember | src/hierarchyEventEmitter.mjs:343 | for a falsy name in the de-duplicating revisions, every parent or child target of the target is called in the local step as if it were a listener |
| Dispatch.LocalStepOnce | src/hierarchyEventEmitter.mjs:68 | with de-duplication, a name's local loop calls each listener at most once |
| Dispatch.LocalStepRuns | src/hierarchyEventEmitter.mjs:68-73 | a non-empty snapshot on an event not yet stopped runs a listener |
| Dispatch.LocalStepIgnoresFlag | src/targetEventEmitter.mjs:64-70 | the incoming flag affects nothing but the outgoing flag |
| Dispatch.RunListeners | src/hierarchyEventEmitter.mjs:68-73 | the loop method calls, flags and changes the descriptor exactly as `RunLocal` specifies |
| Dispatch.TouchNames | src/hierarchyEventEmitter.mjs:347 | looking up a list of names adds each of them to the target's names and changes no array |
| Dispatch.Copies | src/hierarchyEventEmitter.mjs:347 | `listeners(t, [names])` is one copy of the array per name, in order |
| Dispatch.Notify | src/hierarchyEventEmitter.mjs:387 | a meta-event's delivery calls registered listeners only, all on the target under a meta name |
| Dispatch.AsyncNames | src/hierarchyEventEmitter.mjs:86-114 | the asynchronous loop changes no array |
| Dispatch.AsyncNamesFacts | src/hierarchyEventEmitter.mjs:86-114 | `emitAsync` calls listeners on the target only; without a throw it answers true iff some name has a listener, even if none ran; it throws only on a strict target emitting `'error'` |
| Dispatch.HeardStep | src/hierarchyEventEmitter.mjs:95-97 | some name is heard iff the first name's snapshot is non-empty or a later name is heard |
| HierarchyDispatch.HEmit | src/hierarchyEventEmitter.mjs:59-84 | an emission changes no array |
| HierarchyDispatch.HNameFacts | src/hierarchyEventEmitter.mjs:66-82 | one name calls registered listeners only, under that name; it fires iff something ran; without bubbling, only on the target; only `'error'` throws |
| HierarchyDispatch.HNameFactsBubbling | src/hierarchyEventEmitter.mjs:74-78 | the same facts when the next tier is reached |
| HierarchyDispatch.HNextFacts | src/hierarchyEventEmitter.mjs:74-77 | the hierarchy step calls registered listeners under the name only and fires iff something ran |
| HierarchyDispatch.HBubbleFacts | src/hierarchyEventEmitter.mjs:74-77 | the neighbour loop ends with the flag true iff it was or something ran; only `'error'` throws |
| HierarchyDispatch.HBubbleShortCircuits | src/hierarchyEventEmitter.mjs:75 | once `_hasListeners` is true no neighbour is emitted to |
| HierarchyDispatch.HBubbleStep | src/hierarchyEventEmitter.mjs:74-77 | a neighbour is skipped when the flag is set, else its emission runs and the loop goes on with the flag it returns |
| HierarchyDispatch.HNamesFacts | src/hierarchyEventEmitter.mjs:59-84 | `emit` answers true iff some listener ran here or up the hierarchy; every call is under a given name; a non-bubbling event reaches only the target; only `'error'` throws |
| HierarchyDispatch.HEmitOneName | src/hierarchyEventEmitter.mjs:66-82 | an emission of one name is that name's step |
| HierarchyDispatch.HNameOnce | src/hierarchyEventEmitter.mjs:68-77 | within one name, no listener of any target is called twice |
| HierarchyDispatch.HBubbleOnce | src/hierarchyEventEmitter.mjs:74-77 | the neighbour loop started with a false flag calls no listener twice |
| HierarchyDispatch.HLocalListenersFirst | src/hierarchyEventEmitter.mjs:68-77 | when the target's own listeners run, the result is true and the hierarchy is not consulted |
| HierarchyDispatch.HErrorIsHeard | src/hierarchyEventEmitter.mjs:79-81 | on a strict target, an emission of `'error'` that does not throw called some `'error'` listener |
| HierarchyDispatch.HNameErrorHeard | src/hierarchyEventEmitter.mjs:79-81 | a strict target's `'error'` step either throws or starts with an `'error'` call |
| HierarchyDispatch.HNamesNotBubbling | src/hierarchyEventEmitter.mjs:74 | a non-bubbling emission of names other than `'error'` is plain local delivery |
| Lifecycle.MetaEmit | src/hierarchyEventEmitter.mjs:162 | a meta-event emit changes no array and calls listeners on the target under the meta names only |
| Lifecycle.Announce | src/hierarchyEventEmitter.mjs:387 | one meta-event per listener argument, heard on the target only; the log is untouched |
| Lifecycle.MetaEmitCalls | src/hierarchyEventEmitter.mjs:456 | a meta-event whose name has a listener on the target makes at least one call |
| Lifecycle.LeakCheck | src/hierarchyEventEmitter.mjs:388-394 | the leak check only appends to the warned set and the console |
| Lifecycle.LeakCheckWarnsOnce | src/hierarchyEventEmitter.mjs:388-394 | a name already warned about is not logged again; a new line is for a new name whose count exceeds the threshold; one line per name is kept |
| Lifecycle.Insert | src/hierarchyEventEmitter.mjs:386 | insertion puts the listeners, in call-site order, at the tail (`on`) or head (`prependListener`) of that array only |
| Lifecycle.RegisterName | src/hierarchyEventEmitter.mjs:385-395 | one name of `on`: the array gets the listeners, meta-events are heard on the target only, then the leak check runs with the new count |
| Lifecycle.Register | src/hierarchyEventEmitter.mjs:381-397 | registration only grows the store, and its meta-events are heard on the target only |
| Lifecycle.RegisterLists | src/hierarchyEventEmitter.mjs:385-386 | after registration, each named array holds one copy of the listeners per time the name was given, at its tail or head; every other array is unchanged |
| Lifecycle.RegisterWarnsOnce | src/hierarchyEventEmitter.mjs:388-394 | over a registration the log keeps one line per name; each new line is for a given name, not warned before, with a count over the threshold |
| Lifecycle.RegisterOneNameWarns | src/hierarchyEventEmitter.mjs:388-394 | one truthy name warns exactly when it is new and its de-duplicated array, after insertion, exceeds the threshold |
| Lifecycle.UnregisterName | src/hierarchyEventEmitter.mjs:474-477 | one name of `removeListener` pulls the listeners from that array only and announces each listener |
| Lifecycle.Unregister | src/hierarchyEventEmitter.mjs:470-479 | removal leaves the log alone, and its meta-events are heard on the target only |
| Lifecycle.UnregisterLists | src/hierarchyEventEmitter.mjs:474-476 | after removal, no given listener is left under a given name; the rest keeps its order; other arrays are unchanged |
| Lifecycle.UnregisterUndoesRegister | src/hierarchyEventEmitter.mjs:470-479 | `removeListener` undoes `on`/`prependListener` with the same names and listeners when those were not registered before |
| Lifecycle.RemoveAll | src/hierarchyEventEmitter.mjs:428-442 | a truthy name empties every array of the target; the empty name empties only its own; nothing else changes |
| Lifecycle.RemoveAllBreaksSymmetry | src/hierarchyEventEmitter.mjs:436-437 | after `removeAllListeners` with a name, a former parent still lists the target as a child, so the edges are no longer symmetric |
| Lifecycle.PushEdge | src/hierarchyEventEmitter.mjs:176-177 | adding one edge appends the other end to the target's edge array and the target to the other end's mirror array |
| Lifecycle.LinkOne | src/hierarchyEventEmitter.mjs:175-179 | one `addParent`/`addChild` step changes the two edge arrays and emits its meta-event on the target only |
| Lifecycle.Link | src/hierarchyEventEmitter.mjs:174-181 | adding edges only grows the store, and its meta-events are heard on the target only |
| Lifecycle.LinkLists | src/hierarchyEventEmitter.mjs:158-181 | after adding edges the other ends follow the target's edge array in call-site order, the target is appended once per mention on each mirror array, and nothing else changes |
| Lifecycle.LinkSymmetric | src/hierarchyEventEmitter.mjs:158-181 | adding edges keeps "v occurs in u's parents as often as u in v's children" |
| Lifecycle.PullEdge | src/hierarchyEventEmitter.mjs:490-491 | removing one edge pulls it from both sides |
| Lifecycle.UnlinkOne | src/hierarchyEventEmitter.mjs:489-493 | one `removeParent`/`removeChild` step pulls both sides and emits its meta-event on the target only |
| Lifecycle.Unlink | src/hierarchyEventEmitter.mjs:488-495 | removing edges leaves the log alone, and its meta-events are heard on the target only |
| Lifecycle.UnlinkLists | src/hierarchyEventEmitter.mjs:452-459 | after removing edges every occurrence is gone from both sides, and nothing else changes |
| Lifecycle.UnlinkAbsent | src/hierarchyEventEmitter.mjs:488-495 | removing an edge that does not exist changes no array |
| Lifecycle.UnlinkNotifies | src/hierarchyEventEmitter.mjs:492 | the remove meta-event is emitted for every other end, present or not |
| Lifecycle.UnlinkSymmetric | src/hierarchyEventEmitter.mjs:452-459 | removing edges keeps the edge arrays symmetric |
| Lifecycle.RegisterSymmetric | src/hierarchyEventEmitter.mjs:381-397 | listener registration under ordinary names keeps the edge arrays symmetric |
| Lifecycle.UnregisterSymmetric | src/hierarchyEventEmitter.mjs:470-479 | listener removal under ordinary names keeps the edge arrays symmetric |
| Lifecycle.NewEdgeEvent | src/hierarchyEventEmitter.mjs:162 | an edge meta-event is fresh, not bubbling, and carries the right kind, parent and child |
| Lifecycle.SumOfArities | src/hierarchyEventEmitter.mjs:330 | the `reduce` loop adds up the listeners' parameter counts |
| Hierarchy.Result | src/hierarchyEventEmitter.mjs:83 | the caller sees a throw exactly when the emission threw, else its flag |
| Hierarchy.ListenerMeta | src/hierarchyEventEmitter.mjs:382-383 | listener changes are announced under the new-listener symbol, plus the Node-style name exactly on targets that ask for it |
| Hierarchy.HierarchyRegistry.SetStaticDefaultMaxListeners | src/hierarchyEventEmitter.mjs:241-243 | the static default reads back as set |
| Hierarchy.HierarchyRegistry.Construct | src/hierarchyEventEmitter.mjs:125-132 | a known namespace gives back its emitter, untouched; a new one gets an empty store and the given threshold or the static default |
| Hierarchy.HierarchyRegistry.Factory | src/hierarchyEventEmitter.mjs:145-149 | the same singleton behaviour as the constructor |
| Hierarchy.HierarchyEventEmitter.DefaultMaxListenersOf | src/hierarchyEventEmitter.mjs:237-239 | the namespace default, else the static default |
| Hierarchy.HierarchyEventEmitter.SetDefaultMaxListeners | src/hierarchyEventEmitter.mjs:245-247 | the namespace default reads back as set |
| Hierarchy.HierarchyEventEmitter.GetMaxListeners | src/hierarchyEventEmitter.mjs:293-296 | the threshold resolves as target slot, then namespace `maxListeners`, then namespace default, then static default |
| Hierarchy.HierarchyEventEmitter.SetMaxListeners | src/hierarchyEventEmitter.mjs:546-549 | sets the target's slot or the namespace's, leaves the other unchanged, and the threshold reads back as set |
| Hierarchy.HierarchyEventEmitter.Dispatch | src/hierarchyEventEmitter.mjs:59-84 | the dispatch loops compute exactly `HEmit` |
| Hierarchy.HierarchyEventEmitter.DispatchName | src/hierarchyEventEmitter.mjs:66-82 | one name's loop computes exactly `HName` |
| Hierarchy.HierarchyEventEmitter.DispatchLocal | src/hierarchyEventEmitter.mjs:68-73 | the local loop takes the de-duplicated snapshot and computes `LocalStep` |
| Hierarchy.HierarchyEventEmitter.DispatchNext | src/hierarchyEventEmitter.mjs:74-77 | the hierarchy step computes exactly `HNext` |
| Hierarchy.HierarchyEventEmitter.DispatchTier | src/hierarchyEventEmitter.mjs:74-77 | the neighbour loop computes exactly `HBubble` |
| Hierarchy.HierarchyEventEmitter.TierStep | src/hierarchyEventEmitter.mjs:75 | one neighbour iteration advances `HBubble` by one member |
| Hierarchy.HierarchyEventEmitter.TryNeighbour | src/hierarchyEventEmitter.mjs:75 | `emitter.emit(parent, name, ...)` goes up from the neighbour, with `bubbling` read anew |
| Hierarchy.HierarchyEventEmitter.Emit | src/hierarchyEventEmitter.mjs:260-262 | `emit` bubbles up and answers `HEmit`'s flag, or throws |
| Hierarchy.HierarchyEventEmitter.Broadcast | src/hierarchyEventEmitter.mjs:211-213 | `broadcast` goes down one tier, from which each neighbour bubbles up |
| Hierarchy.HierarchyEventEmitter.DispatchAsync | src/hierarchyEventEmitter.mjs:86-114 | the asynchronous loop computes exactly `AsyncNames` |
| Hierarchy.HierarchyEventEmitter.EmitAsync | src/hierarchyEventEmitter.mjs:277-279 | `emitAsync` answers `AsyncNames`' flag, or throws |
| Hierarchy.HierarchyEventEmitter.BroadcastAsync | src/hierarchyEventEmitter.mjs:229-231 | `broadcastAsync` is the same loop |
| Hierarchy.HierarchyEventEmitter.MetaNotify | src/hierarchyEventEmitter.mjs:162 | a meta-event emit is `MetaEmit` |
| Hierarchy.HierarchyEventEmitter.AnnounceListeners | src/hierarchyEventEmitter.mjs:387 | the per-listener announcements are `Announce` |
| Hierarchy.HierarchyEventEmitter.AddName | src/hierarchyEventEmitter.mjs:385-395 | one name of `on` is `RegisterName` with the target's threshold, and keeps one warning per name |
| Hierarchy.HierarchyEventEmitter.LeakCheckName | src/hierarchyEventEmitter.mjs:388-394 | the leak check reads the count without changing the store |
| Hierarchy.HierarchyEventEmitter.Add | src/hierarchyEventEmitter.mjs:381-397 | registration is `Register` with the leak check, and keeps one warning per name |
| Hierarchy.HierarchyEventEmitter.On | src/hierarchyEventEmitter.mjs:381-397 | `on` appends |
| Hierarchy.HierarchyEventEmitter.PrependListener | src/hierarchyEventEmitter.mjs:507-523 | `prependListener` prepends |
| Hierarchy.HierarchyEventEmitter.Once | src/hierarchyEventEmitter.mjs:410-418 | `once` appends its wrapper |
| Hierarchy.HierarchyEventEmitter.PrependOnceListener | src/hierarchyEventEmitter.mjs:536-544 | `prependOnceListener` prepends its wrapper |
| Hierarchy.HierarchyEventEmitter.RemoveListener | src/hierarchyEventEmitter.mjs:470-479 | removal is `Unregister`, announced under the new-listener symbol |
| Hierarchy.HierarchyEventEmitter.RemoveAllListeners | src/hierarchyEventEmitter.mjs:428-442 | the store becomes `RemoveAll` of the old one |
| Hierarchy.HierarchyEventEmitter.AddEdges | src/hierarchyEventEmitter.mjs:174-181 | the edge loop is `Link` |
| Hierarchy.HierarchyEventEmitter.AddEdge | src/hierarchyEventEmitter.mjs:175-179 | one edge is `LinkOne` |
| Hierarchy.HierarchyEventEmitter.AddParent | src/hierarchyEventEmitter.mjs:174-181 | `addParent` is `Link` upwards |
| Hierarchy.HierarchyEventEmitter.AddChild | src/hierarchyEventEmitter.mjs:158-165 | `addChild` is `Link` downwards |
| Hierarchy.HierarchyEventEmitter.RemoveEdges | src/hierarchyEventEmitter.mjs:488-495 | the edge loop is `Unlink` |
| Hierarchy.HierarchyEventEmitter.RemoveEdge | src/hierarchyEventEmitter.mjs:489-493 | one edge is `UnlinkOne` |
| Hierarchy.HierarchyEventEmitter.RemoveParent | src/hierarchyEventEmitter.mjs:488-495 | `removeParent` is `Unlink` upwards |
| Hierarchy.HierarchyEventEmitter.RemoveChild | src/hierarchyEventEmitter.mjs:452-459 | `removeChild` is `Unlink` downwards |
| Hierarchy.HierarchyEventEmitter.ListenerCount | src/hierarchyEventEmitter.mjs:328-331 | a truthy name counts its distinct listeners; the empty name sums the distinct listeners' parameter counts |
| Hierarchy.HierarchyEventEmitter.EventNamesOf | src/hierarchyEventEmitter.mjs:289-291 | `eventNames` lists each known name once, exactly the target's keys |
| Hierarchy.HierarchyEventEmitter.Tier | src/hierarchyEventEmitter.mjs:305-318 | a copy of the parents or children array, created if missing |
| Hierarchy.HierarchyEventEmitter.GetParents | src/hierarchyEventEmitter.mjs:316-318 | `getParents` copies the `PARENT` array and leaves it known afterwards |
| Hierarchy.HierarchyEventEmitter.GetChildren | src/hierarchyEventEmitter.mjs:305-307 | `getChildren` copies the `CHILDREN` array and leaves it known afterwards |
| Hierarchy.HierarchyEventEmitter.Listeners | src/hierarchyEventEmitter.mjs:342-346 | `listeners` answers the distinct registered listeners, and a truthy name is known afterwards |
| Hierarchy.HierarchyEventEmitter.ListenersOfNames | src/hierarchyEventEmitter.mjs:347 | with a list of names, one copy per name; every name is known afterwards |
| Hierarchy.HierarchyEventEmitter.ListenerCountOfNames | src/hierarchyEventEmitter.mjs:329 | with a list of names, the summed lengths of their arrays |
| TargetDispatch.TEmit | src/targetEventEmitter.mjs:58-76 | an emission changes no array |
| TargetDispatch.TNameFacts | src/targetEventEmitter.mjs:64-73 | one name calls registered listeners only, none once stopped, all under that name; without bubbling, only on the target; no array changes |
| TargetDispatch.TNameFactsBubbling | src/targetEventEmitter.mjs:71-73 | the same facts when the next tier is reached |
| TargetDispatch.TNextFacts | src/targetEventEmitter.mjs:71-73 | the hierarchy step calls registered listeners under the name only |
| TargetDispatch.TBubbleFacts | src/targetEventEmitter.mjs:71-73 | the neighbour loop calls registered listeners under the name only |
| TargetDispatch.TNamesFacts | src/targetEventEmitter.mjs:58-76 | an emission calls registered listeners only, none once stopped, each under one of the given names; a non-bubbling event reaches only the target |
| TargetDispatch.TBubbleKeepsFlag | src/targetEventEmitter.mjs:71-73 | the neighbour loop never sets the flag, since `emit` answers `undefined` |
| TargetDispatch.TNextKeepsFlag | src/targetEventEmitter.mjs:71-73 | the hierarchy step of a name leaves the flag as the local loop left it |
| TargetDispatch.TBubbleShortCircuits | src/targetEventEmitter.mjs:72 | once the flag is set no neighbour is emitted to |
| TargetDispatch.TNameFlag | src/targetEventEmitter.mjs:64-73 | after a name, the flag is what the target's own listeners left it |
| TargetDispatch.TNamesAfterFlag | src/targetEventEmitter.mjs:63-74 | once the flag is set, every later call of the emission is on the target itself |
| TargetDispatch.TNameWithFlag | src/targetEventEmitter.mjs:64-73 | with the flag set, a name calls only the target's own listeners |
| TargetDispatch.TEmitOneName | src/targetEventEmitter.mjs:64 | an emission of one name is that name's step with a fresh flag |
| TargetDispatch.TNamesNotBubbling | src/targetEventEmitter.mjs:71 | a non-bubbling emission is plain local delivery |
| Target.ListenerMeta | src/targetEventEmitter.mjs:328-329 | additions are announced under the new-listener symbol, removals under the remove-listener symbol |
| Target.TargetRegistry.Construct | src/targetEventEmitter.mjs:111-118 | a known namespace gives back its emitter, untouched; a new one gets an empty store and `maxListeners` 10 |
| Target.TargetRegistry.Factory | src/targetEventEmitter.mjs:131-135 | the same singleton behaviour as the constructor |
| Target.TargetEventEmitter.SetMaxListeners | src/targetEventEmitter.mjs:471-473 | `getMaxListeners` reads back the value set |
| Target.TargetEventEmitter.Dispatch | src/targetEventEmitter.mjs:58-76 | the dispatch loops compute exactly `TEmit` |
| Target.TargetEventEmitter.DispatchName | src/targetEventEmitter.mjs:64-74 | one name's loop computes exactly `TName` |
| Target.TargetEventEmitter.DispatchLocal | src/targetEventEmitter.mjs:65-70 | the local loop takes the de-duplicated snapshot and computes `LocalStep` |
| Target.TargetEventEmitter.DispatchNext | src/targetEventEmitter.mjs:71-73 | the hierarchy step computes exactly `TNext` |
| Target.TargetEventEmitter.DispatchTier | src/targetEventEmitter.mjs:71-73 | the neighbour loop computes exactly `TBubble` |
| Target.TargetEventEmitter.TryNeighbour | src/targetEventEmitter.mjs:72 | a neighbour's `emit` goes up from it with a fresh flag, and its answer is discarded |
| Target.TargetEventEmitter.Emit | src/targetEventEmitter.mjs:226-228 | `emit` bubbles up as `TEmit` and answers nothing |
| Target.TargetEventEmitter.Broadcast | src/targetEventEmitter.mjs:193-195 | `broadcast` goes down one tier as `TEmit` and answers nothing |
| Target.TargetEventEmitter.DispatchAsync | src/targetEventEmitter.mjs:78-100 | the asynchronous loop computes `AsyncNames` and answers true iff some name has a listener on the target |
| Target.TargetEventEmitter.EmitAsync | src/targetEventEmitter.mjs:243-245 | `emitAsync` answers true iff some name has a listener on the target |
| Target.TargetEventEmitter.BroadcastAsync | src/targetEventEmitter.mjs:211-213 | `broadcastAsync` answers true iff some name has a listener on the target |
| Target.TargetEventEmitter.MetaNotify | src/targetEventEmitter.mjs:147 | a meta-event emit is `MetaEmit` |
| Target.TargetEventEmitter.AnnounceListeners | src/targetEventEmitter.mjs:328-330 | the per-listener announcements are `Announce` |
| Target.TargetEventEmitter.Add | src/targetEventEmitter.mjs:325-333 | registration is `Register` without a leak check |
| Target.TargetEventEmitter.On | src/targetEventEmitter.mjs:325-333 | `on` appends and announces each listener |
| Target.TargetEventEmitter.PrependListener | src/targetEventEmitter.mjs:440-448 | `prependListener` prepends and announces each listener |
| Target.TargetEventEmitter.Once | src/targetEventEmitter.mjs:346-354 | `once` appends its wrapper |
| Target.TargetEventEmitter.PrependOnceListener | src/targetEventEmitter.mjs:461-469 | `prependOnceListener` prepends its wrapper |
| Target.TargetEventEmitter.RemoveListener | src/targetEventEmitter.mjs:404-412 | removal is `Unregister`, announced under the remove-listener symbol |
| Target.TargetEventEmitter.RemoveAllListeners | src/targetEventEmitter.mjs:364-378 | the store becomes `RemoveAll` of the old one |
| Target.TargetEventEmitter.AddEdges | src/targetEventEmitter.mjs:157-163 | the edge loop is `Link` |
| Target.TargetEventEmitter.AddEdge | src/targetEventEmitter.mjs:158-161 | one edge is `LinkOne` |
| Target.TargetEventEmitter.AddParent | src/targetEventEmitter.mjs:157-163 | `addParent` is `Link` upwards |
| Target.TargetEventEmitter.AddChild | src/targetEventEmitter.mjs:143-149 | `addChild` is `Link` downwards |
| Target.TargetEventEmitter.RemoveEdges | src/targetEventEmitter.mjs:420-426 | the edge loop is `Unlink` |
| Target.TargetEventEmitter.RemoveEdge | src/targetEventEmitter.mjs:421-425 | one edge is `UnlinkOne` |
| Target.TargetEventEmitter.RemoveParent | src/targetEventEmitter.mjs:420-426 | `removeParent` is `Unlink` upwards |
| Target.TargetEventEmitter.RemoveChild | src/targetEventEmitter.mjs:387-393 | `removeChild` is `Unlink` downwards |
| Target.TargetEventEmitter.EventNamesOf | src/targetEventEmitter.mjs:255-257 | `eventNames` lists each known name once, exactly the target's keys |
| Target.TargetEventEmitter.Listeners | src/targetEventEmitter.mjs:290-294 | `listeners` answers the distinct registered listeners |
| Target.TargetEventEmitter.ListenersOfNames | src/targetEventEmitter.mjs:295 | with a list of names, one copy per name |
| Target.TargetEventEmitter.ListenerCount | src/targetEventEmitter.mjs:276-279 | a truthy name counts its distinct listeners; the empty name sums the distinct listeners' parameter counts |
| Target.TargetEventEmitter.ListenerCountOfNames | src/targetEventEmitter.mjs:277 | with a list of names, the summed lengths of their arrays |
| GlobalDispatch.GName | src/globalEventEmitter.mjs:59-66 | one name only extends the trace and changes no array |
| GlobalDispatch.GBubble | src/globalEventEmitter.mjs:64-66 | the neighbour loop only extends the trace and changes no array |
| GlobalDispatch.GEmit | src/globalEventEmitter.mjs:54-68 | an emission changes no array |
| GlobalDispatch.GEmitOneName | src/globalEventEmitter.mjs:59 | an emission of one name is that name's step |
| GlobalDispatch.GNamesNotBubbling | src/globalEventEmitter.mjs:64 | a non-bubbling emission is plain local delivery without de-duplication |
| GlobalDispatch.GNameFacts | src/globalEventEmitter.mjs:59-66 | one name calls listeners in the arrays only, none once stopped, all under that name; without bubbling, only on the target; an event nothing can stop stays so |
| GlobalDispatch.GNameFactsBubbling | src/globalEventEmitter.mjs:63-65 | the same facts when the next tier is reached |
| GlobalDispatch.GNextFacts | src/globalEventEmitter.mjs:63-65 | the hierarchy step calls listeners under the name only |
| GlobalDispatch.GBubbleFacts | src/globalEventEmitter.mjs:63-65 | the tier loop calls listeners under the name only; an event nothing can stop stays so |
| GlobalDispatch.GNamesFacts | src/globalEventEmitter.mjs:54-68 | an emission calls listeners in the arrays only, none once stopped, each under one of the given names; a non-bubbling event reaches only the target |
| GlobalDispatch.GNameRunsEveryEntry | src/globalEventEmitter.mjs:60-62 | when nothing can stop the event (a non-object argument, or listeners that never cancel), every entry of the array is called in order, duplicates included |
| GlobalDispatch.GBubbleReachesAll | src/globalEventEmitter.mjs:63-65 | when nothing can stop the event, every listener of every next-tier member is called, whatever ran before |
| Global.CountCoversEveryArray | src/globalEventEmitter.mjs:149-150 | the no-name count includes every array of the target, edge arrays too |
| Global.GlobalRegistry.Construct | src/globalEventEmitter.mjs:93-97 | every construction is a new instance with `maxListeners` 10; instances of one namespace key share its store |
| Global.GlobalEventEmitter.SetMaxListeners | src/globalEventEmitter.mjs:246-248 | `getMaxListeners` reads back the value set |
| Global.GlobalEventEmitter.Dispatch | src/globalEventEmitter.mjs:54-68 | the dispatch loops compute exactly `GEmit` |
| Global.GlobalEventEmitter.DispatchName | src/globalEventEmitter.mjs:59-66 | one name's loop computes exactly `GName` |
| Global.GlobalEventEmitter.DispatchLocal | src/globalEventEmitter.mjs:60-62 | the local loop takes a plain copy of the array and computes `LocalStep` |
| Global.GlobalEventEmitter.DispatchNext | src/globalEventEmitter.mjs:64-66 | the hierarchy step computes exactly `GNext` |
| Global.GlobalEventEmitter.DispatchTier | src/globalEventEmitter.mjs:64-66 | the neighbour loop emits to every member and computes `GBubble` |
| Global.GlobalEventEmitter.TierStep | src/globalEventEmitter.mjs:64-65 | one turn of the neighbour loop advances `GBubble` by one member and keeps the tier readable |
| Global.GlobalEventEmitter.Neighbour | src/globalEventEmitter.mjs:65 | a neighbour's `emit` goes up from it |
| Global.GlobalEventEmitter.Emit | src/globalEventEmitter.mjs:127-129 | `emit` bubbles up as `GEmit` and answers nothing |
| Global.GlobalEventEmitter.Broadcast | src/globalEventEmitter.mjs:119-121 | `broadcast` goes down one tier as `GEmit` and answers nothing |
| Global.GlobalEventEmitter.DispatchAsync | src/globalEventEmitter.mjs:70-90 | the asynchronous loop computes `AsyncNames` and answers true iff some name's array on the target is non-empty |
| Global.GlobalEventEmitter.EmitAsync | src/globalEventEmitter.mjs:131-133 | `emitAsync` answers true iff some name's array on the target is non-empty |
| Global.GlobalEventEmitter.BroadcastAsync | src/globalEventEmitter.mjs:123-125 | `broadcastAsync` answers true iff some name's array on the target is non-empty |
| Global.GlobalEventEmitter.MetaNotify | src/globalEventEmitter.mjs:103 | a meta-event emit is `MetaEmit` without de-duplication |
| Global.GlobalEventEmitter.AnnounceListeners | src/globalEventEmitter.mjs:167-169 | the per-listener announcements are `Announce` |
| Global.GlobalEventEmitter.Add | src/globalEventEmitter.mjs:164-172 | registration is `Register` under the new-listener symbol, without a leak check |
| Global.GlobalEventEmitter.AddName | src/globalEventEmitter.mjs:165-169 | one name of `on` is `RegisterName`: the array gets the listeners, then each is announced on the target, without a leak check |
| Global.GlobalEventEmitter.On | src/globalEventEmitter.mjs:164-172 | `on` appends and announces each listener |
| Global.GlobalEventEmitter.PrependListener | src/globalEventEmitter.mjs:226-234 | `prependListener` prepends and announces each listener |
| Global.GlobalEventEmitter.Once | src/globalEventEmitter.mjs:174-182 | `once` appends its wrapper |
| Global.GlobalEventEmitter.PrependOnceListener | src/globalEventEmitter.mjs:236-244 | `prependOnceListener` prepends its wrapper |
| Global.GlobalEventEmitter.RemoveListener | src/globalEventEmitter.mjs:208-216 | removal is `Unregister`, announced under the remove-listener symbol once per listener argument |
| Global.GlobalEventEmitter.RemoveAllListeners | src/globalEventEmitter.mjs:184-198 | the shared store becomes `RemoveAll` of the old one |
| Global.GlobalEventEmitter.AddEdges | src/globalEventEmitter.mjs:107-113 | the edge loop is `Link` |
| Global.GlobalEventEmitter.AddEdge | src/globalEventEmitter.mjs:108-111 | one edge is `LinkOne` |
| Global.GlobalEventEmitter.AddParent | src/globalEventEmitter.mjs:107-113 | `addParent` is `Link` upwards |
| Global.GlobalEventEmitter.AddChild | src/globalEventEmitter.mjs:99-105 | `addChild` is `Link` downwards |
| Global.GlobalEventEmitter.RemoveEdges | src/globalEventEmitter.mjs:218-224 | the edge loop is `Unlink` |
| Global.GlobalEventEmitter.RemoveEdge | src/globalEventEmitter.mjs:219-223 | one edge is `UnlinkOne` |
| Global.GlobalEventEmitter.RemoveParent | src/globalEventEmitter.mjs:218-224 | `removeParent` is `Unlink` upwards |
| Global.GlobalEventEmitter.RemoveChild | src/globalEventEmitter.mjs:200-206 | `removeChild` is `Unlink` downwards |
| Global.GlobalEventEmitter.EventNamesOf | src/globalEventEmitter.mjs:135-137 | `eventNames` lists each known name once, exactly the target's keys |
| Global.GlobalEventEmitter.Listeners | src/globalEventEmitter.mjs:153-156 | `listeners` answers a plain copy of the array, every listener with its multiplicity |
| Global.GlobalEventEmitter.ListenersOfNames | src/globalEventEmitter.mjs:157 | with a list of names, one copy per name |
| Global.GlobalEventEmitter.ListenerCount | src/globalEventEmitter.mjs:147-151 | a truthy name counts its array's entries; the empty name sums the lengths of all the target's arrays without creating one |
| Global.GlobalEventEmitter.ListenerCountOfNames | src/globalEventEmitter.mjs:148 | with a list of names, the summed lengths of their arrays |

## Left out

- Promise scheduling: `emitAsync` is modelled as the same sequential loop, each listener awaited before the next. Interleaving with other work is not modelled.
- Listener bodies: a listener is an identity. Its only modelled effects are `cancelEvent()`, `stopBubbling()` and its parameter count (`Behaviour`). Listeners do not change the store, and exceptions they throw are not modelled.
- Hierarchy.HierarchyEventEmitter.Once: registers the wrapper as an identity chosen by the caller. The wrapper's body, which removes itself and then calls the listeners, is a listener body and is not modelled. The same holds for `PrependOnceListener` and for the target and global revisions.
- `addListener` and `off` are aliases of `on` and `removeListener`. The `maxListeners` accessors are aliases of `getMaxListeners()`/`setMaxListeners(n)`. None is a separate member.
- `makeArray` lives in a file that is not part of this model. Callers pass the list of names it would produce. A single name is a one-element list, and an absent name is the empty string `""`, which is falsy like `undefined`.
- `removeAllListeners(t)` with no name at all: it depends on `makeArray(undefined)`, which is not visible. Only the named form and the empty name are modelled.
- `$private` and WeakMap garbage collection: private slots are fields of the registry and emitter classes. The `throwOnNoErrorListener` and `emitNodeEmitterEvents` slots of targets are the fixed sets `strict` and `nodeEvents`.
- Cycles in the hierarchy: bubbling requires a ghost rank that decreases along every `Parents` edge, which excludes every store with a cycle anywhere. The source fails to terminate only on a cycle its recursion walks round forever: in the hierarchy and target emitters, one on which no listener runs, since the `||` at src/hierarchyEventEmitter.mjs:74-76 and src/targetEventEmitter.mjs:71-72 skips the next tier once one has; in the global emitter, one on which no listener stops the event or its bubbling. Emissions over other cyclic stores, which end in the source, are not modelled.
- `console.warn` is an entry appended to `Log.console`. Nothing is printed.
- `src/eventEmitter.mjs`, `src/consts.mjs` and `index.mjs` are not part of this model. The reserved symbols are the constructors of `Name`.
- The first emitted argument: only an `Event` (or `null` for a non-object) is modelled. A plain object with its own `stopped`/`bubbling` properties is not.
- Hierarchy.HierarchyEventEmitter.ListenerCount: for the empty name it counts through the listeners' parameter counts, which are given by `Behaviour.arity`. An edge array holds target objects, whose `length` is `undefined`, so in the source a target with an edge counts `NaN` for the empty name; `NaN > max` is false, so the leak check of an empty-name `on` never warns there. `Behaviour.arity` cannot represent `NaN`, so the model sums natural numbers instead. The same holds for `Target.TargetEventEmitter.ListenerCount`.
- Dispatch.Snapshot: for a falsy name the hierarchy and target revisions take `uniq(flatten(...))` of every array of the target (src/hierarchyEventEmitter.mjs:343, src/targetEventEmitter.mjs:291), and that includes the `Parents` and `Children` edge arrays, whose members are targets, not functions. The source then calls each entry (src/hierarchyEventEmitter.mjs:71 and :100, src/targetEventEmitter.mjs:68 and :90), so an emission under the empty name on a target with an edge throws a `TypeError` (the synchronous path) or rejects its promise (`emitAsync`). The model does not model that throw: it records `Call(t, n, p)` for each edge member `p`, applies `Behaviour` to it and counts it as heard (`Dispatch.FalsyNameCallsEdgeMember`). The members below inherit this.
- HierarchyDispatch.HEmit: for the empty name on a target with an edge, answers `fired` with the edge targets recorded as calls, where the source throws a `TypeError` (see `Dispatch.Snapshot` above).
- TargetDispatch.TEmit: for the empty name on a target with an edge, records the edge targets as calls, where the source throws a `TypeError` (see `Dispatch.Snapshot` above).
- Dispatch.AsyncNames: for the empty name on a target with an edge, records the edge targets as calls and goes on, where the source's promise rejects with a `TypeError` (see `Dispatch.Snapshot` above).
- Hierarchy.HierarchyEventEmitter.DispatchLocal: calls edge targets as listeners for the empty name, where the source throws (see `Dispatch.Snapshot` above).
- Hierarchy.HierarchyEventEmitter.Emit: inherits the empty-name edge calls of `HEmit`; the source throws there.
- Hierarchy.HierarchyEventEmitter.Broadcast: inherits the empty-name edge calls of `HEmit`; the source throws there.
- Hierarchy.HierarchyEventEmitter.DispatchAsync: inherits the empty-name edge calls of `AsyncNames`; the source's promise rejects there.
- Hierarchy.HierarchyEventEmitter.EmitAsync: inherits the empty-name edge calls of `AsyncNames`; the source's promise rejects there.
- Hierarchy.HierarchyEventEmitter.BroadcastAsync: inherits the empty-name edge calls of `AsyncNames`; the source's promise rejects there.
- Target.TargetEventEmitter.DispatchLocal: calls edge targets as listeners for the empty name, where the source throws (see `Dispatch.Snapshot` above).
- Target.TargetEventEmitter.Emit: inherits the empty-name edge calls of `TEmit`; the source throws there.
- Target.TargetEventEmitter.Broadcast: inherits the empty-name edge calls of `TEmit`; the source throws there.
- Target.TargetEventEmitter.DispatchAsync: inherits the empty-name edge calls of `AsyncNames`; the source's promise rejects there.
- Target.TargetEventEmitter.EmitAsync: inherits the empty-name edge calls of `AsyncNames`; the source's promise rejects there.
- Target.TargetEventEmitter.BroadcastAsync: inherits the empty-name edge calls of `AsyncNames`; the source's promise rejects there.
