/** `HierarchyEventEmitter` (`src/hierarchyEventEmitter.mjs`): one emitter per
    namespace, listeners kept per target in the namespace's store, events
    bubbling up through parents (`emit`) or down through children
    (`broadcast`), a leak warning when a name collects too many listeners,
    and an error when a strict target emits `'error'` unheard. */
module Hierarchy {
  import opened Seqs
  import opened Store
  import opened Events
  import opened Dispatch
  import opened HierarchyDispatch
  import opened Lifecycle

  /** What `emit` gives back: whether some listener ran, or the error it threw. */
  datatype EmitResult = Returned(heard: bool) | Threw

  /** The result of an emission as the caller sees it. */
  function Result(o: Out): (r: EmitResult)
    ensures r.Threw? <==> o.threw
    ensures r.Returned? ==> r.heard == o.fired
  {
    if o.threw then Threw else Returned(o.fired)
  }

  /** The threshold when neither the class nor a namespace nor a target sets one. */
  const DefaultMaxListeners: nat := 10

  /** The meta-event names of a listener change on `t`: the private symbol,
      and the Node-style name when `t` asks for Node emitter events. */
  function ListenerMeta(nodeEvents: set<Ref>, t: Ref, add: bool): (r: seq<Name>)
    ensures ErrorName !in r && NewListenerEvent in r
    ensures |r| == 2 <==> t in nodeEvents
  {
    var node := if add then "newListener" else "removeListener";
    assert node[0] != ErrorName.s[0];
    [NewListenerEvent] + (if t in nodeEvents then [Str(node)] else [])
  }

  /** The class-level state of the module: the emitter of each namespace, the
      names already warned about and the console, the static default
      threshold, and the private slots kept on target objects. */
  class HierarchyRegistry {
    var emitters: map<Namespace, HierarchyEventEmitter>
    var log: Log
    var defaultMaxListeners: Option<nat>
    var targetMaxListeners: map<Ref, nat>
    /** Targets whose `throwOnNoErrorListener` slot is set. */
    const strict: set<Ref>
    /** Targets whose `emitNodeEmitterEvents` slot is set. */
    const nodeEvents: set<Ref>
    const fx: Behaviour
    const trace: Trace

    ghost predicate Valid()
      reads this
    {
      && WarnedOnce(log)
      && (forall ns :: ns in emitters ==> emitters[ns].registry == this && emitters[ns].namespace == ns)
    }

    constructor (strict: set<Ref>, nodeEvents: set<Ref>, fx: Behaviour)
      ensures Valid() && fresh(trace) && trace.calls == []
      ensures emitters == map[] && log == Log({}, []) && defaultMaxListeners == None && targetMaxListeners == map[]
      ensures this.strict == strict && this.nodeEvents == nodeEvents && this.fx == fx
    {
      emitters := map[];
      log := Log({}, []);
      defaultMaxListeners := None;
      targetMaxListeners := map[];
      this.strict := strict;
      this.nodeEvents := nodeEvents;
      this.fx := fx;
      trace := new Trace();
    }

    /** The static `defaultMaxListeners` getter. */
    function StaticDefaultMaxListeners(): nat
      reads this
    {
      defaultMaxListeners.GetOr(DefaultMaxListeners)
    }

    /** The static `defaultMaxListeners` setter. */
    method SetStaticDefaultMaxListeners(n: nat)
      modifies this`defaultMaxListeners
      ensures StaticDefaultMaxListeners() == n
    {
      defaultMaxListeners := Some(n);
    }

    /** `new HierarchyEventEmitter({namespace, maxListeners})`: the emitter
        already made for the namespace, options ignored; otherwise a new one
        whose namespace threshold is the given one or the static default. */
    method Construct(namespace: Namespace, maxListeners: Option<nat>) returns (e: HierarchyEventEmitter)
      requires Valid()
      modifies this`emitters
      ensures Valid() && e.registry == this && e.namespace == namespace
      ensures namespace in old(emitters) ==> e == old(emitters[namespace]) && emitters == old(emitters)
      ensures namespace !in old(emitters) ==>
        && fresh(e) && emitters == old(emitters)[namespace := e]
        && e.store == map[] && e.maxListeners == Some(maxListeners.GetOr(old(StaticDefaultMaxListeners())))
        && e.defaultMaxListeners == None
    {
      if namespace in emitters {
        e := emitters[namespace];
      } else {
        e := new HierarchyEventEmitter(this, namespace, maxListeners.GetOr(StaticDefaultMaxListeners()));
        emitters := emitters[namespace := e];
      }
    }

    /** `HierarchyEventEmitter.factory({namespace})`: the existing emitter
        without running the constructor, or a new one. */
    method Factory(namespace: Namespace, maxListeners: Option<nat>) returns (e: HierarchyEventEmitter)
      requires Valid()
      modifies this`emitters
      ensures Valid() && e.registry == this && e.namespace == namespace
      ensures namespace in old(emitters) ==> e == old(emitters[namespace]) && emitters == old(emitters)
      ensures namespace !in old(emitters) ==>
        && fresh(e) && emitters == old(emitters)[namespace := e]
        && e.store == map[] && e.maxListeners == Some(maxListeners.GetOr(old(StaticDefaultMaxListeners())))
        && e.defaultMaxListeners == None
    {
      if namespace in emitters {
        return emitters[namespace];
      }
      e := Construct(namespace, maxListeners);
    }
  }

  class HierarchyEventEmitter {
    const registry: HierarchyRegistry
    const namespace: Namespace
    /** The namespace's listener store. */
    var store: Store
    /** The namespace's `maxListeners` and `defaultMaxListeners` slots. */
    var maxListeners: Option<nat>
    var defaultMaxListeners: Option<nat>

    ghost predicate Valid()
      reads this
    {
      Consistent(store)
    }

    /** The part of the JavaScript constructor that runs for a new namespace. */
    constructor (registry: HierarchyRegistry, namespace: Namespace, maxListeners: nat)
      ensures Valid() && this.registry == registry && this.namespace == namespace
      ensures store == map[] && this.maxListeners == Some(maxListeners) && defaultMaxListeners == None
    {
      this.registry := registry;
      this.namespace := namespace;
      store := map[];
      this.maxListeners := Some(maxListeners);
      defaultMaxListeners := None;
    }

    /** The dispatch state: the listener calls so far, the descriptor as it
        stands, and the store. */
    function Cur(ev: Event?): St
      reads this, registry.trace, ev
    {
      St(registry.trace.calls, Descriptor(ev), store)
    }

    /** What a store operation changes. */
    function W(): World
      reads this, registry, registry.trace
    {
      World(store, registry.trace.calls, registry.log)
    }

    /** The instance `defaultMaxListeners` getter: the namespace's slot, else the static default. */
    function DefaultMaxListenersOf(): (n: nat)
      reads this, registry
      ensures defaultMaxListeners.Some? ==> n == defaultMaxListeners.value
      ensures defaultMaxListeners.None? ==> n == registry.StaticDefaultMaxListeners()
    {
      defaultMaxListeners.GetOr(registry.StaticDefaultMaxListeners())
    }

    /** The instance `defaultMaxListeners` setter. */
    method SetDefaultMaxListeners(n: nat)
      modifies this`defaultMaxListeners
      ensures DefaultMaxListenersOf() == n
    {
      defaultMaxListeners := Some(n);
    }

    /** `getMaxListeners(target)`: the target's own slot, else the namespace's
        `maxListeners`, else the instance default (also the `maxListeners`
        getter, which passes no target). */
    function GetMaxListeners(target: Option<Ref>): (n: nat)
      reads this, registry
      ensures target.Some? && target.value in registry.targetMaxListeners ==> n == registry.targetMaxListeners[target.value]
      ensures (target.None? || target.value !in registry.targetMaxListeners) && maxListeners.Some? ==> n == maxListeners.value
      ensures (target.None? || target.value !in registry.targetMaxListeners) && maxListeners.None? ==> n == DefaultMaxListenersOf()
    {
      if target.Some? && target.value in registry.targetMaxListeners then registry.targetMaxListeners[target.value]
      else maxListeners.GetOr(DefaultMaxListenersOf())
    }

    /** `setMaxListeners(n, target)` (and the `maxListeners` setter, with no
        target): the target's slot or the namespace's. */
    method SetMaxListeners(n: nat, target: Option<Ref>)
      modifies this`maxListeners, registry`targetMaxListeners
      ensures target.Some? ==> registry.targetMaxListeners == old(registry.targetMaxListeners)[target.value := n]
      ensures target.Some? ==> maxListeners == old(maxListeners)
      ensures target.None? ==> maxListeners == Some(n)
      ensures target.None? ==> registry.targetMaxListeners == old(registry.targetMaxListeners)
      ensures GetMaxListeners(target) == n
    {
      if target.None? {
        maxListeners := Some(n);
      } else {
        registry.targetMaxListeners := registry.targetMaxListeners[target.value := n];
      }
    }

    /** The module-level `emit` (source lines 59-84), run on this emitter. */
    method Dispatch(t: Ref, dir: Dir, names: seq<Name>, ev: Event?, ghost rank: map<Ref, nat>)
      returns (fired: bool, threw: bool)
      requires Consistent(store) && (Bubbling(Descriptor(ev)) ==> Ranked(store, rank))
      modifies this`store, registry.trace, ev
      ensures var o := HEmit(registry.fx, registry.strict, rank, t, dir, names, old(Cur(ev)));
        Cur(ev) == o.st && fired == o.fired && threw == o.threw
      decreases DirRank(dir), Rank(rank, t), 3, 0
    {
      ghost var fx, strict := registry.fx, registry.strict;
      var bub0 := Bubbling(Descriptor(ev));
      ghost var st0 := Cur(ev);
      fired, threw := false, false;
      var i := 0;
      while i < |names|
        invariant 0 <= i <= |names|
        invariant Consistent(store) && (bub0 ==> Ranked(store, rank))
        invariant HNames(fx, strict, rank, t, dir, names[i..], bub0, fired, Cur(ev))
               == HNames(fx, strict, rank, t, dir, names, bub0, false, st0)
      {
        ghost var st1 := Cur(ev);
        assert names[i..][1..] == names[i + 1..];
        var f, th := DispatchName(t, dir, names[i], bub0, ev, rank);
        if th {
          return fired, true;
        }
        RankedSameLists(st1.s, store, rank);
        fired := fired || f;
        i := i + 1;
      }
    }

    /** One name of the module-level `emit`: the local listeners, then the
        next tier while nothing has fired, then the `'error'` check. */
    method DispatchName(t: Ref, dir: Dir, n: Name, bub0: bool, ev: Event?, ghost rank: map<Ref, nat>)
      returns (fired: bool, threw: bool)
      requires Consistent(store) && (bub0 ==> Ranked(store, rank))
      modifies this`store, registry.trace, ev
      ensures var o := HName(registry.fx, registry.strict, rank, t, dir, n, bub0, old(Cur(ev)));
        Cur(ev) == o.st && fired == o.fired && threw == o.threw
      decreases DirRank(dir), Rank(rank, t), 2, 0
    {
      ghost var st0 := Cur(ev);
      var _, ran := DispatchLocal(t, n, ev);
      fired := ran;
      if !Stopped(Descriptor(ev)) && bub0 {
        RankedSameLists(st0.s, store, rank);
        fired, threw := DispatchNext(t, dir, n, ran, ev, rank);
        if threw {
          return;
        }
      }
      threw := t in registry.strict && !fired && n == ErrorName;
    }

    /** The target's own listeners for one name: the de-duplicated array,
        as it stands, each called unless the event has been stopped. */
    method DispatchLocal(t: Ref, n: Name, ev: Event?) returns (snap: seq<Ref>, ran: bool)
      requires Consistent(store)
      modifies this`store, registry.trace, ev
      ensures snap == Snapshot(true, Lookup(true, old(store), t, n), t, n)
      ensures LocalStep(true, registry.fx, t, n, false, old(Cur(ev))) == Local(Cur(ev), ran)
    {
      store := Lookup(true, store, t, n);
      snap := Snapshot(true, store, t, n);
      ran := RunListeners(registry.trace, registry.fx, t, n, snap, ev, false, store);
    }

    /** The bubbling part of one name: the next tier of the target, read
        (and created if missing) after the local listeners have run. */
    method DispatchNext(t: Ref, dir: Dir, n: Name, ran: bool, ev: Event?, ghost rank: map<Ref, nat>)
      returns (fired: bool, threw: bool)
      requires Consistent(store) && Ranked(store, rank)
      modifies this`store, registry.trace, ev
      ensures var o := HNext(registry.fx, registry.strict, rank, t, dir, n, Local(old(Cur(ev)), ran));
        Cur(ev) == o.st && fired == o.fired && threw == o.threw
      decreases DirRank(dir), Rank(rank, t), 1, 0
    {
      ghost var st0 := Cur(ev);
      store := Lookup(true, store, t, Next(dir));
      RankedSameLists(st0.s, store, rank);
      var ps := Snapshot(true, store, t, Next(dir));
      fired, threw := DispatchTier(t, dir, ps, n, ran, ev, rank);
    }

    /** `emitter.listeners(target, NEXT).forEach(...)`: each member of the
        tier in turn, through `emitter.emit`, while nothing has fired. */
    method DispatchTier(t: Ref, dir: Dir, ps: seq<Ref>, n: Name, has: bool, ev: Event?, ghost rank: map<Ref, nat>)
      returns (fired: bool, threw: bool)
      requires Consistent(store) && Ranked(store, rank)
      requires forall p :: p in ps ==> p in List(store, t, Next(dir))
      modifies this`store, registry.trace, ev
      ensures var o := HBubble(registry.fx, registry.strict, rank, t, dir, ps, n, has, old(Cur(ev)));
        Cur(ev) == o.st && fired == o.fired && threw == o.threw
      decreases DirRank(dir), Rank(rank, t), 0, 2
    {
      ghost var fx, strict := registry.fx, registry.strict;
      ghost var st0 := Cur(ev);
      ghost var goal := HBubble(fx, strict, rank, t, dir, ps, n, has, st0);
      fired, threw := has, false;
      var k := 0;
      while k < |ps|
        invariant 0 <= k <= |ps|
        invariant Consistent(store) && Ranked(store, rank)
        invariant forall p :: p in ps ==> p in List(store, t, Next(dir))
        invariant HBubble(fx, strict, rank, t, dir, ps[k..], n, fired, Cur(ev)) == goal
      {
        fired, threw := TierStep(t, dir, ps, k, n, fired, ev, rank);
        if threw {
          return;
        }
        k := k + 1;
      }
      assert ps[k..] == [];
    }

    /** One turn of the `forEach`: the neighbour `ps[k]` is skipped once the
        flag is set, otherwise it is emitted to. */
    method TierStep(t: Ref, dir: Dir, ps: seq<Ref>, k: nat, n: Name, has: bool, ev: Event?, ghost rank: map<Ref, nat>)
      returns (fired: bool, threw: bool)
      requires k < |ps| && Consistent(store) && Ranked(store, rank)
      requires forall p :: p in ps ==> p in List(store, t, Next(dir))
      modifies this`store, registry.trace, ev
      ensures Consistent(store) && Ranked(store, rank)
      ensures forall p :: p in ps ==> p in List(store, t, Next(dir))
      ensures var o := HBubble(registry.fx, registry.strict, rank, t, dir, ps[k..], n, has, old(Cur(ev)));
        if threw then !fired && o == Out(Cur(ev), false, true)
        else o == HBubble(registry.fx, registry.strict, rank, t, dir, ps[k + 1..], n, fired, Cur(ev))
      decreases DirRank(dir), Rank(rank, t), 0, 1
    {
      ghost var st1 := Cur(ev);
      HBubbleStep(registry.fx, registry.strict, rank, t, dir, ps[k..], n, has, st1);
      assert ps[k..][1..] == ps[k + 1..];
      fired, threw := has, false;
      if !has {
        fired, threw := TryNeighbour(t, dir, ps[k], n, ev, rank);
        assert List(st1.s, t, Next(dir)) == List(store, t, Next(dir));
        if threw {
          fired := false;
        }
      }
    }

    /** `emitter.emit(neighbour, n, ...)` for one member of the next tier:
        that neighbour's step for `n`, going up, with `bubbling` read anew. */
    method TryNeighbour(t: Ref, dir: Dir, p: Ref, n: Name, ev: Event?, ghost rank: map<Ref, nat>)
      returns (fired: bool, threw: bool)
      requires Consistent(store) && Ranked(store, rank) && p in List(store, t, Next(dir))
      modifies this`store, registry.trace, ev
      ensures Consistent(store) && Ranked(store, rank) && SameLists(old(store), store)
      ensures var e := HName(registry.fx, registry.strict, rank, p, Up, n, old(Bubbling(Descriptor(ev))), old(Cur(ev)));
        Cur(ev) == e.st && threw == e.threw && (!threw ==> fired == e.fired)
      decreases DirRank(dir), Rank(rank, t), 0, 0
    {
      ghost var st1 := Cur(ev);
      assert dir == Up ==> Rank(rank, p) < Rank(rank, t) by {
        if dir == Up {
          assert p in List(store, t, Parents);
        }
      }
      HEmitOneName(registry.fx, registry.strict, rank, p, Up, n, st1);
      fired, threw := Dispatch(p, Up, [n], ev, rank);
      RankedSameLists(st1.s, store, rank);
    }

    /** `emit(target, eventName, ...params)`: bubble towards the parents. */
    method Emit(t: Ref, names: seq<Name>, ev: Event?, ghost rank: map<Ref, nat>) returns (r: EmitResult)
      requires Valid() && (Bubbling(Descriptor(ev)) ==> Ranked(store, rank))
      modifies this`store, registry.trace, ev
      ensures Valid()
      ensures var o := HEmit(registry.fx, registry.strict, rank, t, Up, names, old(Cur(ev)));
        Cur(ev) == o.st && r == Result(o)
    {
      var fired, threw := Dispatch(t, Up, names, ev, rank);
      r := if threw then Threw else Returned(fired);
    }

    /** `broadcast(target, eventName, ...params)`: bubble towards the children. */
    method Broadcast(t: Ref, names: seq<Name>, ev: Event?, ghost rank: map<Ref, nat>) returns (r: EmitResult)
      requires Valid() && (Bubbling(Descriptor(ev)) ==> Ranked(store, rank))
      modifies this`store, registry.trace, ev
      ensures Valid()
      ensures var o := HEmit(registry.fx, registry.strict, rank, t, Down, names, old(Cur(ev)));
        Cur(ev) == o.st && r == Result(o)
    {
      var fired, threw := Dispatch(t, Down, names, ev, rank);
      r := if threw then Threw else Returned(fired);
    }

    /** The module-level `emitAsync` (source lines 86-114), run on this
        emitter: each name's snapshot is awaited listener by listener; the
        parent list it would bubble to is never filled, so nothing bubbles. */
    method DispatchAsync(t: Ref, names: seq<Name>, ev: Event?) returns (fired: bool, threw: bool)
      requires Consistent(store)
      modifies this`store, registry.trace, ev
      ensures var o := AsyncNames(true, registry.fx, registry.strict, t, names, false, old(Cur(ev)));
        Cur(ev) == o.st && fired == o.fired && threw == o.threw
    {
      ghost var goal := AsyncNames(true, registry.fx, registry.strict, t, names, false, Cur(ev));
      fired, threw := false, false;
      for i := 0 to |names|
        invariant Consistent(store)
        invariant AsyncNames(true, registry.fx, registry.strict, t, names[i..], fired, Cur(ev)) == goal
      {
        assert names[i..][1..] == names[i + 1..];
        var snap, _ := DispatchLocal(t, names[i], ev);
        if t in registry.strict && snap == [] && names[i] == ErrorName {
          return fired, true;
        }
        fired := fired || snap != [];
      }
      assert names[|names|..] == [];
    }

    /** `emitAsync(target, eventName, ...params)`. */
    method EmitAsync(t: Ref, names: seq<Name>, ev: Event?) returns (r: EmitResult)
      requires Valid()
      modifies this`store, registry.trace, ev
      ensures Valid()
      ensures var o := AsyncNames(true, registry.fx, registry.strict, t, names, false, old(Cur(ev)));
        Cur(ev) == o.st && r == Result(o)
    {
      var fired, threw := DispatchAsync(t, names, ev);
      r := if threw then Threw else Returned(fired);
    }

    /** `broadcastAsync(target, eventName, ...params)`: the same loop; the
        direction only chooses the (empty) list it would bubble to. */
    method BroadcastAsync(t: Ref, names: seq<Name>, ev: Event?) returns (r: EmitResult)
      requires Valid()
      modifies this`store, registry.trace, ev
      ensures Valid()
      ensures var o := AsyncNames(true, registry.fx, registry.strict, t, names, false, old(Cur(ev)));
        Cur(ev) == o.st && r == Result(o)
    {
      var fired, threw := DispatchAsync(t, names, ev);
      r := if threw then Threw else Returned(fired);
    }

    /** One `this.emit(t, meta, event)` of a meta-event: `event` is fresh and
        does not bubble, so only `t`'s own listeners hear it. */
    method MetaNotify(t: Ref, meta: seq<Name>, e: Event)
      requires Consistent(store) && ErrorName !in meta && Descriptor(e) == Fresh
      modifies this`store, registry.trace, e
      ensures W() == MetaEmit(true, registry.fx, t, meta, old(W()))
    {
      ghost var st0 := Cur(e);
      var fired, threw := Dispatch(t, Up, meta, e, map[]);
      HNamesNotBubbling(registry.fx, registry.strict, map[], t, Up, meta, false, st0);
    }

    /** `listener.forEach(listener => this.emit(t, meta, new XListenerEvent({target, listener})))`. */
    method AnnounceListeners(t: Ref, meta: seq<Name>, kind: Kind, ls: seq<Ref>)
      requires Consistent(store) && ErrorName !in meta && kind.IsListenerEvent()
      modifies this`store, registry.trace
      ensures W() == Announce(true, registry.fx, t, meta, ls, old(W()))
    {
      ghost var goal := Announce(true, registry.fx, t, meta, ls, W());
      for j := 0 to |ls|
        invariant Consistent(store)
        invariant Announce(true, registry.fx, t, meta, ls[j..], W()) == goal
      {
        assert ls[j..][1..] == ls[j + 1..];
        var e := new Event.ListenerEvent(kind, None, Some(t), Some(ls[j]));
        MetaNotify(t, meta, e);
      }
      assert ls[|ls|..] == [];
    }

    /** One name of `on` / `prependListener`: insert the listeners, announce
        each, then the leak check against `max` unless the name was already
        warned about. */
    method AddName(t: Ref, n: Name, ls: seq<Ref>, prepend: bool, meta: seq<Name>, max: nat)
      requires Consistent(store) && ErrorName !in meta && WarnedOnce(registry.log)
      modifies this`store, registry`log, registry.trace
      ensures WarnedOnce(registry.log)
      ensures W() == RegisterName(true, registry.fx, t, n, ls, prepend, meta, Some(max), old(W()))
    {
      var s1 := Insert(store, t, n, ls, prepend);
      store := s1;
      AnnounceListeners(t, meta, NewListener, ls);
      assert EventNames(s1, t) <= EventNames(store, t);
      LeakCheckName(t, n, max);
    }

    /** The leak check of `on` for one name: unless the name was already
        warned about, count its listeners and, over `max`, record the name
        and print the warning. */
    method LeakCheckName(t: Ref, n: Name, max: nat)
      requires Consistent(store) && n in EventNames(store, t) && WarnedOnce(registry.log)
      modifies this`store, registry`log
      ensures store == old(store) && WarnedOnce(registry.log)
      ensures registry.log == LeakCheck(n, LeakCount(registry.fx, store, t, n), max, old(registry.log))
    {
      LeakCheckWarnsOnce(n, LeakCount(registry.fx, store, t, n), max, registry.log);
      if n !in registry.log.warned {
        TouchPresent(store, t, n);
        var count := ListenerCount(t, n);
        if count > max {
          registry.log := Log(registry.log.warned + {n}, registry.log.console + [Warning(count, n)]);
        }
      }
    }

    /** `on(target, eventName, ...listener)` (`prepend` false) and
        `prependListener` (`prepend` true), for the names `makeArray(eventName)`. */
    method Add(t: Ref, names: seq<Name>, ls: seq<Ref>, prepend: bool)
      requires Valid() && WarnedOnce(registry.log)
      modifies this`store, registry`log, registry.trace
      ensures Valid() && WarnedOnce(registry.log)
      ensures W() == Register(true, registry.fx, t, names, ls, prepend, ListenerMeta(registry.nodeEvents, t, true),
                             Some(old(GetMaxListeners(Some(t)))), old(W()))
    {
      var meta := ListenerMeta(registry.nodeEvents, t, true);
      var max := GetMaxListeners(Some(t));
      ghost var goal := Register(true, registry.fx, t, names, ls, prepend, meta, Some(max), W());
      for i := 0 to |names|
        invariant Valid() && WarnedOnce(registry.log)
        invariant Register(true, registry.fx, t, names[i..], ls, prepend, meta, Some(max), W()) == goal
      {
        assert names[i..][1..] == names[i + 1..];
        AddName(t, names[i], ls, prepend, meta, max);
      }
      assert names[|names|..] == [];
    }

    /** `on(target, eventName, ...listener)`. */
    method On(t: Ref, names: seq<Name>, ls: seq<Ref>)
      requires Valid() && WarnedOnce(registry.log)
      modifies this`store, registry`log, registry.trace
      ensures Valid() && WarnedOnce(registry.log)
      ensures W() == Register(true, registry.fx, t, names, ls, false, ListenerMeta(registry.nodeEvents, t, true),
                             Some(old(GetMaxListeners(Some(t)))), old(W()))
    {
      Add(t, names, ls, false);
    }

    /** `prependListener(target, eventName, ...listener)`. */
    method PrependListener(t: Ref, names: seq<Name>, ls: seq<Ref>)
      requires Valid() && WarnedOnce(registry.log)
      modifies this`store, registry`log, registry.trace
      ensures Valid() && WarnedOnce(registry.log)
      ensures W() == Register(true, registry.fx, t, names, ls, true, ListenerMeta(registry.nodeEvents, t, true),
                             Some(old(GetMaxListeners(Some(t)))), old(W()))
    {
      Add(t, names, ls, true);
    }

    /** `once(target, eventName, ...listener)`: a new wrapper function `once`
        is registered with `on` in place of the listeners. */
    method Once(t: Ref, names: seq<Name>, once: Ref)
      requires Valid() && WarnedOnce(registry.log)
      modifies this`store, registry`log, registry.trace
      ensures Valid() && WarnedOnce(registry.log)
      ensures W() == Register(true, registry.fx, t, names, [once], false, ListenerMeta(registry.nodeEvents, t, true),
                             Some(old(GetMaxListeners(Some(t)))), old(W()))
    {
      Add(t, names, [once], false);
    }

    /** `prependOnceListener(target, eventName, ...listener)`: the wrapper is
        registered with `prependListener`. */
    method PrependOnceListener(t: Ref, names: seq<Name>, once: Ref)
      requires Valid() && WarnedOnce(registry.log)
      modifies this`store, registry`log, registry.trace
      ensures Valid() && WarnedOnce(registry.log)
      ensures W() == Register(true, registry.fx, t, names, [once], true, ListenerMeta(registry.nodeEvents, t, true),
                             Some(old(GetMaxListeners(Some(t)))), old(W()))
    {
      Add(t, names, [once], true);
    }

    /** `removeListener(target, eventName, ...listener)`: pull the listeners
        from each name's array and announce each removal under the private
        symbol of a listener addition (and `'removeListener'` for Node-style
        targets). */
    method RemoveListener(t: Ref, names: seq<Name>, ls: seq<Ref>)
      requires Valid()
      modifies this`store, registry.trace
      ensures Valid()
      ensures W() == Unregister(true, registry.fx, t, names, ls, ListenerMeta(registry.nodeEvents, t, false), old(W()))
    {
      var meta := ListenerMeta(registry.nodeEvents, t, false);
      ghost var goal := Unregister(true, registry.fx, t, names, ls, meta, W());
      for i := 0 to |names|
        invariant Valid()
        invariant Unregister(true, registry.fx, t, names[i..], ls, meta, W()) == goal
      {
        assert names[i..][1..] == names[i + 1..];
        ghost var w0 := W();
        store := PullFrom(store, t, names[i], ls);
        assert W() == w0.(s := PullFrom(w0.s, t, names[i], ls));
        AnnounceListeners(t, meta, Kind.RemoveListener, ls);
      }
      assert names[|names|..] == [];
    }

    /** `removeAllListeners(target, eventName)`: the arrays are truncated
        before they are walked, so no removal is announced. */
    method RemoveAllListeners(t: Ref, n: Name)
      requires Valid()
      modifies this`store
      ensures Valid() && store == RemoveAll(old(store), t, n)
    {
      store := RemoveAll(store, t, n);
    }

    /** `addParent(target, ...parent)` (`up`) and `addChild(target, ...child)`. */
    method AddEdges(t: Ref, others: seq<Ref>, up: bool)
      requires Valid()
      modifies this`store, registry.trace
      ensures Valid() && W() == Link(true, registry.fx, t, others, up, old(W()))
    {
      ghost var goal := Link(true, registry.fx, t, others, up, W());
      for i := 0 to |others|
        invariant Valid()
        invariant Link(true, registry.fx, t, others[i..], up, W()) == goal
      {
        assert others[i..][1..] == others[i + 1..] && others[i..][0] == others[i];
        AddEdge(t, others[i], up);
      }
      assert others[|others|..] == [];
    }

    /** One other end `o` of `AddEdges`: both edge arrays, then the meta-event. */
    method AddEdge(t: Ref, o: Ref, up: bool)
      requires Valid()
      modifies this`store, registry.trace
      ensures W() == LinkOne(true, registry.fx, t, o, up, old(W()))
    {
      var e := NewEdgeEvent(t, o, up, true);
      ghost var w0 := W();
      ghost var w1 := w0.(s := PushEdge(w0.s, t, o, up));
      store := PushEdge(store, t, o, up);
      MetaNotify(t, [EdgeEvent(up, true)], e);
      assert W() == LinkOne(true, registry.fx, t, o, up, w0) by {
        assert W() == MetaEmit(true, registry.fx, t, [EdgeEvent(up, true)], w1);
      }
    }

    /** `addParent(target, ...parent)`. */
    method AddParent(t: Ref, parents: seq<Ref>)
      requires Valid()
      modifies this`store, registry.trace
      ensures Valid() && W() == Link(true, registry.fx, t, parents, true, old(W()))
    {
      AddEdges(t, parents, true);
    }

    /** `addChild(target, ...child)`. */
    method AddChild(t: Ref, children: seq<Ref>)
      requires Valid()
      modifies this`store, registry.trace
      ensures Valid() && W() == Link(true, registry.fx, t, children, false, old(W()))
    {
      AddEdges(t, children, false);
    }

    /** `removeParent(target, ...parent)` (`up`) and `removeChild(target, ...child)`. */
    method RemoveEdges(t: Ref, others: seq<Ref>, up: bool)
      requires Valid()
      modifies this`store, registry.trace
      ensures Valid() && W() == Unlink(true, registry.fx, t, others, up, old(W()))
    {
      ghost var goal := Unlink(true, registry.fx, t, others, up, W());
      for i := 0 to |others|
        invariant Valid()
        invariant Unlink(true, registry.fx, t, others[i..], up, W()) == goal
      {
        assert others[i..][1..] == others[i + 1..] && others[i..][0] == others[i];
        RemoveEdge(t, others[i], up);
      }
      assert others[|others|..] == [];
    }

    /** One other end `o` of `RemoveEdges`: both edge arrays, then the meta-event. */
    method RemoveEdge(t: Ref, o: Ref, up: bool)
      requires Valid()
      modifies this`store, registry.trace
      ensures W() == UnlinkOne(true, registry.fx, t, o, up, old(W()))
    {
      var e := NewEdgeEvent(t, o, up, false);
      ghost var w0 := W();
      store := PullEdge(store, t, o, up);
      ghost var w1 := W();
      assert w1 == w0.(s := PullEdge(w0.s, t, o, up));
      MetaNotify(t, [EdgeEvent(up, false)], e);
      assert W() == MetaEmit(true, registry.fx, t, [EdgeEvent(up, false)], w1);
    }

    /** `removeParent(target, ...parent)`. */
    method RemoveParent(t: Ref, parents: seq<Ref>)
      requires Valid()
      modifies this`store, registry.trace
      ensures Valid() && W() == Unlink(true, registry.fx, t, parents, true, old(W()))
    {
      RemoveEdges(t, parents, true);
    }

    /** `removeChild(target, ...child)`. */
    method RemoveChild(t: Ref, children: seq<Ref>)
      requires Valid()
      modifies this`store, registry.trace
      ensures Valid() && W() == Unlink(true, registry.fx, t, children, false, old(W()))
    {
      RemoveEdges(t, children, false);
    }

    /** `listenerCount(target, eventName)` for one name: the number of distinct
        listeners under a truthy name (whose array the lookup creates); for
        the empty name, the parameter counts of every distinct listener of
        the target added up. */
    method ListenerCount(t: Ref, n: Name) returns (count: nat)
      requires Consistent(store)
      modifies this`store
      ensures store == Lookup(true, old(store), t, n)
      ensures count == LeakCount(registry.fx, old(store), t, n)
      ensures Truthy(n) ==> count == |Snapshot(true, store, t, n)|
    {
      ghost var s0 := store;
      store := Lookup(true, store, t, n);
      var ls := Snapshot(true, store, t, n);
      if Truthy(n) {
        assert List(store, t, n) == List(s0, t, n);
        count := |ls|;
      } else {
        assert store == s0;
        count := SumOfArities(registry.fx, ls);
      }
    }

    /** `eventNames(target)`: the target's names in the order they were
        first looked up, edge pseudo-names included. */
    function EventNamesOf(t: Ref): (r: seq<Name>)
      reads this
      requires Valid()
      ensures Distinct(r)
      ensures forall n :: n in r <==> t in store && n in store[t].lists
    {
      EventNames(store, t)
    }

    /** `getParents(target)` (`Up`) and `getChildren(target)` (`Down`): a copy
        of the edge array, which the lookup creates when missing. */
    method Tier(t: Ref, dir: Dir) returns (r: seq<Ref>)
      requires Valid()
      modifies this`store
      ensures Valid() && store == Touch(old(store), t, Next(dir))
      ensures r == List(old(store), t, Next(dir)) && Next(dir) in EventNames(store, t)
    {
      store := Touch(store, t, Next(dir));
      r := List(store, t, Next(dir));
    }

    /** `getParents(target)`. */
    method GetParents(t: Ref) returns (r: seq<Ref>)
      requires Valid()
      modifies this`store
      ensures Valid() && store == Touch(old(store), t, Parents)
      ensures r == List(old(store), t, Parents) && Parents in EventNames(store, t)
    {
      r := Tier(t, Up);
    }

    /** `getChildren(target)`. */
    method GetChildren(t: Ref) returns (r: seq<Ref>)
      requires Valid()
      modifies this`store
      ensures Valid() && store == Touch(old(store), t, Children)
      ensures r == List(old(store), t, Children) && Children in EventNames(store, t)
    {
      r := Tier(t, Down);
    }

    /** `listeners(target, eventName)` for one name: the de-duplicated array
        of a truthy name (created when missing), or every distinct listener
        of the target for the empty name. */
    method Listeners(t: Ref, n: Name) returns (r: seq<Ref>)
      requires Valid()
      modifies this`store
      ensures Valid() && store == Lookup(true, old(store), t, n)
      ensures Truthy(n) ==> n in EventNames(store, t)
      ensures r == Snapshot(true, old(store), t, n)
      ensures Distinct(r) && forall l :: l in r <==> Registered(true, old(store), t, n, l)
    {
      ghost var s0 := store;
      store := Lookup(true, store, t, n);
      r := Snapshot(true, store, t, n);
      if Truthy(n) {
        assert List(store, t, n) == List(s0, t, n);
      } else {
        assert store == s0;
      }
    }

    /** `listeners(target, [n1, n2, ...])`: one copy per name, each array
        looked up (and created) in turn; `uniq` over the copies, which are
        distinct arrays, keeps them all. */
    method ListenersOfNames(t: Ref, names: seq<Name>) returns (r: seq<seq<Ref>>)
      requires Valid()
      modifies this`store
      ensures Valid() && store == TouchNames(old(store), t, names)
      ensures r == Copies(old(store), t, names)
    {
      ghost var s0 := store;
      r := [];
      for i := 0 to |names|
        invariant Consistent(store) && store == TouchNames(s0, t, names[..i])
        invariant SameLists(s0, store)
        invariant r == Copies(s0, t, names[..i])
      {
        TouchNamesStep(s0, store, t, names, i);
        store := Touch(store, t, names[i]);
        r := r + [List(store, t, names[i])];
      }
      assert names[..|names|] == names;
    }

    /** `listenerCount(target, [n1, n2, ...])`: the length of the flattened
        copies, so a listener under two of the names, or twice under one,
        counts each time. */
    method ListenerCountOfNames(t: Ref, names: seq<Name>) returns (count: nat)
      requires Valid()
      modifies this`store
      ensures Valid() && store == TouchNames(old(store), t, names)
      ensures count == SumOfLengths(Copies(old(store), t, names))
    {
      var ls := ListenersOfNames(t, names);
      count := |Flatten(ls)|;
    }
  }
}
