/** `TargetEventEmitter` (`src/targetEventEmitter.mjs`): the revision with one
    emitter per namespace, de-duplicated snapshots, a single "had listeners"
    flag shared by every name of an emission, no leak warning and no error
    for a silent `'error'`. `emit` and `broadcast` answer nothing (they
    return `this` of the module function, which is `undefined`). */
module Target {
  import opened Seqs
  import opened Store
  import opened Events
  import opened Dispatch
  import opened TargetDispatch
  import opened Lifecycle

  /** The `maxListeners` slot of a new emitter. */
  const InitialMaxListeners: nat := 10

  /** The meta-event name of a listener change: `newListenerEvent` for an
      addition, `removeListenerEvent` for a removal. */
  function ListenerMeta(add: bool): (r: seq<Name>)
    ensures ErrorName !in r && |r| == 1
    ensures r[0] == if add then NewListenerEvent else RemoveListenerEvent
  {
    if add then [NewListenerEvent] else [RemoveListenerEvent]
  }

  /** The module-level state: the emitter of each namespace, the behaviour
      of listener functions and the record of their calls. */
  class TargetRegistry {
    var emitters: map<Namespace, TargetEventEmitter>
    const fx: Behaviour
    const trace: Trace

    ghost predicate Valid()
      reads this
    {
      forall ns :: ns in emitters ==> emitters[ns].registry == this && emitters[ns].namespace == ns
    }

    constructor (fx: Behaviour)
      ensures Valid() && fresh(trace) && trace.calls == []
      ensures emitters == map[] && this.fx == fx
    {
      emitters := map[];
      this.fx := fx;
      trace := new Trace();
    }

    /** `new TargetEventEmitter({namespace})`: the emitter already made for
        the namespace, or a new one with an empty store and `maxListeners` 10. */
    method Construct(namespace: Namespace) returns (e: TargetEventEmitter)
      requires Valid()
      modifies this`emitters
      ensures Valid() && e.registry == this && e.namespace == namespace
      ensures namespace in old(emitters) ==> e == old(emitters[namespace]) && emitters == old(emitters)
      ensures namespace !in old(emitters) ==>
        && fresh(e) && emitters == old(emitters)[namespace := e]
        && e.store == map[] && e.maxListeners == InitialMaxListeners
    {
      if namespace in emitters {
        e := emitters[namespace];
      } else {
        e := new TargetEventEmitter(this, namespace);
        emitters := emitters[namespace := e];
      }
    }

    /** `TargetEventEmitter.factory({namespace})`: the existing emitter
        without running the constructor, or a new one. */
    method Factory(namespace: Namespace) returns (e: TargetEventEmitter)
      requires Valid()
      modifies this`emitters
      ensures Valid() && e.registry == this && e.namespace == namespace
      ensures namespace in old(emitters) ==> e == old(emitters[namespace]) && emitters == old(emitters)
      ensures namespace !in old(emitters) ==>
        && fresh(e) && emitters == old(emitters)[namespace := e]
        && e.store == map[] && e.maxListeners == InitialMaxListeners
    {
      if namespace in emitters {
        return emitters[namespace];
      }
      e := Construct(namespace);
    }
  }

  class TargetEventEmitter {
    const registry: TargetRegistry
    const namespace: Namespace
    /** The namespace's listener store. */
    var store: Store
    /** The private `maxListeners` slot: read and written, never consulted. */
    var maxListeners: nat

    ghost predicate Valid()
      reads this
    {
      Consistent(store)
    }

    /** The part of the JavaScript constructor that runs for a new namespace. */
    constructor (registry: TargetRegistry, namespace: Namespace)
      ensures Valid() && this.registry == registry && this.namespace == namespace
      ensures store == map[] && maxListeners == InitialMaxListeners
    {
      this.registry := registry;
      this.namespace := namespace;
      store := map[];
      maxListeners := InitialMaxListeners;
    }

    /** The dispatch state: the listener calls so far, the descriptor as it
        stands, and the store. */
    function Cur(ev: Event?): St
      reads this, registry.trace, ev
    {
      St(registry.trace.calls, Descriptor(ev), store)
    }

    /** What a store operation changes; this revision never logs. */
    function W(): World
      reads this, registry.trace
    {
      World(store, registry.trace.calls, Log({}, []))
    }

    /** `getMaxListeners()` and the `maxListeners` getter. */
    function GetMaxListeners(): nat
      reads this
    {
      maxListeners
    }

    /** `setMaxListeners(n)` and the `maxListeners` setter. */
    method SetMaxListeners(n: nat)
      modifies this`maxListeners
      ensures GetMaxListeners() == n
    {
      maxListeners := n;
    }

    /** The module-level `emit` (source lines 58-76), run on this emitter:
        the names in turn, with one flag threaded through them. */
    method Dispatch(t: Ref, dir: Dir, names: seq<Name>, ev: Event?, ghost rank: map<Ref, nat>)
      requires Consistent(store) && (Bubbling(Descriptor(ev)) ==> Ranked(store, rank))
      modifies this`store, registry.trace, ev
      ensures Cur(ev) == TEmit(registry.fx, rank, t, dir, names, old(Cur(ev)))
      decreases DirRank(dir), Rank(rank, t), 3, 0
    {
      ghost var fx := registry.fx;
      var bub0 := Bubbling(Descriptor(ev));
      ghost var goal := TNames(fx, rank, t, dir, names, bub0, false, Cur(ev));
      var has := false;
      for i := 0 to |names|
        invariant Consistent(store) && (bub0 ==> Ranked(store, rank))
        invariant TNames(fx, rank, t, dir, names[i..], bub0, has, Cur(ev)) == goal
      {
        ghost var st1 := Cur(ev);
        assert names[i..][1..] == names[i + 1..];
        has := DispatchName(t, dir, names[i], bub0, has, ev, rank);
        RankedSameLists(st1.s, store, rank);
      }
      assert names[|names|..] == [];
    }

    /** One name: the local listeners, then the next tier when the event is
        neither stopped nor (at the start of the emission) non-bubbling. */
    method DispatchName(t: Ref, dir: Dir, n: Name, bub0: bool, has: bool, ev: Event?, ghost rank: map<Ref, nat>)
      returns (ran: bool)
      requires Consistent(store) && (bub0 ==> Ranked(store, rank))
      modifies this`store, registry.trace, ev
      ensures TName(registry.fx, rank, t, dir, n, bub0, has, old(Cur(ev))) == Local(Cur(ev), ran)
      decreases DirRank(dir), Rank(rank, t), 2, 0
    {
      ghost var st0 := Cur(ev);
      var _, r := DispatchLocal(t, n, has, ev);
      ghost var loc := Local(Cur(ev), r);
      assert loc == LocalStep(true, registry.fx, t, n, has, st0);
      ran := r;
      if !Stopped(Descriptor(ev)) && bub0 {
        RankedSameLists(st0.s, store, rank);
        assert TName(registry.fx, rank, t, dir, n, bub0, has, st0) == TNext(registry.fx, rank, t, dir, n, loc);
        ran := DispatchNext(t, dir, n, r, ev, rank);
      }
    }

    /** The target's own listeners for one name: the de-duplicated array as
        it stands, each called (and setting the flag) unless stopped. */
    method DispatchLocal(t: Ref, n: Name, has: bool, ev: Event?) returns (snap: seq<Ref>, ran: bool)
      requires Consistent(store)
      modifies this`store, registry.trace, ev
      ensures snap == Snapshot(true, Lookup(true, old(store), t, n), t, n)
      ensures LocalStep(true, registry.fx, t, n, has, old(Cur(ev))) == Local(Cur(ev), ran)
    {
      store := Lookup(true, store, t, n);
      snap := Snapshot(true, store, t, n);
      ran := RunListeners(registry.trace, registry.fx, t, n, snap, ev, has, store);
    }

    /** The next tier of the target, read (and created if missing) after the
        local listeners have run. */
    method DispatchNext(t: Ref, dir: Dir, n: Name, has: bool, ev: Event?, ghost rank: map<Ref, nat>)
      returns (ran: bool)
      requires Consistent(store) && Ranked(store, rank)
      modifies this`store, registry.trace, ev
      ensures TNext(registry.fx, rank, t, dir, n, Local(old(Cur(ev)), has)) == Local(Cur(ev), ran)
      decreases DirRank(dir), Rank(rank, t), 1, 0
    {
      ghost var st0 := Cur(ev);
      store := Lookup(true, store, t, Next(dir));
      RankedSameLists(st0.s, store, rank);
      var ps := Snapshot(true, store, t, Next(dir));
      ran := DispatchTier(t, dir, ps, n, has, ev, rank);
    }

    /** `listeners(target, NEXT).forEach(parent => hasListeners = hasListeners || emitter.emit(...))`. */
    method DispatchTier(t: Ref, dir: Dir, ps: seq<Ref>, n: Name, has: bool, ev: Event?, ghost rank: map<Ref, nat>)
      returns (ran: bool)
      requires Consistent(store) && Ranked(store, rank)
      requires forall p :: p in ps ==> p in List(store, t, Next(dir))
      modifies this`store, registry.trace, ev
      ensures TBubble(registry.fx, rank, t, dir, ps, n, has, old(Cur(ev))) == Local(Cur(ev), ran)
      decreases DirRank(dir), Rank(rank, t), 0, 1
    {
      ghost var fx := registry.fx;
      ghost var goal := TBubble(fx, rank, t, dir, ps, n, has, Cur(ev));
      ran := has;
      for k := 0 to |ps|
        invariant Consistent(store) && Ranked(store, rank)
        invariant forall p :: p in ps ==> p in List(store, t, Next(dir))
        invariant TBubble(fx, rank, t, dir, ps[k..], n, ran, Cur(ev)) == goal
      {
        assert ps[k..][1..] == ps[k + 1..];
        if !ran {
          ghost var st1 := Cur(ev);
          TryNeighbour(t, dir, ps[k], n, ev, rank);
          assert List(st1.s, t, Next(dir)) == List(store, t, Next(dir));
        }
      }
      assert ps[|ps|..] == [];
    }

    /** `emitter.emit(neighbour, n, ...)`: that neighbour's step for `n`,
        going up, with `bubbling` read anew; its `undefined` answer leaves
        the flag as it was. */
    method TryNeighbour(t: Ref, dir: Dir, p: Ref, n: Name, ev: Event?, ghost rank: map<Ref, nat>)
      requires Consistent(store) && Ranked(store, rank) && p in List(store, t, Next(dir))
      modifies this`store, registry.trace, ev
      ensures Consistent(store) && Ranked(store, rank) && SameLists(old(store), store)
      ensures Cur(ev) == TName(registry.fx, rank, p, Up, n, old(Bubbling(Descriptor(ev))), false, old(Cur(ev))).st
      decreases DirRank(dir), Rank(rank, t), 0, 0
    {
      ghost var st1 := Cur(ev);
      assert dir == Up ==> Rank(rank, p) < Rank(rank, t) by {
        if dir == Up {
          assert p in List(store, t, Parents);
        }
      }
      TEmitOneName(registry.fx, rank, p, Up, n, st1);
      Dispatch(p, Up, [n], ev, rank);
      RankedSameLists(st1.s, store, rank);
    }

    /** `emit(target, eventName, ...params)`: bubble towards the parents. */
    method Emit(t: Ref, names: seq<Name>, ev: Event?, ghost rank: map<Ref, nat>)
      requires Valid() && (Bubbling(Descriptor(ev)) ==> Ranked(store, rank))
      modifies this`store, registry.trace, ev
      ensures Valid() && Cur(ev) == TEmit(registry.fx, rank, t, Up, names, old(Cur(ev)))
    {
      Dispatch(t, Up, names, ev, rank);
    }

    /** `broadcast(target, eventName, ...params)`: bubble towards the children. */
    method Broadcast(t: Ref, names: seq<Name>, ev: Event?, ghost rank: map<Ref, nat>)
      requires Valid() && (Bubbling(Descriptor(ev)) ==> Ranked(store, rank))
      modifies this`store, registry.trace, ev
      ensures Valid() && Cur(ev) == TEmit(registry.fx, rank, t, Down, names, old(Cur(ev)))
    {
      Dispatch(t, Down, names, ev, rank);
    }

    /** The module-level `emitAsync` (source lines 78-100): each name's
        snapshot is awaited listener by listener; the parent list it would
        bubble to is never filled, so nothing bubbles. The answer is whether
        some name had a listener on the target. */
    method DispatchAsync(t: Ref, names: seq<Name>, ev: Event?) returns (fired: bool)
      requires Consistent(store)
      modifies this`store, registry.trace, ev
      ensures var o := AsyncNames(true, registry.fx, {}, t, names, false, old(Cur(ev)));
        Cur(ev) == o.st && fired == o.fired
      ensures fired <==> Heard(true, old(store), t, names)
    {
      ghost var st0 := Cur(ev);
      AsyncNamesFacts(true, registry.fx, {}, t, names, false, st0);
      ghost var goal := AsyncNames(true, registry.fx, {}, t, names, false, st0);
      fired := false;
      for i := 0 to |names|
        invariant Consistent(store)
        invariant AsyncNames(true, registry.fx, {}, t, names[i..], fired, Cur(ev)) == goal
      {
        assert names[i..][1..] == names[i + 1..];
        var snap, _ := DispatchLocal(t, names[i], false, ev);
        fired := fired || snap != [];
      }
      assert names[|names|..] == [];
    }

    /** `emitAsync(target, eventName, ...params)`. */
    method EmitAsync(t: Ref, names: seq<Name>, ev: Event?) returns (fired: bool)
      requires Valid()
      modifies this`store, registry.trace, ev
      ensures Valid()
      ensures var o := AsyncNames(true, registry.fx, {}, t, names, false, old(Cur(ev)));
        Cur(ev) == o.st && fired == o.fired
      ensures fired <==> Heard(true, old(store), t, names)
    {
      fired := DispatchAsync(t, names, ev);
    }

    /** `broadcastAsync(target, eventName, ...params)`: the same loop. */
    method BroadcastAsync(t: Ref, names: seq<Name>, ev: Event?) returns (fired: bool)
      requires Valid()
      modifies this`store, registry.trace, ev
      ensures Valid()
      ensures var o := AsyncNames(true, registry.fx, {}, t, names, false, old(Cur(ev)));
        Cur(ev) == o.st && fired == o.fired
      ensures fired <==> Heard(true, old(store), t, names)
    {
      fired := DispatchAsync(t, names, ev);
    }

    /** One `this.emit(t, meta, event)` of a meta-event: `event` is fresh and
        does not bubble, so only `t`'s own listeners hear it. */
    method MetaNotify(t: Ref, meta: seq<Name>, e: Event)
      requires Consistent(store) && Descriptor(e) == Fresh
      modifies this`store, registry.trace, e
      ensures W() == MetaEmit(true, registry.fx, t, meta, old(W()))
    {
      ghost var st0 := Cur(e);
      Dispatch(t, Up, meta, e, map[]);
      TNamesNotBubbling(registry.fx, map[], t, Up, meta, false, st0);
    }

    /** `listener.forEach(listener => this.emit(t, meta, new XListenerEvent({target, listener})))`. */
    method AnnounceListeners(t: Ref, meta: seq<Name>, kind: Kind, ls: seq<Ref>)
      requires Consistent(store) && kind.IsListenerEvent()
      modifies this`store, registry.trace
      ensures W() == Announce(true, registry.fx, t, meta, ls, old(W()))
    {
      ghost var goal := Announce(true, registry.fx, t, meta, ls, W());
      for j := 0 to |ls|
        invariant Consistent(store)
        invariant Announce(true, registry.fx, t, meta, ls[j..], W()) == goal
      {
        assert ls[j..][1..] == ls[j + 1..];
        var e := new Event.ListenerEvent(kind, None, Some(t), Some(ls[j]));
        MetaNotify(t, meta, e);
      }
      assert ls[|ls|..] == [];
    }

    /** `on(target, eventName, ...listener)` (`prepend` false) and
        `prependListener` (`prepend` true): per name, insert the listeners
        and announce each; no leak check. */
    method Add(t: Ref, names: seq<Name>, ls: seq<Ref>, prepend: bool)
      requires Valid()
      modifies this`store, registry.trace
      ensures Valid() && W() == Register(true, registry.fx, t, names, ls, prepend, ListenerMeta(true), None, old(W()))
    {
      var meta := ListenerMeta(true);
      ghost var goal := Register(true, registry.fx, t, names, ls, prepend, meta, None, W());
      for i := 0 to |names|
        invariant Valid()
        invariant Register(true, registry.fx, t, names[i..], ls, prepend, meta, None, W()) == goal
      {
        assert names[i..][1..] == names[i + 1..];
        ghost var w0 := W();
        store := Insert(store, t, names[i], ls, prepend);
        assert W() == w0.(s := Insert(w0.s, t, names[i], ls, prepend));
        AnnounceListeners(t, meta, NewListener, ls);
      }
      assert names[|names|..] == [];
    }

    /** `on(target, eventName, ...listener)`. */
    method On(t: Ref, names: seq<Name>, ls: seq<Ref>)
      requires Valid()
      modifies this`store, registry.trace
      ensures Valid() && W() == Register(true, registry.fx, t, names, ls, false, ListenerMeta(true), None, old(W()))
    {
      Add(t, names, ls, false);
    }

    /** `prependListener(target, eventName, ...listener)`. */
    method PrependListener(t: Ref, names: seq<Name>, ls: seq<Ref>)
      requires Valid()
      modifies this`store, registry.trace
      ensures Valid() && W() == Register(true, registry.fx, t, names, ls, true, ListenerMeta(true), None, old(W()))
    {
      Add(t, names, ls, true);
    }

    /** `once(target, eventName, ...listener)`: the wrapper `once` is
        registered with `on` in place of the listeners. */
    method Once(t: Ref, names: seq<Name>, once: Ref)
      requires Valid()
      modifies this`store, registry.trace
      ensures Valid() && W() == Register(true, registry.fx, t, names, [once], false, ListenerMeta(true), None, old(W()))
    {
      Add(t, names, [once], false);
    }

    /** `prependOnceListener(target, eventName, ...listener)`. */
    method PrependOnceListener(t: Ref, names: seq<Name>, once: Ref)
      requires Valid()
      modifies this`store, registry.trace
      ensures Valid() && W() == Register(true, registry.fx, t, names, [once], true, ListenerMeta(true), None, old(W()))
    {
      Add(t, names, [once], true);
    }

    /** `removeListener(target, eventName, ...listener)`: pull the listeners
        from each name's array and announce each removal under
        `removeListenerEvent`. */
    method RemoveListener(t: Ref, names: seq<Name>, ls: seq<Ref>)
      requires Valid()
      modifies this`store, registry.trace
      ensures Valid() && W() == Unregister(true, registry.fx, t, names, ls, ListenerMeta(false), old(W()))
    {
      var meta := ListenerMeta(false);
      ghost var goal := Unregister(true, registry.fx, t, names, ls, meta, W());
      for i := 0 to |names|
        invariant Valid()
        invariant Unregister(true, registry.fx, t, names[i..], ls, meta, W()) == goal
      {
        assert names[i..][1..] == names[i + 1..];
        ghost var w0 := W();
        store := PullFrom(store, t, names[i], ls);
        assert W() == w0.(s := PullFrom(w0.s, t, names[i], ls));
        AnnounceListeners(t, meta, Kind.RemoveListener, ls);
      }
      assert names[|names|..] == [];
    }

    /** `removeAllListeners(target, eventName)`: the arrays are truncated
        before they are walked, so no removal is announced. */
    method RemoveAllListeners(t: Ref, n: Name)
      requires Valid()
      modifies this`store
      ensures Valid() && store == RemoveAll(old(store), t, n)
    {
      store := RemoveAll(store, t, n);
    }

    /** `addParent(target, ...parent)` (`up`) and `addChild(target, ...child)`. */
    method AddEdges(t: Ref, others: seq<Ref>, up: bool)
      requires Valid()
      modifies this`store, registry.trace
      ensures Valid() && W() == Link(true, registry.fx, t, others, up, old(W()))
    {
      ghost var goal := Link(true, registry.fx, t, others, up, W());
      for i := 0 to |others|
        invariant Valid()
        invariant Link(true, registry.fx, t, others[i..], up, W()) == goal
      {
        assert others[i..][1..] == others[i + 1..] && others[i..][0] == others[i];
        AddEdge(t, others[i], up);
      }
      assert others[|others|..] == [];
    }

    /** One other end `o` of `AddEdges`: both edge arrays, then the meta-event. */
    method AddEdge(t: Ref, o: Ref, up: bool)
      requires Valid()
      modifies this`store, registry.trace
      ensures W() == LinkOne(true, registry.fx, t, o, up, old(W()))
    {
      var e := NewEdgeEvent(t, o, up, true);
      ghost var w0 := W();
      store := PushEdge(store, t, o, up);
      ghost var w1 := W();
      assert w1 == w0.(s := PushEdge(w0.s, t, o, up));
      MetaNotify(t, [EdgeEvent(up, true)], e);
      assert W() == MetaEmit(true, registry.fx, t, [EdgeEvent(up, true)], w1);
    }

    /** `addParent(target, ...parent)`. */
    method AddParent(t: Ref, parents: seq<Ref>)
      requires Valid()
      modifies this`store, registry.trace
      ensures Valid() && W() == Link(true, registry.fx, t, parents, true, old(W()))
    {
      AddEdges(t, parents, true);
    }

    /** `addChild(target, ...child)`. */
    method AddChild(t: Ref, children: seq<Ref>)
      requires Valid()
      modifies this`store, registry.trace
      ensures Valid() && W() == Link(true, registry.fx, t, children, false, old(W()))
    {
      AddEdges(t, children, false);
    }

    /** `removeParent(target, ...parent)` (`up`) and `removeChild(target, ...child)`. */
    method RemoveEdges(t: Ref, others: seq<Ref>, up: bool)
      requires Valid()
      modifies this`store, registry.trace
      ensures Valid() && W() == Unlink(true, registry.fx, t, others, up, old(W()))
    {
      ghost var goal := Unlink(true, registry.fx, t, others, up, W());
      for i := 0 to |others|
        invariant Valid()
        invariant Unlink(true, registry.fx, t, others[i..], up, W()) == goal
      {
        assert others[i..][1..] == others[i + 1..] && others[i..][0] == others[i];
        RemoveEdge(t, others[i], up);
      }
      assert others[|others|..] == [];
    }

    /** One other end `o` of `RemoveEdges`: both edge arrays, then the meta-event. */
    method RemoveEdge(t: Ref, o: Ref, up: bool)
      requires Valid()
      modifies this`store, registry.trace
      ensures W() == UnlinkOne(true, registry.fx, t, o, up, old(W()))
    {
      var e := NewEdgeEvent(t, o, up, false);
      ghost var w0 := W();
      store := PullEdge(store, t, o, up);
      ghost var w1 := W();
      assert w1 == w0.(s := PullEdge(w0.s, t, o, up));
      MetaNotify(t, [EdgeEvent(up, false)], e);
      assert W() == MetaEmit(true, registry.fx, t, [EdgeEvent(up, false)], w1);
    }

    /** `removeParent(target, ...parent)`. */
    method RemoveParent(t: Ref, parents: seq<Ref>)
      requires Valid()
      modifies this`store, registry.trace
      ensures Valid() && W() == Unlink(true, registry.fx, t, parents, true, old(W()))
    {
      RemoveEdges(t, parents, true);
    }

    /** `removeChild(target, ...child)`. */
    method RemoveChild(t: Ref, children: seq<Ref>)
      requires Valid()
      modifies this`store, registry.trace
      ensures Valid() && W() == Unlink(true, registry.fx, t, children, false, old(W()))
    {
      RemoveEdges(t, children, false);
    }

    /** `eventNames(target)`: the target's names in the order they were
        first looked up, edge pseudo-names included. */
    function EventNamesOf(t: Ref): (r: seq<Name>)
      reads this
      requires Valid()
      ensures Distinct(r)
      ensures forall n :: n in r <==> t in store && n in store[t].lists
    {
      EventNames(store, t)
    }

    /** `listeners(target, eventName)` for one name: the de-duplicated array
        of a truthy name (created when missing), or every distinct listener
        of the target for the empty name. */
    method Listeners(t: Ref, n: Name) returns (r: seq<Ref>)
      requires Valid()
      modifies this`store
      ensures Valid() && store == Lookup(true, old(store), t, n)
      ensures Truthy(n) ==> n in EventNames(store, t)
      ensures r == Snapshot(true, old(store), t, n)
      ensures Distinct(r) && forall l :: l in r <==> Registered(true, old(store), t, n, l)
    {
      ghost var s0 := store;
      store := Lookup(true, store, t, n);
      r := Snapshot(true, store, t, n);
      if Truthy(n) {
        assert List(store, t, n) == List(s0, t, n);
      } else {
        assert store == s0;
      }
    }

    /** `listeners(target, [n1, n2, ...])`: one copy per name, each array
        looked up (and created) in turn; `uniq` over the copies, which are
        distinct arrays, keeps them all. */
    method ListenersOfNames(t: Ref, names: seq<Name>) returns (r: seq<seq<Ref>>)
      requires Valid()
      modifies this`store
      ensures Valid() && store == TouchNames(old(store), t, names)
      ensures r == Copies(old(store), t, names)
    {
      ghost var s0 := store;
      r := [];
      for i := 0 to |names|
        invariant Consistent(store) && store == TouchNames(s0, t, names[..i])
        invariant SameLists(s0, store)
        invariant r == Copies(s0, t, names[..i])
      {
        TouchNamesStep(s0, store, t, names, i);
        store := Touch(store, t, names[i]);
        r := r + [List(store, t, names[i])];
      }
      assert names[..|names|] == names;
    }

    /** `listenerCount(target, eventName)` for one name: the number of
        distinct listeners under a truthy name (whose array the lookup
        creates); for the empty name, the parameter counts of every distinct
        listener of the target added up. */
    method ListenerCount(t: Ref, n: Name) returns (count: nat)
      requires Consistent(store)
      modifies this`store
      ensures store == Lookup(true, old(store), t, n)
      ensures count == LeakCount(registry.fx, old(store), t, n)
      ensures Truthy(n) ==> count == |Snapshot(true, store, t, n)|
    {
      ghost var s0 := store;
      store := Lookup(true, store, t, n);
      var ls := Snapshot(true, store, t, n);
      if Truthy(n) {
        assert List(store, t, n) == List(s0, t, n);
        count := |ls|;
      } else {
        assert store == s0;
        count := SumOfArities(registry.fx, ls);
      }
    }

    /** `listenerCount(target, [n1, n2, ...])`: the length of the flattened
        copies, so a listener under two of the names, or twice under one,
        counts each time. */
    method ListenerCountOfNames(t: Ref, names: seq<Name>) returns (count: nat)
      requires Valid()
      modifies this`store
      ensures Valid() && store == TouchNames(old(store), t, names)
      ensures count == SumOfLengths(Copies(old(store), t, names))
    {
      var ls := ListenersOfNames(t, names);
      count := |Flatten(ls)|;
    }
  }
}
