/** `GlobalEventEmitter` (`src/globalEventEmitter.mjs`): the revision whose
    instances are not singletons. An instance records only its namespace key
    and a `maxListeners` slot; the listener store lives under the namespace
    key, so every instance built with the same key shares it. Snapshots are
    plain copies, so a listener added twice runs twice, and bubbling reaches
    every member of the next tier. There is no leak warning, no error for a
    silent `'error'`, and `emit` answers nothing. */
module Global {
  import opened Seqs
  import opened Store
  import opened Events
  import opened Dispatch
  import opened GlobalDispatch
  import opened Lifecycle

  /** The `maxListeners` slot of a new instance. */
  const InitialMaxListeners: nat := 10

  /** The count `listenerCount` answers for the empty name includes every
      array of the target, the edge arrays under `PARENT` and `CHILDREN` too. */
  lemma CountCoversEveryArray(s: Store, t: Ref, m: Name)
    requires Consistent(s) && m in EventNames(s, t)
    ensures |List(s, t, m)| <= SumOfLengths(AllLists(s, t))
  {
    var i :| 0 <= i < |EventNames(s, t)| && EventNames(s, t)[i] == m;
    SumOfLengthsCovers(AllLists(s, t), i);
  }

  /** The store kept under one namespace key. */
  class Space {
    var store: Store

    constructor ()
      ensures store == map[]
    {
      store := map[];
    }
  }

  /** The module-level state: the store of each namespace key used so far,
      the behaviour of listener functions and the record of their calls. */
  class GlobalRegistry {
    var spaces: map<Namespace, Space>
    const fx: Behaviour
    const trace: Trace

    constructor (fx: Behaviour)
      ensures fresh(trace) && trace.calls == []
      ensures spaces == map[] && this.fx == fx
    {
      spaces := map[];
      this.fx := fx;
      trace := new Trace();
    }

    /** `new GlobalEventEmitter({namespace})`: always a new instance, with
        `maxListeners` 10, reading and writing the store already kept under
        the namespace key, or a new empty one. */
    method Construct(namespace: Namespace) returns (e: GlobalEventEmitter)
      modifies this`spaces
      ensures fresh(e) && e.registry == this && e.namespace == namespace && e.maxListeners == InitialMaxListeners
      ensures namespace in old(spaces) ==> e.space == old(spaces[namespace]) && spaces == old(spaces)
      ensures namespace !in old(spaces) ==>
        fresh(e.space) && e.space.store == map[] && spaces == old(spaces)[namespace := e.space]
    {
      var space: Space;
      if namespace in spaces {
        space := spaces[namespace];
      } else {
        space := new Space();
        spaces := spaces[namespace := space];
      }
      e := new GlobalEventEmitter(this, namespace, space);
    }
  }

  class GlobalEventEmitter {
    const registry: GlobalRegistry
    const namespace: Namespace
    /** The store under `namespace`, shared with every instance of that key. */
    const space: Space
    /** The private `maxListeners` slot: read and written, never consulted. */
    var maxListeners: nat

    ghost predicate Valid()
      reads space
    {
      Consistent(space.store)
    }

    constructor (registry: GlobalRegistry, namespace: Namespace, space: Space)
      ensures this.registry == registry && this.namespace == namespace && this.space == space
      ensures maxListeners == InitialMaxListeners
    {
      this.registry := registry;
      this.namespace := namespace;
      this.space := space;
      maxListeners := InitialMaxListeners;
    }

    /** The dispatch state: the listener calls so far, the descriptor as it
        stands, and the namespace's store. */
    function Cur(ev: Event?): St
      reads space, registry.trace, ev
    {
      St(registry.trace.calls, Descriptor(ev), space.store)
    }

    /** What a store operation changes; this revision never logs. */
    function W(): World
      reads space, registry.trace
    {
      World(space.store, registry.trace.calls, Log({}, []))
    }

    /** `getMaxListeners()` and the `maxListeners` getter. */
    function GetMaxListeners(): nat
      reads this
    {
      maxListeners
    }

    /** `setMaxListeners(n)` and the `maxListeners` setter. */
    method SetMaxListeners(n: nat)
      modifies this`maxListeners
      ensures GetMaxListeners() == n
    {
      maxListeners := n;
    }

    /** The module-level `emit` (source lines 54-68), run on this instance. */
    method Dispatch(t: Ref, dir: Dir, names: seq<Name>, ev: Event?, ghost rank: map<Ref, nat>)
      requires Consistent(space.store) && (Bubbling(Descriptor(ev)) ==> Ranked(space.store, rank))
      modifies space, registry.trace, ev
      ensures Cur(ev) == GEmit(registry.fx, rank, t, dir, names, old(Cur(ev)))
      decreases DirRank(dir), Rank(rank, t), 3, 0
    {
      ghost var fx := registry.fx;
      var bub0 := Bubbling(Descriptor(ev));
      ghost var goal := GNames(fx, rank, t, dir, names, bub0, Cur(ev));
      for i := 0 to |names|
        invariant Consistent(space.store) && (bub0 ==> Ranked(space.store, rank))
        invariant GNames(fx, rank, t, dir, names[i..], bub0, Cur(ev)) == goal
      {
        ghost var st1 := Cur(ev);
        assert names[i..][1..] == names[i + 1..];
        DispatchName(t, dir, names[i], bub0, ev, rank);
        RankedSameLists(st1.s, space.store, rank);
      }
      assert names[|names|..] == [];
    }

    /** One name: the local listeners, then the whole next tier when the
        event is neither stopped nor (at the start of the emission)
        non-bubbling. */
    method DispatchName(t: Ref, dir: Dir, n: Name, bub0: bool, ev: Event?, ghost rank: map<Ref, nat>)
      requires Consistent(space.store) && (bub0 ==> Ranked(space.store, rank))
      modifies space, registry.trace, ev
      ensures Cur(ev) == GName(registry.fx, rank, t, dir, n, bub0, old(Cur(ev)))
      decreases DirRank(dir), Rank(rank, t), 2, 0
    {
      ghost var st0 := Cur(ev);
      var _ := DispatchLocal(t, n, ev);
      if !Stopped(Descriptor(ev)) && bub0 {
        RankedSameLists(st0.s, space.store, rank);
        DispatchNext(t, dir, n, ev, rank);
      }
    }

    /** The target's own listeners for one name: a plain copy of the array,
        each entry called unless the event has been stopped. */
    method DispatchLocal(t: Ref, n: Name, ev: Event?) returns (snap: seq<Ref>)
      requires Consistent(space.store)
      modifies space, registry.trace, ev
      ensures snap == List(old(space.store), t, n)
      ensures LocalStep(false, registry.fx, t, n, false, old(Cur(ev))).st == Cur(ev)
    {
      space.store := Lookup(false, space.store, t, n);
      snap := Snapshot(false, space.store, t, n);
      var _ := RunListeners(registry.trace, registry.fx, t, n, snap, ev, false, space.store);
    }

    /** The next tier of the target, read (and created if missing) after the
        local listeners have run. */
    method DispatchNext(t: Ref, dir: Dir, n: Name, ev: Event?, ghost rank: map<Ref, nat>)
      requires Consistent(space.store) && Ranked(space.store, rank)
      modifies space, registry.trace, ev
      ensures Cur(ev) == GNext(registry.fx, rank, t, dir, n, old(Cur(ev)))
      decreases DirRank(dir), Rank(rank, t), 1, 0
    {
      ghost var st0 := Cur(ev);
      space.store := Lookup(false, space.store, t, Next(dir));
      RankedSameLists(st0.s, space.store, rank);
      var ps := Snapshot(false, space.store, t, Next(dir));
      DispatchTier(t, dir, ps, n, ev, rank);
    }

    /** `listeners(target, NEXT).forEach(parent => emitter.emit(parent, n, ...))`. */
    method DispatchTier(t: Ref, dir: Dir, ps: seq<Ref>, n: Name, ev: Event?, ghost rank: map<Ref, nat>)
      requires Consistent(space.store) && Ranked(space.store, rank)
      requires forall p :: p in ps ==> p in List(space.store, t, Next(dir))
      modifies space, registry.trace, ev
      ensures Cur(ev) == GBubble(registry.fx, rank, t, dir, ps, n, old(Cur(ev)))
      decreases DirRank(dir), Rank(rank, t), 0, 2
    {
      ghost var fx := registry.fx;
      ghost var goal := GBubble(fx, rank, t, dir, ps, n, Cur(ev));
      for k := 0 to |ps|
        invariant Consistent(space.store) && Ranked(space.store, rank)
        invariant forall p :: p in ps ==> p in List(space.store, t, Next(dir))
        invariant GBubble(fx, rank, t, dir, ps[k..], n, Cur(ev)) == goal
      {
        TierStep(t, dir, ps, k, n, ev, rank);
      }
      assert ps[|ps|..] == [];
    }

    /** One turn of the `forEach`: the neighbour `ps[k]` is emitted to. */
    method TierStep(t: Ref, dir: Dir, ps: seq<Ref>, k: nat, n: Name, ev: Event?, ghost rank: map<Ref, nat>)
      requires k < |ps| && Consistent(space.store) && Ranked(space.store, rank)
      requires forall p :: p in ps ==> p in List(space.store, t, Next(dir))
      modifies space, registry.trace, ev
      ensures Consistent(space.store) && Ranked(space.store, rank)
      ensures forall p :: p in ps ==> p in List(space.store, t, Next(dir))
      ensures GBubble(registry.fx, rank, t, dir, ps[k..], n, old(Cur(ev))) == GBubble(registry.fx, rank, t, dir, ps[k + 1..], n, Cur(ev))
      decreases DirRank(dir), Rank(rank, t), 0, 1
    {
      ghost var st1 := Cur(ev);
      ghost var e := GBubbleStep(registry.fx, rank, t, dir, ps[k..], n, st1);
      assert ps[k..][1..] == ps[k + 1..];
      Neighbour(t, dir, ps[k], n, ev, rank);
      assert List(st1.s, t, Next(dir)) == List(space.store, t, Next(dir));
    }

    /** `emitter.emit(neighbour, n, ...)`: that neighbour's step for `n`,
        going up, with `bubbling` read anew. */
    method Neighbour(t: Ref, dir: Dir, p: Ref, n: Name, ev: Event?, ghost rank: map<Ref, nat>)
      requires Consistent(space.store) && Ranked(space.store, rank) && p in List(space.store, t, Next(dir))
      modifies space, registry.trace, ev
      ensures Consistent(space.store) && Ranked(space.store, rank) && SameLists(old(space.store), space.store)
      ensures Cur(ev) == GName(registry.fx, rank, p, Up, n, old(Bubbling(Descriptor(ev))), old(Cur(ev)))
      decreases DirRank(dir), Rank(rank, t), 0, 0
    {
      ghost var st1 := Cur(ev);
      assert dir == Up ==> Rank(rank, p) < Rank(rank, t) by {
        if dir == Up {
          assert p in List(space.store, t, Parents);
        }
      }
      GEmitOneName(registry.fx, rank, p, Up, n, st1);
      Dispatch(p, Up, [n], ev, rank);
      RankedSameLists(st1.s, space.store, rank);
    }

    /** `emit(target, eventName, ...params)`: bubble towards the parents. */
    method Emit(t: Ref, names: seq<Name>, ev: Event?, ghost rank: map<Ref, nat>)
      requires Valid() && (Bubbling(Descriptor(ev)) ==> Ranked(space.store, rank))
      modifies space, registry.trace, ev
      ensures Valid() && Cur(ev) == GEmit(registry.fx, rank, t, Up, names, old(Cur(ev)))
    {
      Dispatch(t, Up, names, ev, rank);
    }

    /** `broadcast(target, eventName, ...params)`: bubble towards the children. */
    method Broadcast(t: Ref, names: seq<Name>, ev: Event?, ghost rank: map<Ref, nat>)
      requires Valid() && (Bubbling(Descriptor(ev)) ==> Ranked(space.store, rank))
      modifies space, registry.trace, ev
      ensures Valid() && Cur(ev) == GEmit(registry.fx, rank, t, Down, names, old(Cur(ev)))
    {
      Dispatch(t, Down, names, ev, rank);
    }

    /** The module-level `emitAsync` (source lines 70-90): each name's copy
        is awaited entry by entry; the parent list it would bubble to is
        never filled, so nothing bubbles. The answer is whether some name had
        an entry on the target. */
    method DispatchAsync(t: Ref, names: seq<Name>, ev: Event?) returns (fired: bool)
      requires Consistent(space.store)
      modifies space, registry.trace, ev
      ensures var o := AsyncNames(false, registry.fx, {}, t, names, false, old(Cur(ev)));
        Cur(ev) == o.st && fired == o.fired
      ensures fired <==> Heard(false, old(space.store), t, names)
    {
      ghost var st0 := Cur(ev);
      AsyncNamesFacts(false, registry.fx, {}, t, names, false, st0);
      ghost var goal := AsyncNames(false, registry.fx, {}, t, names, false, st0);
      fired := false;
      for i := 0 to |names|
        invariant Consistent(space.store)
        invariant AsyncNames(false, registry.fx, {}, t, names[i..], fired, Cur(ev)) == goal
      {
        assert names[i..][1..] == names[i + 1..];
        var snap := DispatchLocal(t, names[i], ev);
        fired := fired || snap != [];
      }
      assert names[|names|..] == [];
    }

    /** `emitAsync(target, eventName, ...params)`. */
    method EmitAsync(t: Ref, names: seq<Name>, ev: Event?) returns (fired: bool)
      requires Valid()
      modifies space, registry.trace, ev
      ensures Valid()
      ensures var o := AsyncNames(false, registry.fx, {}, t, names, false, old(Cur(ev)));
        Cur(ev) == o.st && fired == o.fired
      ensures fired <==> Heard(false, old(space.store), t, names)
    {
      fired := DispatchAsync(t, names, ev);
    }

    /** `broadcastAsync(target, eventName, ...params)`: the same loop. */
    method BroadcastAsync(t: Ref, names: seq<Name>, ev: Event?) returns (fired: bool)
      requires Valid()
      modifies space, registry.trace, ev
      ensures Valid()
      ensures var o := AsyncNames(false, registry.fx, {}, t, names, false, old(Cur(ev)));
        Cur(ev) == o.st && fired == o.fired
      ensures fired <==> Heard(false, old(space.store), t, names)
    {
      fired := DispatchAsync(t, names, ev);
    }

    /** One `this.emit(t, meta, event)` of a meta-event: `event` is fresh and
        does not bubble, so only `t`'s own listeners hear it. */
    method MetaNotify(t: Ref, meta: seq<Name>, e: Event)
      requires Consistent(space.store) && Descriptor(e) == Fresh
      modifies space, registry.trace, e
      ensures W() == MetaEmit(false, registry.fx, t, meta, old(W()))
    {
      ghost var st0 := Cur(e);
      Dispatch(t, Up, meta, e, map[]);
      GNamesNotBubbling(registry.fx, map[], t, Up, meta, st0);
    }

    /** `listener.forEach(listener => this.emit(t, meta, new XListenerEvent({target, listener})))`. */
    method AnnounceListeners(t: Ref, meta: seq<Name>, kind: Kind, ls: seq<Ref>)
      requires Consistent(space.store) && kind.IsListenerEvent()
      modifies space, registry.trace
      ensures W() == Announce(false, registry.fx, t, meta, ls, old(W()))
    {
      ghost var goal := Announce(false, registry.fx, t, meta, ls, W());
      for j := 0 to |ls|
        invariant Consistent(space.store)
        invariant Announce(false, registry.fx, t, meta, ls[j..], W()) == goal
      {
        assert ls[j..][1..] == ls[j + 1..];
        var e := new Event.ListenerEvent(kind, None, Some(t), Some(ls[j]));
        MetaNotify(t, meta, e);
      }
      assert ls[|ls|..] == [];
    }

    /** `on(target, eventName, ...listener)` (`prepend` false) and
        `prependListener` (`prepend` true): per name, insert the listeners
        and announce each under `newListenerEvent`; no leak check. */
    method Add(t: Ref, names: seq<Name>, ls: seq<Ref>, prepend: bool)
      requires Valid()
      modifies space, registry.trace
      ensures Valid() && W() == Register(false, registry.fx, t, names, ls, prepend, [NewListenerEvent], None, old(W()))
    {
      var meta := [NewListenerEvent];
      ghost var goal := Register(false, registry.fx, t, names, ls, prepend, meta, None, W());
      for i := 0 to |names|
        invariant Valid()
        invariant Register(false, registry.fx, t, names[i..], ls, prepend, meta, None, W()) == goal
      {
        assert names[i..][1..] == names[i + 1..];
        AddName(t, names[i], ls, prepend);
      }
      assert names[|names|..] == [];
    }

    /** One name of `on`/`prependListener`: push (or unshift) the listeners,
        then announce each. */
    method AddName(t: Ref, n: Name, ls: seq<Ref>, prepend: bool)
      requires Valid()
      modifies space, registry.trace
      ensures Valid() && W() == RegisterName(false, registry.fx, t, n, ls, prepend, [NewListenerEvent], None, old(W()))
    {
      ghost var w0 := W();
      space.store := Insert(space.store, t, n, ls, prepend);
      assert W() == w0.(s := Insert(w0.s, t, n, ls, prepend));
      AnnounceListeners(t, [NewListenerEvent], NewListener, ls);
    }

    /** `on(target, eventName, ...listener)`. */
    method On(t: Ref, names: seq<Name>, ls: seq<Ref>)
      requires Valid()
      modifies space, registry.trace
      ensures Valid() && W() == Register(false, registry.fx, t, names, ls, false, [NewListenerEvent], None, old(W()))
    {
      Add(t, names, ls, false);
    }

    /** `prependListener(target, eventName, ...listener)`. */
    method PrependListener(t: Ref, names: seq<Name>, ls: seq<Ref>)
      requires Valid()
      modifies space, registry.trace
      ensures Valid() && W() == Register(false, registry.fx, t, names, ls, true, [NewListenerEvent], None, old(W()))
    {
      Add(t, names, ls, true);
    }

    /** `once(target, eventName, ...listener)`: the wrapper `once` is
        registered with `on` in place of the listeners. */
    method Once(t: Ref, names: seq<Name>, once: Ref)
      requires Valid()
      modifies space, registry.trace
      ensures Valid() && W() == Register(false, registry.fx, t, names, [once], false, [NewListenerEvent], None, old(W()))
    {
      Add(t, names, [once], false);
    }

    /** `prependOnceListener(target, eventName, ...listener)`. */
    method PrependOnceListener(t: Ref, names: seq<Name>, once: Ref)
      requires Valid()
      modifies space, registry.trace
      ensures Valid() && W() == Register(false, registry.fx, t, names, [once], true, [NewListenerEvent], None, old(W()))
    {
      Add(t, names, [once], true);
    }

    /** `removeListener(target, eventName, ...listener)`: pull the listeners
        from each name's array and announce each removal under
        `removeListenerEvent`. */
    method RemoveListener(t: Ref, names: seq<Name>, ls: seq<Ref>)
      requires Valid()
      modifies space, registry.trace
      ensures Valid() && W() == Unregister(false, registry.fx, t, names, ls, [RemoveListenerEvent], old(W()))
    {
      var meta := [RemoveListenerEvent];
      ghost var goal := Unregister(false, registry.fx, t, names, ls, meta, W());
      for i := 0 to |names|
        invariant Valid()
        invariant Unregister(false, registry.fx, t, names[i..], ls, meta, W()) == goal
      {
        assert names[i..][1..] == names[i + 1..];
        ghost var w0 := W();
        space.store := PullFrom(space.store, t, names[i], ls);
        assert W() == w0.(s := PullFrom(w0.s, t, names[i], ls));
        AnnounceListeners(t, meta, Kind.RemoveListener, ls);
      }
      assert names[|names|..] == [];
    }

    /** `removeAllListeners(target, eventName)`: the arrays are truncated
        before they are walked, so no removal is announced. */
    method RemoveAllListeners(t: Ref, n: Name)
      requires Valid()
      modifies space
      ensures Valid() && space.store == RemoveAll(old(space.store), t, n)
    {
      space.store := RemoveAll(space.store, t, n);
    }

    /** `addParent(target, ...parent)` (`up`) and `addChild(target, ...child)`. */
    method AddEdges(t: Ref, others: seq<Ref>, up: bool)
      requires Valid()
      modifies space, registry.trace
      ensures Valid() && W() == Link(false, registry.fx, t, others, up, old(W()))
    {
      ghost var goal := Link(false, registry.fx, t, others, up, W());
      for i := 0 to |others|
        invariant Valid()
        invariant Link(false, registry.fx, t, others[i..], up, W()) == goal
      {
        assert others[i..][1..] == others[i + 1..] && others[i..][0] == others[i];
        AddEdge(t, others[i], up);
      }
      assert others[|others|..] == [];
    }

    /** One other end `o` of `AddEdges`: both edge arrays, then the meta-event. */
    method AddEdge(t: Ref, o: Ref, up: bool)
      requires Valid()
      modifies space, registry.trace
      ensures W() == LinkOne(false, registry.fx, t, o, up, old(W()))
    {
      var e := NewEdgeEvent(t, o, up, true);
      ghost var w0 := W();
      space.store := PushEdge(space.store, t, o, up);
      ghost var w1 := W();
      assert w1 == w0.(s := PushEdge(w0.s, t, o, up));
      MetaNotify(t, [EdgeEvent(up, true)], e);
      assert W() == MetaEmit(false, registry.fx, t, [EdgeEvent(up, true)], w1);
    }

    /** `addParent(target, ...parent)`. */
    method AddParent(t: Ref, parents: seq<Ref>)
      requires Valid()
      modifies space, registry.trace
      ensures Valid() && W() == Link(false, registry.fx, t, parents, true, old(W()))
    {
      AddEdges(t, parents, true);
    }

    /** `addChild(target, ...child)`. */
    method AddChild(t: Ref, children: seq<Ref>)
      requires Valid()
      modifies space, registry.trace
      ensures Valid() && W() == Link(false, registry.fx, t, children, false, old(W()))
    {
      AddEdges(t, children, false);
    }

    /** `removeParent(target, ...parent)` (`up`) and `removeChild(target, ...child)`. */
    method RemoveEdges(t: Ref, others: seq<Ref>, up: bool)
      requires Valid()
      modifies space, registry.trace
      ensures Valid() && W() == Unlink(false, registry.fx, t, others, up, old(W()))
    {
      ghost var goal := Unlink(false, registry.fx, t, others, up, W());
      for i := 0 to |others|
        invariant Valid()
        invariant Unlink(false, registry.fx, t, others[i..], up, W()) == goal
      {
        assert others[i..][1..] == others[i + 1..] && others[i..][0] == others[i];
        RemoveEdge(t, others[i], up);
      }
      assert others[|others|..] == [];
    }

    /** One other end `o` of `RemoveEdges`: both edge arrays, then the meta-event. */
    method RemoveEdge(t: Ref, o: Ref, up: bool)
      requires Valid()
      modifies space, registry.trace
      ensures W() == UnlinkOne(false, registry.fx, t, o, up, old(W()))
    {
      var e := NewEdgeEvent(t, o, up, false);
      ghost var w0 := W();
      space.store := PullEdge(space.store, t, o, up);
      ghost var w1 := W();
      assert w1 == w0.(s := PullEdge(w0.s, t, o, up));
      MetaNotify(t, [EdgeEvent(up, false)], e);
      assert W() == MetaEmit(false, registry.fx, t, [EdgeEvent(up, false)], w1);
    }

    /** `removeParent(target, ...parent)`. */
    method RemoveParent(t: Ref, parents: seq<Ref>)
      requires Valid()
      modifies space, registry.trace
      ensures Valid() && W() == Unlink(false, registry.fx, t, parents, true, old(W()))
    {
      RemoveEdges(t, parents, true);
    }

    /** `removeChild(target, ...child)`. */
    method RemoveChild(t: Ref, children: seq<Ref>)
      requires Valid()
      modifies space, registry.trace
      ensures Valid() && W() == Unlink(false, registry.fx, t, children, false, old(W()))
    {
      RemoveEdges(t, children, false);
    }

    /** `eventNames(target)`: the target's names in the order they were
        first looked up, edge pseudo-names included. */
    function EventNamesOf(t: Ref): (r: seq<Name>)
      reads space
      requires Valid()
      ensures Distinct(r)
      ensures forall n :: n in r <==> t in space.store && n in space.store[t].lists
    {
      EventNames(space.store, t)
    }

    /** `listeners(target, eventName)` for one name, the empty one included:
        a plain copy of its array, created when missing; duplicates stay. */
    method Listeners(t: Ref, n: Name) returns (r: seq<Ref>)
      requires Valid()
      modifies space
      ensures Valid() && space.store == Touch(old(space.store), t, n) && n in EventNames(space.store, t)
      ensures r == List(old(space.store), t, n)
    {
      space.store := Touch(space.store, t, n);
      r := List(space.store, t, n);
    }

    /** `listeners(target, [n1, n2, ...])`: one plain copy per name, each
        array looked up (and created) in turn. */
    method ListenersOfNames(t: Ref, names: seq<Name>) returns (r: seq<seq<Ref>>)
      requires Valid()
      modifies space
      ensures Valid() && space.store == TouchNames(old(space.store), t, names)
      ensures r == Copies(old(space.store), t, names)
    {
      ghost var s0 := space.store;
      r := [];
      for i := 0 to |names|
        invariant Consistent(space.store) && space.store == TouchNames(s0, t, names[..i])
        invariant SameLists(s0, space.store)
        invariant r == Copies(s0, t, names[..i])
      {
        TouchNamesStep(s0, space.store, t, names, i);
        space.store := Touch(space.store, t, names[i]);
        r := r + [List(space.store, t, names[i])];
      }
      assert names[..|names|] == names;
    }

    /** `listenerCount(target, eventName)` for one name: the length of the
        copy under a truthy name (whose array the lookup creates); for the
        empty name, the lengths of every array of the target added up, edge
        arrays included. */
    method ListenerCount(t: Ref, n: Name) returns (count: nat)
      requires Valid()
      modifies space
      ensures Valid()
      ensures Truthy(n) ==> space.store == Touch(old(space.store), t, n) && count == |List(old(space.store), t, n)|
      ensures !Truthy(n) ==> space.store == old(space.store) && count == SumOfLengths(AllLists(old(space.store), t))
    {
      if Truthy(n) {
        var ls := Listeners(t, n);
        count := |ls|;
      } else {
        var all := AllLists(space.store, t);
        count := 0;
        for j := 0 to |all|
          invariant space.store == old(space.store) && count == SumOfLengths(all[..j])
        {
          assert all[..j + 1] == all[..j] + [all[j]];
          SumOfLengthsSnoc(all[..j], all[j]);
          count := count + |all[j]|;
        }
        assert all[..|all|] == all;
      }
    }

    /** `listenerCount(target, [n1, n2, ...])`: the length of the flattened
        copies, so a listener under two of the names, or twice under one,
        counts each time. */
    method ListenerCountOfNames(t: Ref, names: seq<Name>) returns (count: nat)
      requires Valid()
      modifies space
      ensures Valid() && space.store == TouchNames(old(space.store), t, names)
      ensures count == SumOfLengths(Copies(old(space.store), t, names))
    {
      var ls := ListenersOfNames(t, names);
      count := |Flatten(ls)|;
    }
  }
}
