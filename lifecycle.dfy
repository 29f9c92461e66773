/** The store-changing operations the three emitter classes share: listener
    registration and removal, the parent/child edges, `removeAllListeners`,
    and (in the hierarchy revision) the leak warning. Each one edits the store
    and then announces the change through a meta-event whose descriptor does
    not bubble, so only the target's own listeners hear it. */
module Lifecycle {
  import opened Seqs
  import opened Store
  import opened Events
  import opened Dispatch

  /** A `console.warn` leak warning: the count that went over the threshold, and the name. */
  datatype Warning = Warning(count: nat, name: Name)

  /** The process-wide leak-warning state: the names already warned about, and the console. */
  datatype Log = Log(warned: set<Name>, console: seq<Warning>)

  /** Every console line is for a different name, and the warned names are exactly those on the console. */
  ghost predicate WarnedOnce(log: Log)
  {
    && (forall i, j :: 0 <= i < j < |log.console| ==> log.console[i].name != log.console[j].name)
    && (forall n :: n in log.warned <==> exists i :: 0 <= i < |log.console| && log.console[i].name == n)
  }

  /** What a store operation changes: the store, the listener calls made by the
      meta-events it emits, and the leak-warning state. */
  datatype World = World(s: Store, calls: seq<Call>, log: Log)

  /** The descriptor of a freshly built emitter event: not stopped, and not bubbling. */
  const Fresh: Desc := Obj(false, false)

  /** The new calls of `w'` were all made on `t` under a name of `meta`. */
  ghost predicate HeardOn(w: World, w': World, t: Ref, meta: seq<Name>)
  {
    && w.calls <= w'.calls
    && forall i :: |w.calls| <= i < |w'.calls| ==> w'.calls[i].target == t && w'.calls[i].name in meta
  }

  lemma HeardOnJoin(w1: World, w2: World, w3: World, t: Ref, meta: seq<Name>)
    requires HeardOn(w1, w2, t, meta) && HeardOn(w2, w3, t, meta)
    ensures HeardOn(w1, w3, t, meta)
  {
    forall i | |w1.calls| <= i < |w3.calls|
      ensures w3.calls[i].target == t && w3.calls[i].name in meta
    {
      if i < |w2.calls| {
        assert w3.calls[i] == w2.calls[i];
      }
    }
  }

  /** One `this.emit(t, meta, new XEvent({...}))`: a fresh event, delivered to `t` only. */
  function MetaEmit(dedup: bool, fx: Behaviour, t: Ref, meta: seq<Name>, w: World): (w': World)
    requires Consistent(w.s)
    ensures Consistent(w'.s) && SameLists(w.s, w'.s) && Grows(w.s, w'.s)
    ensures w'.log == w.log
    ensures HeardOn(w, w', t, meta)
  {
    var st := Notify(dedup, fx, t, meta, St(w.calls, Fresh, w.s));
    w.(s := st.s, calls := st.calls)
  }

  /** `ls.forEach(l => this.emit(t, meta, ...))`: one meta-event per listener argument. */
  function Announce(dedup: bool, fx: Behaviour, t: Ref, meta: seq<Name>, ls: seq<Ref>, w: World): (w': World)
    requires Consistent(w.s)
    ensures Consistent(w'.s) && SameLists(w.s, w'.s) && Grows(w.s, w'.s)
    ensures w'.log == w.log
    ensures HeardOn(w, w', t, meta)
    decreases |ls|
  {
    if ls == [] then w
    else
      var w1 := MetaEmit(dedup, fx, t, meta, w);
      var w2 := Announce(dedup, fx, t, meta, ls[1..], w1);
      SameListsTransitive(w.s, w1.s, w2.s);
      GrowsTransitive(w.s, w1.s, w2.s);
      HeardOnJoin(w, w1, w2, t, meta);
      w2
  }

  /** A meta-event whose name has a listener on `t` makes at least one call:
      the fresh event is not stopped when the first listener is reached. */
  lemma MetaEmitCalls(dedup: bool, fx: Behaviour, t: Ref, n: Name, w: World)
    requires Consistent(w.s) && Truthy(n) && List(w.s, t, n) != []
    ensures |MetaEmit(dedup, fx, t, [n], w).calls| > |w.calls|
  {
    var st := St(w.calls, Fresh, w.s);
    var l := List(w.s, t, n)[0];
    assert Registered(dedup, Lookup(dedup, st.s, t, n), t, n, l);
    LocalStepRuns(dedup, fx, t, n, false, st);
    var loc := LocalStep(dedup, fx, t, n, false, st);
    assert Notify(dedup, fx, t, [n], st) == Notify(dedup, fx, t, [], loc.st);
  }

  /** `listenerCount(t, n)` for one name, as the leak check reads it: the
      length of the de-duplicated array for a truthy name; for the empty name
      `listeners(t)` answers every distinct listener of `t` and the count adds
      up their parameter counts. */
  function LeakCount(fx: Behaviour, s: Store, t: Ref, n: Name): nat
    requires Consistent(s)
  {
    if Truthy(n) then |Uniq(List(s, t, n))| else fx.Arities(Snapshot(true, s, t, n))
  }

  /** The leak check after one name of `on`/`prependListener`, given the
      count: a name not yet warned about whose count exceeds `max` is
      recorded and logged. */
  function LeakCheck(n: Name, count: nat, max: nat, log: Log): (log': Log)
    ensures log.console <= log'.console && log.warned <= log'.warned
  {
    if n in log.warned then log
    else if count > max then Log(log.warned + {n}, log.console + [Warning(count, n)])
    else log
  }

  /** The leak check keeps one warning per name: a name already warned about
      is never logged again, and a new line is for a new name whose count is
      over the threshold. */
  lemma LeakCheckWarnsOnce(n: Name, count: nat, max: nat, log: Log)
    requires WarnedOnce(log)
    ensures var log' := LeakCheck(n, count, max, log);
      && WarnedOnce(log')
      && (n in log.warned ==> log' == log)
      && (forall i :: |log.console| <= i < |log'.console| ==>
            log'.console[i] == Warning(count, n) && n !in log.warned && count > max)
  {
    var log' := LeakCheck(n, count, max, log);
    if log' != log {
      forall m ensures m in log'.warned <==> exists i :: 0 <= i < |log'.console| && log'.console[i].name == m {
        if m == n {
          assert log'.console[|log.console|].name == n;
        } else if m in log.warned {
          var i :| 0 <= i < |log.console| && log.console[i].name == m;
          assert log'.console[i].name == m;
        }
      }
    }
  }

  /** The array after an insertion at the tail (`push`) or the head (`unshift`). */
  function Inserted(l: seq<Ref>, ls: seq<Ref>, prepend: bool): seq<Ref>
  {
    if prepend then ls + l else l + ls
  }

  function Insert(s: Store, t: Ref, n: Name, ls: seq<Ref>, prepend: bool): (s': Store)
    requires Consistent(s)
    ensures Consistent(s') && Grows(s, s') && n in EventNames(s', t)
    ensures forall u, m :: List(s', u, m) == if u == t && m == n then Inserted(List(s, t, n), ls, prepend) else List(s, u, m)
  {
    if prepend then Unshift(s, t, n, ls) else Push(s, t, n, ls)
  }

  /** One name of `on`/`prependListener`: insert, announce each listener, then the leak check when `leak` gives a threshold. */
  function RegisterName(dedup: bool, fx: Behaviour, t: Ref, n: Name, ls: seq<Ref>, prepend: bool,
                        meta: seq<Name>, leak: Option<nat>, w: World): (w': World)
    requires Consistent(w.s)
    ensures Consistent(w'.s) && Grows(w.s, w'.s) && HeardOn(w, w', t, meta)
    ensures forall u, m :: List(w'.s, u, m) == if u == t && m == n then Inserted(List(w.s, t, n), ls, prepend) else List(w.s, u, m)
    ensures w'.log == if leak.Some? then LeakCheck(n, LeakCount(fx, w'.s, t, n), leak.value, w.log) else w.log
  {
    var s1 := Insert(w.s, t, n, ls, prepend);
    var w2 := Announce(dedup, fx, t, meta, ls, w.(s := s1));
    GrowsTransitive(w.s, s1, w2.s);
    w2.(log := if leak.Some? then LeakCheck(n, LeakCount(fx, w2.s, t, n), leak.value, w2.log) else w2.log)
  }

  /** `on` (append) or `prependListener` (prepend), name by name. */
  function Register(dedup: bool, fx: Behaviour, t: Ref, names: seq<Name>, ls: seq<Ref>, prepend: bool,
                    meta: seq<Name>, leak: Option<nat>, w: World): (w': World)
    requires Consistent(w.s)
    ensures Consistent(w'.s) && Grows(w.s, w'.s) && HeardOn(w, w', t, meta)
    ensures leak.None? ==> w'.log == w.log
    decreases |names|
  {
    if names == [] then w
    else
      var w1 := RegisterName(dedup, fx, t, names[0], ls, prepend, meta, leak, w);
      var w' := Register(dedup, fx, t, names[1..], ls, prepend, meta, leak, w1);
      GrowsTransitive(w.s, w1.s, w'.s);
      HeardOnJoin(w, w1, w', t, meta);
      w'
  }

  /** The array under each (target, name) after a registration: `t`'s array
      under a name given `c` times holds `c` copies of the listeners at its
      tail (append) or its head (prepend), in call-site order; every other
      array is unchanged. */
  function AfterRegister(s: Store, t: Ref, names: seq<Name>, ls: seq<Ref>, prepend: bool, u: Ref, m: Name): seq<Ref>
  {
    if u != t then List(s, u, m)
    else if prepend then Times(ls, Count(names, m)) + List(s, t, m)
    else List(s, t, m) + Times(ls, Count(names, m))
  }

  lemma AfterRegisterStep(s: Store, s1: Store, t: Ref, names: seq<Name>, ls: seq<Ref>, prepend: bool)
    requires names != []
    requires forall u, m :: List(s1, u, m) == if u == t && m == names[0] then Inserted(List(s, t, names[0]), ls, prepend) else List(s, u, m)
    ensures forall u, m :: AfterRegister(s1, t, names[1..], ls, prepend, u, m) == AfterRegister(s, t, names, ls, prepend, u, m)
  {
    assert names == [names[0]] + names[1..];
    forall u, m ensures AfterRegister(s1, t, names[1..], ls, prepend, u, m) == AfterRegister(s, t, names, ls, prepend, u, m) {
      if u == t {
        var c := Count(names[1..], m);
        var l := List(s, t, m);
        if m == names[0] {
          assert Count(names, m) == c + 1;
          if prepend {
            TimesCommute(ls, c);
            assert Times(ls, c) + (ls + l) == Times(ls, c + 1) + l;
          } else {
            assert (l + ls) + Times(ls, c) == l + Times(ls, c + 1);
          }
        } else {
          assert Count(names, m) == c;
        }
      }
    }
  }

  lemma {:induction false} RegisterLists(dedup: bool, fx: Behaviour, t: Ref, names: seq<Name>, ls: seq<Ref>,
                                         prepend: bool, meta: seq<Name>, leak: Option<nat>, w: World)
    requires Consistent(w.s)
    ensures var w' := Register(dedup, fx, t, names, ls, prepend, meta, leak, w);
      forall u, m :: List(w'.s, u, m) == AfterRegister(w.s, t, names, ls, prepend, u, m)
    decreases |names|
  {
    if names != [] {
      var w1 := RegisterName(dedup, fx, t, names[0], ls, prepend, meta, leak, w);
      RegisterLists(dedup, fx, t, names[1..], ls, prepend, meta, leak, w1);
      AfterRegisterStep(w.s, w1.s, t, names, ls, prepend);
    }
  }

  /** Over a whole registration the leak log keeps one warning per name, and
      every new line is for one of the given names, truthy, not warned about
      before, with a count over the threshold. */
  lemma {:induction false} RegisterWarnsOnce(dedup: bool, fx: Behaviour, t: Ref, names: seq<Name>, ls: seq<Ref>,
                                             prepend: bool, meta: seq<Name>, max: nat, w: World)
    requires Consistent(w.s) && WarnedOnce(w.log)
    ensures var w' := Register(dedup, fx, t, names, ls, prepend, meta, Some(max), w);
      && WarnedOnce(w'.log)
      && w.log.console <= w'.log.console
      && (forall i :: |w.log.console| <= i < |w'.log.console| ==>
            && w'.log.console[i].name in names
            && w'.log.console[i].name !in w.log.warned && w'.log.console[i].count > max)
    decreases |names|
  {
    if names != [] {
      var n := names[0];
      var w1 := RegisterName(dedup, fx, t, n, ls, prepend, meta, Some(max), w);
      var w' := Register(dedup, fx, t, names[1..], ls, prepend, meta, Some(max), w1);
      var count := LeakCount(fx, w1.s, t, n);
      assert w1.log == LeakCheck(n, count, max, w.log);
      LeakCheckWarnsOnce(n, count, max, w.log);
      RegisterWarnsOnce(dedup, fx, t, names[1..], ls, prepend, meta, max, w1);
      NewWarningsJoin(w.log, w1.log, w'.log, names, max);
    }
  }

  /** The new warning lines of two consecutive steps, the first for
      `names[0]` and the second for the rest of `names`. */
  lemma NewWarningsJoin(l0: Log, l1: Log, l2: Log, names: seq<Name>, max: nat)
    requires names != [] && l0.console <= l1.console <= l2.console && l0.warned <= l1.warned
    requires forall i :: |l0.console| <= i < |l1.console| ==>
      l1.console[i].name == names[0] && names[0] !in l0.warned && l1.console[i].count > max
    requires forall i :: |l1.console| <= i < |l2.console| ==>
      l2.console[i].name in names[1..] && l2.console[i].name !in l1.warned && l2.console[i].count > max
    ensures forall i :: |l0.console| <= i < |l2.console| ==>
      l2.console[i].name in names && l2.console[i].name !in l0.warned && l2.console[i].count > max
  {
    forall i | |l0.console| <= i < |l2.console|
      ensures l2.console[i].name in names && l2.console[i].name !in l0.warned && l2.console[i].count > max
    {
      if i < |l1.console| {
        assert l2.console[i] == l1.console[i];
      } else {
        assert l2.console[i].name in names[1..];
      }
    }
  }

  /** Registering under a single truthy name warns exactly when the name is
      new and its de-duplicated array, as it stands after the insertion, is
      longer than the threshold. */
  lemma RegisterOneNameWarns(dedup: bool, fx: Behaviour, t: Ref, n: Name, ls: seq<Ref>,
                             prepend: bool, meta: seq<Name>, max: nat, w: World)
    requires Consistent(w.s) && Truthy(n)
    ensures var w' := Register(dedup, fx, t, [n], ls, prepend, meta, Some(max), w);
      var count := |Uniq(Inserted(List(w.s, t, n), ls, prepend))|;
      if n !in w.log.warned && count > max
      then w'.log == Log(w.log.warned + {n}, w.log.console + [Warning(count, n)])
      else w'.log == w.log
  {
    var w1 := RegisterName(dedup, fx, t, n, ls, prepend, meta, Some(max), w);
    RegisterSingle(dedup, fx, t, n, ls, prepend, meta, Some(max), w);
    var count := |Uniq(Inserted(List(w.s, t, n), ls, prepend))|;
    assert LeakCount(fx, w1.s, t, n) == count by {
      assert List(w1.s, t, n) == Inserted(List(w.s, t, n), ls, prepend);
    }
    assert w1.log == LeakCheck(n, count, max, w.log);
  }

  /** A registration under one name is that name's step. */
  lemma RegisterSingle(dedup: bool, fx: Behaviour, t: Ref, n: Name, ls: seq<Ref>,
                       prepend: bool, meta: seq<Name>, leak: Option<nat>, w: World)
    requires Consistent(w.s)
    ensures Register(dedup, fx, t, [n], ls, prepend, meta, leak, w) == RegisterName(dedup, fx, t, n, ls, prepend, meta, leak, w)
  {
    assert [n][1..] == [];
  }

  /** One name of `removeListener`: pull every occurrence, then announce each listener. */
  function UnregisterName(dedup: bool, fx: Behaviour, t: Ref, n: Name, ls: seq<Ref>, meta: seq<Name>, w: World): (w': World)
    requires Consistent(w.s)
    ensures Consistent(w'.s) && Grows(w.s, w'.s) && HeardOn(w, w', t, meta) && w'.log == w.log
    ensures forall u, m :: List(w'.s, u, m) == if u == t && m == n then Pull(List(w.s, t, n), ls) else List(w.s, u, m)
  {
    var s1 := PullFrom(w.s, t, n, ls);
    var w2 := Announce(dedup, fx, t, meta, ls, w.(s := s1));
    GrowsTransitive(w.s, s1, w2.s);
    w2
  }

  /** `removeListener`, name by name. */
  function Unregister(dedup: bool, fx: Behaviour, t: Ref, names: seq<Name>, ls: seq<Ref>,
                      meta: seq<Name>, w: World): (w': World)
    requires Consistent(w.s)
    ensures Consistent(w'.s) && Grows(w.s, w'.s) && HeardOn(w, w', t, meta) && w'.log == w.log
    decreases |names|
  {
    if names == [] then w
    else
      var w1 := UnregisterName(dedup, fx, t, names[0], ls, meta, w);
      var w' := Unregister(dedup, fx, t, names[1..], ls, meta, w1);
      GrowsTransitive(w.s, w1.s, w'.s);
      HeardOnJoin(w, w1, w', t, meta);
      w'
  }

  /** The array under each (target, name) after `removeListener`: none of
      the listeners is left under the given names on `t`, the rest keeps its
      order, and every other array is unchanged. */
  function AfterUnregister(s: Store, t: Ref, names: seq<Name>, ls: seq<Ref>, u: Ref, m: Name): seq<Ref>
  {
    if u == t && m in names then Pull(List(s, t, m), ls) else List(s, u, m)
  }

  lemma AfterUnregisterStep(s: Store, s1: Store, t: Ref, names: seq<Name>, ls: seq<Ref>)
    requires names != []
    requires forall u, m :: List(s1, u, m) == if u == t && m == names[0] then Pull(List(s, t, names[0]), ls) else List(s, u, m)
    ensures forall u, m :: AfterUnregister(s1, t, names[1..], ls, u, m) == AfterUnregister(s, t, names, ls, u, m)
  {
    forall u, m ensures AfterUnregister(s1, t, names[1..], ls, u, m) == AfterUnregister(s, t, names, ls, u, m) {
      if u == t && m == names[0] {
        PullTwice(List(s, t, m), ls);
      }
    }
  }

  lemma {:induction false} UnregisterLists(dedup: bool, fx: Behaviour, t: Ref, names: seq<Name>, ls: seq<Ref>,
                                           meta: seq<Name>, w: World)
    requires Consistent(w.s)
    ensures var w' := Unregister(dedup, fx, t, names, ls, meta, w);
      forall u, m :: List(w'.s, u, m) == AfterUnregister(w.s, t, names, ls, u, m)
    decreases |names|
  {
    if names != [] {
      var w1 := UnregisterName(dedup, fx, t, names[0], ls, meta, w);
      UnregisterLists(dedup, fx, t, names[1..], ls, meta, w1);
      AfterUnregisterStep(w.s, w1.s, t, names, ls);
    }
  }

  /** `removeListener` undoes `on`/`prependListener` with the same names and
      listeners when none of those listeners was registered there before. */
  lemma UnregisterUndoesRegister(dedup: bool, fx: Behaviour, t: Ref, names: seq<Name>, ls: seq<Ref>, prepend: bool,
                                 meta: seq<Name>, meta': seq<Name>, leak: Option<nat>, w: World)
    requires Consistent(w.s)
    requires forall m, l :: m in names && l in ls ==> l !in List(w.s, t, m)
    ensures var w1 := Register(dedup, fx, t, names, ls, prepend, meta, leak, w);
      SameLists(w.s, Unregister(dedup, fx, t, names, ls, meta', w1).s)
  {
    var w1 := Register(dedup, fx, t, names, ls, prepend, meta, leak, w);
    var w2 := Unregister(dedup, fx, t, names, ls, meta', w1);
    RegisterLists(dedup, fx, t, names, ls, prepend, meta, leak, w);
    UnregisterLists(dedup, fx, t, names, ls, meta', w1);
    AfterUnregisterUndoes(w.s, w1.s, w2.s, t, names, ls, prepend);
  }

  lemma AfterUnregisterUndoes(s: Store, s1: Store, s2: Store, t: Ref, names: seq<Name>, ls: seq<Ref>, prepend: bool)
    requires forall m, l :: m in names && l in ls ==> l !in List(s, t, m)
    requires forall u, m :: List(s1, u, m) == AfterRegister(s, t, names, ls, prepend, u, m)
    requires forall u, m :: List(s2, u, m) == AfterUnregister(s1, t, names, ls, u, m)
    ensures SameLists(s, s2)
  {
    forall u, m ensures List(s, u, m) == List(s2, u, m) {
      if u == t && m in names {
        RegisteredThenPulled(List(s, t, m), ls, Count(names, m), prepend);
      }
    }
  }

  lemma RegisteredThenPulled(l: seq<Ref>, ls: seq<Ref>, c: nat, prepend: bool)
    requires forall x :: x in ls ==> x !in l
    ensures Pull(if prepend then Times(ls, c) + l else l + Times(ls, c), ls) == l
  {
    PullAbsent(l, ls);
    PullTimes(ls, c);
    if prepend {
      PullAppend(Times(ls, c), l, ls);
    } else {
      PullAppend(l, Times(ls, c), ls);
    }
  }

  /** `removeAllListeners(t, n)` with a name. The test in the source is
      inverted: a truthy name empties every array of `t`, edge arrays
      included; the empty name empties only the array under it. Each array is
      emptied before it is iterated, so no meta-event is ever emitted. */
  function RemoveAll(s: Store, t: Ref, n: Name): (s': Store)
    requires Consistent(s)
    ensures Consistent(s') && Grows(s, s')
    ensures forall u, m :: List(s', u, m) == if u == t && (Truthy(n) || m == n) then [] else List(s, u, m)
  {
    if Truthy(n) then TruncateAll(s, t)
    else SetList(Touch(s, t, n), t, n, [])
  }

  /** The pseudo-name under which `t` keeps its own edge array (`PARENT` for parents), and the mirror one. */
  function Mine(up: bool): Name
  {
    if up then Parents else Children
  }

  function Theirs(up: bool): Name
  {
    if up then Children else Parents
  }

  /** The meta-event name of an edge operation. */
  function EdgeEvent(up: bool, add: bool): Name
  {
    if up then (if add then AddParentEvent else RemoveParentEvent)
    else (if add then AddChildEvent else RemoveChildEvent)
  }

  /** The arrays after one edge is added: `o` at the tail of `t`'s edge array, `t` at the tail of `o`'s mirror array. */
  function AfterLinkOne(s: Store, t: Ref, o: Ref, up: bool, u: Ref, m: Name): seq<Ref>
  {
    if u == t && m == Mine(up) then List(s, u, m) + [o]
    else if u == o && m == Theirs(up) then List(s, u, m) + [t]
    else List(s, u, m)
  }

  /** One other end of `addParent` (`up`) or `addChild`: push it on `t`'s edge
      array, push `t` on its mirror array, then emit the add meta-event on `t`. */
  function LinkOne(dedup: bool, fx: Behaviour, t: Ref, o: Ref, up: bool, w: World): (w': World)
    requires Consistent(w.s)
    ensures Consistent(w'.s) && Grows(w.s, w'.s) && HeardOn(w, w', t, [EdgeEvent(up, true)]) && w'.log == w.log
    ensures forall u, m :: List(w'.s, u, m) == AfterLinkOne(w.s, t, o, up, u, m)
  {
    var s2 := PushEdge(w.s, t, o, up);
    var w3 := MetaEmit(dedup, fx, t, [EdgeEvent(up, true)], w.(s := s2));
    GrowsTransitive(w.s, s2, w3.s);
    w3
  }

  /** The two pushes of one edge addition. */
  function PushEdge(s: Store, t: Ref, o: Ref, up: bool): (s': Store)
    requires Consistent(s)
    ensures Consistent(s') && Grows(s, s')
    ensures forall u, m :: List(s', u, m) == AfterLinkOne(s, t, o, up, u, m)
  {
    var s1 := Push(s, t, Mine(up), [o]);
    var s2 := Push(s1, o, Theirs(up), [t]);
    GrowsTransitive(s, s1, s2);
    assert Mine(up) != Theirs(up);
    forall u, m ensures List(s2, u, m) == AfterLinkOne(s, t, o, up, u, m) {
      if u == t && m == Mine(up) {
        assert List(s2, u, m) == List(s1, u, m);
      } else if u == o && m == Theirs(up) {
        assert List(s1, u, m) == List(s, u, m);
      } else {
        assert List(s2, u, m) == List(s1, u, m) == List(s, u, m);
      }
    }
    s2
  }

  /** `addParent(t, ...others)` (`up`) or `addChild(t, ...others)`. */
  function Link(dedup: bool, fx: Behaviour, t: Ref, others: seq<Ref>, up: bool, w: World): (w': World)
    requires Consistent(w.s)
    ensures Consistent(w'.s) && Grows(w.s, w'.s) && HeardOn(w, w', t, [EdgeEvent(up, true)]) && w'.log == w.log
    decreases |others|
  {
    if others == [] then w
    else
      var w1 := LinkOne(dedup, fx, t, others[0], up, w);
      var w' := Link(dedup, fx, t, others[1..], up, w1);
      GrowsTransitive(w.s, w1.s, w'.s);
      HeardOnJoin(w, w1, w', t, [EdgeEvent(up, true)]);
      w'
  }

  /** The edge arrays after adding edges: the other ends are appended to
      `t`'s edge array in call-site order, `t` is appended to each other end's
      mirror array once per time that end was given, and nothing else changes. */
  function AfterLink(s: Store, t: Ref, others: seq<Ref>, up: bool, u: Ref, m: Name): seq<Ref>
  {
    if u == t && m == Mine(up) then List(s, t, m) + others
    else if m == Theirs(up) then List(s, u, m) + Times([t], Count(others, u))
    else List(s, u, m)
  }

  lemma AfterLinkStep(s: Store, s1: Store, t: Ref, others: seq<Ref>, up: bool)
    requires others != []
    requires forall u, m :: List(s1, u, m) == AfterLinkOne(s, t, others[0], up, u, m)
    ensures forall u, m :: AfterLink(s1, t, others[1..], up, u, m) == AfterLink(s, t, others, up, u, m)
  {
    var o := others[0];
    assert others == [o] + others[1..];
    forall u, m ensures AfterLink(s1, t, others[1..], up, u, m) == AfterLink(s, t, others, up, u, m) {
      var l := List(s, u, m);
      if u == t && m == Mine(up) {
        assert (l + [o]) + others[1..] == l + others;
      } else if m == Theirs(up) {
        var c := Count(others[1..], u);
        if u == o {
          assert Count(others, u) == c + 1;
          TimesCommute([t], c);
          assert (l + [t]) + Times([t], c) == l + Times([t], c + 1);
        } else {
          assert Count(others, u) == c;
        }
      }
    }
  }

  lemma {:induction false} LinkLists(dedup: bool, fx: Behaviour, t: Ref, others: seq<Ref>, up: bool, w: World)
    requires Consistent(w.s)
    ensures var w' := Link(dedup, fx, t, others, up, w);
      forall u, m :: List(w'.s, u, m) == AfterLink(w.s, t, others, up, u, m)
    decreases |others|
  {
    if others != [] {
      var w1 := LinkOne(dedup, fx, t, others[0], up, w);
      LinkLists(dedup, fx, t, others[1..], up, w1);
      AfterLinkStep(w.s, w1.s, t, others, up);
    }
  }

  /** The arrays after one edge is removed: `o` pulled from `t`'s edge array, `t` from `o`'s mirror array. */
  function AfterUnlinkOne(s: Store, t: Ref, o: Ref, up: bool, u: Ref, m: Name): seq<Ref>
  {
    if u == t && m == Mine(up) then Pull(List(s, u, m), [o])
    else if u == o && m == Theirs(up) then Pull(List(s, u, m), [t])
    else List(s, u, m)
  }

  /** One other end of `removeParent` (`up`) or `removeChild`: pull it from
      `t`'s edge array, pull `t` from its mirror array, then emit the remove
      meta-event on `t`, whether or not the edge existed. */
  function UnlinkOne(dedup: bool, fx: Behaviour, t: Ref, o: Ref, up: bool, w: World): (w': World)
    requires Consistent(w.s)
    ensures Consistent(w'.s) && Grows(w.s, w'.s) && HeardOn(w, w', t, [EdgeEvent(up, false)]) && w'.log == w.log
    ensures forall u, m :: List(w'.s, u, m) == AfterUnlinkOne(w.s, t, o, up, u, m)
  {
    var s2 := PullEdge(w.s, t, o, up);
    MetaEmit(dedup, fx, t, [EdgeEvent(up, false)], w.(s := s2))
  }

  /** The two pulls of one edge removal. */
  function PullEdge(s: Store, t: Ref, o: Ref, up: bool): (s': Store)
    requires Consistent(s)
    ensures Consistent(s') && Grows(s, s')
    ensures forall u, m :: List(s', u, m) == AfterUnlinkOne(s, t, o, up, u, m)
  {
    var s1 := PullFrom(s, t, Mine(up), [o]);
    var s2 := PullFrom(s1, o, Theirs(up), [t]);
    GrowsTransitive(s, s1, s2);
    assert Mine(up) != Theirs(up);
    forall u, m ensures List(s2, u, m) == AfterUnlinkOne(s, t, o, up, u, m) {
      if u == t && m == Mine(up) {
        assert List(s2, u, m) == List(s1, u, m);
      } else if u == o && m == Theirs(up) {
        assert List(s1, u, m) == List(s, u, m);
      } else {
        assert List(s2, u, m) == List(s1, u, m) == List(s, u, m);
      }
    }
    s2
  }

  /** `removeParent(t, ...others)` (`up`) or `removeChild(t, ...others)`. */
  function Unlink(dedup: bool, fx: Behaviour, t: Ref, others: seq<Ref>, up: bool, w: World): (w': World)
    requires Consistent(w.s)
    ensures Consistent(w'.s) && Grows(w.s, w'.s) && HeardOn(w, w', t, [EdgeEvent(up, false)]) && w'.log == w.log
    decreases |others|
  {
    if others == [] then w
    else
      var w1 := UnlinkOne(dedup, fx, t, others[0], up, w);
      var w' := Unlink(dedup, fx, t, others[1..], up, w1);
      GrowsTransitive(w.s, w1.s, w'.s);
      HeardOnJoin(w, w1, w', t, [EdgeEvent(up, false)]);
      w'
  }

  /** The edge arrays after removing edges: every occurrence of the other
      ends is gone from `t`'s edge array, every occurrence of `t` from each
      other end's mirror array, and nothing else changes. */
  function AfterUnlink(s: Store, t: Ref, others: seq<Ref>, up: bool, u: Ref, m: Name): seq<Ref>
  {
    if u == t && m == Mine(up) then Pull(List(s, t, m), others)
    else if m == Theirs(up) && u in others then Pull(List(s, u, m), [t])
    else List(s, u, m)
  }

  lemma AfterUnlinkStep(s: Store, s1: Store, t: Ref, others: seq<Ref>, up: bool)
    requires others != []
    requires forall u, m :: List(s1, u, m) == AfterUnlinkOne(s, t, others[0], up, u, m)
    ensures forall u, m :: AfterUnlink(s1, t, others[1..], up, u, m) == AfterUnlink(s, t, others, up, u, m)
  {
    var o := others[0];
    assert others == [o] + others[1..];
    forall u, m ensures AfterUnlink(s1, t, others[1..], up, u, m) == AfterUnlink(s, t, others, up, u, m) {
      if u == t && m == Mine(up) {
        PullThenPull(List(s, t, m), [o], others[1..]);
      } else if m == Theirs(up) && u == o {
        PullTwice(List(s, u, m), [t]);
      }
    }
  }

  lemma {:induction false} UnlinkLists(dedup: bool, fx: Behaviour, t: Ref, others: seq<Ref>, up: bool, w: World)
    requires Consistent(w.s)
    ensures var w' := Unlink(dedup, fx, t, others, up, w);
      forall u, m :: List(w'.s, u, m) == AfterUnlink(w.s, t, others, up, u, m)
    decreases |others|
  {
    if others != [] {
      var w1 := UnlinkOne(dedup, fx, t, others[0], up, w);
      UnlinkLists(dedup, fx, t, others[1..], up, w1);
      AfterUnlinkStep(w.s, w1.s, t, others, up);
    } else {
      PullAbsent(List(w.s, t, Mine(up)), []);
    }
  }

  /** Removing edges that do not exist changes no array. */
  lemma UnlinkAbsent(dedup: bool, fx: Behaviour, t: Ref, others: seq<Ref>, up: bool, w: World)
    requires Consistent(w.s)
    requires forall o :: o in others ==> o !in List(w.s, t, Mine(up)) && t !in List(w.s, o, Theirs(up))
    ensures SameLists(w.s, Unlink(dedup, fx, t, others, up, w).s)
  {
    UnlinkLists(dedup, fx, t, others, up, w);
    AfterUnlinkAbsent(w.s, Unlink(dedup, fx, t, others, up, w).s, t, others, up);
  }

  lemma AfterUnlinkAbsent(s: Store, s': Store, t: Ref, others: seq<Ref>, up: bool)
    requires forall o :: o in others ==> o !in List(s, t, Mine(up)) && t !in List(s, o, Theirs(up))
    requires forall u, m :: List(s', u, m) == AfterUnlink(s, t, others, up, u, m)
    ensures SameLists(s, s')
  {
    forall o | o in others {
      PullAbsent(List(s, o, Theirs(up)), [t]);
    }
    PullAbsent(List(s, t, Mine(up)), others);
  }

  /** The remove meta-event is emitted once per other end, present or not:
      when `t` has a listener for it, each one makes at least one call. */
  lemma {:induction false} UnlinkNotifies(dedup: bool, fx: Behaviour, t: Ref, others: seq<Ref>, up: bool, w: World)
    requires Consistent(w.s) && List(w.s, t, EdgeEvent(up, false)) != []
    ensures |Unlink(dedup, fx, t, others, up, w).calls| >= |w.calls| + |others|
    decreases |others|
  {
    if others != [] {
      var w1 := UnlinkOne(dedup, fx, t, others[0], up, w);
      UnlinkOneNotifies(dedup, fx, t, others[0], up, w);
      assert EdgeEvent(up, false) != Mine(up) && EdgeEvent(up, false) != Theirs(up);
      assert List(w1.s, t, EdgeEvent(up, false)) == AfterUnlinkOne(w.s, t, others[0], up, t, EdgeEvent(up, false));
      UnlinkNotifies(dedup, fx, t, others[1..], up, w1);
      assert Unlink(dedup, fx, t, others, up, w) == Unlink(dedup, fx, t, others[1..], up, w1);
    }
  }

  lemma UnlinkOneNotifies(dedup: bool, fx: Behaviour, t: Ref, o: Ref, up: bool, w: World)
    requires Consistent(w.s) && List(w.s, t, EdgeEvent(up, false)) != []
    ensures |UnlinkOne(dedup, fx, t, o, up, w).calls| > |w.calls|
  {
    var s2 := PullEdge(w.s, t, o, up);
    assert List(s2, t, EdgeEvent(up, false)) == List(w.s, t, EdgeEvent(up, false));
    MetaEmitCalls(dedup, fx, t, EdgeEvent(up, false), w.(s := s2));
  }

  /** The edge arrays agree: `v` occurs in `u`'s parents as often as `u` occurs in `v`'s children. */
  ghost predicate Symmetric(s: Store)
  {
    forall u, v :: Count(List(s, u, Parents), v) == Count(List(s, v, Children), u)
  }

  lemma LinkSymmetric(dedup: bool, fx: Behaviour, t: Ref, others: seq<Ref>, up: bool, w: World)
    requires Consistent(w.s) && Symmetric(w.s)
    ensures Symmetric(Link(dedup, fx, t, others, up, w).s)
  {
    LinkLists(dedup, fx, t, others, up, w);
    AfterLinkSymmetric(w.s, Link(dedup, fx, t, others, up, w).s, t, others, up);
  }

  lemma AfterLinkSymmetric(s: Store, s': Store, t: Ref, others: seq<Ref>, up: bool)
    requires Symmetric(s)
    requires forall u, m :: List(s', u, m) == AfterLink(s, t, others, up, u, m)
    ensures Symmetric(s')
  {
    forall u, v ensures Count(List(s', u, Parents), v) == Count(List(s', v, Children), u) {
      AfterLinkPair(List(s, u, Parents), List(s, v, Children), t, others, up, u, v);
    }
  }

  /** One pair of the symmetry after adding edges: `p` and `c` are `u`'s
      parents and `v`'s children before. */
  lemma AfterLinkPair(p: seq<Ref>, c: seq<Ref>, t: Ref, others: seq<Ref>, up: bool, u: Ref, v: Ref)
    requires Count(p, v) == Count(c, u)
    ensures var p' := if up then (if u == t then p + others else p) else p + Times([t], Count(others, u));
      var c' := if up then c + Times([t], Count(others, v)) else (if v == t then c + others else c);
      Count(p', v) == Count(c', u)
  {
    if up {
      CountTimes(t, Count(others, v), u);
      CountAppend(c, Times([t], Count(others, v)), u);
      CountAppend(p, others, v);
    } else {
      CountTimes(t, Count(others, u), v);
      CountAppend(p, Times([t], Count(others, u)), v);
      CountAppend(c, others, u);
    }
  }

  lemma UnlinkSymmetric(dedup: bool, fx: Behaviour, t: Ref, others: seq<Ref>, up: bool, w: World)
    requires Consistent(w.s) && Symmetric(w.s)
    ensures Symmetric(Unlink(dedup, fx, t, others, up, w).s)
  {
    UnlinkLists(dedup, fx, t, others, up, w);
    AfterUnlinkSymmetric(w.s, Unlink(dedup, fx, t, others, up, w).s, t, others, up);
  }

  lemma AfterUnlinkSymmetric(s: Store, s': Store, t: Ref, others: seq<Ref>, up: bool)
    requires Symmetric(s)
    requires forall u, m :: List(s', u, m) == AfterUnlink(s, t, others, up, u, m)
    ensures Symmetric(s')
  {
    forall u, v ensures Count(List(s', u, Parents), v) == Count(List(s', v, Children), u) {
      var p, c := List(s', u, Parents), List(s', v, Children);
      if up {
        assert p == if u == t then Pull(List(s, u, Parents), others) else List(s, u, Parents);
        assert c == if v in others then Pull(List(s, v, Children), [t]) else List(s, v, Children);
      } else {
        assert p == if u in others then Pull(List(s, u, Parents), [t]) else List(s, u, Parents);
        assert c == if v == t then Pull(List(s, v, Children), others) else List(s, v, Children);
      }
    }
  }

  /** Listener registration and removal under ordinary names leave the edges symmetric. */
  lemma RegisterSymmetric(dedup: bool, fx: Behaviour, t: Ref, names: seq<Name>, ls: seq<Ref>, prepend: bool,
                          meta: seq<Name>, leak: Option<nat>, w: World)
    requires Consistent(w.s) && Symmetric(w.s) && Parents !in names && Children !in names
    ensures Symmetric(Register(dedup, fx, t, names, ls, prepend, meta, leak, w).s)
  {
    RegisterLists(dedup, fx, t, names, ls, prepend, meta, leak, w);
    AfterRegisterSymmetric(w.s, Register(dedup, fx, t, names, ls, prepend, meta, leak, w).s, t, names, ls, prepend);
  }

  lemma AfterRegisterSymmetric(s: Store, s': Store, t: Ref, names: seq<Name>, ls: seq<Ref>, prepend: bool)
    requires Symmetric(s) && Parents !in names && Children !in names
    requires forall u, m :: List(s', u, m) == AfterRegister(s, t, names, ls, prepend, u, m)
    ensures Symmetric(s')
  {
    assert Count(names, Parents) == 0 && Count(names, Children) == 0;
    forall u, v ensures Count(List(s', u, Parents), v) == Count(List(s', v, Children), u) {
      assert List(s', u, Parents) == List(s, u, Parents);
      assert List(s', v, Children) == List(s, v, Children);
    }
  }

  lemma UnregisterSymmetric(dedup: bool, fx: Behaviour, t: Ref, names: seq<Name>, ls: seq<Ref>,
                            meta: seq<Name>, w: World)
    requires Consistent(w.s) && Symmetric(w.s) && Parents !in names && Children !in names
    ensures Symmetric(Unregister(dedup, fx, t, names, ls, meta, w).s)
  {
    UnregisterLists(dedup, fx, t, names, ls, meta, w);
    AfterUnregisterSymmetric(w.s, Unregister(dedup, fx, t, names, ls, meta, w).s, t, names, ls);
  }

  lemma AfterUnregisterSymmetric(s: Store, s': Store, t: Ref, names: seq<Name>, ls: seq<Ref>)
    requires Symmetric(s) && Parents !in names && Children !in names
    requires forall u, m :: List(s', u, m) == AfterUnregister(s, t, names, ls, u, m)
    ensures Symmetric(s')
  {
    forall u, v ensures Count(List(s', u, Parents), v) == Count(List(s', v, Children), u) {
      assert List(s', u, Parents) == List(s, u, Parents);
      assert List(s', v, Children) == List(s, v, Children);
    }
  }

  /** `removeAllListeners` with a truthy name empties `t`'s edge arrays but
      not the mirror entries kept by its neighbours: a parent of `t` still
      lists `t` as a child afterwards. */
  lemma RemoveAllBreaksSymmetry(s: Store, t: Ref, n: Name, p: Ref)
    requires Consistent(s) && Symmetric(s) && Truthy(n) && p in List(s, t, Parents) && p != t
    ensures t in List(RemoveAll(s, t, n), p, Children)
    ensures !Symmetric(RemoveAll(s, t, n))
  {
    var s' := RemoveAll(s, t, n);
    assert Count(List(s, t, Parents), p) > 0;
    assert Count(List(s, p, Children), t) > 0;
    assert Count(List(s', t, Parents), p) == 0;
  }

  /** The `AddParentEvent`, `AddChildEvent`, `RemoveParentEvent` or
      `RemoveChildEvent` for the edge between `t` and `o`, `o` being the
      parent when `up`: an emitter event, so not bubbling. */
  method NewEdgeEvent(t: Ref, o: Ref, up: bool, add: bool) returns (e: Event)
    ensures fresh(e) && Descriptor(e) == Fresh && e.kind.IsHierarchyEvent() && e.target == Some(t)
    ensures e.parent == Some(if up then o else t) && e.child == Some(if up then t else o)
    ensures e.kind == (if up then (if add then AddParent else RemoveParent) else (if add then AddChild else RemoveChild))
  {
    var kind := if up then (if add then AddParent else RemoveParent) else (if add then AddChild else RemoveChild);
    e := new Event.HierarchyEvent(kind, None, Some(t), Some(if up then o else t), Some(if up then t else o));
  }

  /** `listeners.reduce((count, listener) => count + listener.length, 0)`. */
  method SumOfArities(fx: Behaviour, ls: seq<Ref>) returns (count: nat)
    ensures count == fx.Arities(ls)
  {
    count := 0;
    for j := 0 to |ls|
      invariant count == fx.Arities(ls[..j])
    {
      assert ls[..j + 1][..j] == ls[..j];
      count := count + fx.Arity(ls[j]);
    }
    assert ls[..|ls|] == ls;
  }
}
