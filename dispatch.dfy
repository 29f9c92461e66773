/** What the three emitter revisions share in dispatch: the reading of the
    first emitted argument (`getStoppedFunc` and the `bubbling` default), the
    per-listener loop over a snapshot, and the delivery of meta-events, whose
    descriptors never bubble. */
module Dispatch {
  import opened Seqs
  import opened Store
  import opened Events

  /** What is known of the listener functions: those whose body calls
      `cancelEvent()` on the descriptor it is handed, those that call
      `stopBubbling()`, and each function's declared parameter count (its
      `length`). The bodies are otherwise opaque. */
  datatype Behaviour = Behaviour(cancels: set<Ref>, unbubbles: set<Ref>, arity: map<Ref, nat>)
  {
    /** `l.length`. */
    function Arity(l: Ref): nat
    {
      if l in arity then arity[l] else 0
    }

    /** `ls.reduce((count, l) => count + l.length, 0)`. */
    function Arities(ls: seq<Ref>): nat
    {
      if ls == [] then 0 else Arities(ls[..|ls| - 1]) + Arity(ls[|ls| - 1])
    }
  }

  /** The first emitted argument as the dispatcher sees it: not an object
      (nothing to read), or an object with its current flags. */
  datatype Desc = NonObject | Obj(stopped: bool, bubbling: bool)

  /** `getStoppedFunc(...params)()`: a non-object first argument never stops. */
  predicate Stopped(d: Desc)
  {
    d.Obj? && d.stopped
  }

  /** `const {bubbling=true} = isObject(params[0]) ? params[0] : {}`. */
  predicate Bubbling(d: Desc)
  {
    !d.Obj? || d.bubbling
  }

  /** The descriptor seen through an `Event` reference; `null` stands for a
      first argument that is not an object. */
  function Descriptor(ev: Event?): Desc
    reads ev
  {
    if ev == null then NonObject else Obj(ev.stopped, ev.bubbling)
  }

  /** `d'` is a state the descriptor can reach from `d`: a cancelled event stays
      cancelled and a non-bubbling one stays non-bubbling. */
  ghost predicate Later(d: Desc, d': Desc)
  {
    && d.Obj? == d'.Obj?
    && (Stopped(d) ==> Stopped(d'))
    && (!Bubbling(d) ==> !Bubbling(d'))
  }

  lemma LaterTransitive(d1: Desc, d2: Desc, d3: Desc)
    requires Later(d1, d2) && Later(d2, d3)
    ensures Later(d1, d3)
  {
  }

  /** The effect of running listener `l` on the descriptor. */
  function Apply(fx: Behaviour, l: Ref, d: Desc): (d': Desc)
    ensures Later(d, d')
    ensures d.Obj? ==> (Stopped(d') <==> Stopped(d) || l in fx.cancels)
    ensures d.Obj? ==> (Bubbling(d') <==> Bubbling(d) && l !in fx.unbubbles)
  {
    match d
    case NonObject => NonObject
    case Obj(s, b) => Obj(s || l in fx.cancels, b && l !in fx.unbubbles)
  }

  /** The listener body run on the descriptor object. */
  method RunBody(fx: Behaviour, l: Ref, ev: Event?)
    modifies ev
    ensures Descriptor(ev) == Apply(fx, l, old(Descriptor(ev)))
  {
    if ev != null {
      if l in fx.cancels {
        ev.CancelEvent();
      }
      if l in fx.unbubbles {
        ev.StopBubbling();
      }
    }
  }

  /** One listener invocation: which target, under which name, which listener. */
  datatype Call = Call(target: Ref, name: Name, listener: Ref)

  /** Every call from position `from` on was made under a name of `names`. */
  ghost predicate Named(calls: seq<Call>, from: nat, names: seq<Name>)
  {
    forall i :: from <= i < |calls| ==> calls[i].name in names
  }

  /** Every call from position `from` on was made on target `t`. */
  ghost predicate On(calls: seq<Call>, from: nat, t: Ref)
  {
    forall i :: from <= i < |calls| ==> calls[i].target == t
  }

  lemma NamedJoin(a: seq<Call>, b: seq<Call>, c: seq<Call>, names: seq<Name>)
    requires a <= b && b <= c && Named(b, |a|, names) && Named(c, |b|, names)
    ensures Named(c, |a|, names)
  {
    forall i | |a| <= i < |b| ensures c[i].name in names {
      assert c[i] == b[i];
    }
  }

  lemma OnJoin(a: seq<Call>, b: seq<Call>, c: seq<Call>, t: Ref)
    requires a <= b && b <= c && On(b, |a|, t) && On(c, |b|, t)
    ensures On(c, |a|, t)
  {
    forall i | |a| <= i < |b| ensures c[i].target == t {
      assert c[i] == b[i];
    }
  }

  /** The invocations `l(...params)` for each listener of `ls` in turn. */
  function CallsOf(t: Ref, n: Name, ls: seq<Ref>): (r: seq<Call>)
    ensures |r| == |ls|
    ensures forall i :: 0 <= i < |ls| ==> r[i] == Call(t, n, ls[i])
  {
    seq(|ls|, i requires 0 <= i < |ls| => Call(t, n, ls[i]))
  }

  /** The state a dispatch threads through: the invocations so far, the
      descriptor, and the store (which dispatch only extends with empty arrays). */
  datatype St = St(calls: seq<Call>, d: Desc, s: Store)

  /** Calling listener `l` of target `t` under name `n`. */
  function Invoke(fx: Behaviour, t: Ref, n: Name, l: Ref, st: St): St
  {
    St(st.calls + [Call(t, n, l)], Apply(fx, l, st.d), st.s)
  }

  /** The log of listener invocations, in the order they happen. */
  class Trace {
    var calls: seq<Call>

    constructor ()
      ensures calls == []
    {
      calls := [];
    }
  }

  /** The state after a listener loop and whether some listener ran. */
  datatype Local = Local(st: St, ran: bool)

  /** The loop `snapshot.forEach(l => { if (!stopped()) { ran = true; l(...params); } })`:
      the stop flag is read afresh before every listener. */
  function RunLocal(fx: Behaviour, t: Ref, n: Name, snap: seq<Ref>, st: St, ran: bool): (r: Local)
    ensures r.st.s == st.s
    ensures Later(st.d, r.st.d)
    ensures st.calls <= r.st.calls
    ensures r.ran <==> ran || |r.st.calls| > |st.calls|
    ensures forall i :: |st.calls| <= i < |r.st.calls| ==>
              r.st.calls[i].target == t && r.st.calls[i].name == n && r.st.calls[i].listener in snap
    decreases |snap|
  {
    if snap == [] then Local(st, ran)
    else if Stopped(st.d) then RunLocal(fx, t, n, snap[1..], st, ran)
    else RunLocal(fx, t, n, snap[1..], Invoke(fx, t, n, snap[0], st), true)
  }

  /** Once the stop flag reads true nothing more runs. */
  lemma {:induction false} RunLocalWhenStopped(fx: Behaviour, t: Ref, n: Name, snap: seq<Ref>, st: St, ran: bool)
    requires Stopped(st.d)
    ensures RunLocal(fx, t, n, snap, st, ran) == Local(st, ran)
    decreases |snap|
  {
    if snap != [] {
      RunLocalWhenStopped(fx, t, n, snap[1..], st, ran);
    }
  }

  /** The listeners that ran are a prefix of the snapshot, in order; when the
      prefix is not the whole snapshot the event was stopped. */
  lemma {:induction false} RunLocalPrefix(fx: Behaviour, t: Ref, n: Name, snap: seq<Ref>, st: St, ran: bool) returns (k: nat)
    ensures var r := RunLocal(fx, t, n, snap, st, ran);
      && k <= |snap|
      && r.st.calls == st.calls + CallsOf(t, n, snap[..k])
      && (k < |snap| ==> Stopped(r.st.d))
    decreases |snap|
  {
    if snap == [] {
      k := 0;
    } else if Stopped(st.d) {
      RunLocalWhenStopped(fx, t, n, snap, st, ran);
      k := 0;
    } else {
      var st1 := Invoke(fx, t, n, snap[0], st);
      RunLocalStep(fx, t, n, snap, st, ran);
      var k1 := RunLocalPrefix(fx, t, n, snap[1..], st1, true);
      k := k1 + 1;
      CallsOfCons(t, n, snap, k, st.calls);
    }
  }

  lemma CallsOfCons(t: Ref, n: Name, snap: seq<Ref>, k: nat, calls: seq<Call>)
    requires 0 < k <= |snap|
    ensures (calls + [Call(t, n, snap[0])]) + CallsOf(t, n, snap[1..][..k - 1]) == calls + CallsOf(t, n, snap[..k])
  {
    assert snap[..k] == [snap[0]] + snap[1..][..k - 1];
    assert CallsOf(t, n, snap[..k]) == [Call(t, n, snap[0])] + CallsOf(t, n, snap[1..][..k - 1]);
  }

  /** A descriptor that nothing can stop: a first argument that is not an
      object, or an object not yet stopped while no listener calls
      `cancelEvent()`. */
  ghost predicate Unstoppable(fx: Behaviour, d: Desc)
  {
    !Stopped(d) && (d.Obj? ==> fx.cancels == {})
  }

  /** With a descriptor that nothing can stop every listener of the snapshot
      runs, duplicates included, and the descriptor still cannot be stopped. */
  lemma {:induction false} RunLocalRunsAll(fx: Behaviour, t: Ref, n: Name, snap: seq<Ref>, st: St, ran: bool)
    requires Unstoppable(fx, st.d)
    ensures RunLocal(fx, t, n, snap, st, ran).st.calls == st.calls + CallsOf(t, n, snap)
    ensures RunLocal(fx, t, n, snap, st, ran).ran == (ran || snap != [])
    ensures Unstoppable(fx, RunLocal(fx, t, n, snap, st, ran).st.d)
    decreases |snap|
  {
    if snap != [] {
      var st1 := Invoke(fx, t, n, snap[0], st);
      RunLocalStep(fx, t, n, snap, st, ran);
      RunLocalRunsAll(fx, t, n, snap[1..], st1, true);
      CallsOfHead(t, n, snap, st.calls);
    }
  }

  /** One listener of a snapshot that is not stopped. */
  lemma RunLocalStep(fx: Behaviour, t: Ref, n: Name, snap: seq<Ref>, st: St, ran: bool)
    requires snap != [] && !Stopped(st.d)
    ensures RunLocal(fx, t, n, snap, st, ran) == RunLocal(fx, t, n, snap[1..], Invoke(fx, t, n, snap[0], st), true)
    ensures Unstoppable(fx, st.d) ==> Unstoppable(fx, Invoke(fx, t, n, snap[0], st).d)
  {
  }

  lemma CallsOfHead(t: Ref, n: Name, snap: seq<Ref>, calls: seq<Call>)
    requires snap != []
    ensures (calls + [Call(t, n, snap[0])]) + CallsOf(t, n, snap[1..]) == calls + CallsOf(t, n, snap)
  {
    assert CallsOf(t, n, snap) == [Call(t, n, snap[0])] + CallsOf(t, n, snap[1..]);
  }

  /** Each distinct listener of a de-duplicated snapshot runs at most once. */
  lemma RunLocalOnce(fx: Behaviour, t: Ref, n: Name, snap: seq<Ref>, st: St, ran: bool)
    requires Distinct(snap)
    ensures var r := RunLocal(fx, t, n, snap, st, ran);
      forall i, j :: |st.calls| <= i < j < |r.st.calls| ==> r.st.calls[i] != r.st.calls[j]
  {
    var k := RunLocalPrefix(fx, t, n, snap, st, ran);
    var r := RunLocal(fx, t, n, snap, st, ran);
    var c := CallsOf(t, n, snap[..k]);
    assert r.st.calls == st.calls + c;
    forall i, j | |st.calls| <= i < j < |r.st.calls|
      ensures r.st.calls[i] != r.st.calls[j]
    {
      var a, b := i - |st.calls|, j - |st.calls|;
      assert r.st.calls[i] == c[a] == Call(t, n, snap[a]);
      assert r.st.calls[j] == c[b] == Call(t, n, snap[b]);
    }
  }

  /** The hierarchy direction: `emit` goes to parents, `broadcast` to children. */
  datatype Dir = Up | Down

  /** The reserved name holding the next tier (`NEXT`). */
  function Next(dir: Dir): Name
  {
    if dir == Up then Parents else Children
  }

  /** Every recursive emission goes up, so a downward call ranks above all upward ones. */
  function DirRank(dir: Dir): nat
  {
    if dir == Down then 1 else 0
  }

  /** A ranking of targets, used to show that recursion terminates. */
  function Rank(rank: map<Ref, nat>, t: Ref): nat
  {
    if t in rank then rank[t] else 0
  }

  /** The parent relation is acyclic: every parent ranks strictly below its
      child. The model asks this of every store it bubbles through, so it
      excludes a cycle anywhere. The source fails to terminate only on some
      cycles: those its recursion actually walks round without a listener
      running (the `||` of the hierarchy and target emitters skips the next
      tier once one has), or, in the global emitter, without any listener
      stopping the event or its bubbling. */
  ghost predicate Ranked(s: Store, rank: map<Ref, nat>)
  {
    forall t, p :: p in List(s, t, Parents) ==> Rank(rank, p) < Rank(rank, t)
  }

  lemma RankedSameLists(s: Store, s': Store, rank: map<Ref, nat>)
    requires SameLists(s, s')
    ensures Ranked(s, rank) ==> Ranked(s', rank)
  {
    if Ranked(s, rank) {
      forall t, p | p in List(s', t, Parents) ensures Rank(rank, p) < Rank(rank, t) {
        assert List(s, t, Parents) == List(s', t, Parents);
      }
    }
  }

  /** `l` is in the snapshot `emitter.listeners(t, n)` would take. The
      de-duplicating revisions answer a falsy name with every listener of the
      target (`!eventName` branch); the global revision looks the name up. */
  ghost predicate Registered(dedup: bool, s: Store, t: Ref, n: Name, l: Ref)
  {
    if dedup && !Truthy(n) then exists m :: l in List(s, t, m) else l in List(s, t, n)
  }

  lemma RegisteredSameLists(dedup: bool, s: Store, s': Store)
    requires SameLists(s, s')
    ensures forall t, n, l :: Registered(dedup, s, t, n, l) == Registered(dedup, s', t, n, l)
  {
    forall t, n, l ensures Registered(dedup, s, t, n, l) == Registered(dedup, s', t, n, l) {
      if dedup && !Truthy(n) {
        if exists m :: l in List(s, t, m) {
          var m :| l in List(s, t, m);
          assert l in List(s', t, m);
        }
        if exists m :: l in List(s', t, m) {
          var m :| l in List(s', t, m);
          assert l in List(s, t, m);
        }
      }
    }
  }

  /** `[...allListeners.values()]` holds every listener of the target. */
  lemma AllListsCover(s: Store, t: Ref)
    requires Consistent(s)
    ensures forall l :: l in Flatten(AllLists(s, t)) <==> exists m :: l in List(s, t, m)
  {
    var all := AllLists(s, t);
    forall l ensures l in Flatten(all) <==> exists m :: l in List(s, t, m) {
      if exists m :: l in List(s, t, m) {
        var m :| l in List(s, t, m);
        assert m in EventNames(s, t);
        var i :| 0 <= i < |EventNames(s, t)| && EventNames(s, t)[i] == m;
        assert l in all[i];
      }
      if l in Flatten(all) {
        var i :| 0 <= i < |all| && l in all[i];
        assert l in List(s, t, EventNames(s, t)[i]);
      }
    }
  }

  /** The array lookup `getListeners` performs when `listeners(t, n)` is asked
      for one name: it creates the array, except on the de-duplicating
      revisions' falsy-name branch, which reads every array instead. */
  function Lookup(dedup: bool, s: Store, t: Ref, n: Name): (s': Store)
    requires Consistent(s)
    ensures Consistent(s') && SameLists(s, s') && Grows(s, s')
  {
    if dedup && !Truthy(n) then s else Touch(s, t, n)
  }

  /** The copy `listeners(t, n)` returns for one name: `uniq` of the array in
      the hierarchy and target revisions (of all arrays for a falsy name), the
      plain array in the global one. */
  function Snapshot(dedup: bool, s: Store, t: Ref, n: Name): (r: seq<Ref>)
    requires Consistent(s)
    ensures forall l :: l in r <==> Registered(dedup, s, t, n, l)
    ensures dedup ==> Distinct(r)
  {
    if !dedup then List(s, t, n)
    else if Truthy(n) then Uniq(List(s, t, n))
    else
      AllListsCover(s, t);
      Uniq(Flatten(AllLists(s, t)))
  }

  /** The lookups `listeners(t, [n1, n2, ...])` makes, one `getListeners` per
      name in order: every name, the empty one included, gets its array. */
  function TouchNames(s: Store, t: Ref, names: seq<Name>): (s': Store)
    requires Consistent(s)
    ensures Consistent(s') && SameLists(s, s') && Grows(s, s')
    ensures forall n :: n in names ==> n in EventNames(s', t)
    ensures forall u :: u != t ==> EventNames(s', u) == EventNames(s, u)
    decreases |names|
  {
    if names == [] then s
    else
      var s1 := TouchNames(s, t, names[..|names| - 1]);
      var s' := Touch(s1, t, names[|names| - 1]);
      GrowsTransitive(s, s1, s');
      assert forall n :: n in names ==> n in names[..|names| - 1] || n == names[|names| - 1];
      s'
  }

  /** The copies `listeners(t, [n1, n2, ...])` answers: one plain array per
      name, in order, not de-duplicated. */
  function Copies(s: Store, t: Ref, names: seq<Name>): (r: seq<seq<Ref>>)
    ensures |r| == |names|
    ensures forall i :: 0 <= i < |names| ==> r[i] == List(s, t, names[i])
  {
    seq(|names|, i requires 0 <= i < |names| => List(s, t, names[i]))
  }

  /** One more name looked up after `names`. */
  lemma TouchNamesSnoc(s: Store, t: Ref, names: seq<Name>, n: Name)
    requires Consistent(s)
    ensures TouchNames(s, t, names + [n]) == Touch(TouchNames(s, t, names), t, n)
  {
    assert (names + [n])[..|names|] == names;
  }

  /** One more name copied after `names`. */
  lemma CopiesSnoc(s: Store, t: Ref, names: seq<Name>, n: Name)
    ensures Copies(s, t, names + [n]) == Copies(s, t, names) + [List(s, t, n)]
  {
    var a, b := Copies(s, t, names + [n]), Copies(s, t, names) + [List(s, t, n)];
    forall i | 0 <= i < |a| ensures a[i] == b[i] {
      if i < |names| {
        assert (names + [n])[i] == names[i];
      }
    }
  }

  /** The turn `i` of the loop behind `listeners(t, [n1, n2, ...])`: from the
      store after the first `i` lookups, one more lookup and one more copy. */
  lemma TouchNamesStep(s: Store, s1: Store, t: Ref, names: seq<Name>, i: nat)
    requires Consistent(s) && i < |names| && s1 == TouchNames(s, t, names[..i])
    ensures Touch(s1, t, names[i]) == TouchNames(s, t, names[..i + 1])
    ensures Copies(s, t, names[..i]) + [List(Touch(s1, t, names[i]), t, names[i])] == Copies(s, t, names[..i + 1])
  {
    var n, pre := names[i], names[..i];
    assert names[..i + 1] == pre + [n];
    TouchNamesSnoc(s, t, pre, n);
    CopiesSnoc(s, t, pre, n);
    assert List(Touch(s1, t, n), t, n) == List(s, t, n) by {
      assert List(Touch(s1, t, n), t, n) == List(s1, t, n);
    }
  }

  /** What a dispatch may do to its state: extend the store with empty arrays
      only, append calls only of listeners registered at the start (none once
      the event is stopped), and move the descriptor forward. */
  ghost predicate Extends(dedup: bool, st: St, st': St)
  {
    && Consistent(st'.s) && SameLists(st.s, st'.s) && Grows(st.s, st'.s)
    && st.calls <= st'.calls
    && Later(st.d, st'.d)
    && (Stopped(st.d) ==> st'.calls == st.calls)
    && (forall i :: |st.calls| <= i < |st'.calls| ==>
          Registered(dedup, st.s, st'.calls[i].target, st'.calls[i].name, st'.calls[i].listener))
  }

  lemma ExtendsTransitive(dedup: bool, st1: St, st2: St, st3: St)
    requires Extends(dedup, st1, st2) && Extends(dedup, st2, st3)
    ensures Extends(dedup, st1, st3)
  {
    SameListsTransitive(st1.s, st2.s, st3.s);
    GrowsTransitive(st1.s, st2.s, st3.s);
    RegisteredSameLists(dedup, st1.s, st2.s);
    forall i | |st1.calls| <= i < |st3.calls|
      ensures Registered(dedup, st1.s, st3.calls[i].target, st3.calls[i].name, st3.calls[i].listener)
    {
      if i < |st2.calls| {
        assert st3.calls[i] == st2.calls[i];
      }
    }
  }

  /** The listener loop of one name on one target: look the array up, take the
      snapshot, run it. `ran` is the flag the loop sets; it is passed in so
      that a flag shared across names can be threaded through. */
  function LocalStep(dedup: bool, fx: Behaviour, t: Ref, n: Name, ran: bool, st: St): (r: Local)
    requires Consistent(st.s)
    ensures Extends(dedup, st, r.st)
    ensures r.ran <==> ran || |r.st.calls| > |st.calls|
    ensures forall i :: |st.calls| <= i < |r.st.calls| ==> r.st.calls[i].target == t && r.st.calls[i].name == n
  {
    var s1 := Lookup(dedup, st.s, t, n);
    var r := RunLocal(fx, t, n, Snapshot(dedup, s1, t, n), st.(s := s1), ran);
    RegisteredSameLists(dedup, st.s, s1);
    if Stopped(st.d) then
      RunLocalWhenStopped(fx, t, n, Snapshot(dedup, s1, t, n), st.(s := s1), ran);
      r
    else r
  }

  /** The flag passed in changes nothing but the flag that comes out. */
  lemma LocalStepIgnoresFlag(dedup: bool, fx: Behaviour, t: Ref, n: Name, ran: bool, st: St)
    requires Consistent(st.s)
    ensures LocalStep(dedup, fx, t, n, ran, st).st == LocalStep(dedup, fx, t, n, false, st).st
  {
    var s1 := Lookup(dedup, st.s, t, n);
    RunLocalIgnoresFlag(fx, t, n, Snapshot(dedup, s1, t, n), st.(s := s1), ran);
  }

  lemma {:induction false} RunLocalIgnoresFlag(fx: Behaviour, t: Ref, n: Name, snap: seq<Ref>, st: St, ran: bool)
    ensures RunLocal(fx, t, n, snap, st, ran).st == RunLocal(fx, t, n, snap, st, false).st
    decreases |snap|
  {
    if snap != [] {
      if Stopped(st.d) {
        RunLocalIgnoresFlag(fx, t, n, snap[1..], st, ran);
      }
    }
  }

  /** With de-duplication no listener is called twice by one local step. */
  lemma LocalStepOnce(fx: Behaviour, t: Ref, n: Name, ran: bool, st: St)
    requires Consistent(st.s)
    ensures Distinct(LocalStep(true, fx, t, n, ran, st).st.calls[|st.calls|..])
  {
    var s1 := Lookup(true, st.s, t, n);
    var r := LocalStep(true, fx, t, n, ran, st);
    assert r == RunLocal(fx, t, n, Snapshot(true, s1, t, n), st.(s := s1), ran);
    RunLocalOnce(fx, t, n, Snapshot(true, s1, t, n), st.(s := s1), ran);
    var d := r.st.calls[|st.calls|..];
    forall i, j | 0 <= i < j < |d| ensures d[i] != d[j] {
      assert d[i] == r.st.calls[|st.calls| + i];
      assert d[j] == r.st.calls[|st.calls| + j];
    }
  }

  /** A non-empty snapshot on an event not yet stopped runs at least its first listener. */
  lemma LocalStepRuns(dedup: bool, fx: Behaviour, t: Ref, n: Name, ran: bool, st: St)
    requires Consistent(st.s) && !Stopped(st.d)
    requires Snapshot(dedup, Lookup(dedup, st.s, t, n), t, n) != []
    ensures LocalStep(dedup, fx, t, n, ran, st).ran
  {
  }

  /** With a descriptor nothing can stop, the local step calls the whole
      snapshot, and the descriptor still cannot be stopped. */
  lemma LocalStepRunsAll(dedup: bool, fx: Behaviour, t: Ref, n: Name, ran: bool, st: St)
    requires Consistent(st.s) && Unstoppable(fx, st.d)
    ensures var r := LocalStep(dedup, fx, t, n, ran, st);
      && r.st.calls == st.calls + CallsOf(t, n, Snapshot(dedup, Lookup(dedup, st.s, t, n), t, n))
      && Unstoppable(fx, r.st.d)
  {
    var s1 := Lookup(dedup, st.s, t, n);
    RunLocalRunsAll(fx, t, n, Snapshot(dedup, s1, t, n), st.(s := s1), ran);
  }

  /** For a falsy name the de-duplicating snapshot takes every array of the
      target, the `Parents` and `Children` edge arrays included, so the local
      step calls a parent or child target as if it were a listener. The
      source calls it too, and calling an object that is not a function
      throws a `TypeError` there; the model records a call instead. */
  lemma FalsyNameCallsEdgeMember(fx: Behaviour, t: Ref, n: Name, dir: Dir, p: Ref, st: St)
    requires Consistent(st.s) && Unstoppable(fx, st.d) && !Truthy(n)
    requires p in List(st.s, t, Next(dir))
    ensures Call(t, n, p) in LocalStep(true, fx, t, n, false, st).st.calls
  {
    LocalStepRunsAll(true, fx, t, n, false, st);
    var s1 := Lookup(true, st.s, t, n);
    assert p in List(s1, t, Next(dir));
    assert Registered(true, s1, t, n, p);
    CallsOfContains(st.calls, t, n, Snapshot(true, s1, t, n), p);
  }

  lemma InPrefix<T>(x: T, a: seq<T>, b: seq<T>)
    requires x in a && a <= b
    ensures x in b
  {
    var i :| 0 <= i < |a| && a[i] == x;
    assert b[i] == x;
  }

  /** Every entry of an array has its call in `CallsOf`, after any earlier calls. */
  lemma CallsOfContains(pre: seq<Call>, t: Ref, n: Name, ls: seq<Ref>, l: Ref)
    requires l in ls
    ensures Call(t, n, l) in pre + CallsOf(t, n, ls)
  {
    var i :| 0 <= i < |ls| && ls[i] == l;
    assert (pre + CallsOf(t, n, ls))[|pre| + i] == Call(t, n, l);
  }

  /** Delivery of a meta-event under `names` on `t`. Its descriptor is a fresh
      emitter event, which does not bubble, so only `t`'s own listeners run. */
  function Notify(dedup: bool, fx: Behaviour, t: Ref, names: seq<Name>, st: St): (st': St)
    requires Consistent(st.s)
    ensures Extends(dedup, st, st')
    ensures forall i :: |st.calls| <= i < |st'.calls| ==>
              st'.calls[i].target == t && st'.calls[i].name in names
    decreases |names|
  {
    if names == [] then st
    else
      var loc := LocalStep(dedup, fx, t, names[0], false, st);
      var st' := Notify(dedup, fx, t, names[1..], loc.st);
      ExtendsTransitive(dedup, st, loc.st, st');
      st'
  }

  /** What an emission produces: the new state, the "had listeners" flag, and
      whether the `'error'` check threw (after which nothing else happens). */
  datatype Out = Out(st: St, fired: bool, threw: bool)

  /** Some name of `names` has a listener on `t`: a snapshot would be non-empty. */
  ghost predicate Heard(dedup: bool, s: Store, t: Ref, names: seq<Name>)
  {
    exists n, l :: n in names && Registered(dedup, s, t, n, l)
  }

  lemma HeardStep(dedup: bool, s: Store, s1: Store, s2: Store, t: Ref, names: seq<Name>)
    requires Consistent(s) && names != [] && Consistent(s1) && SameLists(s, s1) && SameLists(s, s2)
    ensures Heard(dedup, s, t, names) <==>
              Snapshot(dedup, s1, t, names[0]) != [] || Heard(dedup, s2, t, names[1..])
  {
    RegisteredSameLists(dedup, s, s1);
    RegisteredSameLists(dedup, s, s2);
    var n := names[0];
    if Heard(dedup, s, t, names) {
      var m, l :| m in names && Registered(dedup, s, t, m, l);
      if m == n {
        assert l in Snapshot(dedup, s1, t, n);
      } else {
        assert m in names[1..];
        assert Registered(dedup, s2, t, m, l);
      }
    }
    if Snapshot(dedup, s1, t, n) != [] {
      assert Registered(dedup, s, t, n, Snapshot(dedup, s1, t, n)[0]);
    }
    if Heard(dedup, s2, t, names[1..]) {
      var m, l :| m in names[1..] && Registered(dedup, s2, t, m, l);
      assert m in names && Registered(dedup, s, t, m, l);
    }
  }

  /** The asynchronous loop `emitAsync`: each name's snapshot is awaited
      listener by listener, skipping them once stopped; the flag records a
      non-empty snapshot whether or not its listeners ran. The hierarchy step
      iterates `$private.get(emitter, NEXT, [])`, which nothing writes, so it
      runs no listener. On a target in `strict`, an `'error'` name with an
      empty snapshot throws. */
  function AsyncNames(dedup: bool, fx: Behaviour, strict: set<Ref>, t: Ref, names: seq<Name>, has: bool, st: St): (r: Out)
    requires Consistent(st.s)
    ensures Consistent(r.st.s) && SameLists(st.s, r.st.s)
    decreases |names|
  {
    if names == [] then Out(st, has, false)
    else
      var n := names[0];
      var snap := Snapshot(dedup, Lookup(dedup, st.s, t, n), t, n);
      var loc := LocalStep(dedup, fx, t, n, false, st);
      if t in strict && snap == [] && n == ErrorName then Out(loc.st, has, true)
      else AsyncNames(dedup, fx, strict, t, names[1..], has || snap != [], loc.st)
  }

  /** What the asynchronous loop guarantees: it only extends the state; every
      call is on the target under one of the names; without a throw the result
      is true exactly when it already was or some name had a listener; a throw
      happens only on a strict target emitting `'error'`. */
  lemma {:induction false} AsyncNamesFacts(dedup: bool, fx: Behaviour, strict: set<Ref>, t: Ref, names: seq<Name>,
                                           has: bool, st: St)
    requires Consistent(st.s)
    ensures var r := AsyncNames(dedup, fx, strict, t, names, has, st);
      && Extends(dedup, st, r.st)
      && On(r.st.calls, |st.calls|, t)
      && Named(r.st.calls, |st.calls|, names)
      && (!r.threw ==> (r.fired <==> has || Heard(dedup, st.s, t, names)))
      && (r.threw ==> t in strict && ErrorName in names)
    decreases |names|
  {
    if names != [] {
      var n := names[0];
      var s1 := Lookup(dedup, st.s, t, n);
      var snap := Snapshot(dedup, s1, t, n);
      var loc := LocalStep(dedup, fx, t, n, false, st);
      if !(t in strict && snap == [] && n == ErrorName) {
        AsyncNamesFacts(dedup, fx, strict, t, names[1..], has || snap != [], loc.st);
        var r := AsyncNames(dedup, fx, strict, t, names[1..], has || snap != [], loc.st);
        ExtendsTransitive(dedup, st, loc.st, r.st);
        HeardStep(dedup, st.s, s1, loc.st.s, t, names);
        assert Named(r.st.calls, |loc.st.calls|, names);
        assert Named(loc.st.calls, |st.calls|, names);
        NamedJoin(st.calls, loc.st.calls, r.st.calls, names);
        OnJoin(st.calls, loc.st.calls, r.st.calls, t);
      }
    }
  }

  /** `snapshot.forEach(listener => { if (!stopped()) { ran = true; listener(...params); } })`,
      with `ran` starting from `ran0`; the store `s` is not touched. */
  method RunListeners(trace: Trace, fx: Behaviour, t: Ref, n: Name, snap: seq<Ref>, ev: Event?, ran0: bool,
                      ghost s: Store) returns (ran: bool)
    modifies trace, ev
    ensures RunLocal(fx, t, n, snap, St(old(trace.calls), old(Descriptor(ev)), s), ran0)
         == Local(St(trace.calls, Descriptor(ev), s), ran)
  {
    ran := ran0;
    for j := 0 to |snap|
      invariant RunLocal(fx, t, n, snap[j..], St(trace.calls, Descriptor(ev), s), ran)
             == RunLocal(fx, t, n, snap, St(old(trace.calls), old(Descriptor(ev)), s), ran0)
    {
      assert snap[j..][1..] == snap[j + 1..];
      if !Stopped(Descriptor(ev)) {
        ran := true;
        trace.calls := trace.calls + [Call(t, n, snap[j])];
        RunBody(fx, snap[j], ev);
      }
    }
  }
}
