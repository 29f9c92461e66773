/** The dispatch of `src/globalEventEmitter.mjs` (`emit`, lines 54-68) as
    specification functions over the store. There is no "had listeners"
    flag: for each name the target's listeners run from a plain copy of the
    array (duplicates included) unless stopped, and if the event is not
    stopped and was bubbling when the emission began, every member of the
    next tier is sent `emitter.emit`, whatever ran before. */
module GlobalDispatch {
  import opened Seqs
  import opened Store
  import opened Dispatch

  /** One name on one target. */
  function GName(fx: Behaviour, rank: map<Ref, nat>, t: Ref, dir: Dir, n: Name, bub0: bool, st: St): (r: St)
    requires Consistent(st.s) && (bub0 ==> Ranked(st.s, rank))
    ensures Consistent(r.s) && SameLists(st.s, r.s)
    ensures st.calls <= r.calls && Later(st.d, r.d)
    decreases DirRank(dir), Rank(rank, t), 2, 0
  {
    var loc := LocalStep(false, fx, t, n, false, st);
    if !Stopped(loc.st.d) && bub0 then
      RankedSameLists(st.s, loc.st.s, rank);
      var r := GNext(fx, rank, t, dir, n, loc.st);
      LaterTransitive(st.d, loc.st.d, r.d);
      r
    else loc.st
  }

  /** The bubbling part of one name: read the next tier and emit to all of it. */
  function GNext(fx: Behaviour, rank: map<Ref, nat>, t: Ref, dir: Dir, n: Name, st: St): (r: St)
    requires Consistent(st.s) && Ranked(st.s, rank)
    ensures Consistent(r.s) && SameLists(st.s, r.s)
    ensures st.calls <= r.calls && Later(st.d, r.d)
    decreases DirRank(dir), Rank(rank, t), 1, 0
  {
    var s2 := Lookup(false, st.s, t, Next(dir));
    RankedSameLists(st.s, s2, rank);
    var r := GBubble(fx, rank, t, dir, Snapshot(false, s2, t, Next(dir)), n, st.(s := s2));
    SameListsTransitive(st.s, s2, r.s);
    r
  }

  /** `listeners(target, NEXT).forEach(parent => emitter.emit(parent, n, ...))`:
      every member in turn, each going up with `bubbling` read anew. */
  function GBubble(fx: Behaviour, rank: map<Ref, nat>, t: Ref, dir: Dir, ps: seq<Ref>, n: Name, st: St): (r: St)
    requires Consistent(st.s) && Ranked(st.s, rank)
    requires forall p :: p in ps ==> p in List(st.s, t, Next(dir))
    ensures Consistent(r.s) && SameLists(st.s, r.s)
    ensures st.calls <= r.calls && Later(st.d, r.d)
    decreases DirRank(dir), Rank(rank, t), 0, |ps|
  {
    if ps == [] then st
    else
      assert ps[0] in List(st.s, t, Next(dir));
      assert dir == Up ==> Rank(rank, ps[0]) < Rank(rank, t) by {
        if dir == Up {
          assert ps[0] in List(st.s, t, Parents);
        }
      }
      var e := GName(fx, rank, ps[0], Up, n, Bubbling(st.d), st);
      RankedSameLists(st.s, e.s, rank);
      var r := GBubble(fx, rank, t, dir, ps[1..], n, e);
      SameListsTransitive(st.s, e.s, r.s);
      LaterTransitive(st.d, e.d, r.d);
      r
  }

  /** The loop over `makeArray(eventName)`. */
  function GNames(fx: Behaviour, rank: map<Ref, nat>, t: Ref, dir: Dir, names: seq<Name>, bub0: bool, st: St): (r: St)
    requires Consistent(st.s) && (bub0 ==> Ranked(st.s, rank))
    ensures Consistent(r.s) && SameLists(st.s, r.s)
    decreases |names|
  {
    if names == [] then st
    else
      var b := GName(fx, rank, t, dir, names[0], bub0, st);
      RankedSameLists(st.s, b.s, rank);
      var r := GNames(fx, rank, t, dir, names[1..], bub0, b);
      SameListsTransitive(st.s, b.s, r.s);
      r
  }

  /** `emit({target, eventName, params, emitter, direction})`. */
  function GEmit(fx: Behaviour, rank: map<Ref, nat>, t: Ref, dir: Dir, names: seq<Name>, st: St): (r: St)
    requires Consistent(st.s) && (Bubbling(st.d) ==> Ranked(st.s, rank))
    ensures Consistent(r.s) && SameLists(st.s, r.s)
  {
    GNames(fx, rank, t, dir, names, Bubbling(st.d), st)
  }

  /** An emission of a single name is that name's step. */
  lemma GEmitOneName(fx: Behaviour, rank: map<Ref, nat>, t: Ref, dir: Dir, n: Name, st: St)
    requires Consistent(st.s) && (Bubbling(st.d) ==> Ranked(st.s, rank))
    ensures GEmit(fx, rank, t, dir, [n], st) == GName(fx, rank, t, dir, n, Bubbling(st.d), st)
  {
    var b := GName(fx, rank, t, dir, n, Bubbling(st.d), st);
    RankedSameLists(st.s, b.s, rank);
    assert [n][0] == n && [n][1..] == [];
    assert GNames(fx, rank, t, dir, [n], Bubbling(st.d), st) == GNames(fx, rank, t, dir, [], Bubbling(st.d), b);
  }

  /** A descriptor that does not bubble (every meta-event) makes `emit` the
      plain local delivery `Notify` on the target. */
  lemma {:induction false} GNamesNotBubbling(fx: Behaviour, rank: map<Ref, nat>, t: Ref, dir: Dir, names: seq<Name>, st: St)
    requires Consistent(st.s)
    ensures GNames(fx, rank, t, dir, names, false, st) == Notify(false, fx, t, names, st)
    decreases |names|
  {
    if names != [] {
      var b := GName(fx, rank, t, dir, names[0], false, st);
      GNamesNotBubbling(fx, rank, t, dir, names[1..], b);
    }
  }

  /** What one name's step guarantees: it only extends the state (calls of
      listeners in the arrays only, none once stopped); every call is under
      that name; without bubbling every call is on the target; a descriptor
      that nothing can stop stays so. */
  lemma {:induction false} GNameFacts(fx: Behaviour, rank: map<Ref, nat>, t: Ref, dir: Dir, n: Name, bub0: bool, st: St)
    requires Consistent(st.s) && (bub0 ==> Ranked(st.s, rank))
    ensures var r := GName(fx, rank, t, dir, n, bub0, st);
      && Extends(false, st, r)
      && Named(r.calls, |st.calls|, [n])
      && (!bub0 ==> On(r.calls, |st.calls|, t))
      && (Unstoppable(fx, st.d) ==> Unstoppable(fx, r.d))
    decreases DirRank(dir), Rank(rank, t), 2, 1
  {
    var loc := LocalStep(false, fx, t, n, false, st);
    if Unstoppable(fx, st.d) {
      LocalStepRunsAll(false, fx, t, n, false, st);
    }
    if !Stopped(loc.st.d) && bub0 {
      GNameFactsBubbling(fx, rank, t, dir, n, st);
    }
  }

  /** `GNameFacts` when the next tier is reached. */
  lemma {:induction false} GNameFactsBubbling(fx: Behaviour, rank: map<Ref, nat>, t: Ref, dir: Dir, n: Name, st: St)
    requires Consistent(st.s) && Ranked(st.s, rank)
    requires !Stopped(LocalStep(false, fx, t, n, false, st).st.d)
    ensures var r := GName(fx, rank, t, dir, n, true, st);
      && Extends(false, st, r)
      && Named(r.calls, |st.calls|, [n])
      && (Unstoppable(fx, st.d) ==> Unstoppable(fx, r.d))
    decreases DirRank(dir), Rank(rank, t), 2, 0
  {
    var loc := LocalStep(false, fx, t, n, false, st);
    RankedSameLists(st.s, loc.st.s, rank);
    if Unstoppable(fx, st.d) {
      LocalStepRunsAll(false, fx, t, n, false, st);
    }
    GNextFacts(fx, rank, t, dir, n, loc.st);
    var b := GNext(fx, rank, t, dir, n, loc.st);
    ExtendsTransitive(false, st, loc.st, b);
    assert Named(loc.st.calls, |st.calls|, [n]);
    NamedJoin(st.calls, loc.st.calls, b.calls, [n]);
  }

  /** What the bubbling part guarantees, from the state the local loop left. */
  lemma {:induction false} GNextFacts(fx: Behaviour, rank: map<Ref, nat>, t: Ref, dir: Dir, n: Name, st: St)
    requires Consistent(st.s) && Ranked(st.s, rank)
    ensures var r := GNext(fx, rank, t, dir, n, st);
      && Extends(false, st, r)
      && Named(r.calls, |st.calls|, [n])
      && (Unstoppable(fx, st.d) ==> Unstoppable(fx, r.d))
    decreases DirRank(dir), Rank(rank, t), 1
  {
    var s2 := Lookup(false, st.s, t, Next(dir));
    RankedSameLists(st.s, s2, rank);
    var ps := Snapshot(false, s2, t, Next(dir));
    GBubbleFacts(fx, rank, t, dir, ps, n, st.(s := s2));
    var b := GBubble(fx, rank, t, dir, ps, n, st.(s := s2));
    assert Extends(false, st, st.(s := s2));
    ExtendsTransitive(false, st, st.(s := s2), b);
  }

  /** What the tier loop guarantees: it only extends the state; every call
      is under the name; a descriptor that nothing can stop stays so. */
  lemma {:induction false} GBubbleFacts(fx: Behaviour, rank: map<Ref, nat>, t: Ref, dir: Dir, ps: seq<Ref>, n: Name, st: St)
    requires Consistent(st.s) && Ranked(st.s, rank)
    requires forall p :: p in ps ==> p in List(st.s, t, Next(dir))
    ensures var r := GBubble(fx, rank, t, dir, ps, n, st);
      && Extends(false, st, r)
      && Named(r.calls, |st.calls|, [n])
      && (Unstoppable(fx, st.d) ==> Unstoppable(fx, r.d))
    decreases DirRank(dir), Rank(rank, t), 0, |ps|
  {
    if ps != [] {
      assert ps[0] in List(st.s, t, Next(dir));
      assert dir == Up ==> Rank(rank, ps[0]) < Rank(rank, t) by {
        if dir == Up {
          assert ps[0] in List(st.s, t, Parents);
        }
      }
      var e := GBubbleStep(fx, rank, t, dir, ps, n, st);
      GNameFacts(fx, rank, ps[0], Up, n, Bubbling(st.d), st);
      GBubbleFacts(fx, rank, t, dir, ps[1..], n, e);
      var r := GBubble(fx, rank, t, dir, ps[1..], n, e);
      ExtendsTransitive(false, st, e, r);
      NamedJoin(st.calls, e.calls, r.calls, [n]);
    }
  }

  /** The whole emission: it only extends the state; every call is under one
      of the names; an event that does not bubble reaches only the target; a
      descriptor that nothing can stop stays so. */
  lemma {:induction false} GNamesFacts(fx: Behaviour, rank: map<Ref, nat>, t: Ref, dir: Dir, names: seq<Name>,
                                       bub0: bool, st: St)
    requires Consistent(st.s) && (bub0 ==> Ranked(st.s, rank))
    ensures var r := GNames(fx, rank, t, dir, names, bub0, st);
      && Extends(false, st, r)
      && Named(r.calls, |st.calls|, names)
      && (!bub0 ==> On(r.calls, |st.calls|, t))
      && (Unstoppable(fx, st.d) ==> Unstoppable(fx, r.d))
    decreases |names|
  {
    if names != [] {
      GNameFacts(fx, rank, t, dir, names[0], bub0, st);
      var b := GName(fx, rank, t, dir, names[0], bub0, st);
      assert Named(b.calls, |st.calls|, names);
      RankedSameLists(st.s, b.s, rank);
      GNamesFacts(fx, rank, t, dir, names[1..], bub0, b);
      var r := GNames(fx, rank, t, dir, names[1..], bub0, b);
      ExtendsTransitive(false, st, b, r);
      assert Named(r.calls, |b.calls|, names);
      NamedJoin(st.calls, b.calls, r.calls, names);
      if !bub0 {
        OnJoin(st.calls, b.calls, r.calls, t);
      }
    }
  }

  /** With a descriptor that nothing can stop (a first argument that is not
      an object, or an object whose listeners never call `cancelEvent()`), a
      name runs every entry of the target's array first, in order and
      duplicates included: a listener added twice is called twice. */
  lemma GNameRunsEveryEntry(fx: Behaviour, rank: map<Ref, nat>, t: Ref, dir: Dir, n: Name, bub0: bool, st: St)
    requires Consistent(st.s) && (bub0 ==> Ranked(st.s, rank)) && Unstoppable(fx, st.d)
    ensures st.calls + CallsOf(t, n, List(st.s, t, n)) <= GName(fx, rank, t, dir, n, bub0, st).calls
    ensures Unstoppable(fx, GName(fx, rank, t, dir, n, bub0, st).d)
  {
    LocalStepRunsAll(false, fx, t, n, false, st);
    GNameFacts(fx, rank, t, dir, n, bub0, st);
  }

  /** With a descriptor that nothing can stop, the next tier is walked in
      full: every listener under `n` of every member is called, whether or
      not anything ran before. */
  lemma {:induction false} GBubbleReachesAll(fx: Behaviour, rank: map<Ref, nat>, t: Ref, dir: Dir, ps: seq<Ref>, n: Name, st: St)
    requires Consistent(st.s) && Ranked(st.s, rank) && Unstoppable(fx, st.d)
    requires forall p :: p in ps ==> p in List(st.s, t, Next(dir))
    ensures var r := GBubble(fx, rank, t, dir, ps, n, st);
      forall p, l :: p in ps && l in List(st.s, p, n) ==> Call(p, n, l) in r.calls
    ensures Unstoppable(fx, GBubble(fx, rank, t, dir, ps, n, st).d)
    decreases |ps|
  {
    if ps != [] {
      var e := GBubbleStep(fx, rank, t, dir, ps, n, st);
      GNameRunsEveryEntry(fx, rank, ps[0], Up, n, Bubbling(st.d), st);
      GBubbleReachesAll(fx, rank, t, dir, ps[1..], n, e);
      var r := GBubble(fx, rank, t, dir, ps[1..], n, e);
      forall p, l | p in ps && l in List(st.s, p, n)
        ensures Call(p, n, l) in r.calls
      {
        if p == ps[0] {
          var c := CallsOf(p, n, List(st.s, p, n));
          CallsOfContains(st.calls, p, n, List(st.s, p, n), l);
          InPrefix(Call(p, n, l), st.calls + c, e.calls);
          InPrefix(Call(p, n, l), e.calls, r.calls);
        } else {
          assert p in ps[1..];
          assert List(e.s, p, n) == List(st.s, p, n);
        }
      }
    }
  }

  /** One member of the tier: its emission, then the rest of the tier. */
  lemma GBubbleStep(fx: Behaviour, rank: map<Ref, nat>, t: Ref, dir: Dir, ps: seq<Ref>, n: Name, st: St)
    returns (e: St)
    requires Consistent(st.s) && Ranked(st.s, rank) && ps != []
    requires forall p :: p in ps ==> p in List(st.s, t, Next(dir))
    ensures e == GName(fx, rank, ps[0], Up, n, Bubbling(st.d), st)
    ensures Consistent(e.s) && Ranked(e.s, rank) && SameLists(st.s, e.s)
    ensures forall p :: p in ps[1..] ==> p in List(e.s, t, Next(dir))
    ensures GBubble(fx, rank, t, dir, ps, n, st) == GBubble(fx, rank, t, dir, ps[1..], n, e)
  {
    assert ps[0] in List(st.s, t, Next(dir));
    assert dir == Up ==> Rank(rank, ps[0]) < Rank(rank, t) by {
      if dir == Up {
        assert ps[0] in List(st.s, t, Parents);
      }
    }
    e := GName(fx, rank, ps[0], Up, n, Bubbling(st.d), st);
    RankedSameLists(st.s, e.s, rank);
  }
}
