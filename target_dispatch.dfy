/** The dispatch of `src/targetEventEmitter.mjs` (`emit`, lines 58-76) as
    specification functions over the store. One `hasListeners` flag is shared
    by every name of the call. For each name: the target's de-duplicated
    listeners run unless stopped, each setting the flag; if the event is not
    stopped and was bubbling when the emission began, every member of the
    next tier is sent `emitter.emit` while the flag is still false. That
    call answers `this` of the module function, which is `undefined`, so the
    flag never becomes true through it, and the emission itself answers no
    boolean either. */
module TargetDispatch {
  import opened Seqs
  import opened Store
  import opened Dispatch

  /** One name on one target, with the flag `has` as the earlier names left it. */
  function TName(fx: Behaviour, rank: map<Ref, nat>, t: Ref, dir: Dir, n: Name, bub0: bool, has: bool, st: St): (r: Local)
    requires Consistent(st.s) && (bub0 ==> Ranked(st.s, rank))
    ensures Consistent(r.st.s) && SameLists(st.s, r.st.s)
    decreases DirRank(dir), Rank(rank, t), 2, 0
  {
    var loc := LocalStep(true, fx, t, n, has, st);
    if !Stopped(loc.st.d) && bub0 then
      RankedSameLists(st.s, loc.st.s, rank);
      TNext(fx, rank, t, dir, n, loc)
    else loc
  }

  /** The bubbling part of one name: read the next tier and walk it with the flag. */
  function TNext(fx: Behaviour, rank: map<Ref, nat>, t: Ref, dir: Dir, n: Name, loc: Local): (r: Local)
    requires Consistent(loc.st.s) && Ranked(loc.st.s, rank)
    ensures Consistent(r.st.s) && SameLists(loc.st.s, r.st.s)
    decreases DirRank(dir), Rank(rank, t), 1, 0
  {
    var s2 := Lookup(true, loc.st.s, t, Next(dir));
    RankedSameLists(loc.st.s, s2, rank);
    var r := TBubble(fx, rank, t, dir, Snapshot(true, s2, t, Next(dir)), n, loc.ran, loc.st.(s := s2));
    SameListsTransitive(loc.st.s, s2, r.st.s);
    r
  }

  /** `listeners(target, NEXT).forEach(parent => hasListeners = hasListeners || emitter.emit(parent, n, ...))`:
      with the flag set the `||` skips the call; without it the call runs
      (`TName` on the neighbour going up, see `TEmitOneName`) and its
      `undefined` leaves the flag false. */
  function TBubble(fx: Behaviour, rank: map<Ref, nat>, t: Ref, dir: Dir, ps: seq<Ref>, n: Name, has: bool, st: St): (r: Local)
    requires Consistent(st.s) && Ranked(st.s, rank)
    requires forall p :: p in ps ==> p in List(st.s, t, Next(dir))
    ensures Consistent(r.st.s) && SameLists(st.s, r.st.s)
    decreases DirRank(dir), Rank(rank, t), 0, |ps|
  {
    if ps == [] then Local(st, has)
    else if has then TBubble(fx, rank, t, dir, ps[1..], n, has, st)
    else
      assert ps[0] in List(st.s, t, Next(dir));
      assert dir == Up ==> Rank(rank, ps[0]) < Rank(rank, t) by {
        if dir == Up {
          assert ps[0] in List(st.s, t, Parents);
        }
      }
      var e := TName(fx, rank, ps[0], Up, n, Bubbling(st.d), false, st);
      RankedSameLists(st.s, e.st.s, rank);
      TBubble(fx, rank, t, dir, ps[1..], n, false, e.st)
  }

  /** The loop over `makeArray(eventName)`, threading the shared flag. */
  function TNames(fx: Behaviour, rank: map<Ref, nat>, t: Ref, dir: Dir, names: seq<Name>, bub0: bool, has: bool, st: St): (r: Local)
    requires Consistent(st.s) && (bub0 ==> Ranked(st.s, rank))
    ensures Consistent(r.st.s) && SameLists(st.s, r.st.s)
    decreases |names|
  {
    if names == [] then Local(st, has)
    else
      var b := TName(fx, rank, t, dir, names[0], bub0, has, st);
      RankedSameLists(st.s, b.st.s, rank);
      TNames(fx, rank, t, dir, names[1..], bub0, b.ran, b.st)
  }

  /** `emit({target, eventName, params, emitter, direction})`: what is left is the state. */
  function TEmit(fx: Behaviour, rank: map<Ref, nat>, t: Ref, dir: Dir, names: seq<Name>, st: St): (r: St)
    requires Consistent(st.s) && (Bubbling(st.d) ==> Ranked(st.s, rank))
    ensures Consistent(r.s) && SameLists(st.s, r.s)
  {
    TNames(fx, rank, t, dir, names, Bubbling(st.d), false, st).st
  }

  /** What one name's step guarantees: it only extends the state (calls of
      registered listeners only, none once stopped); every call is under that
      name; without bubbling every call is on the target. */
  lemma {:induction false} TNameFacts(fx: Behaviour, rank: map<Ref, nat>, t: Ref, dir: Dir, n: Name, bub0: bool,
                                      has: bool, st: St)
    requires Consistent(st.s) && (bub0 ==> Ranked(st.s, rank))
    ensures var r := TName(fx, rank, t, dir, n, bub0, has, st);
      && Extends(true, st, r.st)
      && Named(r.st.calls, |st.calls|, [n])
      && (!bub0 ==> On(r.st.calls, |st.calls|, t))
    decreases DirRank(dir), Rank(rank, t), 2, 1
  {
    var loc := LocalStep(true, fx, t, n, has, st);
    if !Stopped(loc.st.d) && bub0 {
      TNameFactsBubbling(fx, rank, t, dir, n, has, st);
    }
  }

  /** `TNameFacts` when the next tier is reached. */
  lemma {:induction false} TNameFactsBubbling(fx: Behaviour, rank: map<Ref, nat>, t: Ref, dir: Dir, n: Name,
                                              has: bool, st: St)
    requires Consistent(st.s) && Ranked(st.s, rank)
    requires !Stopped(LocalStep(true, fx, t, n, has, st).st.d)
    ensures var r := TName(fx, rank, t, dir, n, true, has, st);
      && Extends(true, st, r.st)
      && Named(r.st.calls, |st.calls|, [n])
    decreases DirRank(dir), Rank(rank, t), 2, 0
  {
    var loc := LocalStep(true, fx, t, n, has, st);
    RankedSameLists(st.s, loc.st.s, rank);
    TNextFacts(fx, rank, t, dir, n, loc);
    var b := TNext(fx, rank, t, dir, n, loc);
    ExtendsTransitive(true, st, loc.st, b.st);
    assert Named(loc.st.calls, |st.calls|, [n]);
    NamedJoin(st.calls, loc.st.calls, b.st.calls, [n]);
  }

  /** What the bubbling part guarantees, from the state the local loop left. */
  lemma {:induction false} TNextFacts(fx: Behaviour, rank: map<Ref, nat>, t: Ref, dir: Dir, n: Name, loc: Local)
    requires Consistent(loc.st.s) && Ranked(loc.st.s, rank)
    ensures var r := TNext(fx, rank, t, dir, n, loc);
      && Extends(true, loc.st, r.st)
      && Named(r.st.calls, |loc.st.calls|, [n])
    decreases DirRank(dir), Rank(rank, t), 1
  {
    var s2 := Lookup(true, loc.st.s, t, Next(dir));
    RankedSameLists(loc.st.s, s2, rank);
    var ps := Snapshot(true, s2, t, Next(dir));
    TBubbleFacts(fx, rank, t, dir, ps, n, loc.ran, loc.st.(s := s2));
    var b := TBubble(fx, rank, t, dir, ps, n, loc.ran, loc.st.(s := s2));
    assert Extends(true, loc.st, loc.st.(s := s2));
    ExtendsTransitive(true, loc.st, loc.st.(s := s2), b.st);
  }

  /** What the neighbour loop guarantees: it only extends the state, and
      every call is under the name. */
  lemma {:induction false} TBubbleFacts(fx: Behaviour, rank: map<Ref, nat>, t: Ref, dir: Dir, ps: seq<Ref>,
                                        n: Name, has: bool, st: St)
    requires Consistent(st.s) && Ranked(st.s, rank)
    requires forall p :: p in ps ==> p in List(st.s, t, Next(dir))
    ensures var r := TBubble(fx, rank, t, dir, ps, n, has, st);
      && Extends(true, st, r.st)
      && Named(r.st.calls, |st.calls|, [n])
    decreases DirRank(dir), Rank(rank, t), 0, |ps|
  {
    if ps == [] {
    } else if has {
      TBubbleShortCircuits(fx, rank, t, dir, ps, n, st);
    } else {
      assert ps[0] in List(st.s, t, Next(dir));
      assert dir == Up ==> Rank(rank, ps[0]) < Rank(rank, t) by {
        if dir == Up {
          assert ps[0] in List(st.s, t, Parents);
        }
      }
      TNameFacts(fx, rank, ps[0], Up, n, Bubbling(st.d), false, st);
      var e := TName(fx, rank, ps[0], Up, n, Bubbling(st.d), false, st);
      RankedSameLists(st.s, e.st.s, rank);
      TBubbleFacts(fx, rank, t, dir, ps[1..], n, false, e.st);
      var r := TBubble(fx, rank, t, dir, ps[1..], n, false, e.st);
      ExtendsTransitive(true, st, e.st, r.st);
      NamedJoin(st.calls, e.st.calls, r.st.calls, [n]);
    }
  }

  /** The whole emission: it only extends the state; every call is under one
      of the names; an event that does not bubble reaches only the target. */
  lemma {:induction false} TNamesFacts(fx: Behaviour, rank: map<Ref, nat>, t: Ref, dir: Dir, names: seq<Name>,
                                       bub0: bool, has: bool, st: St)
    requires Consistent(st.s) && (bub0 ==> Ranked(st.s, rank))
    ensures var r := TNames(fx, rank, t, dir, names, bub0, has, st);
      && Extends(true, st, r.st)
      && Named(r.st.calls, |st.calls|, names)
      && (!bub0 ==> On(r.st.calls, |st.calls|, t))
    decreases |names|
  {
    if names != [] {
      TNameFacts(fx, rank, t, dir, names[0], bub0, has, st);
      var b := TName(fx, rank, t, dir, names[0], bub0, has, st);
      assert Named(b.st.calls, |st.calls|, names);
      RankedSameLists(st.s, b.st.s, rank);
      TNamesFacts(fx, rank, t, dir, names[1..], bub0, b.ran, b.st);
      var r := TNames(fx, rank, t, dir, names[1..], bub0, b.ran, b.st);
      ExtendsTransitive(true, st, b.st, r.st);
      assert Named(r.st.calls, |b.st.calls|, names);
      NamedJoin(st.calls, b.st.calls, r.st.calls, names);
      if !bub0 {
        OnJoin(st.calls, b.st.calls, r.st.calls, t);
      }
    }
  }

  /** The neighbour loop never sets the flag: it ends as it began. */
  lemma {:induction false} TBubbleKeepsFlag(fx: Behaviour, rank: map<Ref, nat>, t: Ref, dir: Dir, ps: seq<Ref>,
                                            n: Name, has: bool, st: St)
    requires Consistent(st.s) && Ranked(st.s, rank)
    requires forall p :: p in ps ==> p in List(st.s, t, Next(dir))
    ensures TBubble(fx, rank, t, dir, ps, n, has, st).ran == has
    decreases |ps|
  {
    if ps != [] {
      if has {
        TBubbleKeepsFlag(fx, rank, t, dir, ps[1..], n, has, st);
      } else {
        var e := TName(fx, rank, ps[0], Up, n, Bubbling(st.d), false, st);
        RankedSameLists(st.s, e.st.s, rank);
        TBubbleKeepsFlag(fx, rank, t, dir, ps[1..], n, false, e.st);
      }
    }
  }

  /** Once the flag is set the neighbour loop calls nobody. */
  lemma {:induction false} TBubbleShortCircuits(fx: Behaviour, rank: map<Ref, nat>, t: Ref, dir: Dir, ps: seq<Ref>,
                                                n: Name, st: St)
    requires Consistent(st.s) && Ranked(st.s, rank)
    requires forall p :: p in ps ==> p in List(st.s, t, Next(dir))
    ensures TBubble(fx, rank, t, dir, ps, n, true, st) == Local(st, true)
    decreases |ps|
  {
    if ps != [] {
      TBubbleShortCircuits(fx, rank, t, dir, ps[1..], n, st);
    }
  }

  /** The flag after one name is set exactly by the target's own listeners:
      it is the flag the local loop leaves. */
  lemma TNameFlag(fx: Behaviour, rank: map<Ref, nat>, t: Ref, dir: Dir, n: Name, bub0: bool, has: bool, st: St)
    requires Consistent(st.s) && (bub0 ==> Ranked(st.s, rank))
    ensures TName(fx, rank, t, dir, n, bub0, has, st).ran == LocalStep(true, fx, t, n, has, st).ran
  {
    var loc := LocalStep(true, fx, t, n, has, st);
    if !Stopped(loc.st.d) && bub0 {
      RankedSameLists(st.s, loc.st.s, rank);
      TNextKeepsFlag(fx, rank, t, dir, n, loc);
    }
  }

  /** The hierarchy step of one name leaves the flag as the local loop left it. */
  lemma TNextKeepsFlag(fx: Behaviour, rank: map<Ref, nat>, t: Ref, dir: Dir, n: Name, loc: Local)
    requires Consistent(loc.st.s) && Ranked(loc.st.s, rank)
    ensures TNext(fx, rank, t, dir, n, loc).ran == loc.ran
  {
    var s2 := Lookup(true, loc.st.s, t, Next(dir));
    RankedSameLists(loc.st.s, s2, rank);
    TBubbleKeepsFlag(fx, rank, t, dir, Snapshot(true, s2, t, Next(dir)), n, loc.ran, loc.st.(s := s2));
  }

  /** Once the flag is set, nothing reaches the hierarchy any more: every
      later call of the emission is on the target itself. */
  lemma {:induction false} TNamesAfterFlag(fx: Behaviour, rank: map<Ref, nat>, t: Ref, dir: Dir, names: seq<Name>,
                                           bub0: bool, st: St)
    requires Consistent(st.s) && (bub0 ==> Ranked(st.s, rank))
    ensures var r := TNames(fx, rank, t, dir, names, bub0, true, st);
      r.ran && st.calls <= r.st.calls && On(r.st.calls, |st.calls|, t)
    decreases |names|
  {
    if names != [] {
      TNameWithFlag(fx, rank, t, dir, names[0], bub0, st);
      var b := TName(fx, rank, t, dir, names[0], bub0, true, st);
      RankedSameLists(st.s, b.st.s, rank);
      TNamesAfterFlag(fx, rank, t, dir, names[1..], bub0, b.st);
      OnJoin(st.calls, b.st.calls, TNames(fx, rank, t, dir, names[1..], bub0, true, b.st).st.calls, t);
    }
  }

  /** One name with the flag already set calls only the target's own listeners. */
  lemma TNameWithFlag(fx: Behaviour, rank: map<Ref, nat>, t: Ref, dir: Dir, n: Name, bub0: bool, st: St)
    requires Consistent(st.s) && (bub0 ==> Ranked(st.s, rank))
    ensures var b := TName(fx, rank, t, dir, n, bub0, true, st);
      b.ran && st.calls <= b.st.calls && On(b.st.calls, |st.calls|, t)
  {
    var loc := LocalStep(true, fx, t, n, true, st);
    if !Stopped(loc.st.d) && bub0 {
      RankedSameLists(st.s, loc.st.s, rank);
      var s2 := Lookup(true, loc.st.s, t, Next(dir));
      RankedSameLists(loc.st.s, s2, rank);
      TBubbleShortCircuits(fx, rank, t, dir, Snapshot(true, s2, t, Next(dir)), n, loc.st.(s := s2));
    }
  }

  /** An emission of a single name is that name's step with a fresh flag. */
  lemma TEmitOneName(fx: Behaviour, rank: map<Ref, nat>, t: Ref, dir: Dir, n: Name, st: St)
    requires Consistent(st.s) && (Bubbling(st.d) ==> Ranked(st.s, rank))
    ensures TEmit(fx, rank, t, dir, [n], st) == TName(fx, rank, t, dir, n, Bubbling(st.d), false, st).st
  {
    var b := TName(fx, rank, t, dir, n, Bubbling(st.d), false, st);
    RankedSameLists(st.s, b.st.s, rank);
    assert [n][0] == n && [n][1..] == [];
    assert TNames(fx, rank, t, dir, [n], Bubbling(st.d), false, st) == TNames(fx, rank, t, dir, [], Bubbling(st.d), b.ran, b.st);
  }

  /** A descriptor that does not bubble (every meta-event) makes `emit` the
      plain local delivery `Notify` on the target. */
  lemma {:induction false} TNamesNotBubbling(fx: Behaviour, rank: map<Ref, nat>, t: Ref, dir: Dir, names: seq<Name>,
                                             has: bool, st: St)
    requires Consistent(st.s)
    ensures TNames(fx, rank, t, dir, names, false, has, st).st == Notify(true, fx, t, names, st)
    decreases |names|
  {
    if names != [] {
      var b := TName(fx, rank, t, dir, names[0], false, has, st);
      LocalStepIgnoresFlag(true, fx, t, names[0], has, st);
      TNamesNotBubbling(fx, rank, t, dir, names[1..], b.ran, b.st);
    }
  }
}
