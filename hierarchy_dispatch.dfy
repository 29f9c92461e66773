/** The dispatch of `src/hierarchyEventEmitter.mjs` (`emit`, lines 59-84) as
    specification functions over the store, and what it guarantees. For each
    name in turn: the target's de-duplicated listeners run unless stopped; if
    the event is not stopped and was bubbling when the emission began, the
    next tier is tried one neighbour at a time through `emitter.emit`, but only
    until some listener has fired for that name; a strict target throws when
    nothing fired for `'error'`. */
module HierarchyDispatch {
  import opened Seqs
  import opened Store
  import opened Dispatch

  /** One name on one target: the `forEach` body of `emit`. `strict` is the set
      of targets with `throwOnNoErrorListener`; `bub0` is `bubbling` as read
      when the emission began. The result says whether `_hasListeners` became
      true, and whether the `'error'` check threw. */
  function HName(fx: Behaviour, strict: set<Ref>, rank: map<Ref, nat>, t: Ref, dir: Dir, n: Name,
                 bub0: bool, st: St): (r: Out)
    requires Consistent(st.s) && (bub0 ==> Ranked(st.s, rank))
    ensures Consistent(r.st.s) && SameLists(st.s, r.st.s)
    decreases DirRank(dir), Rank(rank, t), 2, 0
  {
    var loc := LocalStep(true, fx, t, n, false, st);
    var b :=
      if !Stopped(loc.st.d) && bub0 then
        RankedSameLists(st.s, loc.st.s, rank);
        HNext(fx, strict, rank, t, dir, n, loc)
      else Out(loc.st, loc.ran, false);
    if b.threw then b
    else Out(b.st, b.fired, t in strict && !b.fired && n == ErrorName)
  }

  /** The bubbling part of one name's step, after the local listeners: read
      the next tier and try its members in turn, with the flag the local loop left. */
  function HNext(fx: Behaviour, strict: set<Ref>, rank: map<Ref, nat>, t: Ref, dir: Dir, n: Name, loc: Local): (r: Out)
    requires Consistent(loc.st.s) && Ranked(loc.st.s, rank)
    ensures Consistent(r.st.s) && SameLists(loc.st.s, r.st.s)
    decreases DirRank(dir), Rank(rank, t), 1, 0
  {
    var s2 := Lookup(true, loc.st.s, t, Next(dir));
    RankedSameLists(loc.st.s, s2, rank);
    var r := HBubble(fx, strict, rank, t, dir, Snapshot(true, s2, t, Next(dir)), n, loc.ran, loc.st.(s := s2));
    SameListsTransitive(loc.st.s, s2, r.st.s);
    r
  }

  /** `emitter.listeners(target, NEXT).forEach(parent => _has = _has || emitter.emit(parent, n, ...))`:
      once the flag is true the remaining neighbours are skipped. The call
      `emitter.emit(parent, n, ...)` is `HName` on the parent going up (see
      `HEmitOneName`). */
  function HBubble(fx: Behaviour, strict: set<Ref>, rank: map<Ref, nat>, t: Ref, dir: Dir, ps: seq<Ref>, n: Name,
                   has: bool, st: St): (r: Out)
    requires Consistent(st.s) && Ranked(st.s, rank)
    requires forall p :: p in ps ==> p in List(st.s, t, Next(dir))
    ensures Consistent(r.st.s) && SameLists(st.s, r.st.s)
    decreases DirRank(dir), Rank(rank, t), 0, |ps|
  {
    if ps == [] then Out(st, has, false)
    else if has then HBubble(fx, strict, rank, t, dir, ps[1..], n, has, st)
    else
      assert ps[0] in List(st.s, t, Next(dir));
      assert dir == Up ==> Rank(rank, ps[0]) < Rank(rank, t) by {
        if dir == Up {
          assert ps[0] in List(st.s, t, Parents);
        }
      }
      var e := HName(fx, strict, rank, ps[0], Up, n, Bubbling(st.d), st);
      if e.threw then Out(e.st, has, true)
      else
        RankedSameLists(st.s, e.st.s, rank);
        HBubble(fx, strict, rank, t, dir, ps[1..], n, e.fired, e.st)
  }

  /** The loop over `makeArray(eventName)` with the result `hasListeners`. */
  function HNames(fx: Behaviour, strict: set<Ref>, rank: map<Ref, nat>, t: Ref, dir: Dir, names: seq<Name>,
                  bub0: bool, has: bool, st: St): (r: Out)
    requires Consistent(st.s) && (bub0 ==> Ranked(st.s, rank))
    ensures Consistent(r.st.s) && SameLists(st.s, r.st.s)
    decreases |names|
  {
    if names == [] then Out(st, has, false)
    else
      var b := HName(fx, strict, rank, t, dir, names[0], bub0, st);
      if b.threw then Out(b.st, has, true)
      else
        RankedSameLists(st.s, b.st.s, rank);
        HNames(fx, strict, rank, t, dir, names[1..], bub0, has || b.fired, b.st)
  }

  /** `emit({target, eventName, params, emitter, direction})`: `bubbling` is read
      once, from the descriptor as it is when the emission begins. */
  function HEmit(fx: Behaviour, strict: set<Ref>, rank: map<Ref, nat>, t: Ref, dir: Dir, names: seq<Name>, st: St): (r: Out)
    requires Consistent(st.s) && (Bubbling(st.d) ==> Ranked(st.s, rank))
    ensures Consistent(r.st.s) && SameLists(st.s, r.st.s)
  {
    HNames(fx, strict, rank, t, dir, names, Bubbling(st.d), false, st)
  }

  /** What one name's step guarantees: it only extends the state (calls of
      registered listeners only, none once stopped); its flag is true exactly
      when some listener ran; every call is under that name; without bubbling
      every call is on the target; only `'error'` can throw. */
  lemma {:induction false} HNameFacts(fx: Behaviour, strict: set<Ref>, rank: map<Ref, nat>, t: Ref, dir: Dir, n: Name,
                                      bub0: bool, st: St)
    requires Consistent(st.s) && (bub0 ==> Ranked(st.s, rank))
    ensures var r := HName(fx, strict, rank, t, dir, n, bub0, st);
      && Extends(true, st, r.st)
      && (!r.threw ==> (r.fired <==> |r.st.calls| > |st.calls|))
      && Named(r.st.calls, |st.calls|, [n])
      && (!bub0 ==> On(r.st.calls, |st.calls|, t))
      && (n != ErrorName ==> !r.threw)
    decreases DirRank(dir), Rank(rank, t), 2, 1
  {
    var loc := LocalStep(true, fx, t, n, false, st);
    if !Stopped(loc.st.d) && bub0 {
      HNameFactsBubbling(fx, strict, rank, t, dir, n, bub0, st);
    }
  }

  /** `HNameFacts` when the next tier is reached. */
  lemma {:induction false} HNameFactsBubbling(fx: Behaviour, strict: set<Ref>, rank: map<Ref, nat>, t: Ref, dir: Dir, n: Name,
                                              bub0: bool, st: St)
    requires Consistent(st.s) && bub0 && Ranked(st.s, rank)
    requires !Stopped(LocalStep(true, fx, t, n, false, st).st.d)
    ensures var r := HName(fx, strict, rank, t, dir, n, bub0, st);
      && Extends(true, st, r.st)
      && (!r.threw ==> (r.fired <==> |r.st.calls| > |st.calls|))
      && Named(r.st.calls, |st.calls|, [n])
      && (n != ErrorName ==> !r.threw)
    decreases DirRank(dir), Rank(rank, t), 2, 0
  {
    var loc := LocalStep(true, fx, t, n, false, st);
    RankedSameLists(st.s, loc.st.s, rank);
    HNextFacts(fx, strict, rank, t, dir, n, loc);
    var b := HNext(fx, strict, rank, t, dir, n, loc);
    ExtendsTransitive(true, st, loc.st, b.st);
    assert Named(loc.st.calls, |st.calls|, [n]);
    NamedJoin(st.calls, loc.st.calls, b.st.calls, [n]);
  }

  /** What the bubbling part guarantees, from the state the local loop left. */
  lemma {:induction false} HNextFacts(fx: Behaviour, strict: set<Ref>, rank: map<Ref, nat>, t: Ref, dir: Dir,
                                      n: Name, loc: Local)
    requires Consistent(loc.st.s) && Ranked(loc.st.s, rank)
    ensures var r := HNext(fx, strict, rank, t, dir, n, loc);
      && Extends(true, loc.st, r.st)
      && (!r.threw ==> (r.fired <==> loc.ran || |r.st.calls| > |loc.st.calls|))
      && Named(r.st.calls, |loc.st.calls|, [n])
      && (n != ErrorName ==> !r.threw)
    decreases DirRank(dir), Rank(rank, t), 1
  {
    var s2 := Lookup(true, loc.st.s, t, Next(dir));
    RankedSameLists(loc.st.s, s2, rank);
    var ps := Snapshot(true, s2, t, Next(dir));
    HBubbleFacts(fx, strict, rank, t, dir, ps, n, loc.ran, loc.st.(s := s2));
    var b := HBubble(fx, strict, rank, t, dir, ps, n, loc.ran, loc.st.(s := s2));
    assert Extends(true, loc.st, loc.st.(s := s2));
    ExtendsTransitive(true, loc.st, loc.st.(s := s2), b.st);
  }

  /** What the neighbour loop guarantees: it only extends the state; its flag is
      true exactly when it was already true or some listener ran; every call is
      under the name; only `'error'` can throw. */
  lemma {:induction false} HBubbleFacts(fx: Behaviour, strict: set<Ref>, rank: map<Ref, nat>, t: Ref, dir: Dir,
                                        ps: seq<Ref>, n: Name, has: bool, st: St)
    requires Consistent(st.s) && Ranked(st.s, rank)
    requires forall p :: p in ps ==> p in List(st.s, t, Next(dir))
    ensures var r := HBubble(fx, strict, rank, t, dir, ps, n, has, st);
      && Extends(true, st, r.st)
      && (!r.threw ==> (r.fired <==> has || |r.st.calls| > |st.calls|))
      && Named(r.st.calls, |st.calls|, [n])
      && (n != ErrorName ==> !r.threw)
    decreases DirRank(dir), Rank(rank, t), 0, |ps|
  {
    if ps == [] {
    } else if has {
      HBubbleStep(fx, strict, rank, t, dir, ps, n, has, st);
      HBubbleFacts(fx, strict, rank, t, dir, ps[1..], n, has, st);
    } else {
      assert ps[0] in List(st.s, t, Next(dir));
      assert dir == Up ==> Rank(rank, ps[0]) < Rank(rank, t) by {
        if dir == Up {
          assert ps[0] in List(st.s, t, Parents);
        }
      }
      HBubbleStep(fx, strict, rank, t, dir, ps, n, has, st);
      HNameFacts(fx, strict, rank, ps[0], Up, n, Bubbling(st.d), st);
      var e := HName(fx, strict, rank, ps[0], Up, n, Bubbling(st.d), st);
      if !e.threw {
        HBubbleFacts(fx, strict, rank, t, dir, ps[1..], n, e.fired, e.st);
        var r := HBubble(fx, strict, rank, t, dir, ps[1..], n, e.fired, e.st);
        ExtendsTransitive(true, st, e.st, r.st);
        NamedJoin(st.calls, e.st.calls, r.st.calls, [n]);
      }
    }
  }

  /** Once `_hasListeners` is true the neighbour loop does nothing: the `||`
      never evaluates `emitter.emit`. */
  lemma {:induction false} HBubbleShortCircuits(fx: Behaviour, strict: set<Ref>, rank: map<Ref, nat>, t: Ref, dir: Dir,
                                                ps: seq<Ref>, n: Name, st: St)
    requires Consistent(st.s) && Ranked(st.s, rank)
    requires forall p :: p in ps ==> p in List(st.s, t, Next(dir))
    ensures HBubble(fx, strict, rank, t, dir, ps, n, true, st) == Out(st, true, false)
    decreases |ps|
  {
    if ps != [] {
      HBubbleShortCircuits(fx, strict, rank, t, dir, ps[1..], n, st);
    }
  }

  /** The whole emission: it only extends the state; the result is true exactly
      when some listener ran, here or up the hierarchy; every call is under one
      of the names; an event that does not bubble reaches only the target;
      only `'error'` can throw. */
  lemma {:induction false} HNamesFacts(fx: Behaviour, strict: set<Ref>, rank: map<Ref, nat>, t: Ref, dir: Dir,
                                       names: seq<Name>, bub0: bool, has: bool, st: St)
    requires Consistent(st.s) && (bub0 ==> Ranked(st.s, rank))
    ensures var r := HNames(fx, strict, rank, t, dir, names, bub0, has, st);
      && Extends(true, st, r.st)
      && (!r.threw ==> (r.fired <==> has || |r.st.calls| > |st.calls|))
      && Named(r.st.calls, |st.calls|, names)
      && (!bub0 ==> On(r.st.calls, |st.calls|, t))
      && (ErrorName !in names ==> !r.threw)
    decreases |names|
  {
    if names != [] {
      HNameFacts(fx, strict, rank, t, dir, names[0], bub0, st);
      var b := HName(fx, strict, rank, t, dir, names[0], bub0, st);
      assert Named(b.st.calls, |st.calls|, names);
      if !b.threw {
        RankedSameLists(st.s, b.st.s, rank);
        HNamesFacts(fx, strict, rank, t, dir, names[1..], bub0, has || b.fired, b.st);
        var r := HNames(fx, strict, rank, t, dir, names[1..], bub0, has || b.fired, b.st);
        ExtendsTransitive(true, st, b.st, r.st);
        assert Named(r.st.calls, |b.st.calls|, names);
        NamedJoin(st.calls, b.st.calls, r.st.calls, names);
        if !bub0 {
          OnJoin(st.calls, b.st.calls, r.st.calls, t);
        }
      }
    }
  }

  /** One step of the tier loop: a neighbour is skipped once the flag is
      set, otherwise its step runs and either throws or sets the flag. */
  lemma HBubbleStep(fx: Behaviour, strict: set<Ref>, rank: map<Ref, nat>, t: Ref, dir: Dir, ps: seq<Ref>, n: Name,
                    has: bool, st: St)
    requires Consistent(st.s) && Ranked(st.s, rank) && ps != []
    requires forall p :: p in ps ==> p in List(st.s, t, Next(dir))
    ensures has ==> HBubble(fx, strict, rank, t, dir, ps, n, has, st) == HBubble(fx, strict, rank, t, dir, ps[1..], n, has, st)
    ensures !has ==>
      var e := HName(fx, strict, rank, ps[0], Up, n, Bubbling(st.d), st);
      && Consistent(e.st.s) && Ranked(e.st.s, rank) && SameLists(st.s, e.st.s)
      && (e.threw ==> HBubble(fx, strict, rank, t, dir, ps, n, has, st) == Out(e.st, false, true))
      && (!e.threw ==> HBubble(fx, strict, rank, t, dir, ps, n, has, st) == HBubble(fx, strict, rank, t, dir, ps[1..], n, e.fired, e.st))
  {
    if !has {
      var e := HName(fx, strict, rank, ps[0], Up, n, Bubbling(st.d), st);
      RankedSameLists(st.s, e.st.s, rank);
    }
  }

  /** An emission of a single name is that name's step, with its flag as the result. */
  lemma HEmitOneName(fx: Behaviour, strict: set<Ref>, rank: map<Ref, nat>, t: Ref, dir: Dir, n: Name, st: St)
    requires Consistent(st.s) && (Bubbling(st.d) ==> Ranked(st.s, rank))
    ensures var b := HName(fx, strict, rank, t, dir, n, Bubbling(st.d), st);
      HEmit(fx, strict, rank, t, dir, [n], st) == Out(b.st, !b.threw && b.fired, b.threw)
  {
    var b := HName(fx, strict, rank, t, dir, n, Bubbling(st.d), st);
    assert [n][0] == n;
    if !b.threw {
      RankedSameLists(st.s, b.st.s, rank);
      assert [n][1..] == [];
      assert HNames(fx, strict, rank, t, dir, [n], Bubbling(st.d), false, st)
          == HNames(fx, strict, rank, t, dir, [], Bubbling(st.d), b.fired, b.st);
    }
  }

  /** Within one name, no listener of any target is called twice: a neighbour
      is tried only while nothing has fired, so at most one subtree calls
      anything, and the local snapshot is de-duplicated. */
  lemma {:induction false} HNameOnce(fx: Behaviour, strict: set<Ref>, rank: map<Ref, nat>, t: Ref, dir: Dir, n: Name,
                                     bub0: bool, st: St)
    requires Consistent(st.s) && (bub0 ==> Ranked(st.s, rank))
    ensures var c := HName(fx, strict, rank, t, dir, n, bub0, st).st.calls;
      |st.calls| <= |c| && Distinct(c[|st.calls|..])
    decreases DirRank(dir), Rank(rank, t), 1
  {
    HNameFacts(fx, strict, rank, t, dir, n, bub0, st);
    var loc := LocalStep(true, fx, t, n, false, st);
    LocalStepOnce(fx, t, n, false, st);
    var r := HName(fx, strict, rank, t, dir, n, bub0, st);
    if !Stopped(loc.st.d) && bub0 {
      RankedSameLists(st.s, loc.st.s, rank);
      var s2 := Lookup(true, loc.st.s, t, Next(dir));
      RankedSameLists(loc.st.s, s2, rank);
      var ps := Snapshot(true, s2, t, Next(dir));
      var b := HBubble(fx, strict, rank, t, dir, ps, n, loc.ran, loc.st.(s := s2));
      assert r.st == HNext(fx, strict, rank, t, dir, n, loc).st == b.st;
      if loc.ran {
        HBubbleShortCircuits(fx, strict, rank, t, dir, ps, n, loc.st.(s := s2));
      } else {
        assert loc.st.calls == st.calls;
        HBubbleOnce(fx, strict, rank, t, dir, ps, n, loc.st.(s := s2));
      }
    } else {
      assert r.st == loc.st;
    }
  }

  lemma {:induction false} HBubbleOnce(fx: Behaviour, strict: set<Ref>, rank: map<Ref, nat>, t: Ref, dir: Dir,
                                       ps: seq<Ref>, n: Name, st: St)
    requires Consistent(st.s) && Ranked(st.s, rank)
    requires forall p :: p in ps ==> p in List(st.s, t, Next(dir))
    ensures var c := HBubble(fx, strict, rank, t, dir, ps, n, false, st).st.calls;
      |st.calls| <= |c| && Distinct(c[|st.calls|..])
    decreases DirRank(dir), Rank(rank, t), 0, |ps|
  {
    HBubbleFacts(fx, strict, rank, t, dir, ps, n, false, st);
    if ps != [] {
      assert ps[0] in List(st.s, t, Next(dir));
      assert dir == Up ==> Rank(rank, ps[0]) < Rank(rank, t) by {
        if dir == Up {
          assert ps[0] in List(st.s, t, Parents);
        }
      }
      HNameFacts(fx, strict, rank, ps[0], Up, n, Bubbling(st.d), st);
      HNameOnce(fx, strict, rank, ps[0], Up, n, Bubbling(st.d), st);
      var e := HName(fx, strict, rank, ps[0], Up, n, Bubbling(st.d), st);
      if !e.threw {
        RankedSameLists(st.s, e.st.s, rank);
        if e.fired {
          HBubbleShortCircuits(fx, strict, rank, t, dir, ps[1..], n, e.st);
        } else {
          assert e.st.calls == st.calls;
          HBubbleOnce(fx, strict, rank, t, dir, ps[1..], n, e.st);
        }
      }
    }
  }

  /** When some listener of the target itself runs for a name, the hierarchy is
      not consulted for that name: the result is true and every call was on the
      target. */
  lemma HLocalListenersFirst(fx: Behaviour, strict: set<Ref>, rank: map<Ref, nat>, t: Ref, dir: Dir, n: Name, st: St)
    requires Consistent(st.s) && (Bubbling(st.d) ==> Ranked(st.s, rank)) && !Stopped(st.d)
    requires Snapshot(true, Lookup(true, st.s, t, n), t, n) != []
    ensures var r := HEmit(fx, strict, rank, t, dir, [n], st);
      !r.threw && r.fired && On(r.st.calls, |st.calls|, t)
  {
    LocalStepRuns(true, fx, t, n, false, st);
    HEmitOneName(fx, strict, rank, t, dir, n, st);
    var loc := LocalStep(true, fx, t, n, false, st);
    var b := HName(fx, strict, rank, t, dir, n, Bubbling(st.d), st);
    if !Stopped(loc.st.d) && Bubbling(st.d) {
      RankedSameLists(st.s, loc.st.s, rank);
      var s2 := Lookup(true, loc.st.s, t, Next(dir));
      RankedSameLists(loc.st.s, s2, rank);
      HBubbleShortCircuits(fx, strict, rank, t, dir, Snapshot(true, s2, t, Next(dir)), n, loc.st.(s := s2));
      assert HNext(fx, strict, rank, t, dir, n, loc).st == loc.st.(s := s2);
    }
    assert b.st.calls == loc.st.calls && b.fired && !b.threw;
  }

  /** On a target with `throwOnNoErrorListener`, an emission of `'error'` that
      does not throw has called some listener under `'error'`. */
  lemma {:induction false} HErrorIsHeard(fx: Behaviour, strict: set<Ref>, rank: map<Ref, nat>, t: Ref, dir: Dir,
                                         names: seq<Name>, bub0: bool, has: bool, st: St)
    requires Consistent(st.s) && (bub0 ==> Ranked(st.s, rank))
    requires t in strict && ErrorName in names
    ensures var r := HNames(fx, strict, rank, t, dir, names, bub0, has, st);
      !r.threw ==> exists i :: |st.calls| <= i < |r.st.calls| && r.st.calls[i].name == ErrorName
    decreases |names|
  {
    var r := HNames(fx, strict, rank, t, dir, names, bub0, has, st);
    var b := HName(fx, strict, rank, t, dir, names[0], bub0, st);
    if !r.threw {
      assert !b.threw;
      RankedSameLists(st.s, b.st.s, rank);
      assert r == HNames(fx, strict, rank, t, dir, names[1..], bub0, has || b.fired, b.st);
      if names[0] == ErrorName {
        HNameErrorHeard(fx, strict, rank, t, dir, bub0, st);
        HNamesFacts(fx, strict, rank, t, dir, names[1..], bub0, has || b.fired, b.st);
        assert r.st.calls[|st.calls|] == b.st.calls[|st.calls|];
      } else {
        HNameFacts(fx, strict, rank, t, dir, names[0], bub0, st);
        assert ErrorName in names[1..];
        HErrorIsHeard(fx, strict, rank, t, dir, names[1..], bub0, has || b.fired, b.st);
      }
    }
  }

  /** A strict target's step for `'error'` either throws or starts with an `'error'` call. */
  lemma HNameErrorHeard(fx: Behaviour, strict: set<Ref>, rank: map<Ref, nat>, t: Ref, dir: Dir, bub0: bool, st: St)
    requires Consistent(st.s) && (bub0 ==> Ranked(st.s, rank)) && t in strict
    ensures var b := HName(fx, strict, rank, t, dir, ErrorName, bub0, st);
      !b.threw ==> |b.st.calls| > |st.calls| && b.st.calls[|st.calls|].name == ErrorName
  {
    HNameFacts(fx, strict, rank, t, dir, ErrorName, bub0, st);
  }

  /** A descriptor that does not bubble (every meta-event) makes `emit` the
      plain local delivery `Notify` on the target, for names other than `'error'`. */
  lemma {:induction false} HNamesNotBubbling(fx: Behaviour, strict: set<Ref>, rank: map<Ref, nat>, t: Ref, dir: Dir,
                                             names: seq<Name>, has: bool, st: St)
    requires Consistent(st.s) && ErrorName !in names
    ensures HNames(fx, strict, rank, t, dir, names, false, has, st).st == Notify(true, fx, t, names, st)
    decreases |names|
  {
    if names != [] {
      var loc := LocalStep(true, fx, t, names[0], false, st);
      var b := HName(fx, strict, rank, t, dir, names[0], false, st);
      assert b == Out(loc.st, loc.ran, false);
      HNamesNotBubbling(fx, strict, rank, t, dir, names[1..], has || b.fired, b.st);
    }
  }
}
