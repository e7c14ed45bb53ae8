/**
 What single transitions change, where the header and the code part, and when a machine comes to rest.
 */
module HsmTransitions {
  import opened Words
  import opened HsmEvent
  import opened HsmTable
  import opened HsmPaths
  import opened HsmSpec
  import opened HsmRuns

  // ----- Which states a transition leaves and enters

  lemma ExitsAre(p: seq<nat>, k: nat, s: nat)
    requires k <= |p|
    ensures Exited(s) in Exits(p, k) <==> s in p[k..]
    ensures Entered(s) !in Exits(p, k)
  {
    var mks := Exits(p, k);
    if s in p[k..] {
      var i :| 0 <= i < |p| - k && p[k..][i] == s;
      assert mks[|p| - 1 - (k + i)] == Exited(p[k + i]);
    }
  }

  lemma EntriesAre(p: seq<nat>, s: nat)
    ensures Entered(s) in Entries(p) <==> s in p
    ensures Exited(s) !in Entries(p)
  {
    if s in p {
      var i :| 0 <= i < |p| && p[i] == s;
      assert Entries(p)[i] == Entered(s);
    }
  }

  /** Past the common prefix, a path has just the states that are not on the other path. */
  lemma PastPrefix(tb: Table, s: nat, d: nat, x: nat)
    requires Tree(tb) && s < |tb.states| && d < |tb.states|
    requires Reaches(tb, s, tb.n) && Reaches(tb, d, tb.n)
    ensures var p, q := RootPath(tb, s), RootPath(tb, d);
            x in q[Lcp(p, q)..] <==> x in q && x !in p
  {
    var p, q := RootPath(tb, s), RootPath(tb, d);
    var k := Lcp(p, q);
    assert q == q[..k] + q[k..];
    if x in q[k..] {
      var j :| k <= j < |q| && q[j] == x;
      SharedAncestor(tb, s, d, j);
    }
    if x in q && x !in q[k..] {
      var j :| 0 <= j < k && q[j] == x;
      SharedAncestor(tb, s, d, j);
    }
  }

  lemma LcpSymmetric(p: seq<nat>, q: seq<nat>)
    ensures Lcp(p, q) == Lcp(q, p)
  {
  }

  /** The initial chain of a state leads strictly below it. */
  lemma ChainBelow(tb: Table, s: nat, x: nat)
    requires Tree(tb) && s < |tb.states| && Reaches(tb, s, tb.n)
    ensures x in Chain(tb, s) ==> x !in RootPath(tb, s)
  {
    ChainExtendsPath(tb, s);
    PathDistinct(tb, Leaf(tb, s));
    var p, c := RootPath(tb, s), Chain(tb, s);
    if x in c {
      var j :| 0 <= j < |c| && c[j] == x;
      assert (p + c)[|p| + j] == x;
      assert forall i :: 0 <= i < |p| ==> (p + c)[i] == p[i];
    }
  }

  /**
   A transition to another state exits exactly the active states that neither are nor contain the
   destination, and enters exactly those states of the new active path that were not both active and
   around the destination. A state inside the destination may be exited and entered again.
   */
  lemma FireChanges(tb: Table, cur: nat, r: TransRef, e: Event, s: nat)
    requires CanFire(tb, cur, r) && TransitionAt(tb, r).toState != Some(cur)
    ensures var to := TransitionAt(tb, r).toState.value;
            var l := FireTarget(tb, cur, r);
            && Reaches(tb, to, tb.n) && Reaches(tb, l, tb.n)
            && var p, q := RootPath(tb, cur), RootPath(tb, to);
            var mks := FireMarkers(tb, cur, r, e);
            && (Exited(s) in mks <==> s in p && s !in q)
            && (Entered(s) in mks <==> s in RootPath(tb, l) && !(s in p && s in q))
  {
    var to := TransitionAt(tb, r).toState.value;
    assert Reaches(tb, to, tb.n);
    ChainExtendsPath(tb, to);
    var l := Leaf(tb, to);
    var p, q, c := RootPath(tb, cur), RootPath(tb, to), Chain(tb, to);
    var k := Lcp(p, q);
    ExitsAre(p, k, s);
    EntriesAre(q[k..], s);
    EntriesAre(c, s);
    PastPrefix(tb, cur, to, s);
    PastPrefix(tb, to, cur, s);
    LcpSymmetric(p, q);
    assert RootPath(tb, l) == q + c;
    ChainBelow(tb, to, s);
  }

  /**
   The transition action runs once, after every exit and before every entry. While it runs, the active
   states are those that contain both the current state and the destination; for a transition to the
   current state itself, those that contain it, and the state itself too if the transition is internal.
   */
  lemma FireInOrder(tb: Table, cur: nat, r: TransRef, e: Event) returns (k: nat)
    requires CanFire(tb, cur, r)
    ensures var mks := FireMarkers(tb, cur, r, e);
            && k < |mks| && mks[k] == Fired(r, e)
            && (forall i :: 0 <= i < k ==> mks[i].Exited?)
            && (forall i :: k < i < |mks| ==> mks[i].Entered?)
    ensures var tr, p := TransitionAt(tb, r), RootPath(tb, cur);
            var to := tr.toState.value;
            && p != [] && Reaches(tb, to, tb.n)
            && Replay(tb, p, FireMarkers(tb, cur, r, e)[..k])
               == Some(if to != cur then p[..Lcp(p, RootPath(tb, to))]
                       else if IsInternal(tr) then p
                       else p[..|p| - 1])
  {
    var to := TransitionAt(tb, r).toState.value;
    var mks, p := FireMarkers(tb, cur, r, e), RootPath(tb, cur);
    assert Reaches(tb, to, tb.n);
    if to == cur {
      k := if IsInternal(TransitionAt(tb, r)) then 0 else 1;
      ReplayExits(tb, p, |p| - k);
      assert mks[..k] == Exits(p, |p| - k);
      assert p[..|p|] == p;
    } else {
      var m := Lcp(p, RootPath(tb, to));
      k := |p| - m;
      ReplayExits(tb, p, m);
      assert mks[..k] == Exits(p, m);
    }
  }

  // ----- Self-transitions

  /**
   A transition whose destination is its own source, without the internal flag, is documented to exit
   and re-enter that state. The code does so if and only if that state is the current one; while a
   nested state is current, the composite is neither exited nor entered.
   */
  lemma SelfTransitionReenters(tb: Table, cur: nat, r: TransRef, e: Event)
    requires CanFire(tb, cur, r) && r.state in RootPath(tb, cur)
    requires TransitionAt(tb, r).toState == Some(r.state) && !IsInternal(TransitionAt(tb, r))
    ensures var mks := FireMarkers(tb, cur, r, e);
            && (Exited(r.state) in mks <==> r.state == cur)
            && (Entered(r.state) in mks <==> r.state == cur)
  {
    var mks := FireMarkers(tb, cur, r, e);
    if r.state == cur {
      assert mks[0] == Exited(cur) && mks[2] == Entered(cur);
    } else {
      FireChanges(tb, cur, r, e, r.state);
    }
  }

  /** The same table with the internal flag of one transition turned on. */
  function WithInternal(tb: Table, r: TransRef): Table
    requires HasTransition(tb, r)
  {
    var st := tb.states[r.state];
    var tr := st.transitions[r.index].(flags := st.transitions[r.index].flags | TRANSITION_FLAG_INTERNAL);
    tb.(states := tb.states[r.state := st.(transitions := st.transitions[r.index := tr])])
  }

  predicate SamePointers(tb: Table, u: Table) {
    && u.global == tb.global && u.n == tb.n && |u.states| == |tb.states|
    && forall s :: 0 <= s < |tb.states| ==>
         u.states[s].parent == tb.states[s].parent && u.states[s].initial == tb.states[s].initial
  }

  lemma {:induction false} SameReaches(tb: Table, u: Table, s: nat, k: nat)
    requires SamePointers(tb, u) && Reaches(tb, s, k)
    ensures Reaches(u, s, k)
    decreases k
  {
    if s != tb.global {
      SameReaches(tb, u, tb.states[s].parent.value, k - 1);
    }
  }

  lemma StillCanFire(tb: Table, cur: nat, r: TransRef)
    requires CanFire(tb, cur, r)
    ensures SamePointers(tb, WithInternal(tb, r)) && CanFire(WithInternal(tb, r), cur, r)
  {
    var u := WithInternal(tb, r);
    forall s: nat | s < |tb.states|
      ensures Reaches(u, s, u.n) && GoodPointers(u, s)
    {
      assert Reaches(tb, s, tb.n) && GoodPointers(tb, s);
      SameReaches(tb, u, s, tb.n);
    }
  }

  lemma {:induction false} SamePath(tb: Table, u: Table, s: nat, k: nat)
    requires SamePointers(tb, u) && Reaches(tb, s, k) && Reaches(u, s, k)
    ensures PathWithin(u, s, k) == PathWithin(tb, s, k)
    decreases k
  {
    if s != tb.global {
      SamePath(tb, u, tb.states[s].parent.value, k - 1);
    }
  }

  lemma {:induction false} SameChain(tb: Table, u: Table, s: nat)
    requires Tree(tb) && Tree(u) && SamePointers(tb, u)
    requires s < |tb.states| && Reaches(tb, s, tb.n) && Reaches(u, s, u.n)
    ensures Chain(u, s) == Chain(tb, s)
    decreases tb.n - |RootPath(tb, s)|
  {
    if tb.states[s].initial.Some? {
      InitialDeeper(tb, s);
      InitialDeeper(u, s);
      SameChain(tb, u, tb.states[s].initial.value);
    }
  }

  /**
   Between different states the internal flag is documented to be ignored. For a transition of an
   active state that lacks it, turning it on leaves the callbacks alone if and only if the destination
   is not the current state: an enclosing state's transition to the current state counts as a
   self-transition.
   */
  lemma InternalFlagIgnored(tb: Table, cur: nat, r: TransRef, e: Event)
    requires CanFire(tb, cur, r) && !IsInternal(TransitionAt(tb, r))
    ensures CanFire(WithInternal(tb, r), cur, r)
    ensures FireMarkers(WithInternal(tb, r), cur, r, e) == FireMarkers(tb, cur, r, e)
            <==> TransitionAt(tb, r).toState != Some(cur)
  {
    var u := WithInternal(tb, r);
    StillCanFire(tb, cur, r);
    var to := TransitionAt(tb, r).toState.value;
    assert TransitionAt(u, r).toState == Some(to);
    if to == cur {
      assert TransitionAt(u, r).flags & 1 != 0;
      assert |FireMarkers(u, cur, r, e)| == 1 && |FireMarkers(tb, cur, r, e)| == 3;
    } else {
      assert Reaches(tb, to, tb.n) && Reaches(u, to, u.n);
      SamePath(tb, u, cur, tb.n);
      SamePath(tb, u, to, tb.n);
      SameChain(tb, u, to);
    }
  }

  // ----- Events and transition actions

  /** The events handed to transitions, in order. */
  function FiredEvents(log: seq<Marker>): seq<Event> {
    if log == [] then []
    else FiredEvents(log[..|log| - 1]) + if log[|log| - 1].Fired? then [log[|log| - 1].event] else []
  }

  lemma {:induction false} FiredConcat(a: seq<Marker>, b: seq<Marker>)
    ensures FiredEvents(a + b) == FiredEvents(a) + FiredEvents(b)
  {
    if b == [] {
      assert a + b == a;
    } else {
      FiredConcat(a, b[..|b| - 1]);
      assert (a + b)[..|a + b| - 1] == a + b[..|b| - 1];
    }
  }

  lemma {:induction false} NothingFired(log: seq<Marker>)
    requires forall i :: 0 <= i < |log| ==> !log[i].Fired?
    ensures FiredEvents(log) == []
  {
    if log != [] {
      NothingFired(log[..|log| - 1]);
    }
  }

  lemma FireHandsOver(tb: Table, cur: nat, r: TransRef, e: Event)
    requires CanFire(tb, cur, r)
    ensures FiredEvents(FireMarkers(tb, cur, r, e)) == [e]
  {
    var to := TransitionAt(tb, r).toState.value;
    var fired := [Fired(r, e)];
    assert fired[..0] == [];
    if to == cur {
      NothingFired([Exited(cur)]);
      NothingFired([Entered(cur)]);
      FiredConcat([Exited(cur)], fired);
      FiredConcat([Exited(cur)] + fired, [Entered(cur)]);
      assert [Exited(cur)] + fired + [Entered(cur)] == [Exited(cur), Fired(r, e), Entered(cur)];
    } else {
      assert Reaches(tb, to, tb.n);
      var p, q := RootPath(tb, cur), RootPath(tb, to);
      var k := Lcp(p, q);
      NothingFired(Exits(p, k));
      NothingFired(Entries(q[k..]));
      NothingFired(Entries(Chain(tb, to)));
      FiredConcat(Exits(p, k), fired);
      FiredConcat(Exits(p, k) + fired, Entries(q[k..]));
      FiredConcat(Exits(p, k) + fired + Entries(q[k..]), Entries(Chain(tb, to)));
    }
  }

  /**
   A step that takes an event and reports OK fires exactly one transition, with that event as it was
   when it was dequeued, however much its callbacks push; every other step fires none.
   */
  lemma StepFires<W>(m: Machine<W>, c: Config<W>)
    requires Inv(m, c)
    ensures var (c', result) := Step(m, c);
            && c'.ctx.taken == c.ctx.taken + (if Takes(m, c) then [c.ctx.queue[0]] else [])
            && FiredEvents(c'.ctx.log)
               == FiredEvents(c.ctx.log) + (if Takes(m, c) && result == Ok then [c.ctx.queue[0]] else [])
  {
    if c.current.None? {
      var entries := Entries(Chain(m.tb, m.tb.global));
      assert Reaches(m.tb, m.tb.global, m.tb.n);
      CallbacksConserve(m, c.ctx, entries);
      NothingFired(entries);
      FiredConcat(c.ctx.log, entries);
    } else if Takes(m, c) {
      var cur, e, x := c.current.value, c.ctx.queue[0], Dequeue(c.ctx);
      DequeueConserves(m, c.ctx);
      var chosen := Chosen(m, x.world, cur, e);
      if chosen.Some? {
        assert GoodPointers(m.tb, chosen.value.state);
        var mks := FireMarkers(m.tb, cur, chosen.value, e);
        CallbacksConserve(m, x, mks);
        FireHandsOver(m.tb, cur, chosen.value, e);
        FiredConcat(x.log, mks);
      }
    }
  }

  /** The step dequeues an event. */
  ghost predicate Takes<W>(m: Machine<W>, c: Config<W>)
    requires Ready(m, c)
  {
    c.current.Some? && !IsFinal(m.tb, c.current.value) && c.ctx.queue != []
  }

  /**
   The machine is documented to stop when it enters a state flagged final. Only the flag of the state
   it settles in counts: a final destination with an initial sub-state does not stop it.
   */
  lemma StopsInFinalLeaf<W>(m: Machine<W>, c: Config<W>) returns (r: TransRef, to: nat)
    requires Inv(m, c) && Takes(m, c) && Step(m, c).1 == Ok
    ensures Chosen(m, c.ctx.world, c.current.value, c.ctx.queue[0]) == Some(r)
    ensures TransitionAt(m.tb, r).toState == Some(to) && Reaches(m.tb, to, m.tb.n)
    ensures Settled(m.tb, Leaf(m.tb, to)) && (m.tb.states[to].initial.None? ==> Leaf(m.tb, to) == to)
    ensures Inv(m, Step(m, c).0)
    ensures Step(m, Step(m, c).0).1 == Terminated <==> IsFinal(m.tb, Leaf(m.tb, to))
  {
    r := Chosen(m, c.ctx.world, c.current.value, c.ctx.queue[0]).value;
    assert GoodPointers(m.tb, r.state);
    to := TransitionAt(m.tb, r).toState.value;
    assert Reaches(m.tb, to, m.tb.n);
    ChainExtendsPath(m.tb, to);
    StepKeeps(m, c);
  }

  // ----- Coming to rest

  /** No callback pushes anything. */
  ghost predicate Quiet<W(!new)>(m: Machine<W>) {
    forall w, call, room :: m.env.act(w, call, room).1 == []
  }

  /** Steps, before each of which the outside world may change. */
  ghost function Steps<W>(m: Machine<W>, c: Config<W>, worlds: seq<W>): (d: Config<W>)
    requires Inv(m, c)
    ensures Inv(m, d)
    decreases |worlds|
  {
    if worlds == [] then c
    else
      WorldKeeps(m, c, worlds[0]);
      StepKeeps(m, InWorld(c, worlds[0]));
      Steps(m, Step(m, InWorld(c, worlds[0])).0, worlds[1..])
  }

  /** Whatever the outside world is, a step changes nothing and reports that there is nothing to do. */
  ghost predicate AtRest<W(!new)>(m: Machine<W>, c: Config<W>)
    requires Ready(m, c)
  {
    forall w ::
      || Step(m, InWorld(c, w)) == (InWorld(c, w), Empty)
      || Step(m, InWorld(c, w)) == (InWorld(c, w), Terminated)
  }

  /** That is so in a final state, and when nothing is queued. */
  lemma RestsIff<W(!new)>(m: Machine<W>, c: Config<W>)
    requires Ready(m, c)
    ensures AtRest(m, c) <==> c.current.Some? && (IsFinal(m.tb, c.current.value) || c.ctx.queue == [])
  {
    var d := InWorld(c, c.ctx.world);
    assert c == d;
    if c.current.Some? && !IsFinal(m.tb, c.current.value) && c.ctx.queue != [] {
      assert Step(m, d).1 != Empty && Step(m, d).1 != Terminated;
    }
  }

  lemma {:induction false} QuietCallbacks<W(!new)>(m: Machine<W>, x: Ctx<W>, mks: seq<Marker>)
    requires Quiet(m)
    ensures PerformAll(m, x, mks).queue == x.queue
  {
    if mks != [] {
      QuietCallbacks(m, x, mks[..|mks| - 1]);
    }
  }

  /** With quiet callbacks, a step that is not at rest is the first one or uses up an event. */
  lemma QuietStep<W(!new)>(m: Machine<W>, c: Config<W>)
    requires Inv(m, c) && Quiet(m) && !AtRest(m, c)
    ensures var c' := Step(m, c).0;
            && c'.current.Some?
            && (if c.current.None? then c'.ctx.queue == c.ctx.queue
                else c.ctx.queue != [] && c'.ctx.queue == c.ctx.queue[1..])
  {
    RestsIff(m, c);
    if c.current.None? {
      assert Reaches(m.tb, m.tb.global, m.tb.n);
      QuietCallbacks(m, c.ctx, Entries(Chain(m.tb, m.tb.global)));
    } else {
      var cur, e, x := c.current.value, c.ctx.queue[0], Dequeue(c.ctx);
      var chosen := Chosen(m, x.world, cur, e);
      if chosen.Some? {
        assert GoodPointers(m.tb, chosen.value.state);
        QuietCallbacks(m, x, FireMarkers(m.tb, cur, chosen.value, e));
      }
    }
  }

  /** How many steps a quiet machine may still take: the first one, then one per queued event. */
  function Pending<W>(c: Config<W>): nat {
    (if c.current.None? then 1 else 0) + |c.ctx.queue|
  }

  /**
   If callbacks push nothing, the machine is at rest after at most that many steps, however the outside
   world changes in between, and from then on nothing but the outside world changes.
   */
  lemma {:induction false} ComesToRest<W(!new)>(m: Machine<W>, c: Config<W>, worlds: seq<W>)
    requires Inv(m, c) && Quiet(m) && |worlds| >= Pending(c)
    ensures AtRest(m, Steps(m, c, worlds))
    ensures var d := Steps(m, c, worlds);
            d == InWorld(Steps(m, c, worlds[..Pending(c)]), d.ctx.world)
    decreases |worlds|
  {
    hide PerformAll, Chosen, FireMarkers, FireTarget, Tree, Replay, RootPath, Step, AtRest;
    RestsIff(m, c);
    if AtRest(m, c) {
      StaysAtRest(m, c, worlds);
      StaysAtRest(m, c, worlds[..Pending(c)]);
    } else {
      var c0 := InWorld(c, worlds[0]);
      WorldKeeps(m, c, worlds[0]);
      RestsIff(m, c0);
      QuietStep(m, c0);
      StepKeeps(m, c0);
      assert Pending(Step(m, c0).0) == Pending(c) - 1;
      ComesToRest(m, Step(m, c0).0, worlds[1..]);
      assert worlds[..Pending(c)][1..] == worlds[1..][..Pending(c) - 1];
    }
  }

  lemma {:induction false} StaysAtRest<W(!new)>(m: Machine<W>, c: Config<W>, worlds: seq<W>)
    requires Inv(m, c) && AtRest(m, c)
    ensures Steps(m, c, worlds) == InWorld(c, if worlds == [] then c.ctx.world else worlds[|worlds| - 1])
    ensures AtRest(m, Steps(m, c, worlds))
    decreases |worlds|
  {
    if worlds != [] {
      var c0 := InWorld(c, worlds[0]);
      WorldKeeps(m, c, worlds[0]);
      RestsIff(m, c);
      RestsIff(m, c0);
      assert Step(m, c0).0 == c0;
      StaysAtRest(m, c0, worlds[1..]);
    }
  }
}
