/**
 A small state machine that RTHsmInit accepts, and runs of it that do what the documentation says
 cannot happen.
 */
module HsmExamples {
  import opened Words
  import opened HsmEvent
  import opened HsmTable
  import opened HsmPaths
  import opened HsmSpec
  import opened HsmRuns
  import opened HsmTheorems

  // ----- The table

  function PlainState(id: byte, flags: byte, parentId: byte, initialId: byte, transitions: seq<Transition>,
                      parent: Option<nat>, initial: Option<nat>): State
  {
    State(id, flags, parentId, initialId, None, None, 0, transitions, parent, initial)
  }

  function PlainTransition(toStateId: byte, eventId: byte, flags: byte, to: Option<nat>): Transition {
    Transition(toStateId, eventId, flags, None, None, 0, to)
  }

  /**
   Below the global state, a composite (id 2) with a nested initial state (id 3), and a composite
   flagged final (id 4) with a nested initial state (id 5) that is not. The first composite has a
   transition to itself on event 1, to its nested state on event 2, and to the final one on event 3.
   */
  function Written(flags: byte): seq<State> {
    [PlainState(1, 0, 0, 2, [], None, None),
     PlainState(2, 0, 1, 3,
                [PlainTransition(2, 1, 0, None), PlainTransition(3, 2, flags, None), PlainTransition(4, 3, 0, None)],
                None, None),
     PlainState(3, 0, 2, 0, [], None, None),
     PlainState(4, STATE_FLAG_FINAL, 1, 5, [], None, None),
     PlainState(5, 0, 4, 0, [], None, None)]
  }

  /** The same with the pointers that RTHsmInit fills in. */
  function Linked(flags: byte): Table {
    Table(
      [PlainState(1, 0, 0, 2, [], None, Some(1)),
       PlainState(2, 0, 1, 3,
                  [PlainTransition(2, 1, 0, Some(1)), PlainTransition(3, 2, flags, Some(2)),
                   PlainTransition(4, 3, 0, Some(3))],
                  Some(0), Some(2)),
       PlainState(3, 0, 2, 0, [], Some(1), None),
       PlainState(4, STATE_FLAG_FINAL, 1, 5, [], Some(0), Some(4)),
       PlainState(5, 0, 4, 0, [], Some(3), None)],
      0, 2)
  }

  lemma StateId(t: seq<State>, flags: byte, id: byte)
    requires t == Written(flags)
    ensures 1 <= id <= 5 ==> Lookup(t, id) == Some((id - 1) as nat)
  {
    assert DistinctIds(t);
    if id == 1 {
      LookupFinds(t, 1, 0);
    } else if id == 2 {
      LookupFinds(t, 2, 1);
    } else if id == 3 {
      LookupFinds(t, 3, 2);
    } else if id == 4 {
      LookupFinds(t, 4, 3);
    } else if id == 5 {
      LookupFinds(t, 5, 4);
    }
  }

  lemma LinkedIsLink(flags: byte)
    ensures Link(Written(flags)) == Linked(flags).states
  {
    hide Lookup;
    var t := Written(flags);
    StateId(t, flags, 1);
    StateId(t, flags, 2);
    StateId(t, flags, 3);
    StateId(t, flags, 4);
    StateId(t, flags, 5);
    assert LinkTransitions(t, t[1].transitions) == Linked(flags).states[1].transitions;
    forall s | 0 <= s < 5
      ensures Link(t)[s] == Linked(flags).states[s]
    {
      assert s == 0 || s == 1 || s == 2 || s == 3 || s == 4;
    }
  }

  lemma IsAccepted(flags: byte)
    ensures Acceptable(Written(flags), 2) && Tree(Linked(flags))
  {
    var t := Written(flags);
    assert DistinctIds(t);
    assert ParentById(t, 1, 0) && ParentById(t, 2, 1) && ParentById(t, 3, 0) && ParentById(t, 4, 3);
    assert NestedWithin(t, 0, 0, 1) && NestedWithin(t, 1, 0, 1) && NestedWithin(t, 3, 0, 1);
    forall s: nat | s < 5
      ensures InitialOk(t, s) && NestedWithin(t, s, 0, 2) && TargetsOk(t, 0, s)
    {
      assert s == 0 || s == 1 || s == 2 || s == 3 || s == 4;
      assert t[1].id == 2 && t[2].id == 3 && t[3].id == 4;
    }
    assert AcceptableWith(t, 0, 2);
    AcceptedIsTree(t, 0, 2);
    LinkedIsLink(flags);
  }

  // ----- Paths and transitions

  lemma Paths(flags: byte)
    ensures Tree(Linked(flags))
    ensures forall s: nat :: s < 5 ==> Reaches(Linked(flags), s, 2)
    ensures RootPath(Linked(flags), 1) == [1] && RootPath(Linked(flags), 2) == [1, 2]
    ensures RootPath(Linked(flags), 3) == [3]
    ensures Chain(Linked(flags), 0) == [1, 2] && Chain(Linked(flags), 1) == [2] && Chain(Linked(flags), 3) == [4]
  {
    var tb := Linked(flags);
    IsAccepted(flags);
    assert forall s: nat :: s < 5 ==> Reaches(tb, s, 2);
    assert RootPath(tb, 0) == [];
    RootPathUp(tb, 1);
    RootPathUp(tb, 2);
    RootPathUp(tb, 3);
    RootPathUp(tb, 4);
    assert Chain(tb, 2) == [] && Chain(tb, 4) == [];
    assert Chain(tb, 1) == [2] + Chain(tb, 2);
    assert Chain(tb, 0) == [1] + Chain(tb, 1);
  }

  /** The first composite's transition on this event, while its nested state is current. */
  ghost function MarkersOn(flags: byte, e: Event): (mks: seq<Marker>)
    requires 1 <= e.id <= 3
  {
    var fired := Fired(TransRef(1, (e.id - 1) as nat), e);
    if e.id == 1 || (e.id == 2 && flags & TRANSITION_FLAG_INTERNAL == 0) then [Exited(2), fired, Entered(2)]
    else if e.id == 2 then [fired]
    else [Exited(2), Exited(1), fired, Entered(3), Entered(4)]
  }

  lemma Fires(flags: byte, e: Event)
    requires 1 <= e.id <= 3
    ensures CanFire(Linked(flags), 2, TransRef(1, (e.id - 1) as nat))
  {
    IsAccepted(flags);
    Paths(flags);
    var tb := Linked(flags);
    assert GoodPointers(tb, 1);
    assert tb.n == 2 && Reaches(tb, 2, tb.n);
    assert Settled(tb, 2);
    assert |tb.states[1].transitions| == 3;
  }

  lemma MarkersAre(flags: byte, e: Event)
    requires 1 <= e.id <= 3
    ensures var tb, r := Linked(flags), TransRef(1, (e.id - 1) as nat);
            && CanFire(tb, 2, r) && FireMarkers(tb, 2, r, e) == MarkersOn(flags, e)
            && FireTarget(tb, 2, r) == if e.id == 3 then 4 else 2
  {
    hide Tree, Reaches, RootPath, Chain, Lcp, PathWithin;
    Paths(flags);
    Fires(flags, e);
    var tb, r := Linked(flags), TransRef(1, (e.id - 1) as nat);
    Prefixes();
    if e.id == 1 {
      assert TransitionAt(tb, r).toState == Some(1);
      assert Entries([2]) == [Entered(2)] && Entries([1][1..]) == [] && Exits([1, 2], 1) == [Exited(2)];
    } else if e.id == 2 {
      assert TransitionAt(tb, r) == PlainTransition(3, 2, flags, Some(2));
    } else {
      assert TransitionAt(tb, r).toState == Some(3);
      assert Entries([3][0..]) == [Entered(3)] && Entries([4]) == [Entered(4)];
      assert Exits([1, 2], 0) == [Exited(2), Exited(1)];
    }
  }

  lemma Prefixes()
    ensures Lcp([1, 2], [1]) == 1 && Lcp([1, 2], [3]) == 0
  {
    assert [1, 2][1..] == [2] && [1][1..] == [];
  }

  // ----- Runs

  function ExampleMachine<W>(env: Env<W>, flags: byte): Machine<W> {
    Machine(Linked(flags), 1, env)
  }

  /** No state or transition of the example has an action. */
  lemma {:induction false} Silent<W>(m: Machine<W>, flags: byte, x: Ctx<W>, mks: seq<Marker>)
    requires m.tb == Linked(flags)
    ensures PerformAll(m, x, mks) == x.(log := x.log + mks)
  {
    if mks == [] {
      assert x.log + [] == x.log;
    } else {
      var k := |mks| - 1;
      Silent(m, flags, x, mks[..k]);
      NoCall(m.tb, flags, mks[k]);
      assert x.log + mks[..k] + [mks[k]] == x.log + mks;
    }
  }

  lemma NoCall(tb: Table, flags: byte, mk: Marker)
    requires tb == Linked(flags)
    ensures CallOf(tb, mk).None?
  {
    assert |tb.states| == 5;
    if mk.Fired? && HasTransition(tb, mk.via) {
      assert mk.via.state == 1;
    }
  }

  lemma IsChosen<W>(m: Machine<W>, flags: byte, w: W, e: Event)
    requires m.tb == Linked(flags) && 1 <= e.id <= 3
    ensures Tree(m.tb) && Chosen(m, w, 2, e) == Some(TransRef(1, (e.id - 1) as nat))
  {
    hide Tree, RootPath, PathWithin, Reaches, Chosen, Lookup;
    Paths(flags);
    var tb, r := m.tb, TransRef(1, (e.id - 1) as nat);
    assert |tb.states[1].transitions| == 3 && tb.states[2].transitions == [];
    assert OnActivePath(tb, 2, r) && Enabled(m, w, e, r);
    forall q | OnActivePath(tb, 2, q) && Enabled(m, w, e, q)
      ensures q == r
    {
      assert q.state == 1 && (q.index == 0 || q.index == 1 || q.index == 2);
    }
    FiringPriority(m, w, 2, e, r);
  }

  lemma AfterMore<W>(m: Machine<W>, c: Config<W>, ops: seq<Op<W>>, op: Op<W>)
    requires Inv(m, c)
    ensures After(m, c, []) == c && After(m, c, ops + [op]) == Do(m, After(m, c, ops), op)
  {
    assert (ops + [op])[..|ops|] == ops;
  }

  lemma FirstStep<W>(m: Machine<W>, flags: byte, c: Config<W>)
    requires m.tb == Linked(flags) && Inv(m, c) && c.current.None?
    ensures Step(m, c) == (Config(Some(2), c.ctx.(log := c.ctx.log + [Entered(1), Entered(2)])), Ok)
  {
    hide Tree, RootPath, PathWithin, Reaches, PerformAll, Replay;
    Paths(flags);
    Silent(m, flags, c.ctx, [Entered(1), Entered(2)]);
    assert Entries([1, 2]) == [Entered(1), Entered(2)];
    assert Chain(m.tb, 0) == [1, 2] && m.tb.global == 0;
  }

  lemma NextStep<W>(m: Machine<W>, flags: byte, c: Config<W>, e: Event)
    requires m.tb == Linked(flags) && Inv(m, c) && c.current == Some(2) && c.ctx.queue == [e] && 1 <= e.id <= 3
    ensures var (c', result) := Step(m, c);
            && c'.current == Some(if e.id == 3 then 4 else 2)
            && c'.ctx.log == c.ctx.log + MarkersOn(flags, e) && c'.ctx.queue == []
  {
    hide Tree, RootPath, PathWithin, Reaches, Chosen, PerformAll, Replay, FireMarkers, FireTarget, MarkersOn;
    IsChosen(m, flags, c.ctx.world, e);
    MarkersAre(flags, e);
    Silent(m, flags, Dequeue(c.ctx), MarkersOn(flags, e));
    assert !IsFinal(m.tb, 2);
  }

  /** The example after the first step, a push of the event, and a step that takes it. */
  ghost predicate IsRun<W>(m: Machine<W>, w: W, e: Event, c: Config<W>) {
    Inv(m, Start(w, [])) && c == After(m, Start(w, []), [StepOp, PushOp(e), StepOp])
  }

  lemma RunOf<W>(env: Env<W>, w: W, flags: byte, e: Event) returns (c: Config<W>)
    requires 1 <= e.id <= 3
    ensures IsRun(ExampleMachine(env, flags), w, e, c) && Inv(ExampleMachine(env, flags), c)
    ensures c.ctx.log == [Entered(1), Entered(2)] + MarkersOn(flags, e)
    ensures c.current == Some(if e.id == 3 then 4 else 2) && c.ctx.queue == []
  {
    hide Tree, Inv, Step, After, MarkersOn, Linked;
    var m, c0 := ExampleMachine(env, flags), Start(w, []);
    IsAccepted(flags);
    StartIsSound(m, w, []);
    var push: seq<Op<W>>, step: seq<Op<W>> := [PushOp(e)], [StepOp];
    assert step + push == [StepOp, PushOp(e)] && [] + step == step;
    assert step + push + step == [StepOp, PushOp(e), StepOp];
    AfterMore(m, c0, [], StepOp);
    AfterMore(m, c0, step, PushOp(e));
    AfterMore(m, c0, step + push, StepOp);
    FirstStep(m, flags, c0);
    var c1 := Step(m, c0).0;
    DoKeeps(m, c0, StepOp);
    DoKeeps(m, c1, PushOp(e));
    var c2 := Do(m, c1, PushOp(e));
    assert [e][..1] == [e];
    NextStep(m, flags, c2, e);
    DoKeeps(m, c2, StepOp);
    c := Step(m, c2).0;
  }

  lemma TransitionsAre(flags: byte)
    ensures HasTransition(Linked(flags), TransRef(1, 0)) && HasTransition(Linked(flags), TransRef(1, 1))
    ensures Linked(flags).states[1].id == 2 && Linked(flags).states[3].flags == STATE_FLAG_FINAL
    ensures TransitionAt(Linked(flags), TransRef(1, 0)).toStateId == 2
    ensures TransitionAt(Linked(flags), TransRef(1, 0)).flags == 0
    ensures TransitionAt(Linked(flags), TransRef(1, 1)).toStateId == 3
    ensures IsInternal(TransitionAt(Linked(flags), TransRef(1, 1))) <==> flags & TRANSITION_FLAG_INTERNAL != 0
  {
  }

  lemma FlagDecides(e: Event)
    requires e.id == 2
    ensures 0 as byte & TRANSITION_FLAG_INTERNAL == 0 && 1 as byte & TRANSITION_FLAG_INTERNAL != 0
    ensures MarkersOn(0, e) == [Exited(2), Fired(TransRef(1, 1), e), Entered(2)]
    ensures MarkersOn(1, e) == [Fired(TransRef(1, 1), e)]
  {
  }

  /**
   A self-transition without the internal flag is documented to exit and re-enter its state. Here the
   composite fires its own while its nested state is current, and is not exited.
   */
  lemma CompositeIsNotReentered<W>(env: Env<W>, w: W, e: Event) returns (c: Config<W>, tr: Transition)
    requires e.id == 1
    ensures Acceptable(Written(0), 2) && Link(Written(0)) == Linked(0).states
    ensures IsRun(ExampleMachine(env, 0), w, e, c)
    ensures HasTransition(Linked(0), TransRef(1, 0)) && tr == TransitionAt(Linked(0), TransRef(1, 0))
    ensures tr.toStateId == Linked(0).states[1].id && !IsInternal(tr)
    ensures Fired(TransRef(1, 0), e) in c.ctx.log && Exited(1) !in c.ctx.log
  {
    hide Acceptable, Link, Linked, Written, IsRun, Tree, Inv, Replay, RootPath, Step;
    IsAccepted(0);
    LinkedIsLink(0);
    TransitionsAre(0);
    tr := TransitionAt(Linked(0), TransRef(1, 0));
    c := RunOf(env, w, 0, e);
    assert c.ctx.log[3] == Fired(TransRef(1, 0), e);
  }

  /**
   The internal flag is documented to be ignored for a transition between different states. Here the
   composite's transition to its nested state re-enters that state without the flag and not with it.
   */
  lemma InternalFlagCounts<W>(env: Env<W>, w: W, e: Event) returns (c: Config<W>, d: Config<W>)
    requires e.id == 2
    ensures Acceptable(Written(0), 2) && Link(Written(0)) == Linked(0).states
    ensures Acceptable(Written(1), 2) && Link(Written(1)) == Linked(1).states
    ensures IsRun(ExampleMachine(env, 0), w, e, c) && IsRun(ExampleMachine(env, 1), w, e, d)
    ensures HasTransition(Linked(0), TransRef(1, 1)) && HasTransition(Linked(1), TransRef(1, 1))
    ensures TransitionAt(Linked(0), TransRef(1, 1)).toStateId != Linked(0).states[1].id
    ensures !IsInternal(TransitionAt(Linked(0), TransRef(1, 1))) && IsInternal(TransitionAt(Linked(1), TransRef(1, 1)))
    ensures Exited(2) in c.ctx.log && Exited(2) !in d.ctx.log
  {
    hide *;
    IsAccepted(0);
    IsAccepted(1);
    FlagDecides(e);
    LinkedIsLink(0);
    LinkedIsLink(1);
    TransitionsAre(0);
    TransitionsAre(1);
    c := RunOf(env, w, 0, e);
    d := RunOf(env, w, 1, e);
    assert c.ctx.log[2] == Exited(2);
  }

  /**
   The machine is documented to stop when it enters a state flagged final. Here it enters one and, with
   nothing queued, the next step reports EMPTY instead of TERMINATED.
   */
  lemma FinalCompositeGoesOn<W>(env: Env<W>, w: W, e: Event) returns (c: Config<W>)
    requires e.id == 3
    ensures Acceptable(Written(0), 2) && Link(Written(0)) == Linked(0).states
    ensures IsRun(ExampleMachine(env, 0), w, e, c) && Inv(ExampleMachine(env, 0), c)
    ensures Entered(3) in c.ctx.log && Linked(0).states[3].flags == STATE_FLAG_FINAL
    ensures Step(ExampleMachine(env, 0), c).1 == Empty
  {
    hide Acceptable, Link, Written, IsRun, Tree;
    IsAccepted(0);
    LinkedIsLink(0);
    TransitionsAre(0);
    c := RunOf(env, w, 0, e);
    assert c.ctx.log[5] == Entered(3);
  }
}
