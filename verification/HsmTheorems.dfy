/** What holds of every state machine that RTHsmInit accepts, over every run. */
module HsmTheorems {
  import opened Words
  import opened HsmEvent
  import opened HsmTable
  import opened HsmPaths
  import opened HsmSpec
  import opened HsmRuns

  // ----- Runs

  /**
   One thing done from outside: pushing an event, stepping, or changing the world that guards read.
   Callbacks push and change the world on their own account.
   */
  datatype Op<W> = PushOp(event: Event) | StepOp | WorldOp(world: W)

  /** Just after RTHsmInit, over a queue that may already hold events. */
  function Start<W>(world: W, queue: seq<Event>): Config<W> {
    Config(None, Ctx(queue, world, [], queue, []))
  }

  ghost function Do<W>(m: Machine<W>, c: Config<W>, op: Op<W>): Config<W>
    requires Inv(m, c)
  {
    match op
    case PushOp(e) => c.(ctx := Push(m, c.ctx, [e]))
    case StepOp => Step(m, c).0
    case WorldOp(w) => InWorld(c, w)
  }

  lemma DoKeeps<W>(m: Machine<W>, c: Config<W>, op: Op<W>)
    requires Inv(m, c)
    ensures Inv(m, Do(m, c, op))
  {
    match op
    case PushOp(e) => PushConserves(m, c.ctx, [e]);
    case StepOp => StepKeeps(m, c);
    case WorldOp(w) => WorldKeeps(m, c, w);
  }

  /** The configuration after a sequence of calls, with the world changing in between. */
  ghost function After<W>(m: Machine<W>, c: Config<W>, ops: seq<Op<W>>): (d: Config<W>)
    requires Inv(m, c)
    ensures Inv(m, d)
    ensures StepOp in ops || c.current.Some? ==> d.current.Some?
  {
    if ops == [] then c
    else
      var d := After(m, c, ops[..|ops| - 1]);
      DoKeeps(m, d, ops[|ops| - 1]);
      assert ops == ops[..|ops| - 1] + [ops[|ops| - 1]];
      Do(m, d, ops[|ops| - 1])
  }

  lemma StartIsSound<W>(m: Machine<W>, world: W, queue: seq<Event>)
    requires Tree(m.tb) && |queue| <= m.capacity
    ensures Inv(m, Start(world, queue))
  {
  }

  /**
   Safety over whole runs, at every point of every run and whatever else changes the world between
   calls: the replayed log is the path of active states, no event is lost, duplicated or reordered, and
   once stepped the machine rests in a proper state without an initial sub-state. Active states have
   been entered once more than exited, all others as often as exited; the global state is never
   entered or exited.
   */
  lemma {:induction false} EveryRun<W>(m: Machine<W>, world: W, queue: seq<Event>, ops: seq<Op<W>>)
    requires Tree(m.tb) && |queue| <= m.capacity
    ensures Inv(m, Start(world, queue))
    ensures var c := After(m, Start(world, queue), ops);
            var active := ActivePath(m.tb, c.current);
            && (StepOp in ops ==> c.current.Some?)
            && (c.current.Some? ==> Settled(m.tb, c.current.value))
            && Replay(m.tb, [], c.ctx.log) == Some(active)
            && c.ctx.taken + c.ctx.queue == c.ctx.accepted && |c.ctx.queue| <= m.capacity
            && (forall s: nat :: multiset(c.ctx.log)[Entered(s)]
                              == multiset(c.ctx.log)[Exited(s)] + (if s in active then 1 else 0))
            && Entered(m.tb.global) !in c.ctx.log && Exited(m.tb.global) !in c.ctx.log
  {
    StartIsSound(m, world, queue);
    var c := After(m, Start(world, queue), ops);
    var active := ActivePath(m.tb, c.current);
    assert Distinct(active) by {
      if c.current.Some? { PathDistinct(m.tb, c.current.value); }
    }
    forall s: nat
      ensures multiset(c.ctx.log)[Entered(s)] == multiset(c.ctx.log)[Exited(s)] + (if s in active then 1 else 0)
    {
      StackCounts(m.tb, c.ctx.log, s);
      DistinctCounts(active, s);
    }
    GlobalNotLogged(m.tb, c.ctx.log);
  }

  predicate Distinct(p: seq<nat>) {
    forall i, j :: 0 <= i < j < |p| ==> p[i] != p[j]
  }

  lemma {:induction false} DistinctCounts(p: seq<nat>, s: nat)
    requires Distinct(p)
    ensures multiset(p)[s] == if s in p then 1 else 0
  {
    if p != [] {
      var k := |p| - 1;
      DistinctCounts(p[..k], s);
      assert p == p[..k] + [p[k]];
    }
  }

  /** Replayed from nothing, a log has entered each state once more than exited it iff it is on the stack. */
  lemma {:induction false} StackCounts(tb: Table, log: seq<Marker>, s: nat)
    requires Replay(tb, [], log).Some?
    ensures multiset(log)[Entered(s)] == multiset(log)[Exited(s)] + multiset(Replay(tb, [], log).value)[s]
  {
    if log != [] {
      var k := |log| - 1;
      StackCounts(tb, log[..k], s);
      assert log == log[..k] + [log[k]];
      var stack, stack' := Replay(tb, [], log[..k]).value, Replay(tb, [], log).value;
      if log[k].Exited? {
        assert stack == stack' + [log[k].state];
      }
    }
  }

  lemma {:induction false} GlobalNotLogged(tb: Table, log: seq<Marker>)
    requires Tree(tb) && Replay(tb, [], log).Some?
    ensures Entered(tb.global) !in log && Exited(tb.global) !in log
  {
    if log != [] {
      var k := |log| - 1;
      GlobalNotLogged(tb, log[..k]);
      StackCounts(tb, log[..k], tb.global);
      assert log == log[..k] + [log[k]];
    }
  }

  // ----- Real-time bound

  lemma FireBound(tb: Table, cur: nat, r: TransRef, e: Event)
    requires CanFire(tb, cur, r)
    ensures |FireMarkers(tb, cur, r, e)| <= 2 * tb.n + 1
  {
    var to := TransitionAt(tb, r).toState.value;
    if to == cur {
      assert |RootPath(tb, cur)| >= 1;
    } else {
      assert Reaches(tb, to, tb.n);
      ChainExtendsPath(tb, to);
      assert |RootPath(tb, Leaf(tb, to))| <= tb.n;
    }
  }

  /** One step runs at most 2n + 1 exit, transition and entry callbacks, and only ever adds to the log. */
  lemma StepBound<W>(m: Machine<W>, c: Config<W>)
    requires Inv(m, c)
    ensures var log' := Step(m, c).0.ctx.log;
            c.ctx.log <= log' && |log'| <= |c.ctx.log| + 2 * m.tb.n + 1
  {
    if c.current.None? {
      var g := m.tb.global;
      assert Reaches(m.tb, g, m.tb.n);
      ChainExtendsPath(m.tb, g);
      assert |RootPath(m.tb, Leaf(m.tb, g))| <= m.tb.n;
      CallbacksConserve(m, c.ctx, Entries(Chain(m.tb, g)));
    } else if !IsFinal(m.tb, c.current.value) && c.ctx.queue != [] {
      var cur, e, x := c.current.value, c.ctx.queue[0], Dequeue(c.ctx);
      DequeueConserves(m, c.ctx);
      var chosen := Chosen(m, x.world, cur, e);
      if chosen.Some? {
        assert GoodPointers(m.tb, chosen.value.state);
        FireBound(m.tb, cur, chosen.value, e);
        CallbacksConserve(m, x, FireMarkers(m.tb, cur, chosen.value, e));
      }
    }
  }

  // ----- Which transition fires

  ghost predicate OnActivePath(tb: Table, s: nat, r: TransRef)
    requires s < |tb.states| && Reaches(tb, s, tb.n)
  {
    HasTransition(tb, r) && r.state in RootPath(tb, s)
  }

  /** Inner states come first; within a state, table order. */
  ghost predicate Precedes(tb: Table, a: TransRef, b: TransRef)
    requires Reaches(tb, a.state, tb.n) && Reaches(tb, b.state, tb.n)
  {
    || |RootPath(tb, a.state)| > |RootPath(tb, b.state)|
    || (a.state == b.state && a.index < b.index)
  }

  /** The candidates are exactly the transitions of the active states... */
  lemma {:induction false} CandidatesAre(tb: Table, p: seq<nat>, r: TransRef)
    requires InTable(tb, p)
    ensures r in Candidates(tb, p) <==> HasTransition(tb, r) && r.state in p
  {
    if p != [] {
      var k := |p| - 1;
      CandidatesAre(tb, p[..k], r);
      var own := Outgoing(tb, p[k]);
      if HasTransition(tb, r) && r.state == p[k] {
        assert own[r.index] == r;
      }
      assert r in Candidates(tb, p) <==> r in own || r in Candidates(tb, p[..k]);
      assert p == p[..k] + [p[k]];
    }
  }

  /** ... in order of precedence. */
  lemma {:induction false} CandidatesOrdered(tb: Table, s: nat, d: nat, i: nat, j: nat)
    requires Tree(tb) && s < |tb.states| && Reaches(tb, s, tb.n)
    requires d <= |RootPath(tb, s)| && InTable(tb, RootPath(tb, s)[..d])
    requires i < j < |Candidates(tb, RootPath(tb, s)[..d])|
    ensures var rs := Candidates(tb, RootPath(tb, s)[..d]);
            Reaches(tb, rs[i].state, tb.n) && Reaches(tb, rs[j].state, tb.n) && Precedes(tb, rs[i], rs[j])
  {
    var p := RootPath(tb, s);
    if d > 0 {
      assert p[..d][..d - 1] == p[..d - 1];
      var own, rest := Outgoing(tb, p[d - 1]), Candidates(tb, p[..d - 1]);
      PathPrefix(tb, s, d - 1);
      if i >= |own| {
        CandidatesOrdered(tb, s, d - 1, i - |own|, j - |own|);
      } else if j >= |own| {
        var b := rest[j - |own|];
        CandidatesAre(tb, p[..d - 1], b);
        var l :| 0 <= l < d - 1 && p[..d - 1][l] == b.state;
        PathPrefix(tb, s, l);
      }
    }
  }

  /** Transition r is for this event, and it has no guard or its guard returns 0. */
  ghost predicate LetsFire<W>(m: Machine<W>, w: W, e: Event, r: TransRef)
    requires HasTransition(m.tb, r)
  {
    var tr := m.tb.states[r.state].transitions[r.index];
    tr.eventId == e.id && (tr.guard.None? || m.env.guard(w, tr.guard.value, e, tr.cookie) == 0)
  }

  /** Transition r is for this event, and its guard returns the non-zero value v. */
  ghost predicate Forbids<W>(m: Machine<W>, w: W, e: Event, r: TransRef, v: byte)
    requires HasTransition(m.tb, r)
  {
    var tr := m.tb.states[r.state].transitions[r.index];
    tr.eventId == e.id && tr.guard.Some? && m.env.guard(w, tr.guard.value, e, tr.cookie) == v && v != 0
  }

  lemma GuardDecides<W>(m: Machine<W>, w: W, e: Event, r: TransRef)
    requires HasTransition(m.tb, r)
    ensures Enabled(m, w, e, r) <==> LetsFire(m, w, e, r)
    ensures Denied(m, w, e, r) <==> Forbids(m, w, e, r, GuardValue(m, w, e, r))
    ensures forall v :: Forbids(m, w, e, r, v) ==> v == GuardValue(m, w, e, r)
  {
  }

  /**
   Firing priority: a transition is chosen if and only if it originates from an active state, its event
   and guard let it fire, and it precedes every other such transition.
   */
  lemma FiringPriority<W>(m: Machine<W>, w: W, s: nat, e: Event, r: TransRef)
    requires Tree(m.tb) && s < |m.tb.states| && Reaches(m.tb, s, m.tb.n)
    ensures Chosen(m, w, s, e) == Some(r) <==>
              && OnActivePath(m.tb, s, r) && LetsFire(m, w, e, r)
              && forall q :: OnActivePath(m.tb, s, q) && LetsFire(m, w, e, q) && q != r ==>
                   Reaches(m.tb, q.state, m.tb.n) && Reaches(m.tb, r.state, m.tb.n) && Precedes(m.tb, r, q)
  {
    hide GuardValue, LetsFire;
    FirstEnabledPrecedes(m, w, s, e, r);
    forall q | HasTransition(m.tb, q)
      ensures Enabled(m, w, e, q) <==> LetsFire(m, w, e, q)
    {
      GuardDecides(m, w, e, q);
    }
  }

  lemma FirstEnabledPrecedes<W>(m: Machine<W>, w: W, s: nat, e: Event, r: TransRef)
    requires Tree(m.tb) && s < |m.tb.states| && Reaches(m.tb, s, m.tb.n)
    ensures Chosen(m, w, s, e) == Some(r) <==>
              && OnActivePath(m.tb, s, r) && Enabled(m, w, e, r)
              && forall q :: OnActivePath(m.tb, s, q) && Enabled(m, w, e, q) && q != r ==>
                   Reaches(m.tb, q.state, m.tb.n) && Reaches(m.tb, r.state, m.tb.n) && Precedes(m.tb, r, q)
  {
    var rs := AncestorTransitions(m.tb, s);
    var p := RootPath(m.tb, s);
    PathInTable(m.tb, s);
    assert p[..|p|] == p;
    forall q ensures q in rs <==> OnActivePath(m.tb, s, q) { CandidatesAre(m.tb, p, q); }
    FirstEnabledIsCandidate(m, w, e, rs);
    var chosen := Chosen(m, w, s, e);
    if chosen.Some? {
      var k :| 0 <= k < |rs| && rs[k] == chosen.value && forall i :: 0 <= i < k ==> !Enabled(m, w, e, rs[i]);
      forall q | OnActivePath(m.tb, s, q) && Enabled(m, w, e, q) && q != chosen.value
        ensures Reaches(m.tb, q.state, m.tb.n) && Reaches(m.tb, chosen.value.state, m.tb.n)
        ensures Precedes(m.tb, chosen.value, q)
      {
        var j :| 0 <= j < |rs| && rs[j] == q;
        CandidatesOrdered(m.tb, s, |p|, k, j);
      }
    }
  }

  /** r denied with this value, after every other transition that denied. */
  ghost predicate IsLastDenial<W>(m: Machine<W>, w: W, e: Event, s: nat, r: TransRef, value: byte)
    requires s < |m.tb.states| && Reaches(m.tb, s, m.tb.n)
  {
    && OnActivePath(m.tb, s, r) && Denied(m, w, e, r) && GuardValue(m, w, e, r) == value
    && forall q :: OnActivePath(m.tb, s, q) && Denied(m, w, e, q) && q != r ==>
         Reaches(m.tb, q.state, m.tb.n) && Reaches(m.tb, r.state, m.tb.n) && Precedes(m.tb, q, r)
  }

  /** The search in terms of the active states instead of the candidate list. */
  lemma Verdict<W>(m: Machine<W>, w: W, e: Event, s: nat)
    requires Tree(m.tb) && s < |m.tb.states| && Reaches(m.tb, s, m.tb.n)
    ensures Chosen(m, w, s, e).None? <==> forall r :: OnActivePath(m.tb, s, r) ==> !Enabled(m, w, e, r)
    ensures var v := LastDenial(m, w, e, AncestorTransitions(m.tb, s));
            if v == 0 then forall r :: OnActivePath(m.tb, s, r) ==> !Denied(m, w, e, r)
            else exists r :: IsLastDenial(m, w, e, s, r, v)
  {
    var rs, p := AncestorTransitions(m.tb, s), RootPath(m.tb, s);
    PathInTable(m.tb, s);
    assert p[..|p|] == p;
    forall q ensures q in rs <==> OnActivePath(m.tb, s, q) { CandidatesAre(m.tb, p, q); }
    FirstEnabledIsCandidate(m, w, e, rs);
    var k := LastDenialIs(m, w, e, rs);
    var v := LastDenial(m, w, e, rs);
    if v != 0 {
      assert rs[k] in rs;
      forall q | OnActivePath(m.tb, s, q) && Denied(m, w, e, q) && q != rs[k]
        ensures Reaches(m.tb, q.state, m.tb.n) && Reaches(m.tb, rs[k].state, m.tb.n)
        ensures Precedes(m.tb, q, rs[k])
      {
        var j :| 0 <= j < |rs| && rs[j] == q;
        CandidatesOrdered(m.tb, s, |p|, j, k);
      }
      assert IsLastDenial(m, w, e, s, rs[k], v);
    }
  }

  /** Of the transitions of active states whose guards forbid them, r comes last, and its guard returns v. */
  ghost predicate ForbidsLast<W>(m: Machine<W>, w: W, e: Event, s: nat, r: TransRef, v: byte)
    requires s < |m.tb.states| && Reaches(m.tb, s, m.tb.n)
  {
    && OnActivePath(m.tb, s, r) && Forbids(m, w, e, r, v)
    && forall q, u :: OnActivePath(m.tb, s, q) && Forbids(m, w, e, q, u) && q != r ==>
         Reaches(m.tb, q.state, m.tb.n) && Reaches(m.tb, r.state, m.tb.n) && Precedes(m.tb, q, r)
  }

  lemma LastForbids<W>(m: Machine<W>, w: W, e: Event, s: nat, r: TransRef, v: byte)
    requires s < |m.tb.states| && Reaches(m.tb, s, m.tb.n)
    requires IsLastDenial(m, w, e, s, r, v)
    ensures ForbidsLast(m, w, e, s, r, v)
  {
    hide GuardValue, Forbids;
    GuardDecides(m, w, e, r);
    forall q, u | OnActivePath(m.tb, s, q) && Forbids(m, w, e, q, u) && q != r
      ensures Reaches(m.tb, q.state, m.tb.n) && Reaches(m.tb, r.state, m.tb.n) && Precedes(m.tb, q, r)
    {
      GuardDecides(m, w, e, q);
    }
  }

  /** What the step reports when it dequeues an event, and the guard value it hands back. */
  lemma StepReport<W>(m: Machine<W>, c: Config<W>)
    requires Inv(m, c) && c.current.Some? && !IsFinal(m.tb, c.current.value) && c.ctx.queue != []
    ensures var (s, e, w, result) := (c.current.value, c.ctx.queue[0], c.ctx.world, Step(m, c).1);
            && (result == Ok || result == Discarded || result.Guard?)
            && (result == Ok <==> exists r :: OnActivePath(m.tb, s, r) && LetsFire(m, w, e, r))
            && (result == Discarded <==>
                  forall r :: OnActivePath(m.tb, s, r) ==>
                    m.tb.states[r.state].transitions[r.index].eventId != e.id)
            && (result.Guard? ==> exists r :: ForbidsLast(m, w, e, s, r, result.value))
  {
    hide FirstEnabled, LastDenial, PerformAll, GuardValue, FireMarkers, FireTarget, LetsFire, Forbids;
    hide IsLastDenial, ForbidsLast;
    var s, e, w := c.current.value, c.ctx.queue[0], c.ctx.world;
    Verdict(m, w, e, s);
    forall r | HasTransition(m.tb, r)
      ensures Matches(m.tb, e, r) <==> Enabled(m, w, e, r) || Denied(m, w, e, r)
      ensures Enabled(m, w, e, r) <==> LetsFire(m, w, e, r)
      ensures Matches(m.tb, e, r) <==> m.tb.states[r.state].transitions[r.index].eventId == e.id
    {
      GuardDecides(m, w, e, r);
    }
    var v := LastDenial(m, w, e, AncestorTransitions(m.tb, s));
    if Chosen(m, w, s, e).Some? {
      var r :| OnActivePath(m.tb, s, r) && Enabled(m, w, e, r);
      assert LetsFire(m, w, e, r);
      assert Step(m, c).1 == Ok;
    } else if v != 0 {
      var r :| IsLastDenial(m, w, e, s, r, v);
      DenialMatches(m, w, e, s, r, v);
      LastForbids(m, w, e, s, r, v);
      assert Step(m, c).1 == Guard(v);
    } else {
      assert Step(m, c).1 == Discarded;
    }
  }

  lemma DenialMatches<W>(m: Machine<W>, w: W, e: Event, s: nat, r: TransRef, v: byte)
    requires s < |m.tb.states| && Reaches(m.tb, s, m.tb.n) && IsLastDenial(m, w, e, s, r, v)
    ensures OnActivePath(m.tb, s, r) && m.tb.states[r.state].transitions[r.index].eventId == e.id
  {
  }

  /** When a step does not get as far as that, and what it reports then. */
  lemma StepReportsEarly<W>(m: Machine<W>, c: Config<W>)
    requires Inv(m, c)
    ensures var (s, result) := (c.current, Step(m, c).1);
            && (s.None? ==> result == Ok)
            && (result == Terminated <==> s.Some? && m.tb.states[s.value].flags & 0x01 != 0)
            && (result == Empty <==> s.Some? && m.tb.states[s.value].flags & 0x01 == 0 && c.ctx.queue == [])
  {
    hide Chosen, PerformAll, FireMarkers, FireTarget, LastDenial;
  }

  /** Where the last denial is, if there is one. */
  lemma {:induction false} LastDenialIs<W>(m: Machine<W>, w: W, e: Event, rs: seq<TransRef>) returns (k: nat)
    ensures LastDenial(m, w, e, rs) == 0 ==> forall i :: 0 <= i < |rs| ==> !Denied(m, w, e, rs[i])
    ensures LastDenial(m, w, e, rs) != 0 ==>
              && k < |rs| && Denied(m, w, e, rs[k]) && GuardValue(m, w, e, rs[k]) == LastDenial(m, w, e, rs)
              && forall i :: k < i < |rs| ==> !Denied(m, w, e, rs[i])
  {
    k := 0;
    if rs != [] {
      var l := |rs| - 1;
      if Denied(m, w, e, rs[l]) {
        k := l;
      } else {
        k := LastDenialIs(m, w, e, rs[..l]);
        assert forall i :: 0 <= i < l ==> rs[i] == rs[..l][i];
      }
    }
  }
}
