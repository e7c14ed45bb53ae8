/**
 Whole runs of a state machine: what every step keeps, from the first one on. The log of entered and
 exited states, replayed as a stack, always holds exactly the active states.
 */
module HsmRuns {
  import opened Words
  import opened HsmEvent
  import opened HsmTable
  import opened HsmPaths
  import opened HsmSpec

  // ----- The log as a stack

  /** The innermost active state, or the global state. */
  function Top(tb: Table, stack: seq<nat>): nat {
    if stack == [] then tb.global else stack[|stack| - 1]
  }

  /** Entering is legal below the innermost active state only, exiting for that state only. */
  function ReplayOne(tb: Table, stack: seq<nat>, mk: Marker): Option<seq<nat>> {
    match mk
    case Entered(s) =>
      if s < |tb.states| && tb.states[s].parent == Some(Top(tb, stack)) then Some(stack + [s]) else None
    case Exited(s) =>
      if stack != [] && stack[|stack| - 1] == s then Some(stack[..|stack| - 1]) else None
    case Fired(_, _) => Some(stack)
  }

  function Replay(tb: Table, stack: seq<nat>, log: seq<Marker>): Option<seq<nat>> {
    if log == [] then Some(stack)
    else match Replay(tb, stack, log[..|log| - 1])
      case None => None
      case Some(mid) => ReplayOne(tb, mid, log[|log| - 1])
  }

  lemma {:induction false} ReplayConcat(tb: Table, stack: seq<nat>, a: seq<Marker>, b: seq<Marker>)
    requires Replay(tb, stack, a).Some?
    ensures Replay(tb, stack, a + b) == Replay(tb, Replay(tb, stack, a).value, b)
  {
    if b == [] {
      assert a + b == a;
    } else {
      var k := |b| - 1;
      ReplayConcat(tb, stack, a, b[..k]);
      assert (a + b)[..|a + b| - 1] == a + b[..k];
    }
  }

  /** Exiting from the innermost state outwards leaves the first k states active. */
  lemma {:induction false} ReplayExits(tb: Table, p: seq<nat>, k: nat)
    requires k <= |p|
    ensures Replay(tb, p, Exits(p, k)) == Some(p[..k])
    decreases |p| - k
  {
    if k == |p| {
      assert p[..k] == p;
    } else {
      ReplayExits(tb, p, k + 1);
      assert Exits(p, k)[..|p| - k - 1] == Exits(p, k + 1);
      assert p[..k + 1][..k] == p[..k];
    }
  }

  /** Entering the rest of a root path from outside in makes the whole path active. */
  lemma {:induction false} ReplayEntries(tb: Table, s: nat, from: nat, k: nat)
    requires Tree(tb) && s < |tb.states| && Reaches(tb, s, tb.n)
    requires from <= k <= |RootPath(tb, s)|
    ensures Replay(tb, RootPath(tb, s)[..from], Entries(RootPath(tb, s)[from..k])) == Some(RootPath(tb, s)[..k])
    decreases k
  {
    var p := RootPath(tb, s);
    if from < k {
      ReplayEntries(tb, s, from, k - 1);
      PathPrefix(tb, s, k - 1);
      assert Entries(p[from..k])[..k - from - 1] == Entries(p[from..k - 1]);
      assert p[..k] == p[..k - 1] + [p[k - 1]];
    }
  }

  lemma ReplayChain(tb: Table, s: nat)
    requires Tree(tb) && s < |tb.states| && Reaches(tb, s, tb.n)
    ensures Reaches(tb, Leaf(tb, s), tb.n)
    ensures Replay(tb, RootPath(tb, s), Entries(Chain(tb, s))) == Some(RootPath(tb, Leaf(tb, s)))
  {
    ChainExtendsPath(tb, s);
    var p, q := RootPath(tb, s), RootPath(tb, Leaf(tb, s));
    ReplayEntries(tb, Leaf(tb, s), |p|, |q|);
    assert q[..|p|] == p && q[|p|..|q|] == Chain(tb, s) && q[..|q|] == q;
  }

  /** Firing a transition takes the active states from the current path to the target's. */
  lemma ReplayFire(tb: Table, cur: nat, r: TransRef, e: Event)
    requires CanFire(tb, cur, r)
    ensures Settled(tb, FireTarget(tb, cur, r)) && Reaches(tb, FireTarget(tb, cur, r), tb.n)
    ensures Replay(tb, RootPath(tb, cur), FireMarkers(tb, cur, r, e)) == Some(RootPath(tb, FireTarget(tb, cur, r)))
  {
    var tr := TransitionAt(tb, r);
    var to := tr.toState.value;
    var p := RootPath(tb, cur);
    if to == cur {
      ReplaySelf(tb, cur, r, e);
    } else {
      assert Reaches(tb, to, tb.n);
      var q := RootPath(tb, to);
      var k := Lcp(p, q);
      ReplayExits(tb, p, k);
      var upToAction := Exits(p, k) + [Fired(r, e)];
      assert upToAction[..|upToAction| - 1] == Exits(p, k);
      ReplayEntries(tb, to, k, |q|);
      assert q[k..|q|] == q[k..] && q[..|q|] == q;
      ReplayConcat(tb, p, upToAction, Entries(q[k..]));
      ReplayChain(tb, to);
      ReplayConcat(tb, p, upToAction + Entries(q[k..]), Entries(Chain(tb, to)));
      ChainExtendsPath(tb, to);
    }
  }

  lemma ReplaySelf(tb: Table, cur: nat, r: TransRef, e: Event)
    requires CanFire(tb, cur, r)
    ensures var p := RootPath(tb, cur);
            && Replay(tb, p, [Fired(r, e)]) == Some(p)
            && Replay(tb, p, [Exited(cur), Fired(r, e), Entered(cur)]) == Some(p)
  {
    var p := RootPath(tb, cur);
    var k := |p| - 1;
    var mks := [Exited(cur), Fired(r, e), Entered(cur)];
    PathPrefix(tb, cur, k);
    assert [Fired(r, e)][..0] == [];
    assert mks[..2] == [Exited(cur), Fired(r, e)] && mks[..2][..1] == [Exited(cur)] && mks[..2][..1][..0] == [];
    assert Replay(tb, p, mks[..2][..1]) == Some(p[..k]);
    assert Replay(tb, p, mks[..2]) == Some(p[..k]);
    assert Above(tb, p, k) == Top(tb, p[..k]);
    assert p[..k] + [cur] == p;
  }

  // ----- The run invariant

  /** Events taken out, then events queued, are the events accepted; the queue fits. */
  predicate Conserved<W>(m: Machine<W>, x: Ctx<W>) {
    x.accepted == x.taken + x.queue && |x.queue| <= m.capacity
  }

  /** The active states: the path to the current state, none before the first step. */
  function ActivePath(tb: Table, current: Option<nat>): seq<nat>
    requires current.Some? ==> Reaches(tb, current.value, tb.n)
  {
    if current.Some? then RootPath(tb, current.value) else []
  }

  ghost predicate Inv<W>(m: Machine<W>, c: Config<W>) {
    && Ready(m, c)
    && (c.current.Some? ==> Reaches(m.tb, c.current.value, m.tb.n))
    && Conserved(m, c.ctx)
    && Replay(m.tb, [], c.ctx.log) == Some(ActivePath(m.tb, c.current))
  }

  /** Pushing an event appends it if there is room and changes nothing if not. */
  lemma PushAppends<W>(m: Machine<W>, x: Ctx<W>, e: Event)
    requires |x.queue| <= m.capacity
    ensures Push(m, x, [e]) == if |x.queue| < m.capacity
                               then x.(queue := x.queue + [e], accepted := x.accepted + [e]) else x
  {
    assert [e][..1] == [e] && x.queue + [] == x.queue && x.accepted + [] == x.accepted;
  }

  lemma PushConserves<W>(m: Machine<W>, x: Ctx<W>, events: seq<Event>)
    requires Conserved(m, x)
    ensures Conserved(m, Push(m, x, events))
  {
  }

  lemma DequeueConserves<W>(m: Machine<W>, x: Ctx<W>)
    requires Conserved(m, x) && x.queue != []
    ensures Conserved(m, Dequeue(x))
  {
  }

  /** The same configuration after the outside world has changed. */
  function InWorld<W>(c: Config<W>, w: W): Config<W> {
    c.(ctx := c.ctx.(world := w))
  }

  lemma WorldKeeps<W>(m: Machine<W>, c: Config<W>, w: W)
    requires Inv(m, c)
    ensures Inv(m, InWorld(c, w))
  {
  }

  /** Callbacks keep conservation one by one, so it holds after every prefix of them, and only log what they are. */
  lemma {:induction false} CallbacksConserve<W>(m: Machine<W>, x: Ctx<W>, mks: seq<Marker>)
    requires Conserved(m, x)
    ensures Conserved(m, PerformAll(m, x, mks))
    ensures PerformAll(m, x, mks).log == x.log + mks
    ensures PerformAll(m, x, mks).taken == x.taken
  {
    if mks != [] {
      var k := |mks| - 1;
      CallbacksConserve(m, x, mks[..k]);
      assert mks == mks[..k] + [mks[k]];
    }
  }

  lemma CallbacksReplay<W>(m: Machine<W>, x: Ctx<W>, stack: seq<nat>, mks: seq<Marker>, stack': seq<nat>)
    requires Conserved(m, x) && Replay(m.tb, [], x.log) == Some(stack)
    requires Replay(m.tb, stack, mks) == Some(stack')
    ensures Conserved(m, PerformAll(m, x, mks))
    ensures Replay(m.tb, [], PerformAll(m, x, mks).log) == Some(stack')
  {
    CallbacksConserve(m, x, mks);
    ReplayConcat(m.tb, [], x.log, mks);
  }

  /** One step keeps the invariant, whatever state it starts in. */
  lemma StepKeeps<W>(m: Machine<W>, c: Config<W>)
    requires Inv(m, c)
    ensures Inv(m, Step(m, c).0)
  {
    if c.current.None? {
      var g := m.tb.global;
      assert Reaches(m.tb, g, m.tb.n);
      ReplayChain(m.tb, g);
      ChainExtendsPath(m.tb, g);
      CallbacksReplay(m, c.ctx, [], Entries(Chain(m.tb, g)), RootPath(m.tb, Leaf(m.tb, g)));
    } else if !IsFinal(m.tb, c.current.value) && c.ctx.queue != [] {
      var cur, e, x := c.current.value, c.ctx.queue[0], Dequeue(c.ctx);
      DequeueConserves(m, c.ctx);
      var chosen := Chosen(m, x.world, cur, e);
      if chosen.Some? {
        var r := chosen.value;
        assert GoodPointers(m.tb, r.state);
        ReplayFire(m.tb, cur, r, e);
        CallbacksReplay(m, x, RootPath(m.tb, cur), FireMarkers(m.tb, cur, r, e),
                        RootPath(m.tb, FireTarget(m.tb, cur, r)));
      }
    }
  }
}
