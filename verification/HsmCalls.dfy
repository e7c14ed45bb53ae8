/**
 Which application code a step runs, read off the table alone: every call with its arguments, in order,
 and what becomes of the events pushed. An application that writes down its calls tells them apart.
 */
module HsmCalls {
  import opened Words
  import opened HsmEvent
  import opened HsmTable
  import opened HsmPaths
  import opened HsmSpec
  import opened HsmRuns
  import opened HsmTransitions

  // ----- An application that takes notes

  /** A call, with the room in the queue that it was told. */
  datatype Note = Note(call: Call, room: nat)

  /** Every call is written down in the world; `pushes` is what it attempts to push. */
  ghost predicate TakesNotes(env: Env<seq<Note>>, pushes: Call -> seq<Event>) {
    forall w, call, room :: env.act(w, call, room) == (w + [Note(call, room)], pushes(call))
  }

  function PushedBy(pushes: Call -> seq<Event>, calls: seq<Call>): seq<Event> {
    if calls == [] then [] else PushedBy(pushes, calls[..|calls| - 1]) + pushes(calls[|calls| - 1])
  }

  /** What fits into a queue; the rest was refused. */
  function Fit(capacity: nat, events: seq<Event>): (r: seq<Event>)
    ensures |r| <= capacity && r <= events
  {
    if |events| <= capacity then events else events[..capacity]
  }

  /** The queue after these calls. */
  function QueueAfter(capacity: nat, pushes: Call -> seq<Event>, queue: seq<Event>, calls: seq<Call>): (r: seq<Event>)
    ensures |r| <= capacity
  {
    Fit(capacity, queue + PushedBy(pushes, calls))
  }

  /** The notes about these calls. */
  function Notes(capacity: nat, pushes: Call -> seq<Event>, queue: seq<Event>, calls: seq<Call>): (r: seq<Note>)
    ensures |r| == |calls|
  {
    seq(|calls|, i requires 0 <= i < |calls| =>
      Note(calls[i], capacity - |QueueAfter(capacity, pushes, queue, calls[..i])|))
  }

  /** Exactly these calls were made, in this order, on the way from x to y. */
  ghost predicate Ran(capacity: nat, pushes: Call -> seq<Event>, x: Ctx<seq<Note>>, calls: seq<Call>,
                      y: Ctx<seq<Note>>)
  {
    && y.world == x.world + Notes(capacity, pushes, x.queue, calls)
    && y.queue == QueueAfter(capacity, pushes, x.queue, calls)
  }

  // ----- The calls that the table asks for

  function EntryCall(state: State): seq<Call> {
    if state.entryAction.Some? then [StateCall(state.entryAction.value, state.cookie)] else []
  }

  function ExitCall(state: State): seq<Call> {
    if state.exitAction.Some? then [StateCall(state.exitAction.value, state.cookie)] else []
  }

  function ActionCall(transition: Transition, e: Event): seq<Call> {
    if transition.action.Some? then [TransitionCall(transition.action.value, e, transition.cookie)] else []
  }

  /** Entry actions along a path, outermost first. */
  function EntryCalls(tb: Table, p: seq<nat>): seq<Call>
    requires InTable(tb, p)
  {
    if p == [] then [] else EntryCalls(tb, p[..|p| - 1]) + EntryCall(tb.states[p[|p| - 1]])
  }

  /** Exit actions along a path, innermost first. */
  function ExitCalls(tb: Table, p: seq<nat>): seq<Call>
    requires InTable(tb, p)
  {
    if p == [] then [] else ExitCalls(tb, p[1..]) + ExitCall(tb.states[p[0]])
  }

  // ----- Calls one after the other

  lemma {:induction false} PushedConcat(pushes: Call -> seq<Event>, a: seq<Call>, b: seq<Call>)
    ensures PushedBy(pushes, a + b) == PushedBy(pushes, a) + PushedBy(pushes, b)
  {
    if b == [] {
      assert a + b == a;
    } else {
      PushedConcat(pushes, a, b[..|b| - 1]);
      assert (a + b)[..|a + b| - 1] == a + b[..|b| - 1];
    }
  }

  lemma FitTwice(capacity: nat, a: seq<Event>, b: seq<Event>)
    ensures Fit(capacity, Fit(capacity, a) + b) == Fit(capacity, a + b)
  {
  }

  lemma QueueConcat(capacity: nat, pushes: Call -> seq<Event>, queue: seq<Event>, a: seq<Call>, b: seq<Call>)
    ensures QueueAfter(capacity, pushes, queue, a + b)
         == QueueAfter(capacity, pushes, QueueAfter(capacity, pushes, queue, a), b)
  {
    PushedConcat(pushes, a, b);
    FitTwice(capacity, queue + PushedBy(pushes, a), PushedBy(pushes, b));
    assert queue + PushedBy(pushes, a) + PushedBy(pushes, b) == queue + (PushedBy(pushes, a) + PushedBy(pushes, b));
  }

  lemma NotesConcat(capacity: nat, pushes: Call -> seq<Event>, queue: seq<Event>, a: seq<Call>, b: seq<Call>)
    ensures Notes(capacity, pushes, queue, a + b)
         == Notes(capacity, pushes, queue, a) + Notes(capacity, pushes, QueueAfter(capacity, pushes, queue, a), b)
  {
    hide QueueAfter;
    var mid := QueueAfter(capacity, pushes, queue, a);
    var all := Notes(capacity, pushes, queue, a + b);
    var first, rest := Notes(capacity, pushes, queue, a), Notes(capacity, pushes, mid, b);
    forall i | 0 <= i < |a + b|
      ensures all[i] == (first + rest)[i]
    {
      if i < |a| {
        assert (a + b)[..i] == a[..i];
      } else {
        assert (a + b)[..i] == a + b[..i - |a|];
        QueueConcat(capacity, pushes, queue, a, b[..i - |a|]);
      }
    }
  }

  lemma RanThen(capacity: nat, pushes: Call -> seq<Event>, x: Ctx<seq<Note>>, a: seq<Call>, y: Ctx<seq<Note>>,
                b: seq<Call>, z: Ctx<seq<Note>>)
    requires Ran(capacity, pushes, x, a, y) && Ran(capacity, pushes, y, b, z)
    ensures Ran(capacity, pushes, x, a + b, z)
  {
    hide Notes, QueueAfter;
    NotesConcat(capacity, pushes, x.queue, a, b);
    QueueConcat(capacity, pushes, x.queue, a, b);
  }

  lemma NothingRan(capacity: nat, pushes: Call -> seq<Event>, x: Ctx<seq<Note>>)
    requires |x.queue| <= capacity
    ensures Ran(capacity, pushes, x, [], x)
  {
    assert x.queue + [] == x.queue;
  }

  // ----- One marker at a time

  /** The call behind a marker. */
  function CallFor(tb: Table, mk: Marker): seq<Call>
    requires match mk case Fired(r, _) => HasTransition(tb, r) case _ => mk.state < |tb.states|
  {
    match mk
    case Entered(s) => EntryCall(tb.states[s])
    case Exited(s) => ExitCall(tb.states[s])
    case Fired(r, e) => ActionCall(tb.states[r.state].transitions[r.index], e)
  }

  lemma OneRan(m: Machine<seq<Note>>, pushes: Call -> seq<Event>, x: Ctx<seq<Note>>, mk: Marker)
    requires TakesNotes(m.env, pushes) && |x.queue| <= m.capacity
    requires match mk case Fired(r, _) => HasTransition(m.tb, r) case _ => mk.state < |m.tb.states|
    ensures Ran(m.capacity, pushes, x, CallFor(m.tb, mk), Perform(m, x, mk))
  {
    var calls := CallFor(m.tb, mk);
    if calls == [] {
      assert x.queue + [] == x.queue;
    } else {
      var call, room := calls[0], Room(m, x);
      assert m.env.act(x.world, call, room) == (x.world + [Note(call, room)], pushes(call));
      assert calls == [call] && calls[..0] == [];
      assert PushedBy(pushes, calls) == [] + pushes(call) == pushes(call);
      assert x.queue + PushedBy(pushes, []) == x.queue;
      assert Notes(m.capacity, pushes, x.queue, calls) == [Note(call, room)];
    }
  }

  lemma {:induction false} EntriesRan(m: Machine<seq<Note>>, pushes: Call -> seq<Event>, x: Ctx<seq<Note>>, p: seq<nat>)
    requires TakesNotes(m.env, pushes) && Conserved(m, x) && InTable(m.tb, p)
    ensures Ran(m.capacity, pushes, x, EntryCalls(m.tb, p), PerformAll(m, x, Entries(p)))
  {
    hide Ran, TakesNotes, Perform;
    if p == [] {
      NothingRan(m.capacity, pushes, x);
    } else {
      var k := |p| - 1;
      EntriesRan(m, pushes, x, p[..k]);
      assert Entries(p)[..k] == Entries(p[..k]);
      var y := PerformAll(m, x, Entries(p[..k]));
      CallbacksConserve(m, x, Entries(p[..k]));
      OneRan(m, pushes, y, Entered(p[k]));
      RanThen(m.capacity, pushes, x, EntryCalls(m.tb, p[..k]), y, EntryCall(m.tb.states[p[k]]),
              Perform(m, y, Entered(p[k])));
    }
  }

  lemma {:induction false} ExitsRan(m: Machine<seq<Note>>, pushes: Call -> seq<Event>, x: Ctx<seq<Note>>, p: seq<nat>,
                                    k: nat)
    requires TakesNotes(m.env, pushes) && Conserved(m, x) && InTable(m.tb, p) && k <= |p|
    ensures Ran(m.capacity, pushes, x, ExitCalls(m.tb, p[k..]), PerformAll(m, x, Exits(p, k)))
    decreases |p| - k
  {
    hide Ran, TakesNotes, Perform;
    if k == |p| {
      NothingRan(m.capacity, pushes, x);
    } else {
      ExitsRan(m, pushes, x, p, k + 1);
      var last := |p| - k - 1;
      assert Exits(p, k)[..last] == Exits(p, k + 1) && Exits(p, k)[last] == Exited(p[k]);
      assert p[k..][1..] == p[k + 1..] && p[k..][0] == p[k];
      var y := PerformAll(m, x, Exits(p, k + 1));
      CallbacksConserve(m, x, Exits(p, k + 1));
      OneRan(m, pushes, y, Exited(p[k]));
      RanThen(m.capacity, pushes, x, ExitCalls(m.tb, p[k + 1..]), y, ExitCall(m.tb.states[p[k]]),
              Perform(m, y, Exited(p[k])));
    }
  }

  // ----- A step

  /** The step that starts the machine runs the entry actions of the global state's initial chain. */
  lemma FirstStepRuns(m: Machine<seq<Note>>, pushes: Call -> seq<Event>, c: Config<seq<Note>>)
    requires Inv(m, c) && TakesNotes(m.env, pushes) && c.current.None?
    ensures Reaches(m.tb, m.tb.global, m.tb.n) && InTable(m.tb, Chain(m.tb, m.tb.global))
    ensures var calls := EntryCalls(m.tb, Chain(m.tb, m.tb.global));
            var x, y := c.ctx, Step(m, c).0.ctx;
            && y.world == x.world + Notes(m.capacity, pushes, x.queue, calls)
            && y.queue == QueueAfter(m.capacity, pushes, x.queue, calls)
  {
    hide Notes, QueueAfter, TakesNotes;
    assert Reaches(m.tb, m.tb.global, m.tb.n);
    ChainInTable(m.tb, m.tb.global);
    EntriesRan(m, pushes, c.ctx, Chain(m.tb, m.tb.global));
  }

  lemma ChainInTable(tb: Table, s: nat)
    requires Tree(tb) && s < |tb.states| && Reaches(tb, s, tb.n)
    ensures InTable(tb, Chain(tb, s))
  {
    ChainExtendsPath(tb, s);
    PathInTable(tb, Leaf(tb, s));
    var p, q := RootPath(tb, s), RootPath(tb, Leaf(tb, s));
    assert forall i :: 0 <= i < |Chain(tb, s)| ==> Chain(tb, s)[i] == q[|p| + i];
  }

  /**
   A transition to another state runs the exit actions of the active states past the common parent,
   innermost first; its own action; the entry actions past the common parent down to the destination,
   outermost first; then those of the destination's initial chain. Each with the arguments of its
   state or transition, and none where there is none. What they push is queued as far as it fits.
   */
  lemma TransitionRuns(m: Machine<seq<Note>>, pushes: Call -> seq<Event>, c: Config<seq<Note>>, r: TransRef)
    requires Inv(m, c) && TakesNotes(m.env, pushes) && Takes(m, c)
    requires Chosen(m, c.ctx.world, c.current.value, c.ctx.queue[0]) == Some(r)
    requires m.tb.states[r.state].transitions[r.index].toState != c.current
    ensures var tr := m.tb.states[r.state].transitions[r.index];
            && tr.toState.Some? && Reaches(m.tb, tr.toState.value, m.tb.n)
            && InTable(m.tb, RootPath(m.tb, c.current.value)) && InTable(m.tb, RootPath(m.tb, tr.toState.value))
            && InTable(m.tb, Chain(m.tb, tr.toState.value))
    ensures var tr := m.tb.states[r.state].transitions[r.index];
            var p, q := RootPath(m.tb, c.current.value), RootPath(m.tb, tr.toState.value);
            var k := Lcp(p, q);
            var calls := ExitCalls(m.tb, p[k..]) + ActionCall(tr, c.ctx.queue[0]) + EntryCalls(m.tb, q[k..])
                         + EntryCalls(m.tb, Chain(m.tb, tr.toState.value));
            var rest, x, y := c.ctx.queue[1..], c.ctx, Step(m, c).0.ctx;
            && y.world == x.world + Notes(m.capacity, pushes, rest, calls)
            && y.queue == QueueAfter(m.capacity, pushes, rest, calls)
  {
    hide Notes, QueueAfter, TakesNotes, Perform, PerformAll, Lcp, Chain, PathWithin, EntryCalls, ExitCalls, ActionCall;
    var cur, e, tr := c.current.value, c.ctx.queue[0], m.tb.states[r.state].transitions[r.index];
    assert GoodPointers(m.tb, r.state);
    var to := tr.toState.value;
    assert Reaches(m.tb, to, m.tb.n);
    PathInTable(m.tb, cur);
    PathInTable(m.tb, to);
    ChainInTable(m.tb, to);
    DequeueConserves(m, c.ctx);
    FireInParts(m, Dequeue(c.ctx), cur, r, e);
    var p, q := RootPath(m.tb, cur), RootPath(m.tb, to);
    FireRuns(m, pushes, Dequeue(c.ctx), r, e, p, q[Lcp(p, q)..], Chain(m.tb, to), Lcp(p, q));
  }

  /** Exits, action, entries and initial chain one after the other. */
  lemma FireRuns(m: Machine<seq<Note>>, pushes: Call -> seq<Event>, x: Ctx<seq<Note>>, r: TransRef, e: Event,
                 p: seq<nat>, q: seq<nat>, chain: seq<nat>, k: nat)
    requires TakesNotes(m.env, pushes) && Conserved(m, x) && HasTransition(m.tb, r)
    requires InTable(m.tb, p) && InTable(m.tb, q) && InTable(m.tb, chain) && k <= |p|
    ensures var left := PerformAll(m, x, Exits(p, k));
            var entered := PerformAll(m, Perform(m, left, Fired(r, e)), Entries(q));
            var calls := ExitCalls(m.tb, p[k..]) + ActionCall(TransitionAt(m.tb, r), e) + EntryCalls(m.tb, q)
                         + EntryCalls(m.tb, chain);
            Ran(m.capacity, pushes, x, calls, PerformAll(m, entered, Entries(chain)))
  {
    hide Ran, TakesNotes, Perform, PerformAll, EntryCalls, ExitCalls;
    var left := PerformAll(m, x, Exits(p, k));
    var fired := Perform(m, left, Fired(r, e));
    var entered := PerformAll(m, fired, Entries(q));
    var exits, action := ExitCalls(m.tb, p[k..]), ActionCall(TransitionAt(m.tb, r), e);
    ExitsRan(m, pushes, x, p, k);
    CallbacksConserve(m, x, Exits(p, k));
    OneRan(m, pushes, left, Fired(r, e));
    PerformConserves(m, left, Fired(r, e));
    EntriesRan(m, pushes, fired, q);
    CallbacksConserve(m, fired, Entries(q));
    EntriesRan(m, pushes, entered, chain);
    RanThen(m.capacity, pushes, x, exits, left, action, fired);
    RanThen(m.capacity, pushes, x, exits + action, fired, EntryCalls(m.tb, q), entered);
    RanThen(m.capacity, pushes, x, exits + action + EntryCalls(m.tb, q), entered, EntryCalls(m.tb, chain),
            PerformAll(m, entered, Entries(chain)));
  }

  lemma PerformConserves<W>(m: Machine<W>, x: Ctx<W>, mk: Marker)
    requires Conserved(m, x)
    ensures Conserved(m, Perform(m, x, mk))
  {
    CallbacksConserve(m, x, [mk]);
    PerformOne(m, x, mk);
  }

  /**
   A transition to the current state runs that state's exit action, its own action and the state's
   entry action, or its own action only if it is flagged internal.
   */
  lemma SelfTransitionRuns(m: Machine<seq<Note>>, pushes: Call -> seq<Event>, c: Config<seq<Note>>, r: TransRef)
    requires Inv(m, c) && TakesNotes(m.env, pushes) && Takes(m, c)
    requires Chosen(m, c.ctx.world, c.current.value, c.ctx.queue[0]) == Some(r)
    requires m.tb.states[r.state].transitions[r.index].toState == c.current
    ensures var tr, state := m.tb.states[r.state].transitions[r.index], m.tb.states[c.current.value];
            var action := ActionCall(tr, c.ctx.queue[0]);
            var calls := if tr.flags & 0x01 != 0 then action else ExitCall(state) + action + EntryCall(state);
            var rest, x, y := c.ctx.queue[1..], c.ctx, Step(m, c).0.ctx;
            && y.world == x.world + Notes(m.capacity, pushes, rest, calls)
            && y.queue == QueueAfter(m.capacity, pushes, rest, calls)
  {
    hide Notes, QueueAfter, TakesNotes, Perform, EntryCall, ExitCall, ActionCall;
    var cur, e, x := c.current.value, c.ctx.queue[0], Dequeue(c.ctx);
    assert GoodPointers(m.tb, r.state);
    DequeueConserves(m, c.ctx);
    PerformOne(m, x, Fired(r, e));
    PerformOne(m, x, Exited(cur));
    var a, b := Perform(m, x, Exited(cur)), Perform(m, Perform(m, x, Exited(cur)), Fired(r, e));
    PerformOne(m, a, Fired(r, e));
    PerformOne(m, b, Entered(cur));
    PerformAllConcat(m, x, [Exited(cur)], [Fired(r, e)]);
    PerformAllConcat(m, x, [Exited(cur)] + [Fired(r, e)], [Entered(cur)]);
    assert [Exited(cur)] + [Fired(r, e)] + [Entered(cur)] == [Exited(cur), Fired(r, e), Entered(cur)];
    PerformConserves(m, x, Exited(cur));
    PerformConserves(m, a, Fired(r, e));
    OneRan(m, pushes, x, Fired(r, e));
    OneRan(m, pushes, x, Exited(cur));
    OneRan(m, pushes, a, Fired(r, e));
    OneRan(m, pushes, b, Entered(cur));
    RanThen(m.capacity, pushes, x, CallFor(m.tb, Exited(cur)), a, CallFor(m.tb, Fired(r, e)), b);
    RanThen(m.capacity, pushes, x, CallFor(m.tb, Exited(cur)) + CallFor(m.tb, Fired(r, e)), b,
            CallFor(m.tb, Entered(cur)), Perform(m, b, Entered(cur)));
  }

  /** Every other step runs nothing; at most it takes an event out. */
  lemma NothingRuns<W>(m: Machine<W>, c: Config<W>)
    requires Inv(m, c) && c.current.Some?
    requires Takes(m, c) ==> Chosen(m, c.ctx.world, c.current.value, c.ctx.queue[0]).None?
    ensures var x, y := c.ctx, Step(m, c).0.ctx;
            y.world == x.world && y.log == x.log && y.queue == if Takes(m, c) then x.queue[1..] else x.queue
  {
  }
}
