/**
 What one RTHsmStep does, stated without its loops: the transition to fire is the first enabled one
 on the way up from the current state, and the callbacks are read off the root paths of the current
 state and of the destination.
 */
module HsmSpec {
  import opened Words
  import opened HsmEvent
  import opened HsmTable
  import opened HsmPaths

  // ----- Callbacks

  /** A call of an application callback, with the arguments it gets. */
  datatype Call =
    | StateCall(action: nat, cookie: nat)
    | TransitionCall(action: nat, event: Event, cookie: nat)

  /**
   The application's code. W is everything outside the machine that callbacks read and write. A guard
   reads it; an action also changes it and attempts pushes. An action is told the room left in the
   queue, which is all it could learn from the results of those pushes.
   */
  datatype Env<!W> = Env(
    guard: (W, nat, Event, nat) -> byte,
    act: (W, Call, nat) -> (W, seq<Event>))

  /** A transition: the state it originates from and its index there. */
  datatype TransRef = TransRef(state: nat, index: nat)

  /** What happened, in order; states without an entry or exit action are logged too. */
  datatype Marker =
    | Entered(state: nat)
    | Exited(state: nat)
    | Fired(via: TransRef, event: Event)

  /** Everything an action may influence, plus a record of the whole run so far. */
  datatype Ctx<W> = Ctx(
    queue: seq<Event>, world: W,
    log: seq<Marker>, accepted: seq<Event>, taken: seq<Event>)

  datatype Machine<!W> = Machine(tb: Table, capacity: nat, env: Env<W>)

  datatype Config<W> = Config(current: Option<nat>, ctx: Ctx<W>)

  datatype StepResult = Ok | Empty | Discarded | Guard(value: byte) | Terminated

  predicate HasTransition(tb: Table, r: TransRef) {
    r.state < |tb.states| && r.index < |tb.states[r.state].transitions|
  }

  function TransitionAt(tb: Table, r: TransRef): Transition
    requires HasTransition(tb, r)
  {
    tb.states[r.state].transitions[r.index]
  }

  /** The callback behind a marker, unless its pointer is NULL. */
  function CallOf(tb: Table, mk: Marker): Option<Call> {
    match mk
    case Entered(s) =>
      if s < |tb.states| && tb.states[s].entryAction.Some?
      then Some(StateCall(tb.states[s].entryAction.value, tb.states[s].cookie)) else None
    case Exited(s) =>
      if s < |tb.states| && tb.states[s].exitAction.Some?
      then Some(StateCall(tb.states[s].exitAction.value, tb.states[s].cookie)) else None
    case Fired(r, e) =>
      if HasTransition(tb, r) && TransitionAt(tb, r).action.Some?
      then Some(TransitionCall(TransitionAt(tb, r).action.value, e, TransitionAt(tb, r).cookie)) else None
  }

  // ----- Pushing

  function Room<W>(m: Machine<W>, x: Ctx<W>): nat {
    if |x.queue| < m.capacity then m.capacity - |x.queue| else 0
  }

  /** Pushes are accepted until the queue is full, the others are refused. */
  function Push<W>(m: Machine<W>, x: Ctx<W>, events: seq<Event>): Ctx<W> {
    var k := if |events| < Room(m, x) then |events| else Room(m, x);
    x.(queue := x.queue + events[..k], accepted := x.accepted + events[..k])
  }

  function Perform<W>(m: Machine<W>, x: Ctx<W>, mk: Marker): Ctx<W> {
    var logged := x.(log := x.log + [mk]);
    match CallOf(m.tb, mk)
    case None => logged
    case Some(call) =>
      var (world, events) := m.env.act(x.world, call, Room(m, x));
      Push(m, logged.(world := world), events)
  }

  function PerformAll<W>(m: Machine<W>, x: Ctx<W>, mks: seq<Marker>): Ctx<W> {
    if mks == [] then x
    else Perform(m, PerformAll(m, x, mks[..|mks| - 1]), mks[|mks| - 1])
  }

  // ----- Which transition

  predicate Matches(tb: Table, e: Event, r: TransRef)
    requires HasTransition(tb, r)
  {
    TransitionAt(tb, r).eventId == e.id
  }

  /** What the guard of a transition says; no guard means go. */
  function GuardValue<W>(m: Machine<W>, w: W, e: Event, r: TransRef): byte
    requires HasTransition(m.tb, r)
  {
    var tr := TransitionAt(m.tb, r);
    if tr.guard.Some? then m.env.guard(w, tr.guard.value, e, tr.cookie) else 0
  }

  predicate Enabled<W>(m: Machine<W>, w: W, e: Event, r: TransRef) {
    HasTransition(m.tb, r) && Matches(m.tb, e, r) && GuardValue(m, w, e, r) == 0
  }

  predicate Denied<W>(m: Machine<W>, w: W, e: Event, r: TransRef) {
    HasTransition(m.tb, r) && Matches(m.tb, e, r) && GuardValue(m, w, e, r) != 0
  }

  /** The transitions of one state, in table order. */
  function Outgoing(tb: Table, s: nat): (rs: seq<TransRef>)
    requires s < |tb.states|
    ensures |rs| == |tb.states[s].transitions|
    ensures forall j :: 0 <= j < |rs| ==> rs[j] == TransRef(s, j) && HasTransition(tb, rs[j])
  {
    seq(|tb.states[s].transitions|, (j: nat) => TransRef(s, j))
  }

  /** The transitions along a root path, innermost state first. */
  function Candidates(tb: Table, p: seq<nat>): (rs: seq<TransRef>)
    requires InTable(tb, p)
    ensures forall i :: 0 <= i < |rs| ==> HasTransition(tb, rs[i])
  {
    if p == [] then [] else Outgoing(tb, p[|p| - 1]) + Candidates(tb, p[..|p| - 1])
  }

  function FirstEnabled<W>(m: Machine<W>, w: W, e: Event, rs: seq<TransRef>): Option<TransRef> {
    if rs == [] then None
    else if Enabled(m, w, e, rs[0]) then Some(rs[0])
    else FirstEnabled(m, w, e, rs[1..])
  }

  /** The last non-zero guard value in the list, 0 if no guard denied. */
  function LastDenial<W>(m: Machine<W>, w: W, e: Event, rs: seq<TransRef>): byte {
    if rs == [] then 0
    else if Denied(m, w, e, rs[|rs| - 1]) then GuardValue(m, w, e, rs[|rs| - 1])
    else LastDenial(m, w, e, rs[..|rs| - 1])
  }

  /** The later of two guard values in a search, where 0 means none. */
  function Later(before: byte, after: byte): byte {
    if after != 0 then after else before
  }

  // ----- Which callbacks

  /** Exits along p down to its first m states, innermost first. */
  function Exits(p: seq<nat>, m: nat): (mks: seq<Marker>)
    requires m <= |p|
    ensures |mks| == |p| - m
  {
    seq(|p| - m, i requires 0 <= i < |p| - m => Exited(p[|p| - 1 - i]))
  }

  function Entries(p: seq<nat>): (mks: seq<Marker>)
    ensures |mks| == |p|
  {
    seq(|p|, i requires 0 <= i < |p| => Entered(p[i]))
  }

  predicate IsInternal(tr: Transition) {
    tr.flags & TRANSITION_FLAG_INTERNAL != 0
  }

  ghost predicate CanFire(tb: Table, cur: nat, r: TransRef) {
    && Tree(tb) && Settled(tb, cur) && Reaches(tb, cur, tb.n)
    && HasTransition(tb, r) && GoodPointers(tb, r.state)
  }

  /** The callbacks of transition r on event e while `cur` is the current state. */
  ghost function FireMarkers(tb: Table, cur: nat, r: TransRef, e: Event): seq<Marker>
    requires CanFire(tb, cur, r)
  {
    var tr := TransitionAt(tb, r);
    var to := tr.toState.value;
    if to == cur then
      if IsInternal(tr) then [Fired(r, e)] else [Exited(cur), Fired(r, e), Entered(cur)]
    else
      assert Reaches(tb, to, tb.n);
      var p, q := RootPath(tb, cur), RootPath(tb, to);
      var m := Lcp(p, q);
      Exits(p, m) + [Fired(r, e)] + Entries(q[m..]) + Entries(Chain(tb, to))
  }

  ghost function FireTarget(tb: Table, cur: nat, r: TransRef): nat
    requires CanFire(tb, cur, r)
  {
    var to := TransitionAt(tb, r).toState.value;
    if to == cur then cur else assert Reaches(tb, to, tb.n); Leaf(tb, to)
  }

  // ----- One step

  predicate IsFinal(tb: Table, s: nat)
    requires s < |tb.states|
  {
    tb.states[s].flags & STATE_FLAG_FINAL != 0
  }

  /** The machine and a configuration RTHsmStep can be called in. */
  ghost predicate Ready<W>(m: Machine<W>, c: Config<W>) {
    Tree(m.tb) && (c.current.Some? ==> Settled(m.tb, c.current.value))
  }

  ghost function AncestorTransitions(tb: Table, s: nat): seq<TransRef>
    requires Tree(tb) && s < |tb.states|
  {
    assert Reaches(tb, s, tb.n);
    PathInTable(tb, s);
    Candidates(tb, RootPath(tb, s))
  }

  ghost function Chosen<W>(m: Machine<W>, w: W, s: nat, e: Event): (r: Option<TransRef>)
    requires Tree(m.tb) && s < |m.tb.states|
    ensures r.Some? ==> HasTransition(m.tb, r.value)
  {
    FirstEnabledIsCandidate(m, w, e, AncestorTransitions(m.tb, s));
    FirstEnabled(m, w, e, AncestorTransitions(m.tb, s))
  }

  function Dequeue<W>(x: Ctx<W>): Ctx<W>
    requires x.queue != []
  {
    x.(queue := x.queue[1..], taken := x.taken + [x.queue[0]])
  }

  ghost function Step<W>(m: Machine<W>, c: Config<W>): (Config<W>, StepResult)
    requires Ready(m, c)
  {
    if c.current.None? then
      assert Reaches(m.tb, m.tb.global, m.tb.n);
      (Config(Some(Leaf(m.tb, m.tb.global)), PerformAll(m, c.ctx, Entries(Chain(m.tb, m.tb.global)))), Ok)
    else if IsFinal(m.tb, c.current.value) then (c, Terminated)
    else if c.ctx.queue == [] then (c, Empty)
    else
      var cur, e, x := c.current.value, c.ctx.queue[0], Dequeue(c.ctx);
      match Chosen(m, x.world, cur, e)
      case None =>
        var denial := LastDenial(m, x.world, e, AncestorTransitions(m.tb, cur));
        (Config(Some(cur), x), if denial != 0 then Guard(denial) else Discarded)
      case Some(r) =>
        assert Reaches(m.tb, cur, m.tb.n) && GoodPointers(m.tb, r.state);
        (Config(Some(FireTarget(m.tb, cur, r)), PerformAll(m, x, FireMarkers(m.tb, cur, r, e))), Ok)
  }

  // ----- Basic lemmas

  lemma {:induction false} FirstEnabledIsCandidate<W>(m: Machine<W>, w: W, e: Event, rs: seq<TransRef>)
    ensures match FirstEnabled(m, w, e, rs)
            case None => forall i :: 0 <= i < |rs| ==> !Enabled(m, w, e, rs[i])
            case Some(r) => exists k :: 0 <= k < |rs| && rs[k] == r && Enabled(m, w, e, r)
                                     && forall i :: 0 <= i < k ==> !Enabled(m, w, e, rs[i])
  {
    if rs != [] && !Enabled(m, w, e, rs[0]) {
      FirstEnabledIsCandidate(m, w, e, rs[1..]);
      var rest := FirstEnabled(m, w, e, rs[1..]);
      if rest.Some? {
        var k :| 0 <= k < |rs[1..]| && rs[1..][k] == rest.value && Enabled(m, w, e, rest.value)
              && forall i :: 0 <= i < k ==> !Enabled(m, w, e, rs[1..][i]);
        assert rs[k + 1] == rest.value;
        assert forall i :: 0 < i < k + 1 ==> rs[i] == rs[1..][i - 1];
      } else {
        assert forall i :: 0 < i < |rs| ==> rs[i] == rs[1..][i - 1];
      }
    }
  }

  lemma {:induction false} FirstEnabledAt<W>(m: Machine<W>, w: W, e: Event, rs: seq<TransRef>, k: nat)
    requires k <= |rs| && forall i :: 0 <= i < k ==> !Enabled(m, w, e, rs[i])
    requires k < |rs| ==> Enabled(m, w, e, rs[k])
    ensures FirstEnabled(m, w, e, rs) == if k < |rs| then Some(rs[k]) else None
  {
    if k > 0 {
      FirstEnabledAt(m, w, e, rs[1..], k - 1);
    }
  }

  /** Searching one list after another. */
  lemma {:induction false} SearchConcat<W>(m: Machine<W>, w: W, e: Event, a: seq<TransRef>, b: seq<TransRef>)
    ensures FirstEnabled(m, w, e, a + b)
         == if FirstEnabled(m, w, e, a).Some? then FirstEnabled(m, w, e, a) else FirstEnabled(m, w, e, b)
    ensures LastDenial(m, w, e, a + b) == Later(LastDenial(m, w, e, a), LastDenial(m, w, e, b))
  {
    FirstEnabledConcat(m, w, e, a, b);
    LastDenialConcat(m, w, e, a, b);
  }

  /** Searching one state of a path, then the states above it. */
  lemma SearchUp<W>(m: Machine<W>, w: W, e: Event, p: seq<nat>, d: nat)
    requires InTable(m.tb, p) && 0 < d <= |p|
    ensures var own, all, rest := Outgoing(m.tb, p[d - 1]), Candidates(m.tb, p[..d]), Candidates(m.tb, p[..d - 1]);
            var found := FirstEnabled(m, w, e, own);
            && FirstEnabled(m, w, e, all) == (if found.Some? then found else FirstEnabled(m, w, e, rest))
            && LastDenial(m, w, e, all) == Later(LastDenial(m, w, e, own), LastDenial(m, w, e, rest))
  {
    assert p[..d][..d - 1] == p[..d - 1];
    SearchConcat(m, w, e, Outgoing(m.tb, p[d - 1]), Candidates(m.tb, p[..d - 1]));
  }

  lemma SearchNothing<W>(m: Machine<W>, w: W, e: Event, p: seq<nat>)
    ensures FirstEnabled(m, w, e, Candidates(m.tb, p[..0])).None?
    ensures LastDenial(m, w, e, Candidates(m.tb, p[..0])) == 0
  {
  }

  lemma {:induction false} FirstEnabledConcat<W>(m: Machine<W>, w: W, e: Event, a: seq<TransRef>, b: seq<TransRef>)
    ensures FirstEnabled(m, w, e, a + b)
         == if FirstEnabled(m, w, e, a).Some? then FirstEnabled(m, w, e, a) else FirstEnabled(m, w, e, b)
  {
    if a == [] {
      assert a + b == b;
    } else {
      FirstEnabledConcat(m, w, e, a[1..], b);
      assert (a + b)[1..] == a[1..] + b;
    }
  }

  lemma {:induction false} LastDenialConcat<W>(m: Machine<W>, w: W, e: Event, a: seq<TransRef>, b: seq<TransRef>)
    ensures LastDenial(m, w, e, a + b) == Later(LastDenial(m, w, e, a), LastDenial(m, w, e, b))
  {
    if b == [] {
      assert a + b == a;
    } else {
      LastDenialConcat(m, w, e, a, b[..|b| - 1]);
      assert (a + b)[..|a + b| - 1] == a + b[..|b| - 1];
    }
  }

  lemma {:induction false} PerformAllConcat<W>(m: Machine<W>, x: Ctx<W>, a: seq<Marker>, b: seq<Marker>)
    ensures PerformAll(m, x, a + b) == PerformAll(m, PerformAll(m, x, a), b)
  {
    if b == [] {
      assert a + b == a;
    } else {
      var k := |b| - 1;
      PerformAllConcat(m, x, a, b[..k]);
      assert (a + b)[..|a + b| - 1] == a + b[..k];
    }
  }

  lemma PerformOne<W>(m: Machine<W>, x: Ctx<W>, a: Marker)
    ensures PerformAll(m, x, [a]) == Perform(m, x, a)
  {
  }

  /** Entering the initial sub-state first, then its own chain. */
  lemma EnterInitial<W>(m: Machine<W>, x: Ctx<W>, s: nat)
    requires Tree(m.tb) && s < |m.tb.states| && Reaches(m.tb, s, m.tb.n) && m.tb.states[s].initial.Some?
    ensures var c := m.tb.states[s].initial.value;
            && c < |m.tb.states| && Reaches(m.tb, c, m.tb.n)
            && Leaf(m.tb, s) == Leaf(m.tb, c)
            && PerformAll(m, x, Entries(Chain(m.tb, s)))
               == PerformAll(m, Perform(m, x, Entered(c)), Entries(Chain(m.tb, c)))
  {
    InitialDeeper(m.tb, s);
    var c := m.tb.states[s].initial.value;
    assert Entries(Chain(m.tb, s)) == [Entered(c)] + Entries(Chain(m.tb, c));
    PerformAllConcat(m, x, [Entered(c)], Entries(Chain(m.tb, c)));
    PerformOne(m, x, Entered(c));
  }

  /** The callbacks of a transition to another state, phase by phase. */
  lemma FireInParts<W>(m: Machine<W>, x: Ctx<W>, cur: nat, r: TransRef, e: Event)
    requires CanFire(m.tb, cur, r) && TransitionAt(m.tb, r).toState != Some(cur)
    ensures var to := TransitionAt(m.tb, r).toState.value;
            Reaches(m.tb, to, m.tb.n)
            && var p, q := RootPath(m.tb, cur), RootPath(m.tb, to);
            var k := Lcp(p, q);
            var left := PerformAll(m, x, Exits(p, k));
            var fired := Perform(m, left, Fired(r, e));
            var entered := PerformAll(m, fired, Entries(q[k..]));
            && PerformAll(m, x, FireMarkers(m.tb, cur, r, e)) == PerformAll(m, entered, Entries(Chain(m.tb, to)))
            && FireTarget(m.tb, cur, r) == Leaf(m.tb, to)
  {
    hide PerformAll, Perform, Chain, Lcp, PathWithin;
    var to := TransitionAt(m.tb, r).toState.value;
    assert Reaches(m.tb, to, m.tb.n);
    var p, q := RootPath(m.tb, cur), RootPath(m.tb, to);
    var k := Lcp(p, q);
    var upToAction := Exits(p, k) + [Fired(r, e)];
    PerformAllConcat(m, x, Exits(p, k), [Fired(r, e)]);
    PerformOne(m, PerformAll(m, x, Exits(p, k)), Fired(r, e));
    PerformAllConcat(m, x, upToAction, Entries(q[k..]));
    PerformAllConcat(m, x, upToAction + Entries(q[k..]), Entries(Chain(m.tb, to)));
  }
}
