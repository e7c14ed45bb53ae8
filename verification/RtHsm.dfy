/**
 The state machine object of src/rthsm, updated in place over a byte-level event queue. Every
 RTASSERT executed after RTHsmInit is an `assert` here. The public methods are proved against HsmSpec;
 between any two callbacks the queue is intact and no event is lost.
 */
module RtHsm {
  import opened Words
  import opened HsmEvent
  import opened HsmTable
  import opened HsmPaths
  import Spec = HsmSpec
  import HsmInit
  import HsmRuns
  import HsmTheorems
  import RtFifo

  class Hsm<W> {
    const n: nat
    const states: array<State>
    const eventQueue: RtFifo.Fifo
    const env: Spec.Env<W>
    var global: Option<nat>
    var current: Option<nat>

    /** Everything outside the machine that guards and callbacks work on. */
    var world: W

    ghost var log: seq<Spec.Marker>
    ghost var accepted: seq<Event>
    ghost var taken: seq<Event>

    ghost predicate QueueOk()
      reads eventQueue
    {
      eventQueue.Valid() && eventQueue.itemSize == EVENT_SIZE && Apart()
    }

    /** The state table and the queue's buffer are different objects, as their types say. */
    ghost predicate Apart() {
      states as object != eventQueue.buffer as object
    }

    /** The queued events, oldest first. */
    ghost function Events(): (events: seq<Event>)
      requires QueueOk()
      reads eventQueue, eventQueue.buffer
      ensures |events| == eventQueue.size as nat
    {
      DecodeAll(eventQueue.Contents())
    }

    ghost function Ctx(): Spec.Ctx<W>
      requires QueueOk()
      reads this, eventQueue, eventQueue.buffer
    {
      Spec.Ctx(Events(), world, log, accepted, taken)
    }

    ghost function Config(): Spec.Config<W>
      requires QueueOk()
      reads this, eventQueue, eventQueue.buffer
    {
      Spec.Config(current, Ctx())
    }

    ghost function Machine(): Spec.Machine<W>
      requires global.Some?
      reads this`global, states
    {
      Spec.Machine(Table(states[..], global.value, n), eventQueue.capacity as nat, env)
    }

    /** What holds whenever application code runs: an initialised machine and no event lost. */
    ghost predicate Wired()
      reads this, states, eventQueue, eventQueue.buffer
    {
      && n + 1 < 0x80 && states.Length < 0x100
      && QueueOk()
      && global.Some? && Tree(Machine().tb)
      && HsmRuns.Conserved(Machine(), Ctx())
    }

    /** What holds between calls of the public methods. */
    ghost predicate Valid()
      reads this, states, eventQueue, eventQueue.buffer
    {
      Wired() && HsmRuns.Inv(Machine(), Config())
    }

    /** The assignments at the start of RTHsmInit. The nesting bound plus one must fit an int8_t. */
    constructor (n: nat, states: array<State>, eventQueue: RtFifo.Fifo, env: Spec.Env<W>, world: W)
      requires n + 1 < 0x80 && states.Length < 0x100
      requires eventQueue.Valid() && eventQueue.itemSize == EVENT_SIZE
      requires states as object != eventQueue.buffer as object
      ensures this.n == n && this.states == states && this.eventQueue == eventQueue && this.env == env
      ensures this.world == world && current == None && global == None && log == [] && taken == []
      ensures QueueOk() && accepted == Events()
    {
      this.n, this.states, this.eventQueue, this.env := n, states, eventQueue, env;
      this.world, this.global, this.current := world, None, None;
      log, accepted, taken := [], [], [];
      new;
      accepted := Events();
    }

    /** The rest of RTHsmInit: accepts exactly the tables that meet the constraints. */
    method Init() returns (ok: bool)
      requires n + 1 < 0x80 && states.Length < 0x100 && QueueOk()
      requires current == None && log == [] && taken == [] && accepted == Events()
      modifies `global, states
      ensures ok <==> Acceptable(old(states[..]), n)
      ensures ok ==> Valid() && states[..] == Link(old(states[..]))
      ensures ok ==> Config() == HsmTheorems.Start(world, Events())
      ensures ok ==> AcceptableWith(old(states[..]), global.value, n)
    {
      global := HsmInit.InitTables(states, n);
      ok := global.Some?;
      if ok {
        assert Ctx().accepted == Ctx().taken + Ctx().queue;
      }
    }

    // ----- Queueing events

    /** RTHsmPushEvent: queues a copy of the event unless the queue is full. */
    method PushEvent(e: Event) returns (pushed: bool)
      requires Wired()
      modifies `accepted, eventQueue, eventQueue.buffer
      ensures Wired() && Machine() == old(Machine())
      ensures pushed <==> |old(Events())| < eventQueue.capacity as nat
      ensures Ctx() == Spec.Push(Machine(), old(Ctx()), [e])
      ensures old(Valid()) ==> Valid()
    {
      hide DecodeAll, Tree, EncodeEvent, RtFifo.Fifo.Valid, HsmRuns.Conserved;
      HsmRuns.PushConserves(Machine(), Ctx(), [e]);
      var record := EncodeEvent(e);
      var item := new byte[EVENT_SIZE](i requires 0 <= i < EVENT_SIZE as nat => record[i]);
      assert item[..EVENT_SIZE] == record;
      ghost var items := eventQueue.Contents();
      assert record + eventQueue.FreeSlot()[EVENT_SIZE..] == record;
      pushed := eventQueue.Push(item, EVENT_SIZE);
      if pushed {
        accepted := accepted + [e];
        DecodeAllPush(items, e);
        assert [e][..1] == [e];
      } else {
        assert [e][..0] == [];
      }
    }

    /** The pushes an action attempts, in order; the application may ignore the results. */
    method PushEvents(events: seq<Event>)
      requires Wired()
      modifies `accepted, eventQueue, eventQueue.buffer
      ensures Wired() && Machine() == old(Machine())
      ensures Ctx() == Spec.Push(Machine(), old(Ctx()), events)
    {
      assert events[..0] == [];
      for i := 0 to |events|
        invariant Wired() && Machine() == old(Machine())
        invariant Ctx() == Spec.Push(Machine(), old(Ctx()), events[..i])
      {
        ghost var mid := Ctx();
        var pushed := PushEvent(events[i]);
        assert events[..i + 1] == events[..i] + [events[i]];
        PushOneMore(Machine(), old(Ctx()), events[..i], events[i]);
      }
      assert events[..|events|] == events;
    }

    /** Something other than the machine's callbacks changes the outside world between two calls. */
    method ChangeWorld(w: W)
      requires Valid()
      modifies `world
      ensures Valid() && Machine() == old(Machine()) && Config() == HsmRuns.InWorld(old(Config()), w)
    {
      world := w;
    }

    // ----- Callbacks

    /** Runs the callback of one marker unless it is NULL. */
    method Perform(ghost mk: Spec.Marker, call: Option<Spec.Call>)
      requires Wired() && call == Spec.CallOf(Machine().tb, mk)
      modifies `log, `world, `accepted, eventQueue, eventQueue.buffer
      ensures Wired() && Machine() == old(Machine())
      ensures Ctx() == Spec.Perform(Machine(), old(Ctx()), mk)
    {
      log := log + [mk];
      if call.Some? {
        var room := eventQueue.capacity - eventQueue.size;
        var (world', events) := env.act(world, call.value, room as nat);
        world := world';
        PushEvents(events);
      }
    }

    method ExitState(s: nat)
      requires Wired() && s < states.Length
      modifies `log, `world, `accepted, eventQueue, eventQueue.buffer
      ensures Wired() && Machine() == old(Machine())
      ensures Ctx() == Spec.Perform(Machine(), old(Ctx()), Spec.Exited(s))
    {
      var state := states[s];
      Perform(Spec.Exited(s),
              if state.exitAction.Some? then Some(Spec.StateCall(state.exitAction.value, state.cookie)) else None);
    }

    method EnterState(s: nat)
      requires Wired() && s < states.Length
      modifies `log, `world, `accepted, eventQueue, eventQueue.buffer
      ensures Wired() && Machine() == old(Machine())
      ensures Ctx() == Spec.Perform(Machine(), old(Ctx()), Spec.Entered(s))
    {
      var state := states[s];
      Perform(Spec.Entered(s),
              if state.entryAction.Some? then Some(Spec.StateCall(state.entryAction.value, state.cookie)) else None);
    }

    method RunTransitionAction(r: Spec.TransRef, event: Event)
      requires Wired() && Spec.HasTransition(Machine().tb, r)
      modifies `log, `world, `accepted, eventQueue, eventQueue.buffer
      ensures Wired() && Machine() == old(Machine())
      ensures Ctx() == Spec.Perform(Machine(), old(Ctx()), Spec.Fired(r, event))
    {
      var transition := states[r.state].transitions[r.index];
      Perform(Spec.Fired(r, event),
              if transition.action.Some?
              then Some(Spec.TransitionCall(transition.action.value, event, transition.cookie)) else None);
    }

    // ----- Transitions

    /** rthsmTraverseToChildmostState: enters initial sub-states below `state` until there are none. */
    method TraverseToChildmostState(state: nat)
      requires Wired() && state < states.Length && Reaches(Machine().tb, state, n)
      modifies `current, `log, `world, `accepted, eventQueue, eventQueue.buffer
      ensures Wired() && Machine() == old(Machine())
      ensures current == Some(Leaf(Machine().tb, state))
      ensures Ctx() == Spec.PerformAll(Machine(), old(Ctx()), Spec.Entries(Chain(Machine().tb, state)))
    {
      hide Tree, Reaches, PathWithin, DecodeAll, RtFifo.Fifo.Valid, HsmRuns.Conserved, Spec.Perform;
      ghost var m, tb, x := Machine(), Machine().tb, Ctx();
      current := Some(state);
      var more := true;
      while more
        invariant Wired() && Machine() == m
        invariant current.Some? && current.value < states.Length && Reaches(tb, current.value, n)
        invariant Leaf(tb, current.value) == Leaf(tb, state)
        invariant Spec.PerformAll(m, x, Spec.Entries(Chain(tb, state)))
               == Spec.PerformAll(m, Ctx(), Spec.Entries(Chain(tb, current.value)))
        invariant !more ==> states[current.value].initial.None?
        decreases n - |RootPath(tb, current.value)|, more
      {
        var substate := states[current.value].initial;
        if substate.Some? {
          InitialDeeper(tb, current.value);
          Spec.EnterInitial(m, Ctx(), current.value);
          current := substate;
          EnterState(substate.value);
        }
        more := substate.Some?;
      }
    }

    /**
     rthsmGetBestTransition: the first enabled transition on the way up from the current state, and the
     last guard value seen if none is.
     */
    method GetBestTransition(event: Event) returns (transition: Option<Spec.TransRef>, guardResult: byte)
      requires Wired() && current.Some? && Settled(Machine().tb, current.value)
      ensures transition == Spec.Chosen(Machine(), world, current.value, event)
      ensures transition.None? ==>
                guardResult == Spec.LastDenial(Machine(), world, event,
                                               Spec.AncestorTransitions(Machine().tb, current.value))
    {
      hide DecodeAll, RtFifo.Fifo.Valid, HsmRuns.Conserved, PathWithin, Spec.FirstEnabled, Spec.LastDenial;
      ghost var m, tb := Machine(), Machine().tb;
      assert Reaches(tb, current.value, n);
      ghost var path := RootPath(tb, current.value);
      PathInTable(tb, current.value);
      ghost var all := Spec.Candidates(tb, path);
      ghost var d := |path|;  // path[..d] is still to be searched
      transition, guardResult := None, 0;
      var state := current.value;
      assert path[..d] == path;
      var i: uint8 := 0;
      while state != global.value && transition.None?
        invariant 0 <= d <= |path| && i as int == |path| - d
        invariant state == Above(tb, path, d)
        invariant transition.Some? ==> transition == Spec.FirstEnabled(m, world, event, all)
        invariant transition.None? ==>
          var rest := Spec.Candidates(tb, path[..d]);
          && Spec.FirstEnabled(m, world, event, all) == Spec.FirstEnabled(m, world, event, rest)
          && Spec.LastDenial(m, world, event, all)
             == Spec.Later(guardResult, Spec.LastDenial(m, world, event, rest))
        decreases d
      {
        assert i as nat < n;
        OnPath(tb, current.value, path, d - 1);
        Spec.SearchUp(m, world, event, path, d);
        transition, guardResult := SearchState(state, event, guardResult);
        d := d - 1;
        state := states[state].parent.value;
        i := i + 1;
      }
      if transition.None? && d > 0 {
        OnPath(tb, current.value, path, d - 1);
        assert false;
      }
      Spec.SearchNothing(m, world, event, path);
    }

    /** One turn of that search: the transitions of `state`, in table order. */
    method SearchState(state: nat, event: Event, guardSoFar: byte)
      returns (transition: Option<Spec.TransRef>, guardResult: byte)
      requires global.Some? && state < states.Length
      ensures transition == Spec.FirstEnabled(Machine(), world, event, Spec.Outgoing(Machine().tb, state))
      ensures transition.None? ==>
                guardResult == Spec.Later(guardSoFar, Spec.LastDenial(Machine(), world, event,
                                                                      Spec.Outgoing(Machine().tb, state)))
    {
      ghost var m, own := Machine(), Spec.Outgoing(Machine().tb, state);
      transition, guardResult := None, guardSoFar;
      var j := 0;
      assert own[..0] == [] && own[..|own|] == own;
      while j < |states[state].transitions| && transition.None?
        invariant 0 <= j <= |own|
        invariant transition.Some? ==> transition == Spec.FirstEnabled(m, world, event, own)
        invariant transition.None? ==>
          && (forall k :: 0 <= k < j ==> !Spec.Enabled(m, world, event, own[k]))
          && guardResult == Spec.Later(guardSoFar, Spec.LastDenial(m, world, event, own[..j]))
      {
        var iter := states[state].transitions[j];
        assert own[j] == Spec.TransRef(state, j) && own[..j + 1][..j] == own[..j];
        if iter.eventId == event.id {
          if iter.guard.Some? {
            guardResult := env.guard(world, iter.guard.value, event, iter.cookie);
            if guardResult == 0 {
              transition := Some(Spec.TransRef(state, j));
            }
          } else {
            transition := Some(Spec.TransRef(state, j));
          }
        }
        if transition.Some? {
          Spec.FirstEnabledAt(m, world, event, own, j);
        }
        j := j + 1;
      }
      if transition.None? {
        Spec.FirstEnabledAt(m, world, event, own, |own|);
      }
    }

    /** rthsmDoSelfTransition */
    method DoSelfTransition(transition: Spec.TransRef, event: Event)
      requires Wired() && current.Some? && Spec.CanFire(Machine().tb, current.value, transition)
      requires Spec.TransitionAt(Machine().tb, transition).toState == current
      modifies `log, `world, `accepted, eventQueue, eventQueue.buffer
      ensures Wired() && Machine() == old(Machine())
      ensures Ctx() == Spec.PerformAll(Machine(), old(Ctx()),
                                       Spec.FireMarkers(Machine().tb, current.value, transition, event))
    {
      ghost var m, x, cur := Machine(), Ctx(), current.value;
      var internal := Spec.IsInternal(states[transition.state].transitions[transition.index]);
      if !internal {
        ExitState(current.value);
      }
      RunTransitionAction(transition, event);
      if !internal {
        EnterState(current.value);
        PerformThree(m, x, Spec.Exited(cur), Spec.Fired(transition, event), Spec.Entered(cur));
      } else {
        assert [Spec.Fired(transition, event)][..0] == [];
      }
    }

    /** The first loop of rthsmDoTransition: the destination and its parents, up to the global state. */
    method CollectParents(to: nat, dstParents: array<nat>) returns (dstParentsCount: int8)
      requires Wired() && to < states.Length && to != global.value && Reaches(Machine().tb, to, n)
      requires dstParents.Length == n + 1
      requires dstParents as object != states as object && dstParents as object != eventQueue.buffer as object
      modifies dstParents
      ensures Wired() && Machine() == old(Machine()) && Ctx() == old(Ctx())
      ensures dstParentsCount as int == |RootPath(Machine().tb, to)| + 1
      ensures ParentsOf(dstParents[..], Machine().tb, RootPath(Machine().tb, to), dstParentsCount as nat)
    {
      ghost var tb, q := Machine().tb, RootPath(Machine().tb, to);
      dstParents[0] := to;
      dstParentsCount := 1;
      while dstParents[dstParentsCount - 1] != global.value
        invariant 1 <= dstParentsCount as int <= |q| + 1
        invariant Wired() && Machine() == old(Machine()) && Ctx() == old(Ctx())
        invariant ParentsOf(dstParents[..], tb, q, dstParentsCount as nat)
        decreases |q| - dstParentsCount as int
      {
        assert dstParents[..][dstParentsCount - 1] == Above(tb, q, |q| - dstParentsCount as int + 1);
        OnPath(tb, to, q, |q| - dstParentsCount as int);
        assert dstParentsCount as int <= n;
        dstParents[dstParentsCount] := states[dstParents[dstParentsCount - 1]].parent.value;
        dstParentsCount := dstParentsCount + 1;
      }
      assert dstParents[..][dstParentsCount - 1] == Above(tb, q, |q| - dstParentsCount as int + 1);
      if dstParentsCount as int <= |q| {
        OnPath(tb, to, q, |q| - dstParentsCount as int);
        assert false;
      }
    }

    /** Inner loop of the search: is `wanted` the current state or one of its parents below the global one? */
    method IsCurrentOrParent(wanted: nat) returns (found: bool, lastState: Option<nat>)
      requires Wired() && current.Some? && Settled(Machine().tb, current.value)
      requires Reaches(Machine().tb, current.value, n)
      ensures found <==> wanted in RootPath(Machine().tb, current.value)
      ensures !found ==> lastState == Some(RootPath(Machine().tb, current.value)[0])
    {
      ghost var tb, p := Machine().tb, RootPath(Machine().tb, current.value);
      ghost var d := |p|;
      found, lastState := false, None;
      var state := current.value;
      while state != global.value && !found
        invariant 0 <= d <= |p| && (!found ==> state == Above(tb, p, d))
        invariant !found ==> wanted !in p[d..]
        invariant found ==> wanted in p
        invariant !found && d < |p| ==> lastState == Some(p[d])
        invariant d == 0 ==> found || lastState.Some?
        decreases d, !found
      {
        OnPath(tb, current.value, p, d - 1);
        assert p[d - 1..] == [p[d - 1]] + p[d..];
        lastState := Some(state);
        if state == wanted {
          found := true;
        }
        state := states[state].parent.value;
        d := d - 1;
      }
      if !found && d > 0 {
        OnPath(tb, current.value, p, d - 1);
        assert false;
      }
    }

    /** The nested loops of rthsmDoTransition: the nearest common parent is where the root paths part. */
    method FindCommonParent(to: nat, dstParents: array<nat>, dstParentsCount: int8)
      returns (commonParentIndex: int8, commonParent: nat)
      requires Wired() && current.Some? && Settled(Machine().tb, current.value)
      requires Reaches(Machine().tb, current.value, n)
      requires to < states.Length && to != global.value && Reaches(Machine().tb, to, n)
      requires dstParents.Length == n + 1 && dstParentsCount as int == |RootPath(Machine().tb, to)| + 1
      requires ParentsOf(dstParents[..], Machine().tb, RootPath(Machine().tb, to), dstParentsCount as nat)
      ensures var q := RootPath(Machine().tb, to);
              var k := Lcp(RootPath(Machine().tb, current.value), q);
              commonParentIndex as int == |q| - k && commonParent == Above(Machine().tb, q, k)
    {
      hide Tree, Reaches, PathWithin, DecodeAll, RtFifo.Fifo.Valid, HsmRuns.Conserved, Lcp;
      ghost var tb, p, q := Machine().tb, RootPath(Machine().tb, current.value), RootPath(Machine().tb, to);
      ghost var k := Lcp(p, q);
      OnPath(tb, current.value, p, 0);
      var found: Option<nat> := None;
      commonParentIndex := -1;
      var i: int8 := 0;
      while i < dstParentsCount && found.None?
        invariant 0 <= i <= dstParentsCount
        invariant found.None? ==> i as int <= |q| - k
        invariant found.Some? ==> commonParentIndex as int == |q| - k && found == Some(Above(tb, q, k))
        decreases dstParentsCount - i
      {
        assert dstParents[..][i] == Above(tb, q, |q| - i as int);
        if i as int < |q| {
          SharedAncestor(tb, current.value, to, |q| - 1 - i as int);
        } else {
          GlobalNotOnPath(tb, current.value);
        }
        var isParent, lastState := IsCurrentOrParent(dstParents[i]);
        if isParent {
          commonParentIndex, found := i, Some(dstParents[i]);
        }
        if found.None? && lastState.Some? {
          if states[lastState.value].parent == Some(dstParents[i]) {
            commonParentIndex, found := i, Some(dstParents[i]);
          }
        }
        i := i + 1;
      }
      assert commonParentIndex >= 0;
      assert found.Some?;
      commonParent := found.value;
    }

    /** Exit actions from the current state outwards, up to but not including the common parent. */
    method ExitUpTo(commonParent: nat, ghost k: nat)
      requires Wired() && current.Some? && Settled(Machine().tb, current.value)
      requires Reaches(Machine().tb, current.value, n) && k <= |RootPath(Machine().tb, current.value)|
      requires commonParent == Above(Machine().tb, RootPath(Machine().tb, current.value), k)
      modifies `log, `world, `accepted, eventQueue, eventQueue.buffer
      ensures Wired() && Machine() == old(Machine())
      ensures Ctx() == Spec.PerformAll(Machine(), old(Ctx()),
                                       Spec.Exits(RootPath(Machine().tb, current.value), k))
    {
      hide Tree, Reaches, PathWithin, DecodeAll, RtFifo.Fifo.Valid, HsmRuns.Conserved, Spec.Perform;
      ghost var tb, p := Machine().tb, RootPath(Machine().tb, current.value);
      ghost var d := |p|;
      var state := current.value;
      while state != commonParent
        invariant k <= d <= |p| && state == Above(tb, p, d)
        invariant Wired() && Machine() == old(Machine())
        invariant Ctx() == Spec.PerformAll(Machine(), old(Ctx()), Spec.Exits(p, d))
        decreases d
      {
        OnPath(tb, current.value, p, d - 1);
        ExitState(state);
        assert Spec.Exits(p, d - 1)[..|p| - d] == Spec.Exits(p, d);
        state := states[state].parent.value;
        d := d - 1;
      }
      if d > k {
        OnPath(tb, current.value, p, d - 1);
        PathDistinct(tb, current.value);
        assert false;
      }
    }

    /** Entry actions below the common parent inwards, down to the destination. */
    method EnterDown(to: nat, dstParents: array<nat>, commonParentIndex: int8)
      requires Wired() && to < states.Length && Reaches(Machine().tb, to, n)
      requires dstParents.Length == n + 1
      requires dstParents as object != states as object && dstParents as object != eventQueue.buffer as object
      requires 0 <= commonParentIndex as int <= |RootPath(Machine().tb, to)|
      requires ParentsOf(dstParents[..], Machine().tb, RootPath(Machine().tb, to), |RootPath(Machine().tb, to)| + 1)
      modifies `log, `world, `accepted, eventQueue, eventQueue.buffer
      ensures Wired() && Machine() == old(Machine())
      ensures var q := RootPath(Machine().tb, to);
              Ctx() == Spec.PerformAll(Machine(), old(Ctx()), Spec.Entries(q[|q| - commonParentIndex as int..]))
    {
      hide Tree, Reaches, PathWithin, DecodeAll, RtFifo.Fifo.Valid, HsmRuns.Conserved, Spec.Perform;
      ghost var tb, q := Machine().tb, RootPath(Machine().tb, to);
      ghost var k := |q| - commonParentIndex as int;
      var i := commonParentIndex - 1;
      while i >= 0
        invariant -1 <= i < commonParentIndex
        invariant Wired() && Machine() == old(Machine()) && dstParents[..] == old(dstParents[..])
        invariant Ctx() == Spec.PerformAll(Machine(), old(Ctx()), Spec.Entries(q[k..|q| - 1 - i as int]))
        decreases i as int + 1
      {
        ghost var j := |q| - 1 - i as int;
        assert dstParents[..][i] == Above(tb, q, j + 1);
        OnPath(tb, to, q, j);
        EnterState(dstParents[i]);
        assert Spec.Entries(q[k..j + 1])[..j - k] == Spec.Entries(q[k..j]);
        i := i - 1;
      }
      assert q[k..|q|] == q[k..];
    }

    /** rthsmDoTransition */
    method DoTransition(transition: Spec.TransRef, event: Event)
      requires Wired() && current.Some? && Spec.CanFire(Machine().tb, current.value, transition)
      requires Spec.TransitionAt(Machine().tb, transition).toState != current
      modifies `current, `log, `world, `accepted, eventQueue, eventQueue.buffer
      ensures Wired() && Machine() == old(Machine())
      ensures current == Some(Spec.FireTarget(Machine().tb, old(current.value), transition))
      ensures Ctx() == Spec.PerformAll(Machine(), old(Ctx()),
                                       Spec.FireMarkers(Machine().tb, old(current.value), transition, event))
    {
      hide Spec.Perform, Spec.PerformAll, Reaches, PathWithin, Chain, Leaf, Lcp, DecodeAll;
      var dstParents := new nat[n + 1];
      var to := states[transition.state].transitions[transition.index].toState.value;
      ghost var m, tb, x := Machine(), Machine().tb, Ctx();
      assert Reaches(tb, to, n);
      ghost var p, q := RootPath(tb, current.value), RootPath(tb, to);
      ghost var k := Lcp(p, q);
      Spec.FireInParts(m, x, current.value, transition, event);
      var dstParentsCount := CollectParents(to, dstParents);
      var commonParentIndex, commonParent := FindCommonParent(to, dstParents, dstParentsCount);
      SharedAbove(tb, p, q);
      ExitUpTo(commonParent, k);
      RunTransitionAction(transition, event);
      EnterDown(to, dstParents, commonParentIndex);
      TraverseToChildmostState(to);
    }

    // ----- The step

    /** RTHsmStep. A NULL guardResult pointer just discards the value carried by Guard. */
    method Step() returns (result: Spec.StepResult)
      requires Valid()
      modifies `current, `log, `world, `accepted, `taken, eventQueue, eventQueue.buffer
      ensures Valid() && Machine() == old(Machine())
      ensures (Config(), result) == Spec.Step(Machine(), old(Config()))
    {
      hide DecodeAll, RtFifo.Fifo.Valid, HsmRuns.Conserved, Reaches, PathWithin, Spec.PerformAll;
      HsmRuns.StepKeeps(Machine(), Config());
      ghost var m, c := Machine(), Config();
      if current.None? {
        assert Reaches(Machine().tb, global.value, n);
        TraverseToChildmostState(global.value);
        result := Spec.Ok;
      } else if states[current.value].flags & STATE_FLAG_FINAL != 0 {
        result := Spec.Terminated;
      } else {
        var popped, event := PopEvent();
        if !popped {
          result := Spec.Empty;
        } else {
          var transition, gresult := GetBestTransition(event);
          if transition.None? {
            result := if gresult != 0 then Spec.Guard(gresult) else Spec.Discarded;
          } else {
            var r := transition.value;
            assert GoodPointers(Machine().tb, r.state);
            if states[r.state].transitions[r.index].toState == current {
              DoSelfTransition(r, event);
            } else {
              DoTransition(r, event);
            }
            result := Spec.Ok;
          }
        }
      }
    }

    /** RTFifoPop into a local event. */
    method PopEvent() returns (popped: bool, event: Event)
      requires Wired()
      modifies `taken, eventQueue, eventQueue.buffer
      ensures Wired() && Machine() == old(Machine())
      ensures popped <==> old(Events()) != []
      ensures popped ==> event == old(Events())[0] && Ctx() == Spec.Dequeue(old(Ctx()))
      ensures !popped ==> Ctx() == old(Ctx())
    {
      hide DecodeAll, Tree, RtFifo.Fifo.Valid, RtFifo.Fifo.Contents, HsmRuns.Conserved, DecodeEvent;
      var item := new byte[EVENT_SIZE];
      ghost var items := eventQueue.Contents();
      popped := eventQueue.Pop(item, EVENT_SIZE);
      event := DecodeEvent(item[..]);
      if popped {
        assert item[..] == item[..EVENT_SIZE];
        HsmRuns.DequeueConserves(Machine(), old(Ctx()));
        taken := taken + [event];
        DecodeAllPop(items);
        assert Ctx() == Spec.Dequeue(old(Ctx()));
      }
    }
  }

  /** The first `count` entries are the destination and its parents, innermost first. */
  ghost predicate ParentsOf(dstParents: seq<nat>, tb: Table, q: seq<nat>, count: nat) {
    && count <= |dstParents| && count <= |q| + 1
    && forall i :: 0 <= i < count ==> dstParents[i] == Above(tb, q, |q| - i)
  }

  lemma GlobalNotOnPath(tb: Table, s: nat)
    requires Tree(tb) && s < |tb.states| && Reaches(tb, s, tb.n)
    ensures tb.global !in RootPath(tb, s)
  {
    forall i | 0 <= i < |RootPath(tb, s)|
      ensures RootPath(tb, s)[i] != tb.global
    {
      OnPath(tb, s, RootPath(tb, s), i);
    }
  }

  lemma SharedAbove(tb: Table, p: seq<nat>, q: seq<nat>)
    ensures Above(tb, p, Lcp(p, q)) == Above(tb, q, Lcp(p, q))
  {
  }

  lemma PerformThree<W>(m: Spec.Machine<W>, x: Spec.Ctx<W>, a: Spec.Marker, b: Spec.Marker, c: Spec.Marker)
    ensures Spec.PerformAll(m, x, [a, b, c]) == Spec.Perform(m, Spec.Perform(m, Spec.Perform(m, x, a), b), c)
  {
    Spec.PerformAllConcat(m, x, [a, b], [c]);
    Spec.PerformAllConcat(m, x, [a], [b]);
    assert [a, b] + [c] == [a, b, c] && [a] + [b] == [a, b];
    Spec.PerformOne(m, x, a);
    Spec.PerformOne(m, Spec.Perform(m, x, a), b);
    Spec.PerformOne(m, Spec.Perform(m, Spec.Perform(m, x, a), b), c);
  }

  /** Attempting one more push. */
  lemma PushOneMore<W>(m: Spec.Machine<W>, x: Spec.Ctx<W>, events: seq<Event>, e: Event)
    requires |x.queue| <= m.capacity
    ensures Spec.Push(m, Spec.Push(m, x, events), [e]) == Spec.Push(m, x, events + [e])
  {
  }
}
