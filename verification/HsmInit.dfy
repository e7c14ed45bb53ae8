/**
 The checking and linking done by RTHsmInit, in place on the state array. A failed RTASSERT panics;
 here the method returns without a global state.
 */
module HsmInit {
  import opened Words
  import opened HsmTable

  /** What a state holds between the loops over the states and the loops over the transitions. */
  ghost predicate LinkedUpTo(t: seq<State>, now: seq<State>, i: nat) {
    && |now| == |t| && i <= |t|
    && (forall k :: 0 <= k < i ==> now[k] == LinkState(t, k))
    && (forall k :: i <= k < |t| ==> now[k] == t[k])
  }

  /** rthsmLookupStateFromId */
  method LookupStateFromId(states: array<State>, id: byte) returns (r: Option<nat>)
    ensures r == Lookup(states[..], id)
  {
    r := None;
    var i := 0;
    while i < states.Length && r.None?
      invariant 0 <= i <= states.Length
      invariant r.None? ==>
          Lookup(states[..], id) == (match Lookup(states[i..], id) case None => None case Some(k) => Some(k + i))
      invariant r.Some? ==> r == Lookup(states[..], id)
    {
      assert states[i..][1..] == states[i + 1..];
      if states[i].id == id {
        r := Some(i);
      }
      i := i + 1;
    }
  }

  /** First loop body: unique id, parent and initial pointers of state i, at most one global state. */
  method CacheState(ghost t: seq<State>, states: array<State>, i: nat, global: Option<nat>, ghost n: nat)
    returns (ok: bool, global': Option<nat>)
    requires i < states.Length && LinkedUpTo(t, states[..], i)
    requires global.Some? ==> global.value < i && IsGlobal(t, global.value)
    modifies states
    ensures !ok ==> !Acceptable(t, n)
    ensures ok ==> LinkedUpTo(t, states[..], i + 1)
    ensures ok ==> forall j :: i < j < |t| ==> t[j].id != t[i].id
    ensures ok ==> if IsGlobal(t, i) then global.None? && global' == Some(i) else global' == global
    ensures ok ==> IdsResolve(t, i)
  {
    ok, global' := false, global;
    var state := states[i];
    assert states[..][i] == t[i];
    var j := i + 1;
    while j < states.Length
      invariant i < j <= states.Length
      invariant forall k :: i < k < j ==> t[k].id != t[i].id
    {
      assert states[..][j] == t[j];
      if states[j].id == state.id {
        return;
      }
      j := j + 1;
    }
    assert forall id :: Lookup(states[..], id) == Lookup(t, id) by {
      forall id ensures Lookup(states[..], id) == Lookup(t, id) { LookupSameIds(states[..], t, id); }
    }
    var parent, initial := None, None;
    if state.parentId == NULL_STATE_ID {
      assert IsGlobal(t, i);
      if global.Some? {
        return;
      }
      global' := Some(i);
    } else {
      parent := LookupStateFromId(states, state.parentId);
      if parent.None? {
        OrphanRejected(t, i, n);
        return;
      }
    }
    if state.initialId != NULL_STATE_ID {
      initial := LookupStateFromId(states, state.initialId);
      if initial.None? {
        assert Acceptable(t, n) ==> InitialOk(t, i);
        return;
      }
    }
    states[i] := state.(parent := parent, initial := initial);
    ok := true;
  }

  lemma OrphanRejected(t: seq<State>, s: nat, n: nat)
    requires s < |t| && t[s].parentId != NULL_STATE_ID && Lookup(t, t[s].parentId).None?
    ensures !Acceptable(t, n)
  {
    if Acceptable(t, n) {
      var g: nat :| AcceptableWith(t, g, n);
      var p := NestedHasParent(t, s, g, n);
    }
  }

  /** What the first loop establishes. */
  ghost predicate StatesCached(t: seq<State>, now: seq<State>, g: nat) {
    && now == LinkStates(t)
    && DistinctIds(t)
    && IsGlobal(t, g) && (forall k :: IsGlobal(t, k) ==> k == g)
    && (forall k: nat :: k < |t| ==> IdsResolve(t, k))
  }

  /** The first loop: all state pointers, and the one global state. */
  method CacheStates(states: array<State>, ghost n: nat) returns (global: Option<nat>)
    modifies states
    ensures global.None? ==> !Acceptable(old(states[..]), n)
    ensures global.Some? ==> StatesCached(old(states[..]), states[..], global.value)
  {
    hide Lookup, NestedWithin, InitialOk, TargetsOk, LinkState, LinkStates, Resolve;
    ghost var t := states[..];
    global := None;
    for i := 0 to states.Length
      invariant LinkedUpTo(t, states[..], i)
      invariant forall k, j :: 0 <= k < i && k < j < |t| ==> t[k].id != t[j].id
      invariant global.Some? ==> global.value < i && IsGlobal(t, global.value)
      invariant forall k: nat :: k < i && IsGlobal(t, k) ==> global == Some(k)
      invariant forall k: nat :: k < i ==> IdsResolve(t, k)
    {
      var ok;
      ok, global := CacheState(t, states, i, global, n);
      if !ok {
        return None;
      }
    }
    if global.None? {
      return None;
    }
    AllLinked(t, states[..]);
  }

  lemma AllLinked(t: seq<State>, now: seq<State>)
    requires LinkedUpTo(t, now, |t|)
    ensures now == LinkStates(t)
  {
  }

  /** The bounded walk from state s: is the global state among its first n parents? */
  method BelongsToGlobal(ghost t: seq<State>, states: array<State>, s: nat, global: nat, n: nat) returns (belongs: bool)
    requires StatesCached(t, states[..], global) && s < |t| && s != global
    ensures belongs <==> NestedWithin(t, s, global, n)
  {
    belongs := false;
    var iter := s;
    var j := 0;
    while j < n
      invariant 0 <= j <= n && 0 <= iter < |t| && iter != global
      invariant NestedWithin(t, s, global, n) <==> NestedWithin(t, iter, global, n - j)
    {
      assert states[..][iter] == LinkState(t, iter) && IdsResolve(t, iter) && !IsGlobal(t, iter);
      ghost var p := states[iter].parent.value;
      NestedWithinStep(t, iter, p, global, n - j);
      if states[iter].parent == Some(global) {
        assert NestedWithin(t, global, global, n - j - 1);
        return true;
      }
      iter := states[iter].parent.value;
      j := j + 1;
    }
  }

  /** The second loop: each initial sub-state has the right parent, each state belongs to the global one. */
  method CheckHierarchy(ghost t: seq<State>, states: array<State>, global: nat, n: nat) returns (ok: bool)
    requires StatesCached(t, states[..], global)
    ensures ok <==> forall s: nat :: s < |t| ==> InitialOk(t, s) && NestedWithin(t, s, global, n)
  {
    for i := 0 to states.Length
      invariant forall s: nat :: s < i ==> InitialOk(t, s) && NestedWithin(t, s, global, n)
    {
      assert states[..][i] == LinkState(t, i) && IdsResolve(t, i);
      if states[i].initial.Some? {
        var c := states[i].initial.value;
        assert states[..][c] == LinkState(t, c) && IdsResolve(t, c);
        InitialPointerOk(t, i);
        if states[c].parent != Some(i) {
          return false;
        }
      }
      if i != global {
        var belongs := BelongsToGlobal(t, states, i, global, n);
        if !belongs {
          return false;
        }
      }
    }
    ok := true;
  }

  /** With distinct ids, comparing the cached pointers decides whether an initial sub-state is right. */
  lemma InitialPointerOk(t: seq<State>, s: nat)
    requires DistinctIds(t) && s < |t| && Resolve(t, t[s].initialId).Some?
    ensures InitialOk(t, s) <==> Resolve(t, t[Resolve(t, t[s].initialId).value].parentId) == Some(s)
  {
  }

  /** State i of the table while the third loop is at its transition j. */
  ghost predicate TargetsUpTo(t: seq<State>, i: nat, now: State, j: nat)
    requires i < |t|
  {
    var ts := t[i].transitions;
    && now == LinkState(t, i).(transitions := now.transitions)
    && j <= |now.transitions| == |ts|
    && (forall k :: 0 <= k < j ==> now.transitions[k] == ts[k].(toState := Resolve(t, ts[k].toStateId)))
    && (forall k :: j <= k < |ts| ==> now.transitions[k] == ts[k])
  }

  /** Third loop, one transition: check and fill in the destination. */
  method CacheTarget(ghost t: seq<State>, states: array<State>, i: nat, j: nat, global: nat) returns (ok: bool)
    requires DistinctIds(t) && i < |t| == states.Length && j < |t[i].transitions|
    requires TargetsUpTo(t, i, states[i], j)
    requires forall k :: 0 <= k < |t| ==> states[k].id == t[k].id
    modifies states
    ensures ok <==> TargetOk(t, global, t[i].transitions[j].toStateId)
    ensures ok ==> TargetsUpTo(t, i, states[i], j + 1)
    ensures forall k :: 0 <= k < |t| && k != i ==> states[k] == old(states[k])
  {
    var transition := states[i].transitions[j];
    if transition.toStateId == NULL_STATE_ID {
      return false;
    }
    var state := LookupStateFromId(states, transition.toStateId);
    LookupSameIds(states[..], t, transition.toStateId);
    if state.None? || state.value == global {
      return false;
    }
    states[i] := states[i].(transitions := states[i].transitions[j := transition.(toState := state)]);
    ok := true;
  }

  /** The third loop for one state. */
  method CacheTargets(ghost t: seq<State>, states: array<State>, i: nat, global: nat) returns (ok: bool)
    requires DistinctIds(t) && i < |t| == states.Length && states[i] == LinkState(t, i)
    requires forall k :: 0 <= k < |t| ==> states[k].id == t[k].id
    modifies states
    ensures ok <==> TargetsOk(t, global, i)
    ensures ok ==> states[i] == Link(t)[i]
    ensures forall k :: 0 <= k < |t| && k != i ==> states[k] == old(states[k])
  {
    var j := 0;
    while j < |states[i].transitions|
      invariant TargetsUpTo(t, i, states[i], j)
      invariant forall k :: 0 <= k < |t| && k != i ==> states[k] == old(states[k])
      invariant forall k :: 0 <= k < j ==> TargetOk(t, global, t[i].transitions[k].toStateId)
      decreases |t[i].transitions| - j
    {
      ok := CacheTarget(t, states, i, j, global);
      if !ok {
        return;
      }
      j := j + 1;
    }
    assert states[i].transitions == LinkTransitions(t, t[i].transitions);
    ok := true;
  }

  /** The third loop: every transition gets its destination. */
  method CacheTransitions(ghost t: seq<State>, states: array<State>, global: nat) returns (ok: bool)
    requires DistinctIds(t) && states[..] == LinkStates(t)
    modifies states
    ensures ok <==> forall s: nat :: s < |t| ==> TargetsOk(t, global, s)
    ensures ok ==> states[..] == Link(t)
  {
    assert forall k :: 0 <= k < |t| ==> states[k] == states[..][k] == LinkState(t, k);
    for i := 0 to states.Length
      invariant states.Length == |t|
      invariant forall k :: 0 <= k < i ==> states[k] == Link(t)[k]
      invariant forall k :: i <= k < |t| ==> states[k] == LinkState(t, k)
      invariant forall s: nat :: s < i ==> TargetsOk(t, global, s)
    {
      ok := CacheTargets(t, states, i, global);
      if !ok {
        return;
      }
    }
    assert states[..] == Link(t);
    ok := true;
  }

  /**
   RTHsmInit: no global state is returned (the code panics) exactly when the tables break a
   constraint; otherwise every pointer is linked and the states form a tree.
   */
  method InitTables(states: array<State>, n: nat) returns (global: Option<nat>)
    modifies states
    ensures global.Some? <==> Acceptable(old(states[..]), n)
    ensures global.Some? ==> states[..] == Link(old(states[..]))
    ensures global.Some? ==> AcceptableWith(old(states[..]), global.value, n)
    ensures global.Some? ==> Tree(Table(states[..], global.value, n))
  {
    ghost var t := states[..];
    if states.Length == 0 {
      return None;
    }
    global := CacheStates(states, n);
    if global.None? {
      return;
    }
    var g := global.value;
    assert IdsResolve(t, g);
    assert Acceptable(t, n) ==> AcceptableWith(t, g, n);
    if states[g].initial.None? || |states[g].transitions| != 0 {
      return None;
    }
    var ok := CheckHierarchy(t, states, g, n);
    if !ok {
      return None;
    }
    ok := CacheTransitions(t, states, g);
    if !ok {
      return None;
    }
    assert AcceptableWith(t, g, n);
    AcceptedIsTree(t, g, n);
  }
}
