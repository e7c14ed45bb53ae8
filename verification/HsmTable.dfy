/**
 The static side of a state machine (src/rthsm): the tables the application writes, what RTHsmInit
 demands of them, and the pointers it caches. A C pointer into the state array is the index of the
 state; NULL is None. Callbacks and cookies are opaque handles.
 */
module HsmTable {
  import opened Words

  const NULL_STATE_ID: byte := 0
  const STATE_FLAG_FINAL: byte := 1
  const TRANSITION_FLAG_INTERNAL: byte := 1

  datatype Transition = Transition(
    toStateId: byte, eventId: byte, flags: byte,
    guard: Option<nat>, action: Option<nat>, cookie: nat,
    toState: Option<nat>)

  datatype State = State(
    id: byte, flags: byte, parentId: byte, initialId: byte,
    entryAction: Option<nat>, exitAction: Option<nat>, cookie: nat,
    transitions: seq<Transition>,
    parent: Option<nat>, initial: Option<nat>)

  /** The first state with the given id: what rthsmLookupStateFromId must find. */
  function Lookup(t: seq<State>, id: byte): (r: Option<nat>)
    ensures r.Some? ==> r.value < |t| && t[r.value].id == id
    ensures r.None? ==> forall i :: 0 <= i < |t| ==> t[i].id != id
  {
    if t == [] then None
    else if t[0].id == id then Some(0)
    else match Lookup(t[1..], id)
      case None => None
      case Some(i) => Some(i + 1)
  }

  // ----- What the header demands, in terms of ids alone

  ghost predicate DistinctIds(t: seq<State>) {
    forall i, j :: 0 <= i < j < |t| ==> t[i].id != t[j].id
  }

  predicate IsGlobal(t: seq<State>, g: nat) {
    g < |t| && t[g].parentId == NULL_STATE_ID
  }

  /** State s names state p as its parent. */
  predicate ParentById(t: seq<State>, s: nat, p: nat) {
    s < |t| && p < |t| && t[s].parentId != NULL_STATE_ID && t[p].id == t[s].parentId
  }

  /** A chain of at most k parent ids leads from s to g. */
  ghost predicate NestedWithin(t: seq<State>, s: nat, g: nat, k: nat)
    decreases k
  {
    s == g || (k > 0 && exists p: nat :: ParentById(t, s, p) && NestedWithin(t, p, g, k - 1))
  }

  /** The initial sub-state of s, if it names one, exists and names s as its parent. */
  ghost predicate InitialOk(t: seq<State>, s: nat)
    requires s < |t|
  {
    t[s].initialId != NULL_STATE_ID ==>
      exists c: nat :: c < |t| && t[c].id == t[s].initialId && ParentById(t, c, s)
  }

  ghost predicate TargetOk(t: seq<State>, g: nat, toStateId: byte) {
    toStateId != NULL_STATE_ID && exists d: nat :: d < |t| && t[d].id == toStateId && d != g
  }

  ghost predicate TargetsOk(t: seq<State>, g: nat, s: nat)
    requires s < |t|
  {
    forall j :: 0 <= j < |t[s].transitions| ==> TargetOk(t, g, t[s].transitions[j].toStateId)
  }

  /** The constraints of rthsm.h with g as the global state, except that ids are not NULL_STATE_ID. */
  ghost predicate AcceptableWith(t: seq<State>, g: nat, n: nat) {
    && IsGlobal(t, g)
    && (forall i :: IsGlobal(t, i) ==> i == g)
    && t[g].initialId != NULL_STATE_ID
    && t[g].transitions == []
    && (forall s: nat :: s < |t| ==> InitialOk(t, s))
    && (forall s: nat :: s < |t| ==> NestedWithin(t, s, g, n))
    && (forall s: nat :: s < |t| ==> TargetsOk(t, g, s))
  }

  ghost predicate Acceptable(t: seq<State>, n: nat) {
    DistinctIds(t) && exists g: nat :: AcceptableWith(t, g, n)
  }

  // ----- The cached pointers

  /** The pointer an id stands for. */
  function Resolve(t: seq<State>, id: byte): (r: Option<nat>)
    ensures r.Some? ==> r.value < |t| && t[r.value].id == id && id != NULL_STATE_ID
  {
    if id == NULL_STATE_ID then None else Lookup(t, id)
  }

  /** State s with its own pointers filled in. */
  function LinkState(t: seq<State>, s: nat): State
    requires s < |t|
  {
    t[s].(parent := Resolve(t, t[s].parentId), initial := Resolve(t, t[s].initialId))
  }

  function LinkTransitions(t: seq<State>, ts: seq<Transition>): (r: seq<Transition>)
    ensures |r| == |ts|
    ensures forall j :: 0 <= j < |ts| ==> r[j] == ts[j].(toState := Resolve(t, ts[j].toStateId))
  {
    seq(|ts|, j requires 0 <= j < |ts| => ts[j].(toState := Resolve(t, ts[j].toStateId)))
  }

  /** The table after the first loop of RTHsmInit. */
  function LinkStates(t: seq<State>): (r: seq<State>)
    ensures |r| == |t|
    ensures forall s :: 0 <= s < |t| ==> r[s] == LinkState(t, s)
  {
    seq(|t|, s requires 0 <= s < |t| => LinkState(t, s))
  }

  /** The table after RTHsmInit: every pointer is the state its id names, nothing else changed. */
  function Link(t: seq<State>): (r: seq<State>)
    ensures |r| == |t|
    ensures forall s :: 0 <= s < |t| ==>
              r[s] == LinkState(t, s).(transitions := LinkTransitions(t, t[s].transitions))
  {
    seq(|t|, s requires 0 <= s < |t| => LinkState(t, s).(transitions := LinkTransitions(t, t[s].transitions)))
  }

  /** The parent and initial ids of a state name existing states. */
  ghost predicate IdsResolve(t: seq<State>, s: nat)
    requires s < |t|
  {
    && (t[s].parentId != NULL_STATE_ID ==> Resolve(t, t[s].parentId).Some?)
    && (t[s].initialId != NULL_STATE_ID ==> Resolve(t, t[s].initialId).Some?)
  }

  // ----- The tree

  /** An initialised machine: linked states, the global state and the nesting bound. */
  datatype Table = Table(states: seq<State>, global: nat, n: nat)

  /** At most k parent pointers lead from s to the global state. */
  predicate Reaches(tb: Table, s: nat, k: nat)
    decreases k
  {
    && s < |tb.states|
    && (s == tb.global || (k > 0 && tb.states[s].parent.Some? && Reaches(tb, tb.states[s].parent.value, k - 1)))
  }

  ghost predicate GoodPointers(tb: Table, s: nat)
    requires s < |tb.states|
  {
    var st := tb.states[s];
    && (st.initial.Some? ==> st.initial.value < |tb.states| && tb.states[st.initial.value].parent == Some(s))
    && (forall j :: 0 <= j < |st.transitions| ==>
          var to := st.transitions[j].toState;
          to.Some? && to.value < |tb.states| && to.value != tb.global)
  }

  /** The states form a tree rooted in the global state, of depth at most n. */
  ghost predicate Tree(tb: Table) {
    && tb.global < |tb.states|
    && tb.states[tb.global].parent == None
    && tb.states[tb.global].initial.Some?
    && tb.states[tb.global].transitions == []
    && (forall s: nat :: s < |tb.states| ==> Reaches(tb, s, tb.n))
    && (forall s: nat :: s < |tb.states| ==> GoodPointers(tb, s))
  }

  // ----- Lemmas about lookup and the ids

  lemma LookupFinds(t: seq<State>, id: byte, i: nat)
    requires DistinctIds(t) && i < |t| && t[i].id == id
    ensures Lookup(t, id) == Some(i)
  {
  }

  /** Looking up only reads the ids. */
  lemma {:induction false} LookupSameIds(t: seq<State>, u: seq<State>, id: byte)
    requires |t| == |u| && forall i :: 0 <= i < |t| ==> t[i].id == u[i].id
    ensures Lookup(t, id) == Lookup(u, id)
  {
    if t != [] {
      LookupSameIds(t[1..], u[1..], id);
    }
  }

  /** One step of the bounded walk towards the global state keeps what remains to be decided. */
  lemma NestedWithinStep(t: seq<State>, s: nat, p: nat, g: nat, k: nat)
    requires DistinctIds(t) && s != g && ParentById(t, s, p)
    ensures NestedWithin(t, s, g, k) <==> k > 0 && NestedWithin(t, p, g, k - 1)
  {
  }

  /** A state other than the global one that is nested within any bound names an existing parent. */
  lemma NestedHasParent(t: seq<State>, s: nat, g: nat, k: nat) returns (p: nat)
    requires DistinctIds(t) && s < |t| && s != g && NestedWithin(t, s, g, k)
    ensures ParentById(t, s, p) && Resolve(t, t[s].parentId) == Some(p)
  {
    p :| ParentById(t, s, p) && NestedWithin(t, p, g, k - 1);
    LookupFinds(t, t[s].parentId, p);
  }

  // ----- What an accepted table gives

  lemma {:induction false} NestedReaches(t: seq<State>, s: nat, g: nat, n: nat, k: nat)
    requires DistinctIds(t) && g < |t| && s < |t| && NestedWithin(t, s, g, k)
    ensures Reaches(Table(Link(t), g, n), s, k)
    decreases k
  {
    if s != g {
      var p := NestedHasParent(t, s, g, k);
      NestedWithinStep(t, s, p, g, k);
      NestedReaches(t, p, g, n, k - 1);
    }
  }

  lemma {:induction false} ReachesNested(t: seq<State>, s: nat, g: nat, n: nat, k: nat)
    requires Reaches(Table(Link(t), g, n), s, k)
    ensures NestedWithin(t, s, g, k)
    decreases k
  {
    if s != g {
      var p := Link(t)[s].parent.value;
      ReachesNested(t, p, g, n, k - 1);
      assert ParentById(t, s, p);
    }
  }

  /** The linked pointers of an accepted table form a tree of depth at most n. */
  lemma AcceptedIsTree(t: seq<State>, g: nat, n: nat)
    requires DistinctIds(t) && AcceptableWith(t, g, n)
    ensures Tree(Table(Link(t), g, n))
  {
    var tb := Table(Link(t), g, n);
    assert InitialOk(t, g);
    forall s: nat | s < |t|
      ensures Reaches(tb, s, n) && GoodPointers(tb, s)
    {
      NestedReaches(t, s, g, n, n);
      assert InitialOk(t, s) && TargetsOk(t, g, s);
      if t[s].initialId != NULL_STATE_ID {
        var c: nat :| c < |t| && t[c].id == t[s].initialId && ParentById(t, c, s);
        LookupFinds(t, t[s].initialId, c);
        LookupFinds(t, t[c].parentId, s);
      }
      forall j | 0 <= j < |t[s].transitions|
        ensures var to := tb.states[s].transitions[j].toState; to.Some? && to.value < |t| && to.value != g
      {
        assert TargetOk(t, g, t[s].transitions[j].toStateId);
        var d: nat :| d < |t| && t[d].id == t[s].transitions[j].toStateId && d != g;
        LookupFinds(t, t[s].transitions[j].toStateId, d);
      }
    }
    var c: nat :| c < |t| && t[c].id == t[g].initialId && ParentById(t, c, g);
    LookupFinds(t, t[g].initialId, c);
  }

  /** Conversely, resolved pointers that form a tree come from an acceptable table. */
  lemma TreeWasAccepted(t: seq<State>, g: nat, n: nat)
    requires DistinctIds(t) && Tree(Table(Link(t), g, n))
    requires forall s: nat :: s < |t| ==> IdsResolve(t, s)
    ensures AcceptableWith(t, g, n)
  {
    var tb := Table(Link(t), g, n);
    forall i | IsGlobal(t, i)
      ensures i == g
    {
      assert Reaches(tb, i, n);
    }
    assert IdsResolve(t, g);
    forall s: nat | s < |t|
      ensures InitialOk(t, s) && NestedWithin(t, s, g, n) && TargetsOk(t, g, s)
    {
      assert IdsResolve(t, s) && Reaches(tb, s, n) && GoodPointers(tb, s);
      ReachesNested(t, s, g, n, n);
      if t[s].initialId != NULL_STATE_ID {
        var c := tb.states[s].initial.value;
        assert ParentById(t, c, s);
      }
      forall j | 0 <= j < |t[s].transitions|
        ensures TargetOk(t, g, t[s].transitions[j].toStateId)
      {
        var d := tb.states[s].transitions[j].toState.value;
        assert t[d].id == t[s].transitions[j].toStateId;
      }
    }
  }

  /**
   With distinct ids, the constraints of the header hold if and only if every id resolves and the
   cached pointers form a tree rooted in the global state, no deeper than the nesting bound.
   */
  lemma AcceptableIffTree(t: seq<State>, g: nat, n: nat)
    requires DistinctIds(t)
    ensures AcceptableWith(t, g, n) <==>
              Tree(Table(Link(t), g, n)) && forall s: nat :: s < |t| ==> IdsResolve(t, s)
  {
    if AcceptableWith(t, g, n) {
      AcceptedIsTree(t, g, n);
      forall s: nat | s < |t|
        ensures IdsResolve(t, s)
      {
        AcceptedResolves(t, g, n, s);
      }
    }
    if Tree(Table(Link(t), g, n)) && forall s: nat :: s < |t| ==> IdsResolve(t, s) {
      TreeWasAccepted(t, g, n);
    }
  }

  lemma AcceptedResolves(t: seq<State>, g: nat, n: nat, s: nat)
    requires DistinctIds(t) && AcceptableWith(t, g, n) && s < |t|
    ensures IdsResolve(t, s)
  {
    assert InitialOk(t, s) && NestedWithin(t, s, g, n);
    if s != g {
      var p := NestedHasParent(t, s, g, n);
    }
  }

  /**
   The header also forbids the id NULL_STATE_ID, but nothing checks it: this table has a state with
   that id and meets every constraint that is checked.
   */
  lemma ZeroIdIsAccepted() returns (t: seq<State>)
    ensures Acceptable(t, 3) && exists i :: 0 <= i < |t| && t[i].id == NULL_STATE_ID
  {
    var blank := State(1, 0, 0, 0, None, None, 0, [], None, None);
    t := [blank.(initialId := 2), blank.(id := 2, parentId := 1), blank.(id := 0, parentId := 1)];
    assert ParentById(t, 1, 0) && ParentById(t, 2, 0);
    assert NestedWithin(t, 0, 0, 2);
    assert forall s: nat :: s < |t| ==> InitialOk(t, s) && NestedWithin(t, s, 0, 3) && TargetsOk(t, 0, s);
    assert AcceptableWith(t, 0, 3);
    assert t[2].id == NULL_STATE_ID;
  }
}
