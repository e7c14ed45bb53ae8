/**
 Root paths of a state tree: the states below the global one on the way to a state, outermost first.
 The nearest common parent of two states is where their root paths part.
 */
module HsmPaths {
  import opened Words
  import opened HsmTable

  // ----- Longest common prefix

  function Lcp(p: seq<nat>, q: seq<nat>): (m: nat)
    ensures m <= |p| && m <= |q| && p[..m] == q[..m]
    ensures m < |p| && m < |q| ==> p[m] != q[m]
  {
    if p != [] && q != [] && p[0] == q[0] then 1 + Lcp(p[1..], q[1..]) else 0
  }

  /** Any common prefix is no longer. */
  lemma LcpIsLongest(p: seq<nat>, q: seq<nat>, k: nat)
    requires k <= |p| && k <= |q| && p[..k] == q[..k]
    ensures k <= Lcp(p, q)
  {
  }

  // ----- Root paths

  function PathWithin(tb: Table, s: nat, k: nat): (p: seq<nat>)
    requires Reaches(tb, s, k)
    ensures |p| <= k
    ensures s == tb.global <==> p == []
    ensures s != tb.global ==> p[|p| - 1] == s
    decreases k
  {
    if s == tb.global then [] else PathWithin(tb, tb.states[s].parent.value, k - 1) + [s]
  }

  function RootPath(tb: Table, s: nat): (p: seq<nat>)
    requires Reaches(tb, s, tb.n)
    ensures |p| <= tb.n
    ensures s == tb.global <==> p == []
    ensures s != tb.global ==> p[|p| - 1] == s
  {
    PathWithin(tb, s, tb.n)
  }

  lemma {:induction false} PathWithinSame(tb: Table, s: nat, k: nat, l: nat)
    requires Reaches(tb, s, k) && Reaches(tb, s, l)
    ensures PathWithin(tb, s, k) == PathWithin(tb, s, l)
    decreases k
  {
    if s != tb.global {
      PathWithinSame(tb, tb.states[s].parent.value, k - 1, l - 1);
    }
  }

  /** The root path of a state extends its parent's by the state itself. */
  lemma RootPathUp(tb: Table, s: nat)
    requires Tree(tb) && s < |tb.states| && s != tb.global
    ensures tb.states[s].parent.Some? && tb.states[s].parent.value < |tb.states|
    ensures Reaches(tb, s, tb.n) && Reaches(tb, tb.states[s].parent.value, tb.n)
    ensures RootPath(tb, s) == RootPath(tb, tb.states[s].parent.value) + [s]
  {
    assert Reaches(tb, s, tb.n);
    var p := tb.states[s].parent.value;
    assert Reaches(tb, p, tb.n - 1) && Reaches(tb, p, tb.n);
    PathWithinSame(tb, p, tb.n - 1, tb.n);
  }

  /** The parent of the i-th state of a path, or the global state for the outermost one. */
  function Above(tb: Table, p: seq<nat>, i: nat): nat
    requires i <= |p|
  {
    if i == 0 then tb.global else p[i - 1]
  }

  /** Every state on a root path is a proper state whose own root path is the path up to it. */
  lemma {:induction false} PathPrefix(tb: Table, s: nat, i: nat)
    requires Tree(tb) && s < |tb.states|
    requires Reaches(tb, s, tb.n) && i < |RootPath(tb, s)|
    ensures var a := RootPath(tb, s)[i];
            && a < |tb.states| && a != tb.global && Reaches(tb, a, tb.n)
            && RootPath(tb, a) == RootPath(tb, s)[..i + 1]
            && tb.states[a].parent == Some(Above(tb, RootPath(tb, s), i))
    decreases |RootPath(tb, s)|
  {
    RootPathUp(tb, s);
    var p := tb.states[s].parent.value;
    if i == |RootPath(tb, s)| - 1 {
      assert RootPath(tb, s)[..i + 1] == RootPath(tb, s);
      if i > 0 {
        assert RootPath(tb, p)[i - 1] == p;
      }
    } else {
      PathPrefix(tb, p, i);
      assert RootPath(tb, s)[..i + 1] == RootPath(tb, p)[..i + 1];
    }
  }

  predicate InTable(tb: Table, p: seq<nat>) {
    forall i :: 0 <= i < |p| ==> p[i] < |tb.states|
  }

  lemma PathInTable(tb: Table, s: nat)
    requires Tree(tb) && s < |tb.states| && Reaches(tb, s, tb.n)
    ensures InTable(tb, RootPath(tb, s))
  {
    forall i | 0 <= i < |RootPath(tb, s)|
      ensures RootPath(tb, s)[i] < |tb.states|
    {
      PathPrefix(tb, s, i);
    }
  }

  /** A state on a root path is a proper state whose parent is the one before it on the path. */
  lemma OnPath(tb: Table, s: nat, p: seq<nat>, i: nat)
    requires Tree(tb) && s < |tb.states| && Reaches(tb, s, tb.n)
    requires p == RootPath(tb, s) && i < |p|
    ensures p[i] < |tb.states| && p[i] != tb.global && tb.states[p[i]].parent == Some(Above(tb, p, i))
  {
    PathPrefix(tb, s, i);
  }

  /** No state occurs twice on a root path. */
  lemma PathDistinct(tb: Table, s: nat)
    requires Tree(tb) && s < |tb.states| && Reaches(tb, s, tb.n)
    ensures forall i, j :: 0 <= i < j < |RootPath(tb, s)| ==> RootPath(tb, s)[i] != RootPath(tb, s)[j]
  {
    var p := RootPath(tb, s);
    forall i, j | 0 <= i < j < |p|
      ensures p[i] != p[j]
    {
      PathPrefix(tb, s, i);
      PathPrefix(tb, s, j);
      assert |p[..i + 1]| != |p[..j + 1]|;
    }
  }

  /** A state on the path to d is also on the path to s exactly when it is within the common prefix. */
  lemma SharedAncestor(tb: Table, s: nat, d: nat, j: nat)
    requires Tree(tb) && s < |tb.states| && d < |tb.states|
    requires Reaches(tb, s, tb.n) && Reaches(tb, d, tb.n)
    requires j < |RootPath(tb, d)|
    ensures RootPath(tb, d)[j] in RootPath(tb, s) <==> j < Lcp(RootPath(tb, s), RootPath(tb, d))
    ensures RootPath(tb, d)[j] != tb.global
  {
    var p, q := RootPath(tb, s), RootPath(tb, d);
    PathPrefix(tb, d, j);
    if j < Lcp(p, q) {
      assert p[j] == p[..Lcp(p, q)][j] == q[..Lcp(p, q)][j] == q[j];
    }
    if q[j] in p {
      var i :| 0 <= i < |p| && p[i] == q[j];
      PathPrefix(tb, s, i);
      assert |p[..i + 1]| == |q[..j + 1]|;
      LcpIsLongest(p, q, j + 1);
    }
  }

  // ----- The initial chain

  /** An initial sub-state is one level deeper than its owner. */
  lemma InitialDeeper(tb: Table, s: nat)
    requires Tree(tb) && s < |tb.states| && tb.states[s].initial.Some?
    ensures var c := tb.states[s].initial.value;
            && c < |tb.states| && c != tb.global && tb.states[c].parent == Some(s)
            && Reaches(tb, s, tb.n) && Reaches(tb, c, tb.n)
            && RootPath(tb, c) == RootPath(tb, s) + [c]
            && |RootPath(tb, s)| < tb.n
  {
    assert GoodPointers(tb, s);
    var c := tb.states[s].initial.value;
    RootPathUp(tb, c);
    assert |RootPath(tb, c)| <= tb.n;
  }

  /** The states entered below s by following initial sub-states, outermost first. */
  ghost function Chain(tb: Table, s: nat): (c: seq<nat>)
    requires Tree(tb) && s < |tb.states| && Reaches(tb, s, tb.n)
    decreases tb.n - |RootPath(tb, s)|
  {
    if tb.states[s].initial.None? then []
    else
      InitialDeeper(tb, s);
      [tb.states[s].initial.value] + Chain(tb, tb.states[s].initial.value)
  }

  /** Where the initial chain of s ends. */
  ghost function Leaf(tb: Table, s: nat): nat
    requires Tree(tb) && s < |tb.states| && Reaches(tb, s, tb.n)
  {
    var c := Chain(tb, s);
    if c == [] then s else c[|c| - 1]
  }

  /** A state of the machine with no initial sub-state. */
  predicate Settled(tb: Table, s: nat) {
    s < |tb.states| && s != tb.global && tb.states[s].initial.None?
  }

  /** The chain continues the root path and ends in a state without an initial sub-state. */
  lemma {:induction false} ChainExtendsPath(tb: Table, s: nat)
    requires Tree(tb) && s < |tb.states| && Reaches(tb, s, tb.n)
    ensures var l := Leaf(tb, s);
            && Settled(tb, l) && Reaches(tb, l, tb.n)
            && RootPath(tb, l) == RootPath(tb, s) + Chain(tb, s)
    decreases tb.n - |RootPath(tb, s)|
  {
    if tb.states[s].initial.Some? {
      InitialDeeper(tb, s);
      var c := tb.states[s].initial.value;
      ChainExtendsPath(tb, c);
      assert Leaf(tb, c) == Leaf(tb, s);
      assert RootPath(tb, s) + [c] + Chain(tb, c) == RootPath(tb, s) + Chain(tb, s);
    }
  }

  /** Each state of the chain is the initial sub-state of the one before, the last one has none. */
  lemma {:induction false} ChainIs(tb: Table, s: nat, i: nat)
    requires Tree(tb) && s < |tb.states| && Reaches(tb, s, tb.n) && i <= |Chain(tb, s)|
    ensures var chain := Chain(tb, s);
            var above := if i == 0 then s else chain[i - 1];
            && above < |tb.states|
            && tb.states[above].initial == if i < |chain| then Some(chain[i]) else None
    decreases i
  {
    if i > 0 {
      InitialDeeper(tb, s);
      ChainIs(tb, tb.states[s].initial.value, i - 1);
    }
  }
}
