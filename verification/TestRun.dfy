/**
 What a test run does, step by step: which application code it calls and which octets it offers to the
 sink, in one sequence. The script of a run says what happens as long as the sink accepts; cutting it
 at the first refused octet gives what happens for a given sink.
 */
module TestRun {
  import opened Words
  import opened ReportFormat

  // ----- Application code

  /**
   Group actions and test cases, over everything outside the test runner that they read and write. An
   action returns whether it succeeded, a test case 0, a positive or a negative number.
   */
  datatype Env<!W> = Env(action: (W, nat) -> (W, bool), testCase: (W, nat) -> (W, int8))

  /** A group as registered: handles of its actions, if any, and of its test cases. */
  datatype GroupDef = GroupDef(id: bv32, entry: Option<nat>, exit: Option<nat>, cases: seq<nat>)

  /** The code asserts at least one test case and counts failures in an int32_t. */
  predicate Runnable(def: GroupDef) {
    0 < |def.cases| < 0x8000_0000
  }

  /**
   Runs test cases up to the first fatal one: the world they leave, and what each returned. Those that
   are not run are listed with 0.
   */
  function PlayCases<W>(env: Env<W>, w: W, cases: seq<nat>): (r: (W, seq<int8>))
    ensures |r.1| == |cases|
  {
    if cases == [] then (w, [])
    else
      var k := |cases| - 1;
      var before := PlayCases(env, w, cases[..k]);
      if Stopped(before.1) then (before.0, before.1 + [0])
      else
        var called := env.testCase(before.0, cases[k]);
        (called.0, before.1 + [called.1])
  }

  /** Runs an action unless its pointer is NULL, which counts as success. */
  function PlayAction<W>(env: Env<W>, w: W, action: Option<nat>): (W, bool) {
    if action.Some? then env.action(w, action.value) else (w, true)
  }

  /** The result of an action that the group has. */
  function Outcome(action: Option<nat>, ok: bool): Option<bool> {
    if action.Some? then Some(ok) else None
  }

  /** Runs a group: the world it leaves, and how it went. What is not run is listed with success. */
  function Play<W>(env: Env<W>, w: W, def: GroupDef): (r: (W, Group))
    ensures r.1.id == def.id && |r.1.outcomes| == |def.cases|
    ensures (r.1.entry.Some? <==> def.entry.Some?) && (r.1.exit.Some? <==> def.exit.Some?)
  {
    var entered := PlayAction(env, w, def.entry);
    if !entered.1 then
      (entered.0, Group(def.id, Outcome(def.entry, false), Outcome(def.exit, true), Passes(|def.cases|)))
    else
      var played := PlayCases(env, entered.0, def.cases);
      var left := PlayAction(env, played.0, def.exit);
      (left.0, Group(def.id, Outcome(def.entry, true), Outcome(def.exit, left.1), played.1))
  }

  /** Where the results of the actions come from, and in which world what is run. */
  lemma PlayIs<W>(env: Env<W>, w: W, def: GroupDef)
    ensures var (w', g) := Play(env, w, def);
            var w1 := if def.entry.Some? then env.action(w, def.entry.value).0 else w;
            var w2 := PlayCases(env, w1, def.cases).0;
            && g.entry == (if def.entry.Some? then Some(env.action(w, def.entry.value).1) else None)
            && (g.entry == Some(false) ==> w' == w1)
            && (g.entry != Some(false) ==>
                  && g.outcomes == PlayCases(env, w1, def.cases).1
                  && g.exit == (if def.exit.Some? then Some(env.action(w2, def.exit.value).1) else None)
                  && w' == if def.exit.Some? then env.action(w2, def.exit.value).0 else w2)
  {
  }

  function Passes(n: nat): (outcomes: seq<int8>)
    ensures |outcomes| == n
  {
    if n == 0 then [] else Passes(n - 1) + [0]
  }

  /** How the groups go, one after the other. */
  function PlayAll<W>(env: Env<W>, w: W, defs: seq<GroupDef>): (gs: seq<Group>)
    ensures |gs| == |defs|
    ensures forall i :: 0 <= i < |gs| ==> gs[i].id == defs[i].id && |gs[i].outcomes| == |defs[i].cases|
  {
    if defs == [] then []
    else
      var r := Play(env, w, defs[0]);
      [r.1] + PlayAll(env, r.0, defs[1..])
  }

  predicate Picks(selection: seq<bv32>, id: bv32) {
    selection == [] || id in selection
  }

  /** The selected groups in registration order. */
  function Selected(defs: seq<GroupDef>, selection: seq<bv32>): seq<GroupDef> {
    if defs == [] then []
    else (if Picks(selection, defs[0].id) then [defs[0]] else []) + Selected(defs[1..], selection)
  }

  /** An empty selection picks every group. */
  lemma {:induction false} AllSelected(defs: seq<GroupDef>)
    ensures Selected(defs, []) == defs
  {
    if defs != [] {
      AllSelected(defs[1..]);
    }
  }

  // ----- Octets and return values

  /** The octets of one group; a failing action cuts them short. */
  function GroupOffer(g: Group): seq<byte> {
    GroupHeader(g.id) +
    if g.entry == Some(false) then []
    else Pack(Verdicts(g.outcomes)) + if g.exit == Some(false) then [] else [EXIT_GROUP]
  }

  /** The group's return value if every octet is accepted. */
  function GroupResult(g: Group): int {
    if g.entry == Some(false) then -2 else if g.exit == Some(false) then -3 else Count(Verdicts(g.outcomes))
  }

  /** The octets after the magic number; the first failing action ends them. */
  function RunOffer(gs: seq<Group>): seq<byte> {
    if gs == [] then [END_OF_FILE]
    else GroupOffer(gs[0]) + if GroupResult(gs[0]) < 0 then [] else RunOffer(gs[1..])
  }

  /** The run's return value if every octet is accepted: the last group's, or the first failing one's. */
  function RunResult(gs: seq<Group>, last: int): int {
    if gs == [] then last
    else if GroupResult(gs[0]) < 0 then GroupResult(gs[0])
    else RunResult(gs[1..], GroupResult(gs[0]))
  }

  // ----- Effects and scripts

  /** Something observable that happened during a run. */
  datatype Effect =
    | Offered(octet: byte, accepted: bool)
    | RanAction(action: nat)
    | RanCase(testCase: nat)

  /** What an octet is for. Results carries how many test cases the octet stands for. */
  datatype Role = Magic | Marker(id: bv32) | IdPart | Results(cases: nat) | GroupEnd | FileEnd

  datatype Item =
    | Octet(value: byte, role: Role)
    | Action(action: nat)
    | Case(testCase: nat)

  /**
   A sink: whether it accepts the i-th octet it is offered. Whatever else its answers depend on, in one
   run they are some such sequence.
   */
  type Sink = nat -> bool

  /**
   The octets that the code is still to offer after this one was refused, until another one is refused:
   after a group marker those of the id, after a complete result octet in the loop that same octet.
   */
  function Again(value: byte, role: Role): seq<byte> {
    match role
    case Marker(id) => BigEndian(id)
    case Results(cases) => if cases == 8 then [value] else []
    case _ => []
  }

  /** Octets offered one after the other up to the first refused one; `at` octets were offered before. */
  function Tried(sink: Sink, at: nat, octets: seq<byte>): seq<Effect>
    decreases octets
  {
    if octets == [] then []
    else [Offered(octets[0], sink(at))] + if sink(at) then Tried(sink, at + 1, octets[1..]) else []
  }

  /** An octet is refused. */
  function Refusal(sink: Sink, at: nat, value: byte, role: Role): seq<Effect> {
    [Offered(value, false)] + Tried(sink, at + 1, Again(value, role))
  }

  /** What happens when a script meets a sink that was offered `at` octets before. */
  function Happened(sink: Sink, at: nat, script: seq<Item>): seq<Effect>
    decreases script
  {
    if script == [] then []
    else match script[0]
      case Action(a) => [RanAction(a)] + Happened(sink, at, script[1..])
      case Case(c) => [RanCase(c)] + Happened(sink, at, script[1..])
      case Octet(value, role) =>
        if sink(at) then [Offered(value, true)] + Happened(sink, at + 1, script[1..])
        else Refusal(sink, at, value, role)
  }

  /** The octets of a script. */
  function Values(script: seq<Item>): seq<byte> {
    if script == [] then [] else ValueOf(script[0]) + Values(script[1..])
  }

  function ValueOf(item: Item): seq<byte> {
    if item.Octet? then [item.value] else []
  }

  /** The sink accepts the next n octets. */
  predicate Accepts(sink: Sink, at: nat, n: nat) {
    forall i: nat :: at <= i < at + n ==> sink(i)
  }

  /** The sink accepts all octets of a script. */
  predicate Fits(sink: Sink, at: nat, script: seq<Item>) {
    Accepts(sink, at, |Values(script)|)
  }

  lemma {:induction false} ValuesConcat(a: seq<Item>, b: seq<Item>)
    ensures Values(a + b) == Values(a) + Values(b)
  {
    hide ValueOf;
    if a == [] {
      assert a + b == b;
    } else {
      calc {
        Values(a + b);
        { assert (a + b)[1..] == a[1..] + b; }
        ValueOf(a[0]) + Values(a[1..] + b);
        { ValuesConcat(a[1..], b); }
        ValueOf(a[0]) + (Values(a[1..]) + Values(b));
        ValueOf(a[0]) + Values(a[1..]) + Values(b);
      }
    }
  }

  /** What an item does if it is not an octet that is refused. */
  function EffectOf(item: Item): Effect {
    match item
    case Octet(value, _) => Offered(value, true)
    case Action(a) => RanAction(a)
    case Case(c) => RanCase(c)
  }

  /** How many octets an item is. */
  function Width(item: Item): nat {
    if item.Octet? then 1 else 0
  }

  lemma FirstHappens(sink: Sink, at: nat, script: seq<Item>)
    requires script != []
    ensures Happened(sink, at, script)
         == if script[0].Octet? && !sink(at) then Refusal(sink, at, script[0].value, script[0].role)
            else [EffectOf(script[0])] + Happened(sink, at + Width(script[0]), script[1..])
    ensures |Values(script)| == Width(script[0]) + |Values(script[1..])|
    ensures Fits(sink, at, script) <==>
              (script[0].Octet? ==> sink(at)) && Fits(sink, at + Width(script[0]), script[1..])
  {
    hide Refusal;
  }

  lemma NothingHappens(sink: Sink, at: nat)
    ensures Happened(sink, at, []) == [] && Values([]) == [] && Fits(sink, at, [])
  {
  }

  lemma FitsConcat(sink: Sink, at: nat, a: seq<Item>, b: seq<Item>)
    ensures Values(a + b) == Values(a) + Values(b)
    ensures Fits(sink, at, a + b) <==> Fits(sink, at, a) && Fits(sink, at + |Values(a)|, b)
  {
    hide Values;
    ValuesConcat(a, b);
  }

  lemma {:induction false} GoesOn(sink: Sink, at: nat, a: seq<Item>, b: seq<Item>)
    requires Fits(sink, at, a)
    ensures Happened(sink, at, a + b) == Happened(sink, at, a) + Happened(sink, at + |Values(a)|, b)
    decreases a
  {
    hide Refusal, Happened, Values, Fits, EffectOf, Width, Accepts;
    NothingHappens(sink, at);
    if a == [] {
      assert a + b == b;
    } else {
      var at' := at + Width(a[0]);
      FirstHappens(sink, at, a);
      GoesOn(sink, at', a[1..], b);
      var first, x, y := [EffectOf(a[0])], Happened(sink, at', a[1..]), Happened(sink, at + |Values(a)|, b);
      assert (a + b)[0] == a[0] && (a + b)[1..] == a[1..] + b;
      calc {
        Happened(sink, at, a + b);
        { FirstHappens(sink, at, a + b); }
        first + Happened(sink, at', a[1..] + b);
        first + (x + y);
        first + x + y;
        Happened(sink, at, a) + y;
      }
    }
  }

  lemma {:induction false} Ends(sink: Sink, at: nat, a: seq<Item>, b: seq<Item>)
    requires !Fits(sink, at, a)
    ensures Happened(sink, at, a + b) == Happened(sink, at, a)
    decreases a
  {
    hide Refusal, Happened, Values, Fits;
    NothingHappens(sink, at);
    FirstHappens(sink, at, a);
    FirstHappens(sink, at, a + b);
    assert (a + b)[1..] == a[1..] + b;
    if a[0].Octet? ==> sink(at) {
      Ends(sink, at + Width(a[0]), a[1..], b);
    }
  }

  /** A script goes on only if all octets so far were accepted. */
  lemma HappenedConcat(sink: Sink, at: nat, a: seq<Item>, b: seq<Item>)
    ensures Values(a + b) == Values(a) + Values(b)
    ensures Fits(sink, at, a) ==>
              && Happened(sink, at, a + b) == Happened(sink, at, a) + Happened(sink, at + |Values(a)|, b)
              && (Fits(sink, at, a + b) <==> Fits(sink, at + |Values(a)|, b))
    ensures !Fits(sink, at, a) ==> Happened(sink, at, a + b) == Happened(sink, at, a) && !Fits(sink, at, a + b)
  {
    hide Happened, Values, Fits;
    FitsConcat(sink, at, a, b);
    if Fits(sink, at, a) {
      GoesOn(sink, at, a, b);
    } else {
      Ends(sink, at, a, b);
    }
  }

  // ----- The scripts of the code

  const MAGIC: seq<Item> := [Octet(0x52, Magic), Octet(0x54, Magic), Octet(0x54, Magic), Octet(0x61, Magic)]

  function HeaderScript(id: bv32): (s: seq<Item>)
    ensures |s| == 5
  {
    [Octet(ENTER_GROUP, Marker(id)), Octet(IdOctet(id, 0), IdPart), Octet(IdOctet(id, 1), IdPart),
     Octet(IdOctet(id, 2), IdPart), Octet(IdOctet(id, 3), IdPart)]
  }

  /** The first n test cases: each is run unless one before it was fatal; every eighth fills an octet. */
  function CasesUpTo(cases: seq<nat>, outcomes: seq<int8>, n: nat): seq<Item>
    requires n <= |cases| == |outcomes|
  {
    if n == 0 then []
    else
      CasesUpTo(cases, outcomes, n - 1)
      + (if Stopped(outcomes[..n - 1]) then [] else [Case(cases[n - 1])])
      + (if n % 8 == 0 then [Octet(Pack(Verdicts(outcomes))[n / 8 - 1], Results(8))] else [])
  }

  /** All test cases; an octet that is not full comes last. */
  function CasesScript(cases: seq<nat>, outcomes: seq<int8>): seq<Item>
    requires |cases| == |outcomes|
  {
    var n := |cases|;
    CasesUpTo(cases, outcomes, n)
    + if n % 8 == 0 then [] else [Octet(Pack(Verdicts(outcomes))[n / 8], Results(n % 8))]
  }

  function ActionScript(action: Option<nat>): seq<Item> {
    if action.Some? then [Action(action.value)] else []
  }

  function GroupScript(def: GroupDef, g: Group): seq<Item>
    requires |def.cases| == |g.outcomes|
  {
    HeaderScript(def.id) + ActionScript(def.entry) +
    if g.entry == Some(false) then []
    else
      CasesScript(def.cases, g.outcomes) + ActionScript(def.exit)
      + if g.exit == Some(false) then [] else [Octet(EXIT_GROUP, GroupEnd)]
  }

  /** Everything after the magic number. */
  function GroupsScript(defs: seq<GroupDef>, gs: seq<Group>): seq<Item>
    requires |defs| == |gs| && forall i :: 0 <= i < |gs| ==> |defs[i].cases| == |gs[i].outcomes|
  {
    if gs == [] then [Octet(END_OF_FILE, FileEnd)]
    else GroupScript(defs[0], gs[0]) + if GroupResult(gs[0]) < 0 then [] else GroupsScript(defs[1..], gs[1..])
  }

  function RunScript<W>(env: Env<W>, w: W, defs: seq<GroupDef>): seq<Item> {
    MAGIC + GroupsScript(defs, PlayAll(env, w, defs))
  }

  // ----- Octets of the scripts

  lemma {:induction false} OctetsOnly(script: seq<Item>)
    requires forall i :: 0 <= i < |script| ==> script[i].Octet?
    ensures |Values(script)| == |script|
    ensures forall i :: 0 <= i < |script| ==> Values(script)[i] == script[i].value
  {
    if script != [] {
      OctetsOnly(script[1..]);
    }
  }

  lemma MagicValues()
    ensures Values(MAGIC) == FOUR_CC
  {
    OctetsOnly(MAGIC);
  }

  lemma HeaderValues(id: bv32)
    ensures Values(HeaderScript(id)) == GroupHeader(id)
  {
    hide IdOctet;
    OctetsOnly(HeaderScript(id));
  }

  lemma OctetsSoFar(bits: seq<bool>, n: nat)
    requires 0 < n <= |bits|
    ensures n / 8 <= |Pack(bits)|
    ensures n % 8 != 0 ==> n / 8 == (n - 1) / 8
    ensures n % 8 == 0 ==>
              && n / 8 == (n - 1) / 8 + 1
              && Pack(bits)[..(n - 1) / 8] + [Pack(bits)[n / 8 - 1]] == Pack(bits)[..n / 8]
  {
  }

  lemma CallValues(cases: seq<nat>, k: nat, skipped: bool)
    requires k < |cases|
    ensures Values(if skipped then [] else [Case(cases[k])]) == []
  {
    assert [Case(cases[k])][1..] == [];
  }

  lemma {:induction false} CasesUpToValues(cases: seq<nat>, outcomes: seq<int8>, n: nat)
    requires n <= |cases| == |outcomes|
    ensures n / 8 <= |Pack(Verdicts(outcomes))|
    ensures Values(CasesUpTo(cases, outcomes, n)) == Pack(Verdicts(outcomes))[..n / 8]
    decreases n
  {
    hide Values, Pack, Verdicts, Stopped;
    EndValues();
    if n > 0 {
      CasesUpToValues(cases, outcomes, n - 1);
      OctetsSoFar(Verdicts(outcomes), n);
      var before := CasesUpTo(cases, outcomes, n - 1);
      var run := if Stopped(outcomes[..n - 1]) then [] else [Case(cases[n - 1])];
      CallValues(cases, n - 1, Stopped(outcomes[..n - 1]));
      ValuesConcat(before, run);
      if n % 8 == 0 {
        var fill := [Octet(Pack(Verdicts(outcomes))[n / 8 - 1], Results(8))];
        OctetsOnly(fill);
        ValuesConcat(before + run, fill);
      } else {
        assert before + run + [] == before + run;
      }
    }
  }

  lemma CasesValues(cases: seq<nat>, outcomes: seq<int8>)
    requires |cases| == |outcomes|
    ensures Values(CasesScript(cases, outcomes)) == Pack(Verdicts(outcomes))
  {
    hide Values, Verdicts, CasesUpTo;
    var n := |cases|;
    CasesUpToValues(cases, outcomes, n);
    var packed := Pack(Verdicts(outcomes));
    if n % 8 == 0 {
      assert CasesUpTo(cases, outcomes, n) + [] == CasesUpTo(cases, outcomes, n);
    } else {
      var last := [Octet(packed[n / 8], Results(n % 8))];
      OctetsOnly(last);
      ValuesConcat(CasesUpTo(cases, outcomes, n), last);
      assert packed[..n / 8] + [packed[n / 8]] == packed;
    }
  }

  lemma NoOctets(action: Option<nat>)
    ensures Values(ActionScript(action)) == []
  {
    if action.Some? {
      assert ActionScript(action)[1..] == [];
    }
  }

  lemma EndValues()
    ensures Values([]) == [] && Values([Octet(EXIT_GROUP, GroupEnd)]) == [EXIT_GROUP]
  {
    OctetsOnly([Octet(EXIT_GROUP, GroupEnd)]);
  }

  lemma GroupValues(def: GroupDef, g: Group)
    requires def.id == g.id && |def.cases| == |g.outcomes|
    ensures Values(GroupScript(def, g)) == GroupOffer(g)
  {
    hide HeaderScript, CasesScript, ActionScript, Pack, Verdicts, GroupHeader, Values;
    NoOctets(def.entry);
    NoOctets(def.exit);
    EndValues();
    HeaderValues(def.id);
    CasesValues(def.cases, g.outcomes);
    var end := if g.exit == Some(false) then [] else [Octet(EXIT_GROUP, GroupEnd)];
    var cases, exit := CasesScript(def.cases, g.outcomes), ActionScript(def.exit);
    ValuesConcat(HeaderScript(def.id), ActionScript(def.entry));
    ValuesConcat(cases, exit);
    ValuesConcat(cases + exit, end);
    ValuesConcat(HeaderScript(def.id) + ActionScript(def.entry),
                 if g.entry == Some(false) then [] else cases + exit + end);
  }

  /** The octets a script offers are those of the stream offered. */
  lemma {:induction false} GroupsValues(defs: seq<GroupDef>, gs: seq<Group>)
    requires |defs| == |gs|
    requires forall i :: 0 <= i < |gs| ==> defs[i].id == gs[i].id && |defs[i].cases| == |gs[i].outcomes|
    ensures Values(GroupsScript(defs, gs)) == RunOffer(gs)
  {
    hide GroupScript, GroupOffer;
    if gs != [] {
      GroupValues(defs[0], gs[0]);
      if GroupResult(gs[0]) >= 0 {
        GroupsValues(defs[1..], gs[1..]);
        ValuesConcat(GroupScript(defs[0], gs[0]), GroupsScript(defs[1..], gs[1..]));
      } else {
        assert GroupScript(defs[0], gs[0]) + [] == GroupScript(defs[0], gs[0]);
      }
    }
  }

  lemma RunValues<W>(env: Env<W>, w: W, defs: seq<GroupDef>)
    ensures Values(RunScript(env, w, defs)) == FOUR_CC + RunOffer(PlayAll(env, w, defs))
  {
    MagicValues();
    GroupsValues(defs, PlayAll(env, w, defs));
    ValuesConcat(MAGIC, GroupsScript(defs, PlayAll(env, w, defs)));
  }

  // ----- Reading a trace

  /** The octets accepted. */
  function AcceptedIn(trace: seq<Effect>): seq<byte> {
    if trace == [] then []
    else
      var k := |trace| - 1;
      AcceptedIn(trace[..k]) + if trace[k].Offered? && trace[k].accepted then [trace[k].octet] else []
  }

  /** The octets offered, accepted or not. */
  function OfferedIn(trace: seq<Effect>): seq<byte> {
    if trace == [] then []
    else
      var k := |trace| - 1;
      OfferedIn(trace[..k]) + if trace[k].Offered? then [trace[k].octet] else []
  }

  /** The application code called, in order. */
  function Calls(trace: seq<Effect>): seq<Effect> {
    if trace == [] then []
    else
      var k := |trace| - 1;
      Calls(trace[..k]) + if trace[k].Offered? then [] else [trace[k]]
  }

  /** The world that the application code called leaves behind. */
  function WorldAfter<W>(env: Env<W>, w: W, trace: seq<Effect>): W {
    if trace == [] then w
    else
      var k := |trace| - 1;
      var before := WorldAfter(env, w, trace[..k]);
      match trace[k]
      case Offered(_, _) => before
      case RanAction(a) => env.action(before, a).0
      case RanCase(c) => env.testCase(before, c).0
  }

  lemma {:induction false} AcceptedConcat(a: seq<Effect>, b: seq<Effect>)
    ensures AcceptedIn(a + b) == AcceptedIn(a) + AcceptedIn(b)
  {
    if b == [] {
      assert a + b == a;
    } else {
      AcceptedConcat(a, b[..|b| - 1]);
      assert (a + b)[..|a + b| - 1] == a + b[..|b| - 1];
    }
  }

  lemma {:induction false} OfferedConcat(a: seq<Effect>, b: seq<Effect>)
    ensures OfferedIn(a + b) == OfferedIn(a) + OfferedIn(b)
  {
    if b == [] {
      assert a + b == a;
    } else {
      OfferedConcat(a, b[..|b| - 1]);
      assert (a + b)[..|a + b| - 1] == a + b[..|b| - 1];
    }
  }

  lemma {:induction false} CallsConcat(a: seq<Effect>, b: seq<Effect>)
    ensures Calls(a + b) == Calls(a) + Calls(b)
  {
    if b == [] {
      assert a + b == a;
    } else {
      CallsConcat(a, b[..|b| - 1]);
      assert (a + b)[..|a + b| - 1] == a + b[..|b| - 1];
    }
  }

  /** A trace read in two parts. */
  lemma TraceConcat(a: seq<Effect>, b: seq<Effect>)
    ensures AcceptedIn(a + b) == AcceptedIn(a) + AcceptedIn(b)
    ensures OfferedIn(a + b) == OfferedIn(a) + OfferedIn(b)
    ensures Calls(a + b) == Calls(a) + Calls(b)
  {
    AcceptedConcat(a, b);
    OfferedConcat(a, b);
    CallsConcat(a, b);
  }

  /** Test cases listed with an outcome are those that were run. */
  lemma {:induction false} PlayPrefix<W>(env: Env<W>, w: W, cases: seq<nat>, n: nat)
    requires n <= |cases|
    ensures PlayCases(env, w, cases[..n]).1 == PlayCases(env, w, cases).1[..n]
    decreases |cases|
  {
    if n < |cases| {
      PlayPrefix(env, w, cases[..|cases| - 1], n);
      assert cases[..|cases| - 1][..n] == cases[..n];
    } else {
      assert cases[..n] == cases;
    }
  }

  /** One more test case. */
  lemma PlayStep<W>(env: Env<W>, w: W, cases: seq<nat>, i: nat)
    requires i < |cases|
    ensures var outcomes, before := PlayCases(env, w, cases).1, PlayCases(env, w, cases[..i]);
            && before.1 == outcomes[..i]
            && PlayCases(env, w, cases[..i + 1])
               == (if Stopped(outcomes[..i]) then (before.0, outcomes[..i + 1])
                   else (env.testCase(before.0, cases[i]).0, outcomes[..i + 1]))
            && (!Stopped(outcomes[..i]) ==> outcomes[i] == env.testCase(before.0, cases[i]).1)
            && (Stopped(outcomes[..i + 1]) <==> Stopped(outcomes[..i]) || outcomes[i] < 0)
            && (Stopped(outcomes[..i]) ==> outcomes[i] == 0)
  {
    PlayPrefix(env, w, cases, i);
    PlayPrefix(env, w, cases, i + 1);
    assert cases[..i + 1][..i] == cases[..i];
    var outcomes := PlayCases(env, w, cases).1;
    assert outcomes[..i + 1] == outcomes[..i] + [outcomes[i]];
    assert outcomes[..i + 1][i] == outcomes[i];
  }

  /** The script of the first test cases is the beginning of the whole script. */
  lemma {:induction false} CasesBegin(cases: seq<nat>, outcomes: seq<int8>, i: nat, n: nat)
    requires i <= n <= |cases| == |outcomes|
    ensures CasesUpTo(cases, outcomes, i) <= CasesUpTo(cases, outcomes, n)
    decreases n
  {
    if i < n {
      CasesBegin(cases, outcomes, i, n - 1);
    }
  }

  /** What RTTestRun returns for groups that go like this. */
  function ReturnValue(sink: Sink, at: nat, gs: seq<Group>): int {
    if Accepts(sink, at, |FOUR_CC + RunOffer(gs)|) then RunResult(gs, 0) else -1
  }

  // ----- Registration

  /** Registering groups with these ids, in order, never panics. */
  predicate Registers(ids: seq<bv32>) {
    || ids == []
    || var k := |ids| - 1;
       Registers(ids[..k]) && forall i :: 0 <= i < k - 1 ==> ids[i] != ids[k]
  }

  lemma RegistersNext(ids: seq<bv32>, k: nat)
    requires k < |ids|
    ensures Registers(ids[..k + 1]) <==> Registers(ids[..k]) && forall i :: 0 <= i < k - 1 ==> ids[i] != ids[k]
  {
    assert ids[..k + 1][..k] == ids[..k];
    assert forall i :: 0 <= i <= k ==> ids[..k + 1][i] == ids[i];
  }

  lemma {:induction false} RegistersPrefix(ids: seq<bv32>, k: nat)
    requires k <= |ids| && Registers(ids)
    ensures Registers(ids[..k])
    decreases |ids|
  {
    if k < |ids| {
      RegistersPrefix(ids[..|ids| - 1], k);
      assert ids[..|ids| - 1][..k] == ids[..k];
    } else {
      assert ids[..k] == ids;
    }
  }

  lemma NothingToRegister(ids: seq<bv32>)
    ensures Registers(ids[..0])
  {
  }

  lemma RefusedToRegister(ids: seq<bv32>, k: nat)
    requires k <= |ids| && !Registers(ids[..k])
    ensures !Registers(ids)
  {
    if Registers(ids) {
      RegistersPrefix(ids, k);
    }
  }
}
