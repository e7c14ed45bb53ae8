/**
 The test runner of src/rttest: groups registered in a linked list, run in that order, their results
 written octet by octet to a sink that may refuse any of them. Everything it does to the outside is
 recorded, and the record is proved to follow the script of the run.
 */
module RtTest {
  import opened Words
  import opened ReportFormat
  import opened TestRun

  // ----- The outside

  /**
   What the runner talks to: the application's actions and test cases with the world they work on, and
   the sink. The trace records every call and every octet offered, in order.
   */
  class Session<W> {
    const env: Env<W>
    const sink: Sink
    var world: W
    var offers: nat
    var out: seq<byte>
    ghost const start: W
    ghost var trace: seq<Effect>

    ghost predicate Valid()
      reads this
    {
      && out == AcceptedIn(trace)
      && offers == |OfferedIn(trace)|
      && world == WorldAfter(env, start, trace)
    }

    constructor (env: Env<W>, world: W, sink: Sink)
      ensures Valid() && trace == [] && out == [] && offers == 0
      ensures this.env == env && this.sink == sink && this.world == world && start == world
    {
      this.env, this.sink, this.world, this.start := env, sink, world, world;
      offers, out, trace := 0, [], [];
    }

    method WriteOctet(octet: byte) returns (ok: bool)
      requires Valid()
      modifies this
      ensures Valid() && world == old(world)
      ensures ok == sink(old(offers)) && offers == old(offers) + 1
      ensures trace == old(trace) + [Offered(octet, ok)]
    {
      ok := sink(offers);
      offers := offers + 1;
      if ok {
        out := out + [octet];
      }
      trace := trace + [Offered(octet, ok)];
    }

    method RunAction(action: nat) returns (ok: bool)
      requires Valid()
      modifies this
      ensures Valid() && (world, ok) == env.action(old(world), action)
      ensures trace == old(trace) + [RanAction(action)] && offers == old(offers)
    {
      var r := env.action(world, action);
      world, ok := r.0, r.1;
      trace := trace + [RanAction(action)];
    }

    method RunCase(testCase: nat) returns (result: int8)
      requires Valid()
      modifies this
      ensures Valid() && (world, result) == env.testCase(old(world), testCase)
      ensures trace == old(trace) + [RanCase(testCase)] && offers == old(offers)
    {
      var r := env.testCase(world, testCase);
      world, result := r.0, r.1;
      trace := trace + [RanCase(testCase)];
    }
  }

  // ----- Following a script

  /** A script followed since a given point. */
  datatype Progress = Progress(sink: Sink, at: nat, trace: seq<Effect>, script: seq<Item>) {
    function Then(items: seq<Item>): Progress {
      this.(script := script + items)
    }

    /** Nothing was refused so far. */
    predicate Smooth() {
      Fits(sink, at, script)
    }
  }

  /** What has happened is what the script says, up to the first refusal. */
  ghost predicate Follows<W>(s: Session<W>, p: Progress)
    reads s
  {
    && s.Valid() && s.sink == p.sink
    && s.trace == p.trace + Happened(p.sink, p.at, p.script)
    && (p.Smooth() ==> s.offers == p.at + |Values(p.script)|)
  }

  /** The same, except that after a refusal these octets are still to be offered. */
  ghost predicate Awaits<W>(s: Session<W>, p: Progress, octets: seq<byte>)
    reads s
  {
    && s.Valid() && s.sink == p.sink && !p.Smooth()
    && s.trace + Tried(s.sink, s.offers, octets) == p.trace + Happened(p.sink, p.at, p.script)
  }

  ghost function Here<W>(s: Session<W>): Progress
    reads s
  {
    Progress(s.sink, s.offers, s.trace, [])
  }

  lemma StartFollows<W>(s: Session<W>)
    requires s.Valid()
    ensures Follows(s, Here(s)) && Here(s).Smooth()
  {
  }

  /** After a refusal the rest of the script does not matter. */
  lemma RefusalDecides<W>(s: Session<W>, p: Progress, rest: seq<Item>)
    requires Follows(s, p) && !p.Smooth()
    ensures Follows(s, p.Then(rest)) && !p.Then(rest).Smooth()
  {
    HappenedConcat(p.sink, p.at, p.script, rest);
  }

  lemma AwaitsWhatever<W>(s: Session<W>, p: Progress, rest: seq<Item>, octets: seq<byte>)
    requires Awaits(s, p, octets)
    ensures Awaits(s, p.Then(rest), octets)
  {
    HappenedConcat(p.sink, p.at, p.script, rest);
  }

  lemma ThenThen(p: Progress, a: seq<Item>, b: seq<Item>)
    ensures p.Then(a).Then(b) == p.Then(a + b)
    ensures p.Then([]) == p
  {
    assert p.script + a + b == p.script + (a + b);
    assert p.script + [] == p.script;
  }

  lemma OneOctet(sink: Sink, at: nat, value: byte, role: Role)
    ensures Values([Octet(value, role)]) == [value]
    ensures Fits(sink, at, [Octet(value, role)]) <==> sink(at)
    ensures Happened(sink, at, [Octet(value, role)])
         == if sink(at) then [Offered(value, true)] else Refusal(sink, at, value, role)
  {
    assert [Octet(value, role)][1..] == [];
  }

  lemma OneCall(sink: Sink, at: nat, item: Item)
    requires !item.Octet?
    ensures Values([item]) == []
    ensures Happened(sink, at, [item]) == [if item.Action? then RanAction(item.action) else RanCase(item.testCase)]
  {
    assert [item][1..] == [];
  }

  /** Offers the next octet of the script, or after a refusal the first of the octets still to be offered. */
  method Offer<W>(s: Session<W>, value: byte, ghost role: Role, ghost p: Progress, ghost late: Option<seq<byte>>)
    returns (ok: bool)
    requires if late.Some? then Awaits(s, p, [value] + late.value) else Follows(s, p) && p.Smooth()
    modifies s
    ensures s.world == old(s.world)
    ensures late.None? ==> (ok <==> p.Then([Octet(value, role)]).Smooth())
    ensures late.None? && (ok || Again(value, role) == []) ==> Follows(s, p.Then([Octet(value, role)]))
    ensures late.None? && !ok ==> Awaits(s, p.Then([Octet(value, role)]), Again(value, role))
    ensures late.Some? && ok ==> Awaits(s, p, late.value)
    ensures late.Some? && (!ok || late.value == []) ==> Follows(s, p) && !p.Smooth()
  {
    hide Happened, Values, AcceptedIn, OfferedIn, WorldAfter, Tried, Accepts;
    ghost var item := Octet(value, role);
    HappenedConcat(p.sink, p.at, p.script, [item]);
    OneOctet(s.sink, s.offers, value, role);
    ok := s.WriteOctet(value);
    NothingTried(s.sink, s.offers);
    if late.Some? {
      TriedFirst(s.sink, old(s.offers), value, late.value);
    } else {
      assert p.trace + Happened(p.sink, p.at, p.script) + Happened(s.sink, old(s.offers), [item])
          == p.trace + Happened(p.sink, p.at, p.script + [item]);
    }
  }

  lemma TriedFirst(sink: Sink, at: nat, value: byte, later: seq<byte>)
    ensures Tried(sink, at, [value] + later)
         == [Offered(value, sink(at))] + if sink(at) then Tried(sink, at + 1, later) else []
  {
    assert ([value] + later)[1..] == later;
  }

  lemma NothingTried(sink: Sink, at: nat)
    ensures Tried(sink, at, []) == []
  {
  }

  /** With nothing left to be offered, the script has been followed. */
  lemma NothingAwaited<W>(s: Session<W>, p: Progress, octets: seq<byte>)
    requires Awaits(s, p, octets)
    ensures !p.Smooth() && (octets == [] ==> Follows(s, p))
  {
  }

  /** Runs an action unless its pointer is NULL. */
  method CallAction<W>(s: Session<W>, action: Option<nat>, ghost p: Progress) returns (ok: bool)
    requires Follows(s, p) && p.Smooth()
    modifies s
    ensures Follows(s, p.Then(ActionScript(action))) && p.Then(ActionScript(action)).Smooth()
    ensures (s.world, ok) == PlayAction(s.env, old(s.world), action)
  {
    hide Happened, Values, AcceptedIn, OfferedIn, WorldAfter;
    HappenedConcat(p.sink, p.at, p.script, ActionScript(action));
    ok := true;
    if action.Some? {
      OneCall(s.sink, s.offers, Action(action.value));
      ok := s.RunAction(action.value);
    } else {
      assert p.script + [] == p.script;
    }
  }

  method CallCase<W>(s: Session<W>, testCase: nat, ghost p: Progress) returns (result: int8)
    requires Follows(s, p) && p.Smooth()
    modifies s
    ensures Follows(s, p.Then([Case(testCase)])) && p.Then([Case(testCase)]).Smooth()
    ensures (s.world, result) == s.env.testCase(old(s.world), testCase)
  {
    hide AcceptedIn, OfferedIn, WorldAfter;
    HappenedConcat(p.sink, p.at, p.script, [Case(testCase)]);
    OneCall(s.sink, s.offers, Case(testCase));
    result := s.RunCase(testCase);
  }

  // ----- Running

  /** rttestIsIn */
  method IsIn(x: bv32, set': seq<bv32>) returns (found: bool)
    ensures found <==> Picks(set', x)
    ensures found <==> set' == [] || exists i :: 0 <= i < |set'| && set'[i] == x
  {
    found := true;
    if |set'| > 0 {
      found := false;
      var i := 0;
      while i < |set'| && !found
        invariant 0 <= i <= |set'|
        invariant found <==> x in set'[..i]
      {
        if x == set'[i] {
          found := true;
        }
        i := i + 1;
      }
      assert !found ==> set'[..i] == set';
    }
  }

  /** rttestWritePreamble */
  method WritePreamble<W>(s: Session<W>, ghost p: Progress) returns (ret: int32)
    requires Follows(s, p) && p.Smooth()
    modifies s
    ensures s.world == old(s.world)
    ensures Follows(s, p.Then(MAGIC)) && ret == if p.Then(MAGIC).Smooth() then 0 else -1
  {
    hide Follows, Awaits, Fits;
    ret := 0;
    var fourcc := FOUR_CC;
    var i := 0;
    ThenThen(p, [], []);
    assert MAGIC[..0] == [];
    while i < 4
      invariant 0 <= i <= 4 && ret == 0 && s.world == old(s.world)
      invariant Follows(s, p.Then(MAGIC[..i])) && p.Then(MAGIC[..i]).Smooth()
    {
      assert MAGIC[..i] + [Octet(fourcc[i], Magic)] == MAGIC[..i + 1];
      var ok := Offer(s, fourcc[i], Magic, p.Then(MAGIC[..i]), None);
      ThenThen(p, MAGIC[..i], [Octet(fourcc[i], Magic)]);
      if !ok {
        RefusalDecides(s, p.Then(MAGIC[..i + 1]), MAGIC[i + 1..]);
        ThenThen(p, MAGIC[..i + 1], MAGIC[i + 1..]);
        assert MAGIC[..i + 1] + MAGIC[i + 1..] == MAGIC;
        return -1;
      }
      i := i + 1;
    }
    assert MAGIC[..4] == MAGIC;
  }

  /** The results of the octet under construction after i test cases. */
  function Partial(bits: seq<bool>, i: nat): (c: seq<bool>)
    requires i <= |bits|
    ensures |c| == i % 8
  {
    bits[i - i % 8..i]
  }

  lemma NextInOctet(i: nat)
    ensures if (i + 1) % 8 == 0 then i % 8 == 7 && (i + 1) / 8 == i / 8 + 1
            else (i + 1) % 8 == i % 8 + 1 && (i + 1) / 8 == i / 8
  {
  }

  lemma OctetOfMore(bits: seq<bool>, bit: bool)
    requires |bits| < 8
    ensures PackOctet(bits + [bit]) == if bit then SetBit(PackOctet(bits), |bits|) else PackOctet(bits)
  {
  }

  /** One more result in the octet under construction. */
  lemma OctetGrows(bits: seq<bool>, i: nat)
    requires i < |bits|
    ensures var grown := if bits[i] then SetBit(PackOctet(Partial(bits, i)), i % 8) else PackOctet(Partial(bits, i));
            && ((i + 1) % 8 != 0 ==> PackOctet(Partial(bits, i + 1)) == grown)
            && ((i + 1) % 8 == 0 ==> i / 8 < |Pack(bits)| && Pack(bits)[i / 8] == grown && Partial(bits, i + 1) == [])
            && (i + 1) / 8 == i / 8 + (if (i + 1) % 8 == 0 then 1 else 0)
  {
    hide PackOctet;
    NextInOctet(i);
    var whole := Partial(bits, i) + [bits[i]];
    OctetOfMore(Partial(bits, i), bits[i]);
    if (i + 1) % 8 != 0 {
      assert Partial(bits, i + 1) == whole;
    } else {
      assert 8 * (i / 8) == i - i % 8 && 8 * (i / 8) + 8 == i + 1;
      assert Chunk(bits, i / 8) == whole;
    }
  }

  /** After the last test case, an unfinished octet is the last one of the packing. */
  lemma LastOctet(bits: seq<bool>)
    ensures if |bits| % 8 == 0 then Pack(bits)[..|bits| / 8] == Pack(bits)
            else |Pack(bits)| == |bits| / 8 + 1 && Pack(bits)[|bits| / 8] == PackOctet(Partial(bits, |bits|))
  {
  }

  lemma CountGrows(bits: seq<bool>, i: nat)
    requires i < |bits|
    ensures Count(bits[..i + 1]) == Count(bits[..i]) + (if bits[i] then 1 else 0)
    ensures Count(bits[..i + 1]) <= i + 1
  {
    assert bits[..i + 1][..i] == bits[..i];
  }

  /** One test case: run it unless an earlier one was fatal. */
  method RunTestCase<W>(s: Session<W>, cases: seq<nat>, i: uint32, asserted: bool, ghost w: W, ghost p: Progress)
    returns (failed: bool, asserted': bool)
    requires Follows(s, p) && p.Smooth() && i as int < |cases|
    requires s.world == PlayCases(s.env, w, cases[..i]).0
    requires asserted == Stopped(PlayCases(s.env, w, cases).1[..i])
    modifies s
    ensures var outcomes := PlayCases(s.env, w, cases).1;
            && failed == Verdicts(outcomes)[i] && asserted' == Stopped(outcomes[..i as int + 1])
    ensures s.world == PlayCases(s.env, w, cases[..i as int + 1]).0
    ensures var items := if asserted then [] else [Case(cases[i])];
            Follows(s, p.Then(items)) && p.Then(items).Smooth()
  {
    hide PlayCases, Follows;
    PlayStep(s.env, w, cases, i as nat);
    failed, asserted' := false, asserted;
    if asserted {
      ThenThen(p, [], []);
      failed := true;
    } else {
      var result := CallCase(s, cases[i], p);
      if result < 0 {
        failed, asserted' := true, true;
      } else if result > 0 {
        failed := true;
      }
    }
  }

  /** What RunTestCases has done after i test cases. */
  ghost predicate CasesDone<W>(s: Session<W>, cases: seq<nat>, i: nat, asserted: bool, w: W, p: Progress)
    requires i <= |cases|
    reads s
  {
    var outcomes := PlayCases(s.env, w, cases).1;
    var q := p.Then(CasesUpTo(cases, outcomes, i));
    && s.world == PlayCases(s.env, w, cases[..i]).0
    && asserted == Stopped(outcomes[..i])
    && Follows(s, q) && q.Smooth()
  }

  lemma CasesSoFar<W>(s: Session<W>, cases: seq<nat>, i: nat, asserted: bool, w: W, p: Progress)
    requires i <= |cases|
    ensures var outcomes := PlayCases(s.env, w, cases).1;
            var q := p.Then(CasesUpTo(cases, outcomes, i));
            CasesDone(s, cases, i, asserted, w, p) <==>
              && s.world == PlayCases(s.env, w, cases[..i]).0
              && asserted == Stopped(outcomes[..i])
              && Follows(s, q) && q.Smooth()
  {
  }

  lemma CasesStart<W>(s: Session<W>, cases: seq<nat>, p: Progress)
    requires Follows(s, p) && p.Smooth()
    ensures CasesDone(s, cases, 0, false, s.world, p)
  {
    ThenThen(p, [], []);
  }

  /** Unless it fills an octet, one more test case adds just its call, if it is run, to the script. */
  lemma CasesGrow(cases: seq<nat>, outcomes: seq<int8>, i: nat, p: Progress)
    requires i < |cases| == |outcomes|
    ensures var items := if Stopped(outcomes[..i]) then [] else [Case(cases[i])];
            var called := p.Then(CasesUpTo(cases, outcomes, i)).Then(items);
            && ((i + 1) % 8 != 0 ==> p.Then(CasesUpTo(cases, outcomes, i + 1)) == called)
            && ((i + 1) % 8 == 0 ==>
                  && i / 8 < |Pack(Verdicts(outcomes))|
                  && p.Then(CasesUpTo(cases, outcomes, i + 1))
                     == called.Then([Octet(Pack(Verdicts(outcomes))[i / 8], Results(8))]))
  {
    var items := if Stopped(outcomes[..i]) then [] else [Case(cases[i])];
    NextInOctet(i);
    ThenThen(p, CasesUpTo(cases, outcomes, i), items);
    if (i + 1) % 8 != 0 {
      assert CasesUpTo(cases, outcomes, i + 1) == CasesUpTo(cases, outcomes, i) + items;
    } else {
      ThenThen(p, CasesUpTo(cases, outcomes, i) + items, [Octet(Pack(Verdicts(outcomes))[i / 8], Results(8))]);
    }
  }

  /** The script after i test cases and what is left of the whole script. */
  lemma CasesRest(cases: seq<nat>, outcomes: seq<int8>, i: nat, p: Progress) returns (rest: seq<Item>)
    requires i <= |cases| == |outcomes|
    ensures p.Then(CasesUpTo(cases, outcomes, i)).Then(rest) == p.Then(CasesScript(cases, outcomes))
    ensures i == |cases| && i % 8 == 0 ==> rest == []
    ensures i == |cases| && i % 8 != 0 ==>
              && i / 8 < |Pack(Verdicts(outcomes))|
              && rest == [Octet(Pack(Verdicts(outcomes))[i / 8], Results(i % 8))]
  {
    var n := |cases|;
    CasesBegin(cases, outcomes, i, n);
    var done := CasesUpTo(cases, outcomes, i);
    rest := CasesScript(cases, outcomes)[|done|..];
    assert done + rest == CasesScript(cases, outcomes);
    ThenThen(p, done, rest);
  }

  /** One turn of the loop of rttestRunTestCases; after a refused octet the loop is left. */
  method RunNextCase<W>(s: Session<W>, cases: seq<nat>, i: uint32, asserted: bool, resultBits: byte, count: int32,
                        ghost w: W, ghost p: Progress)
    returns (ok: bool, asserted': bool, resultBits': byte, count': int32)
    requires i as int < |cases| < 0x8000_0000 && CasesDone(s, cases, i as nat, asserted, w, p)
    requires var bits := Verdicts(PlayCases(s.env, w, cases).1);
             count as int == Count(bits[..i]) && resultBits == PackOctet(Partial(bits, i as nat))
    modifies s
    ensures var outcomes := PlayCases(s.env, w, cases).1;
            var bits := Verdicts(outcomes);
            if ok then
              && CasesDone(s, cases, i as nat + 1, asserted', w, p)
              && count' as int == Count(bits[..i as nat + 1])
              && resultBits' == PackOctet(Partial(bits, i as nat + 1))
            else (i + 1) % 8 == 0 && Awaits(s, p.Then(CasesUpTo(cases, outcomes, i as nat + 1)), [resultBits'])
  {
    hide PackOctet, Pack, Count, Partial, Verdicts, CasesUpTo, PlayCases, Follows, Awaits, Fits, Happened, CasesDone;
    hide SetBit, Stopped;
    CasesSoFar(s, cases, i as nat, asserted, w, p);
    ghost var outcomes := PlayCases(s.env, w, cases).1;
    ghost var q := p.Then(CasesUpTo(cases, outcomes, i as nat));
    ghost var items := if asserted then [] else [Case(cases[i])];
    OctetGrows(Verdicts(outcomes), i as nat);
    CountGrows(Verdicts(outcomes), i as nat);
    CasesGrow(cases, outcomes, i as nat, p);
    ok, resultBits', count' := true, resultBits, count;
    var failed;
    failed, asserted' := RunTestCase(s, cases, i, asserted, w, q);
    if failed {
      resultBits' := SetBit(resultBits', (i % 8) as nat);
      count' := count' + 1;
    }
    if (i + 1) % 8 == 0 {
      ok := Offer(s, resultBits', Results(8), q.Then(items), None);
      if ok {
        resultBits' := 0;
        NoResultsYet(Verdicts(outcomes));
        EmptyPartial(Verdicts(outcomes), i as nat + 1);
      }
    }
    CasesSoFar(s, cases, i as nat + 1, asserted', w, p);
  }

  /** rttestRunTestCases */
  method RunTestCases<W>(s: Session<W>, def: GroupDef, ghost p: Progress) returns (ret: int32)
    requires Follows(s, p) && p.Smooth() && Runnable(def)
    modifies s
    ensures var outcomes := PlayCases(s.env, old(s.world), def.cases).1;
            var q := p.Then(CasesScript(def.cases, outcomes));
            && Follows(s, q)
            && ret as int == if q.Smooth() then Count(Verdicts(outcomes)) else -1
    ensures ret >= 0 ==> s.world == PlayCases(s.env, old(s.world), def.cases).0
  {
    hide PackOctet, Pack, Count, Partial, Verdicts, CasesUpTo, CasesScript, PlayCases, Follows, Awaits, Fits, Happened;
    ghost var w, outcomes := s.world, PlayCases(s.env, s.world, def.cases).1;
    ret := 0;
    var asserted, resultBits, i: uint32, ok := false, 0, 0, true;
    CasesStart(s, def.cases, p);
    NoResultsYet(Verdicts(outcomes));
    while i as int < |def.cases|
      invariant i as int <= |def.cases| && ok
      invariant CasesDone(s, def.cases, i as nat, asserted, w, p)
      invariant ret as int == Count(Verdicts(outcomes)[..i])
      invariant resultBits == PackOctet(Partial(Verdicts(outcomes), i as nat))
    {
      ok, asserted, resultBits, ret := RunNextCase(s, def.cases, i, asserted, resultBits, ret, w, p);
      if !ok {
        ret := -1;
        break;
      }
      i := i + 1;
    }
    ghost var done := p.Then(CasesUpTo(def.cases, outcomes, if ok then i as nat else i as nat + 1));
    ghost var rest := CasesRest(def.cases, outcomes, if ok then i as nat else i as nat + 1, p);
    if ok {
      LastOctet(Verdicts(outcomes));
      WholeRun(def.cases, Verdicts(outcomes));
      ThenThen(done, [], []);
    } else {
      AwaitsWhatever(s, done, rest, [resultBits]);
      NothingAwaited(s, done.Then(rest), [resultBits]);
    }
    if i % 8 != 0 {
      assert [resultBits] + [] == [resultBits];
      ghost var late := if ok then None else Some([]);
      var again := Offer(s, resultBits, Results(i as nat % 8), if ok then done else done.Then(rest), late);
      if !again {
        ret := -1;
      }
    }
  }

  lemma WholeRun(cases: seq<nat>, bits: seq<bool>)
    ensures cases[..|cases|] == cases && bits[..|bits|] == bits
  {
  }

  lemma EmptyPartial(bits: seq<bool>, i: nat)
    requires i <= |bits| && i % 8 == 0
    ensures Partial(bits, i) == Partial(bits, 0)
  {
  }

  lemma NoResultsYet(bits: seq<bool>)
    ensures PackOctet(Partial(bits, 0)) == 0 && Count(bits[..0]) == 0
  {
  }

  function Shifted(id: bv32, i: nat): bv32
    requires i <= 4
  {
    match i
    case 0 => id
    case 1 => id << 8
    case 2 => id << 16
    case 3 => id << 24
    case 4 => 0
  }

  lemma ShiftedOctet(id: bv32, i: nat)
    requires i < 4
    ensures IdOctet(id, i) == (Shifted(id, i) >> 24) as byte
    ensures Shifted(id, i) << 8 == Shifted(id, i + 1)
  {
    if i == 0 {
    } else if i == 1 {
    } else if i == 2 {
    } else {
      assert i == 3;
    }
  }

  lemma NotShifted(id: bv32)
    ensures Shifted(id, 0) == id
  {
  }

  lemma HeaderItem(id: bv32, i: nat)
    requires i < 4
    ensures HeaderScript(id)[1 + i] == Octet(IdOctet(id, i), IdPart)
  {
    hide IdOctet;
    assert i == 0 || i == 1 || i == 2 || i == 3;
  }

  lemma IdOctetIs(id: bv32, i: nat)
    requires i < 4
    ensures BigEndian(id)[i..] == [IdOctet(id, i)] + BigEndian(id)[i + 1..]
  {
    hide IdOctet;
    assert i == 0 || i == 1 || i == 2 || i == 3;
  }

  /** The big-endian id loop of rttestRunGroup; it runs even if the group marker was refused. */
  method WriteId<W>(s: Session<W>, groupId: bv32, ghost p: Progress, ghost refused: bool) returns (ok: bool)
    requires if refused then Awaits(s, p.Then(HeaderScript(groupId)), BigEndian(groupId))
             else Follows(s, p.Then(HeaderScript(groupId)[..1])) && p.Then(HeaderScript(groupId)[..1]).Smooth()
    modifies s
    ensures s.world == old(s.world)
    ensures Follows(s, p.Then(HeaderScript(groupId)))
    ensures refused ==> !p.Then(HeaderScript(groupId)).Smooth()
    ensures !refused ==> (ok <==> p.Then(HeaderScript(groupId)).Smooth())
  {
    hide Follows, Awaits, Fits, IdOctet, Shifted, Happened, HeaderScript, BigEndian;
    ghost var header := HeaderScript(groupId);
    ok := true;
    var id := groupId;
    ShiftedOctet(groupId, 0);
    NotShifted(groupId);
    if refused {
      NothingAwaited(s, p.Then(header), BigEndian(groupId));
    }
    assert BigEndian(groupId)[0..] == BigEndian(groupId);
    var i: int8 := 0;
    while i < 4
      invariant 0 <= i <= 4 && ok && s.world == old(s.world)
      invariant id == Shifted(groupId, i as nat)
      invariant if refused then Awaits(s, p.Then(header), BigEndian(groupId)[i..])
                else Follows(s, p.Then(header[..1 + i as nat])) && p.Then(header[..1 + i as nat]).Smooth()
    {
      ShiftedOctet(groupId, i as nat);
      HeaderItem(groupId, i as nat);
      var tmp := (id >> 24) as byte;
      IdOctetIs(groupId, i as nat);
      ok := Offer(s, tmp, IdPart, if refused then p.Then(header) else p.Then(header[..1 + i as nat]),
                  if refused then Some(BigEndian(groupId)[i + 1..]) else None);
      ThenThen(p, header[..1 + i as nat], [Octet(tmp, IdPart)]);
      assert header[..1 + i as nat] + [Octet(tmp, IdPart)] == header[..2 + i as nat];
      if !ok {
        if !refused {
          RefusalDecides(s, p.Then(header[..2 + i as nat]), header[2 + i as nat..]);
          ThenThen(p, header[..2 + i as nat], header[2 + i as nat..]);
          assert header[..2 + i as nat] + header[2 + i as nat..] == header;
        }
        return;
      }
      id := id << 8;
      i := i + 1;
    }
    if refused {
      NothingAwaited(s, p.Then(header), BigEndian(groupId)[4..]);
    }
    assert header[..5] == header;
  }

  /** The script of a group, phase by phase. */
  lemma GroupInParts(def: GroupDef, g: Group, p: Progress)
    requires |def.cases| == |g.outcomes|
    ensures var header := p.Then(HeaderScript(def.id));
            var entered := header.Then(ActionScript(def.entry));
            var tested := entered.Then(CasesScript(def.cases, g.outcomes));
            var left := tested.Then(ActionScript(def.exit));
            p.Then(GroupScript(def, g)) ==
              if g.entry == Some(false) then entered
              else if g.exit == Some(false) then left else left.Then([Octet(EXIT_GROUP, GroupEnd)])
  {
    hide HeaderScript, CasesScript;
    var header, entry, tests, exit := HeaderScript(def.id), ActionScript(def.entry),
                                      CasesScript(def.cases, g.outcomes), ActionScript(def.exit);
    ThenThen(p, header, entry);
    ThenThen(p.Then(header + entry), tests, exit);
    ThenThen(p.Then(header + entry), tests + exit, [Octet(EXIT_GROUP, GroupEnd)]);
    ThenThen(p.Then(header + entry), [], []);
    var rest := if g.entry == Some(false) then [] else
      tests + exit + if g.exit == Some(false) then [] else [Octet(EXIT_GROUP, GroupEnd)];
    ThenThen(p, header + entry, rest);
    assert tests + exit + [] == tests + exit;
  }

  /** A refusal before a phase decides the phases that would follow. */
  lemma RefusalDecidesGroup<W>(s: Session<W>, def: GroupDef, g: Group, p: Progress, upTo: Progress)
    requires |def.cases| == |g.outcomes| && Follows(s, upTo) && !upTo.Smooth()
    requires var header := p.Then(HeaderScript(def.id));
             || upTo == header
             || (g.entry != Some(false)
                 && upTo == header.Then(ActionScript(def.entry)).Then(CasesScript(def.cases, g.outcomes)))
    ensures Follows(s, p.Then(GroupScript(def, g))) && !p.Then(GroupScript(def, g)).Smooth()
  {
    hide HeaderScript, CasesScript, Happened, Values, Follows, Fits;
    GroupInParts(def, g, p);
    var header := p.Then(HeaderScript(def.id));
    var entered := header.Then(ActionScript(def.entry));
    var tested := entered.Then(CasesScript(def.cases, g.outcomes));
    var left := tested.Then(ActionScript(def.exit));
    if upTo == header {
      RefusalDecides(s, header, ActionScript(def.entry));
      if g.entry != Some(false) {
        RefusalDecides(s, entered, CasesScript(def.cases, g.outcomes));
      }
    }
    if g.entry != Some(false) {
      RefusalDecides(s, tested, ActionScript(def.exit));
      RefusalDecides(s, left, [Octet(EXIT_GROUP, GroupEnd)]);
    }
  }

  /** rttestRunGroup */
  method RunGroup<W>(s: Session<W>, def: GroupDef, ghost p: Progress) returns (ret: int32)
    requires Follows(s, p) && p.Smooth() && Runnable(def)
    modifies s
    ensures var r := Play(s.env, old(s.world), def);
            var q := p.Then(GroupScript(def, r.1));
            && Follows(s, q)
            && ret as int == (if q.Smooth() then GroupResult(r.1) else -1)
            && (ret >= 0 ==> s.world == r.0)
  {
    hide HeaderScript, CasesScript, GroupScript, Happened, Follows, Awaits, Fits, BigEndian, PlayCases, Verdicts, Count;
    ghost var w, g, marker := s.world, Play(s.env, s.world, def).1, HeaderScript(def.id)[..1];
    GroupInParts(def, g, p);
    HeaderStarts(def.id);
    ret := 0;
    var ok := Offer(s, ENTER_GROUP, Marker(def.id), p, None);
    ghost var refused := !ok;
    if !ok {
      ret := -1;
      AwaitsWhatever(s, p.Then(marker), HeaderScript(def.id)[1..], BigEndian(def.id));
      ThenThen(p, marker, HeaderScript(def.id)[1..]);
      NothingAwaited(s, p.Then(HeaderScript(def.id)), BigEndian(def.id));
    }
    ok := WriteId(s, def.id, p, refused);
    if !ok {
      ret := -1;
    }
    if ret < 0 {
      RefusalDecidesGroup(s, def, g, p, p.Then(HeaderScript(def.id)));
    }
    if ret >= 0 {
      ghost var header := p.Then(HeaderScript(def.id));
      ok := CallAction(s, def.entry, header);
      if !ok {
        ret := -2;
      }
    }
    if ret >= 0 {
      ghost var entered := p.Then(HeaderScript(def.id)).Then(ActionScript(def.entry));
      ret := RunTestCases(s, def, entered);
      if ret < 0 {
        RefusalDecidesGroup(s, def, g, p, entered.Then(CasesScript(def.cases, g.outcomes)));
      }
    }
    ghost var tested :=
      p.Then(HeaderScript(def.id)).Then(ActionScript(def.entry)).Then(CasesScript(def.cases, g.outcomes));
    if ret >= 0 {
      ok := CallAction(s, def.exit, tested);
      if !ok {
        ret := -3;
      }
    }
    if ret >= 0 {
      ok := Offer(s, EXIT_GROUP, GroupEnd, tested.Then(ActionScript(def.exit)), None);
      if !ok {
        ret := -1;
      }
    }
  }

  lemma HeaderStarts(id: bv32)
    ensures |HeaderScript(id)| == 5 && HeaderScript(id)[..1] == [Octet(ENTER_GROUP, Marker(id))]
    ensures HeaderScript(id)[..1] + HeaderScript(id)[1..] == HeaderScript(id)
    ensures Again(ENTER_GROUP, Marker(id)) == BigEndian(id)
  {
  }

  // ----- Registered groups

  class TestGroup {
    var next: TestGroup?
    const group: GroupDef

    constructor (group: GroupDef)
      ensures next == null && this.group == group
    {
      next := null;
      this.group := group;
    }
  }

  function GroupsOf(nodes: seq<TestGroup>): (defs: seq<GroupDef>)
    ensures |defs| == |nodes|
    ensures forall i :: 0 <= i < |defs| ==> defs[i] == nodes[i].group
  {
    seq(|nodes|, i requires 0 <= i < |nodes| => nodes[i].group)
  }

  function NodeAt(nodes: seq<TestGroup>, i: nat): TestGroup? {
    if i < |nodes| then nodes[i] else null
  }

  /** The global list of groups, in registration order. */
  class Registry {
    var first: TestGroup?
    ghost var nodes: seq<TestGroup>

    ghost predicate Valid()
      reads this, nodes
    {
      && (forall i, j :: 0 <= i < j < |nodes| ==> nodes[i] != nodes[j])
      && first == NodeAt(nodes, 0)
      && (forall i :: 0 <= i < |nodes| ==> nodes[i].next == NodeAt(nodes, i + 1))
    }

    constructor ()
      ensures Valid() && nodes == []
    {
      first, nodes := null, [];
    }

    /**
     RTPrivTestRegisterGroup, which panics when the walk meets the id again. The walk stops before
     comparing with the last group.
     */
    method Register(group: TestGroup) returns (ok: bool)
      requires Valid() && group !in nodes && (nodes == [] ==> group.next == null)
      modifies this, group, nodes
      ensures ok <==> forall i :: 0 <= i < |old(nodes)| - 1 ==> old(nodes)[i].group.id != group.group.id
      ensures ok ==> Valid() && nodes == old(nodes) + [group]
      ensures !ok ==> Valid() && nodes == old(nodes)
    {
      if first == null {
        first := group;
      } else {
        var i: TestGroup := first;
        ghost var k := 0;
        while i.next != null
          invariant 0 <= k < |nodes| && i == nodes[k]
          invariant forall j :: 0 <= j < k ==> nodes[j].group.id != group.group.id
          decreases |nodes| - k
        {
          if i.group.id == group.group.id {
            return false;
          }
          i := i.next;
          k := k + 1;
        }
        i.next := group;
        group.next := null;
      }
      nodes := nodes + [group];
      ok := true;
    }

    /** Registers groups one after the other; false stands for a panic. */
    method RegisterAll(groups: seq<TestGroup>) returns (ok: bool)
      requires Valid() && forall g :: g in groups ==> g !in nodes && g.next == null
      requires forall i, j :: 0 <= i < j < |groups| ==> groups[i] != groups[j]
      requires nodes == []
      modifies this, groups
      ensures ok <==> Registers(IdsOf(groups))
      ensures ok ==> Valid() && nodes == groups
    {
      hide Valid, Registers, NodeAt;
      ghost var ids := IdsOf(groups);
      NothingToRegister(ids);
      assert groups[..0] == [];
      for i := 0 to |groups|
        invariant Valid() && nodes == groups[..i]
        invariant forall k :: i <= k < |groups| ==> groups[k].next == null
        invariant Registers(ids[..i])
      {
        RegistersNext(ids, i);
        assert groups[i] !in groups[..i];
        ok := Register(groups[i]);
        assert ok <==> forall j :: 0 <= j < i - 1 ==> ids[j] != ids[i];
        if !ok {
          RefusedToRegister(ids, i + 1);
          return;
        }
        assert groups[..i] + [groups[i]] == groups[..i + 1];
      }
      assert ids[..|groups|] == ids && groups[..|groups|] == groups;
      ok := true;
    }

    lemma Links()
      requires Valid()
      ensures first == NodeAt(nodes, 0)
      ensures forall i :: 0 <= i < |nodes| ==> nodes[i].next == NodeAt(nodes, i + 1)
    {
    }

    /** The loop of RTTestRun: everything but the end-of-file mark, which is due when it ends well. */
    method RunSelected<W>(s: Session<W>, groups: seq<bv32>, ghost p: Progress) returns (ret: int32, ghost q: Progress)
      requires Valid() && Follows(s, p) && p.Smooth()
      requires forall i :: 0 <= i < |nodes| ==> Runnable(nodes[i].group)
      modifies s
      ensures var defs := Selected(GroupsOf(nodes), groups);
              var gs := PlayAll(s.env, old(s.world), defs);
              var whole := p.Then(GroupsScript(defs, gs));
              if ret >= 0 then
                && Follows(s, q) && q.Smooth() && whole == q.Then([Octet(END_OF_FILE, FileEnd)])
                && ret as int == RunResult(gs, 0)
              else Follows(s, whole) && ret as int == if whole.Smooth() then RunResult(gs, 0) else -1
    {
      hide Follows, Fits, GroupsScript, PlayAll, RunResult, Selected, Picks, NodeAt, GroupsOf, Valid;
      Links();
      ghost var all, w := GroupsOf(nodes), s.world;
      ghost var defs := Selected(all, groups);
      ghost var whole, gs := p.Then(GroupsScript(defs, PlayAll(s.env, w, defs))), PlayAll(s.env, w, defs);
      ret, q := 0, p;
      var group := first;
      ghost var k := 0;
      assert all[0..] == all;
      while group != null
        invariant 0 <= k <= |nodes| && group == NodeAt(nodes, k) && ret >= 0
        invariant forall i :: 0 <= i < |nodes| ==> nodes[i].next == NodeAt(nodes, i + 1)
        invariant Follows(s, q) && q.Smooth()
        invariant var left := Selected(all[k..], groups);
                  && whole == q.Then(GroupsScript(left, PlayAll(s.env, s.world, left)))
                  && RunResult(gs, 0) == RunResult(PlayAll(s.env, s.world, left), ret as int)
        decreases |nodes| - k
      {
        NodeAtIs(nodes, k);
        SelectedStep(all, k, groups);
        var picked := IsIn(group.group.id, groups);
        if picked {
          ghost var rest := GroupsStep(s.env, s.world, group.group, Selected(all[k + 1..], groups), q, ret as int);
          ghost var r := Play(s.env, s.world, group.group).1;
          ret := RunGroup(s, group.group, q);
          q := q.Then(GroupScript(group.group, r));
          if ret < 0 {
            if !q.Smooth() {
              RefusalDecides(s, q, rest);
            }
            return;
          }
        }
        group := group.next;
        k := k + 1;
      }
      NodeAtIs(nodes, k);
      NoGroupsLeft(s.env, s.world, all, groups, ret as int);
    }

    /** RTTestRun; an empty selection, or a NULL one, picks every group. */
    method Run<W>(s: Session<W>, groups: seq<bv32>) returns (ret: int32)
      requires Valid() && nodes != [] && s.Valid()
      requires forall i :: 0 <= i < |nodes| ==> Runnable(nodes[i].group)
      modifies s
      ensures s.Valid()
      ensures var defs := Selected(GroupsOf(nodes), groups);
              var gs := PlayAll(s.env, old(s.world), defs);
              && s.trace == old(s.trace) + Happened(s.sink, old(s.offers), RunScript(s.env, old(s.world), defs))
              && ret as int == ReturnValue(s.sink, old(s.offers), gs)
      ensures groups == [] ==>
                var defs := GroupsOf(nodes);
                && s.trace == old(s.trace) + Happened(s.sink, old(s.offers), RunScript(s.env, old(s.world), defs))
                && ret as int == ReturnValue(s.sink, old(s.offers), PlayAll(s.env, old(s.world), defs))
    {
      AllSelected(GroupsOf(nodes));
      hide Happened, Fits, Selected, GroupsScript, RunOffer, RunResult, Values, AcceptedIn;
      ghost var p, defs := Here(s), Selected(GroupsOf(nodes), groups);
      ghost var gs := PlayAll(s.env, s.world, defs);
      ghost var whole := p.Then(MAGIC).Then(GroupsScript(defs, gs));
      StartFollows(s);
      WholeScript(p, s.env, s.world, defs);
      ret := WritePreamble(s, p);
      if ret >= 0 {
        ghost var q;
        ret, q := RunSelected(s, groups, p.Then(MAGIC));
        if ret >= 0 {
          var ok := Offer(s, END_OF_FILE, FileEnd, q, None);
          if !ok {
            ret := -1;
          }
        }
      } else {
        RefusalDecides(s, p.Then(MAGIC), GroupsScript(defs, gs));
      }
      Written(s.env, p, old(s.world), defs);
    }
  }

  function IdsOf(groups: seq<TestGroup>): (ids: seq<bv32>)
    ensures |ids| == |groups| && forall i :: 0 <= i < |ids| ==> ids[i] == groups[i].group.id
  {
    seq(|groups|, i requires 0 <= i < |groups| => groups[i].group.id)
  }

  lemma NodeAtIs(nodes: seq<TestGroup>, k: nat)
    ensures NodeAt(nodes, k) == null <==> k >= |nodes|
    ensures k < |nodes| ==> NodeAt(nodes, k) == nodes[k]
  {
  }

  lemma SelectedStep(all: seq<GroupDef>, k: nat, selection: seq<bv32>)
    requires k < |all|
    ensures var later := Selected(all[k + 1..], selection);
            Selected(all[k..], selection) == if Picks(selection, all[k].id) then [all[k]] + later else later
  {
    assert all[k..][1..] == all[k + 1..];
  }

  /** One selected group: what is left of the script after it. */
  lemma GroupsStep<W>(env: Env<W>, w: W, def: GroupDef, later: seq<GroupDef>, q: Progress, last: int)
    returns (rest: seq<Item>)
    ensures var r, gs := Play(env, w, def), PlayAll(env, w, [def] + later);
            && q.Then(GroupsScript([def] + later, gs)) == q.Then(GroupScript(def, r.1)).Then(rest)
            && (GroupResult(r.1) >= 0 ==>
                  && rest == GroupsScript(later, PlayAll(env, r.0, later))
                  && RunResult(gs, last) == RunResult(PlayAll(env, r.0, later), GroupResult(r.1)))
            && (GroupResult(r.1) < 0 ==>
                  && q.Then(GroupsScript([def] + later, gs)) == q.Then(GroupScript(def, r.1))
                  && RunResult(gs, last) == GroupResult(r.1))
  {
    hide GroupScript, GroupResult, Play;
    var r, gs := Play(env, w, def), PlayAll(env, w, [def] + later);
    assert ([def] + later)[1..] == later;
    assert gs == [r.1] + PlayAll(env, r.0, later) && gs[1..] == PlayAll(env, r.0, later);
    rest := if GroupResult(r.1) < 0 then [] else GroupsScript(later, PlayAll(env, r.0, later));
    ThenThen(q, GroupScript(def, r.1), rest);
    ThenThen(q.Then(GroupScript(def, r.1)), [], []);
  }

  lemma NoGroupsLeft<W>(env: Env<W>, w: W, all: seq<GroupDef>, selection: seq<bv32>, last: int)
    ensures var left := Selected(all[|all|..], selection);
            && GroupsScript(left, PlayAll(env, w, left)) == [Octet(END_OF_FILE, FileEnd)]
            && RunResult(PlayAll(env, w, left), last) == last
  {
  }

  lemma WholeScript<W>(p: Progress, env: Env<W>, w: W, defs: seq<GroupDef>)
    requires p.script == []
    ensures p.Then(MAGIC).Then(GroupsScript(defs, PlayAll(env, w, defs))) == p.(script := RunScript(env, w, defs))
  {
    hide GroupsScript, PlayAll;
    ThenThen(p, MAGIC, GroupsScript(defs, PlayAll(env, w, defs)));
    assert [] + RunScript(env, w, defs) == RunScript(env, w, defs);
  }

  /** What following the whole script means for the value returned. */
  lemma Written<W>(env: Env<W>, p: Progress, w: W, defs: seq<GroupDef>)
    requires p.script == []
    ensures var gs := PlayAll(env, w, defs);
            p.(script := RunScript(env, w, defs)).Smooth() <==> Accepts(p.sink, p.at, |FOUR_CC + RunOffer(gs)|)
  {
    RunValues(env, w, defs);
  }
}
