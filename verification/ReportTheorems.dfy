/** The writer and the reader of test reports together, and what the runner's return value stands for. */
module ReportTheorems {
  import opened Words
  import opened ReportFormat
  import opened TestRun
  import opened RunTheorems
  import RtTest
  import RttReader

  // ----- Selection and verdicts

  /** A selection that is not empty keeps exactly the registered groups whose ids it lists... */
  lemma {:induction false} SelectedAre(defs: seq<GroupDef>, selection: seq<bv32>, def: GroupDef)
    requires selection != []
    ensures def in Selected(defs, selection)
            <==> def in defs && exists i :: 0 <= i < |selection| && selection[i] == def.id
  {
    if defs != [] {
      SelectedAre(defs[1..], selection, def);
      assert defs == [defs[0]] + defs[1..];
    }
  }

  /** ... each once... */
  lemma SelectedOnce(def: GroupDef, selection: seq<bv32>)
    ensures Selected([def], selection)
         == if selection == [] || exists i :: 0 <= i < |selection| && selection[i] == def.id then [def] else []
  {
    assert [def][1..] == [];
  }

  /** ... in registration order. */
  lemma {:induction false} SelectedInOrder(a: seq<GroupDef>, b: seq<GroupDef>, selection: seq<bv32>)
    ensures Selected(a + b, selection) == Selected(a, selection) + Selected(b, selection)
  {
    hide Picks;
    if a == [] {
      assert a + b == b;
    } else {
      var first := if Picks(selection, a[0].id) then [a[0]] else [];
      var x, y := Selected(a[1..], selection), Selected(b, selection);
      calc {
        Selected(a + b, selection);
        { assert (a + b)[1..] == a[1..] + b; }
        first + Selected(a[1..] + b, selection);
        { SelectedInOrder(a[1..], b, selection); }
        first + (x + y);
        { assert first + (x + y) == first + x + y; }
        first + x + y;
        Selected(a, selection) + y;
      }
    }
  }

  /**
   The results written are the outcomes up to the first fatal one, then failures only. With no fatal
   outcome, take f to be the number of test cases.
   */
  lemma FatalFailsTheRest(outcomes: seq<int8>, f: nat)
    requires f <= |outcomes| && (f < |outcomes| ==> outcomes[f] < 0)
    requires forall j :: 0 <= j < f ==> outcomes[j] >= 0
    ensures forall i :: 0 <= i < f ==> (Verdicts(outcomes)[i] <==> outcomes[i] > 0)
    ensures forall i :: f <= i < |outcomes| ==> Verdicts(outcomes)[i]
  {
  }

  /** All bits of the octets, padding included. */
  function SetBits(octets: seq<byte>): nat {
    Count(Unpack(octets, 8 * |octets|))
  }

  /** The count of failures is the number of bits set in the octets written. */
  lemma CountIsSetBits(bits: seq<bool>)
    ensures SetBits(Pack(bits)) == Count(bits)
  {
    var n := 8 * |Pack(bits)|;
    var all := Unpack(Pack(bits), n);
    PackRoundTrip(bits);
    forall k | 0 <= k < n
      ensures all[k] == (k < |bits| && bits[k])
    {
      assert all[k] == Bit(Pack(bits)[k / 8], k % 8);
      if k < |bits| {
        assert Unpack(Pack(bits), |bits|)[k] == Bit(Pack(bits)[k / 8], k % 8);
      }
    }
    assert all[..|bits|] == bits;
    PassesDontCount(all, |bits|);
  }

  lemma {:induction false} PassesDontCount(bits: seq<bool>, n: nat)
    requires n <= |bits| && forall k :: n <= k < |bits| ==> !bits[k]
    ensures Count(bits) == Count(bits[..n])
  {
    if n < |bits| {
      PassesDontCount(bits[..|bits| - 1], n);
      assert bits[..|bits| - 1][..n] == bits[..n];
    } else {
      assert bits[..n] == bits;
    }
  }

  // ----- From run to report

  /** The octets offered are the complete stream, or a strict prefix of it if an action failed. */
  lemma {:induction false} OfferIsPrefix(gs: seq<Group>, last: int)
    requires last >= 0
    ensures RunOffer(gs) <= Stream(gs)
    ensures RunResult(gs, last) >= 0 <==> RunOffer(gs) == Stream(gs)
    ensures RunResult(gs, last) >= 0 <==> |RunOffer(gs)| == |Stream(gs)|
    decreases gs
  {
    if gs != [] {
      var g, rest := gs[0], gs[1..];
      if GroupResult(g) >= 0 {
        OfferIsPrefix(rest, GroupResult(g));
        assert GroupOffer(g) == GroupBytes(g);
        var n := |RunOffer(rest)|;
        assert Stream(gs)[..|GroupBytes(g)| + n] == GroupBytes(g) + Stream(rest)[..n];
      } else {
        OfferStopsShort(g);
        assert GroupBytes(g)[..|GroupOffer(g)|] == Stream(gs)[..|GroupOffer(g)|];
      }
    }
  }

  lemma OfferStopsShort(g: Group)
    requires GroupResult(g) < 0
    ensures |GroupOffer(g)| < |GroupBytes(g)| && GroupOffer(g) == GroupBytes(g)[..|GroupOffer(g)|]
  {
  }

  // ----- Reports that are cut short

  /** The blocks of complete groups, one after the other. */
  function Blocks(gs: seq<Group>): seq<byte> {
    if gs == [] then [] else GroupBytes(gs[0]) + Blocks(gs[1..])
  }

  /** If octet p of what the groups offer is a group marker, which group's. */
  function MarkerAt(gs: seq<Group>, p: nat): (r: Option<nat>)
    ensures r.Some? ==> r.value < |gs|
  {
    if gs == [] then None
    else
      var n := |GroupOffer(gs[0])|;
      if p == 0 then Some(0)
      else if p < n || GroupResult(gs[0]) < 0 then None
      else match MarkerAt(gs[1..], p - n)
        case None => None
        case Some(i) => Some(i + 1)
  }

  lemma OfferLength(g: Group)
    ensures |GroupOffer(g)| >= 5 && |Pack(Verdicts(g.outcomes))| >= |g.outcomes| / 8
    ensures |GroupBytes(g)| == 6 + |Pack(Verdicts(g.outcomes))|
    ensures GroupResult(g) >= 0 ==> GroupOffer(g) == GroupBytes(g)
  {
  }

  /** At a marker, the id is still to be offered, and everything before it is the groups before it. */
  lemma {:induction false} AtMarker(gs: seq<Group>, p: nat)
    requires p < |RunOffer(gs)| && MarkerAt(gs, p).Some?
    ensures var i := MarkerAt(gs, p).value;
            StillOffered(gs, p) == BigEndian(gs[i].id) && RunOffer(gs)[..p] == Blocks(gs[..i])
    decreases gs
  {
    hide GroupOffer, GroupBytes, GroupResult, BigEndian, Pack, Verdicts;
    OfferLength(gs[0]);
    if p > 0 {
      var n := |GroupOffer(gs[0])|;
      AtMarker(gs[1..], p - n);
      var i := MarkerAt(gs[1..], p - n).value;
      assert gs[..i + 1][1..] == gs[1..][..i];
      assert RunOffer(gs)[..p] == GroupOffer(gs[0]) + RunOffer(gs[1..])[..p - n];
    }
  }

  lemma GroupOctet(g: Group, p: nat)
    requires p < |GroupOffer(g)| && 5 <= p < 5 + |g.outcomes| / 8
    ensures p - 5 < |Pack(Verdicts(g.outcomes))| && GroupOffer(g)[p] == Pack(Verdicts(g.outcomes))[p - 5]
  {
  }

  /** Elsewhere at most the refused octet is still to be offered, and it is not the last of a report. */
  lemma {:induction false} NotAtMarker(gs: seq<Group>, p: nat)
    requires p < |RunOffer(gs)| && MarkerAt(gs, p).None?
    ensures StillOffered(gs, p) == [] || (StillOffered(gs, p) == [RunOffer(gs)[p]] && p + 1 < |Stream(gs)|)
    decreases gs
  {
    hide GroupOffer, GroupBytes, GroupResult, BigEndian, Pack, Verdicts;
    if gs != [] {
      var n := |GroupOffer(gs[0])|;
      OfferLength(gs[0]);
      if p >= n {
        NotAtMarker(gs[1..], p - n);
      } else if p < 5 + |gs[0].outcomes| / 8 && p >= 5 {
        GroupOctet(gs[0], p);
      }
    }
  }

  /** Complete groups are read whatever follows them. */
  lemma {:induction false} BlocksRead(pre: seq<byte>, gs: seq<Group>, post: seq<byte>, groups: GroupMap)
    requires Known(groups, gs)
    ensures ReadGroups(pre + Blocks(gs) + post, |pre|, groups)
         == match ReadGroups(pre + Blocks(gs) + post, |pre + Blocks(gs)|, groups)
            case None => None
            case Some((reports, end)) => Some((ReportsOf(gs) + reports, end))
    decreases gs
  {
    hide ReadGroup, GroupBytes;
    if gs == [] {
      assert pre + Blocks(gs) == pre;
      var r := ReadGroups(pre + post, |pre|, groups);
      assert r.Some? ==> [] + r.value.0 == r.value.0;
    } else {
      var g, rest := gs[0], gs[1..];
      var block := GroupBytes(g);
      GroupRoundTrip(pre, g, Blocks(rest) + post, groups);
      BlocksRead(pre + block, rest, post, groups);
      assert pre + block + (Blocks(rest) + post) == pre + Blocks(gs) + post;
      assert pre + block + Blocks(rest) + post == pre + Blocks(gs) + post;
      assert pre + block + Blocks(rest) == pre + Blocks(gs);
      var r := ReadGroups(pre + Blocks(gs) + post, |pre + Blocks(gs)|, groups);
      var first := [Report(g.id, Verdicts(g.outcomes))];
      assert r.Some? ==> first + (ReportsOf(rest) + r.value.0) == first + ReportsOf(rest) + r.value.0;
    }
  }

  /** A part of an id in the place of a group marker. */
  lemma PartOfIdRead(pre: seq<byte>, id: bv32, j: nat, groups: GroupMap)
    requires j <= 4
    ensures ReadGroup(pre + BigEndian(id)[..j], |pre|, groups)
         == if j > 0 && IdOctet(id, 0) == END_OF_FILE then Eof(|pre| + 1) else Bad
  {
    hide IdOctet, FromBigEndian;
  }

  /**
   The group whose marker was refused, if an octet was accepted after that and the id begins with the
   octet that also marks the end of the file.
   */
  function FalseEnd(sink: Sink, at: nat, gs: seq<Group>): (r: Option<nat>)
    ensures r.Some? ==> r.value < |gs|
  {
    var offer := FOUR_CC + RunOffer(gs);
    var p := |Taken(sink, at, offer)|;
    if 4 <= p < |offer| && MarkerAt(gs, p - 4).Some? && sink(at + p + 1)
       && IdOctet(gs[MarkerAt(gs, p - 4).value].id, 0) == END_OF_FILE
    then MarkerAt(gs, p - 4) else None
  }

  /** Complete groups and then a part of an id. */
  lemma FalseEndRead(gs: seq<Group>, id: bv32, j: nat, groups: GroupMap)
    requires Known(groups, gs) && j <= 4
    ensures Decode(FOUR_CC + Blocks(gs) + BigEndian(id)[..j], groups)
         == if j > 0 && IdOctet(id, 0) == END_OF_FILE
            then Some((ReportsOf(gs), |FOUR_CC + Blocks(gs)| + 1)) else None
  {
    hide ReadGroup, IdOctet, BigEndian, Blocks, ReportsOf;
    var written := FOUR_CC + Blocks(gs) + BigEndian(id)[..j];
    assert written[..4] == FOUR_CC;
    PartOfIdRead(FOUR_CC + Blocks(gs), id, j, groups);
    BlocksRead(FOUR_CC, gs, BigEndian(id)[..j], groups);
    assert ReportsOf(gs) + [] == ReportsOf(gs);
  }

  /** What the reader makes of a report cut short at a group marker. */
  lemma CutAtMarker(sink: Sink, at: nat, gs: seq<Group>, groups: GroupMap, p: nat, i: nat)
    requires Known(groups, gs)
    requires p < |RunOffer(gs)| && |Taken(sink, at, FOUR_CC + RunOffer(gs))| == 4 + p && MarkerAt(gs, p) == Some(i)
    ensures Decode(WrittenBy(sink, at, gs), groups)
         == if sink(at + p + 5) && IdOctet(gs[i].id, 0) == END_OF_FILE
            then Some((ReportsOf(gs[..i]), |FOUR_CC + Blocks(gs[..i])| + 1)) else None
  {
    hide RunOffer, StillOffered, Decode, IdOctet, BigEndian, Blocks, ReportsOf, MarkerAt, Taken, Accepts;
    AtMarker(gs, p);
    var id := gs[i].id;
    var part := Taken(sink, at + p + 5, BigEndian(id));
    assert |part| > 0 <==> sink(at + p + 5) by {
      TakenFirst(sink, at + p + 5, BigEndian(id));
    }
    var offer := FOUR_CC + RunOffer(gs);
    assert offer[..4 + p] == FOUR_CC + RunOffer(gs)[..p];
    assert part == BigEndian(id)[..|part|];
    FalseEndRead(gs[..i], id, |part|, groups);
  }

  lemma TakenFirst(sink: Sink, at: nat, octets: seq<byte>)
    requires octets != []
    ensures Taken(sink, at, octets) != [] <==> sink(at)
  {
  }

  lemma StrictPartRejected(gs: seq<Group>, groups: GroupMap, part: seq<byte>)
    requires Known(groups, gs) && part < FOUR_CC + Stream(gs)
    ensures Decode(part, groups).None?
  {
    ReportRoundTrip(gs, groups);
  }

  /** What the reader makes of a report cut short elsewhere. */
  lemma CutElsewhere(sink: Sink, at: nat, gs: seq<Group>, groups: GroupMap, p: nat)
    requires Known(groups, gs)
    requires p < |FOUR_CC + RunOffer(gs)| && |Taken(sink, at, FOUR_CC + RunOffer(gs))| == p
    requires p < 4 || MarkerAt(gs, p - 4).None?
    ensures Decode(WrittenBy(sink, at, gs), groups).None?
  {
    hide RunOffer, StillOffered, MarkerAt, Stream, Decode;
    var whole, offer, written := FOUR_CC + Stream(gs), FOUR_CC + RunOffer(gs), WrittenBy(sink, at, gs);
    OfferIsPrefix(gs, 0);
    assert offer <= whole;
    if p >= 4 {
      NotAtMarker(gs, p - 4);
    }
    var more := Taken(sink, at + p + 1, StillOfferedInRun(gs, p));
    assert written == offer[..p] + more;
    assert more == [] || more == [offer[p]];
    assert written == offer[..p] || written == offer[..p + 1];
    StrictPartRejected(gs, groups, written);
  }

  /**
   End to end, for every sink. If RTTestRun succeeds, the reader accepts what was written and finds
   exactly the selected groups, in order, with exactly the results of the run, reading every octet;
   results that look like markers make no difference. If it fails, the reader rejects what was written,
   with one exception: after a refused group marker the code goes on to offer the id, and if the first
   octet of that is accepted and equals the end-of-file mark, the reader takes the groups before for
   the whole report.
   */
  lemma RunIffDecodes(sink: Sink, at: nat, gs: seq<Group>, groups: GroupMap)
    requires Known(groups, gs)
    ensures var written := WrittenBy(sink, at, gs);
            Decode(written, groups)
            == if ReturnValue(sink, at, gs) >= 0 then Some((ReportsOf(gs), |written|))
               else match FalseEnd(sink, at, gs)
                 case None => None
                 case Some(i) => Some((ReportsOf(gs[..i]), |FOUR_CC + Blocks(gs[..i])| + 1))
  {
    hide Stream, RunOffer, RunResult, Decode, ReadGroups, MarkerAt, StillOfferedInRun, Blocks, ReportsOf;
    hide IdOctet, Taken;
    var offer := FOUR_CC + RunOffer(gs);
    var p := |Taken(sink, at, offer)|;
    OfferIsPrefix(gs, 0);
    ReportRoundTrip(gs, groups);
    AllTakenIff(sink, at, offer);
    if p == |offer| {
      assert offer <= FOUR_CC + Stream(gs);
      if RunResult(gs, 0) < 0 {
        StrictPartRejected(gs, groups, offer);
      }
    } else if p >= 4 && MarkerAt(gs, p - 4).Some? {
      CutAtMarker(sink, at, gs, groups, p - 4, MarkerAt(gs, p - 4).value);
    } else {
      CutElsewhere(sink, at, gs, groups, p);
    }
  }

  /** A group whose id begins with the end-of-file mark, and a sink that refuses one octet only. */
  lemma FailedRunIsAccepted(g: Group, groups: GroupMap)
    requires g.id == 0x2A00_0000 && Known(groups, [g])
    ensures ReturnValue(RefusesOnce(4), 0, [g]) == -1
    ensures Decode(WrittenBy(RefusesOnce(4), 0, [g]), groups) == Some(([], 5))
  {
    hide RunResult, Decode, Taken, GroupOffer, StillOffered;
    OfferLength(g);
    var gs := [g];
    assert |RunOffer(gs)| >= 5;
    RefusedAt(gs, 4);
    assert !RefusesOnce(4)(4);
    assert MarkerAt(gs, 0) == Some(0) && gs[..0] == [];
    CutAtMarker(RefusesOnce(4), 0, gs, groups, 0, 0);
  }

  /** For a sink that accepts nothing any more after a refusal, the two agree. */
  lemma LastingRefusal(sink: Sink, at: nat, gs: seq<Group>)
    requires forall i: nat :: at <= i && !sink(i) ==> !sink(i + 1)
    ensures FalseEnd(sink, at, gs).None?
  {
  }

  /**
   The whole way: a registry is run into a fresh sink and what ends up there is parsed. The parser
   raises an error exactly when the run returned a negative value, but for a false end of the report.
   Otherwise its verdict is whether no test case failed, and it prints a line for each one that did.
   */
  method RunAndParse<W>(registry: RtTest.Registry, env: Env<W>, world: W, sink: Sink,
                        selection: seq<bv32>, groups: GroupMap)
    returns (ret: int32, passed: Option<bool>, printed: seq<(bv32, nat)>)
    requires registry.Valid() && registry.nodes != []
    requires forall i :: 0 <= i < |registry.nodes| ==> Runnable(registry.nodes[i].group)
    requires forall def :: def in Selected(RtTest.GroupsOf(registry.nodes), selection) ==>
               def.id in groups && groups[def.id] == |def.cases|
    ensures var gs := PlayAll(env, world, Selected(RtTest.GroupsOf(registry.nodes), selection));
            && (passed.Some? <==> ret >= 0 || FalseEnd(sink, 0, gs).Some?)
            && (ret >= 0 ==> passed == Some(RttReader.TotalFailed(ReportsOf(gs)) == 0)
                             && printed == RttReader.AllFailLines(ReportsOf(gs)))
  {
    hide Decode, WrittenBy, ReturnValue, PlayAll, Selected, RunScript, Happened, FalseEnd, AcceptedIn;
    ghost var defs := Selected(RtTest.GroupsOf(registry.nodes), selection);
    ghost var gs := PlayAll(env, world, defs);
    assert forall i :: 0 <= i < |gs| ==> defs[i] in defs;
    RunIffDecodes(sink, 0, gs, groups);
    RunOffers(env, world, defs, sink, 0);
    var session := new RtTest.Session(env, world, sink);
    ret := registry.Run(session, selection);
    assert [] + Happened(sink, 0, RunScript(env, world, defs)) == Happened(sink, 0, RunScript(env, world, defs));
    assert session.out == WrittenBy(sink, 0, gs);
    var parser := new RttReader.RttParser(session.out, groups);
    passed := parser.Parse();
    printed := parser.printed;
  }

  /** The reports of a run, group by group. */
  lemma {:induction false} ReportsAre(gs: seq<Group>)
    ensures |ReportsOf(gs)| == |gs|
    ensures forall i :: 0 <= i < |gs| ==> ReportsOf(gs)[i] == Report(gs[i].id, Verdicts(gs[i].outcomes))
  {
    if gs != [] {
      ReportsAre(gs[1..]);
    }
  }

  // ----- The return value

  /** No group action fails. */
  predicate ActionsSucceed(gs: seq<Group>) {
    forall i :: 0 <= i < |gs| ==> GroupResult(gs[i]) >= 0
  }

  lemma {:induction false} ResultIsLast(gs: seq<Group>, last: int)
    requires ActionsSucceed(gs)
    ensures RunResult(gs, last) == if gs == [] then last else Count(Verdicts(gs[|gs| - 1].outcomes))
  {
    if gs != [] {
      assert GroupResult(gs[0]) >= 0;
      ResultIsLast(gs[1..], GroupResult(gs[0]));
    }
  }

  lemma {:induction false} TotalOfInit(gs: seq<Group>)
    requires gs != []
    ensures RttReader.TotalFailed(ReportsOf(gs))
         == RttReader.TotalFailed(ReportsOf(gs[..|gs| - 1])) + Count(Verdicts(gs[|gs| - 1].outcomes))
  {
    hide Count;
    if |gs| > 1 {
      TotalOfInit(gs[1..]);
      assert gs[1..][..|gs[1..]| - 1] == gs[..|gs| - 1][1..];
      assert gs[..|gs| - 1] == [gs[0]] + gs[1..|gs| - 1];
    }
  }

  lemma {:induction false} NoFailures(gs: seq<Group>)
    ensures RttReader.TotalFailed(ReportsOf(gs)) == 0
            <==> forall i :: 0 <= i < |gs| ==> Count(Verdicts(gs[i].outcomes)) == 0
  {
    if gs != [] {
      NoFailures(gs[1..]);
      assert forall i :: 0 < i < |gs| ==> gs[i] == gs[1..][i - 1];
    }
  }

  /**
   The return value is documented as the number of failed test cases. It is the last selected group's;
   it equals the total if and only if all groups before the last one passed entirely.
   */
  lemma {:induction false} ReturnsTotalIff(gs: seq<Group>)
    requires ActionsSucceed(gs) && gs != []
    ensures RunResult(gs, 0) == RttReader.TotalFailed(ReportsOf(gs))
            <==> forall i :: 0 <= i < |gs| - 1 ==> Count(Verdicts(gs[i].outcomes)) == 0
  {
    hide Count, Verdicts, ReportsOf, RttReader.TotalFailed, RunResult, GroupResult;
    ResultIsLast(gs, 0);
    TotalOfInit(gs);
    NoFailures(gs[..|gs| - 1]);
  }

  /** Test case 1 fails, all others pass. */
  function OneFails(): Env<()> {
    Env((w, a) => (w, true), (w, c) => (w, if c == 1 then 1 else 0))
  }

  /** Two groups with one test case each, of which the first fails: 0 is returned. */
  lemma FirstFailureIsLost(sink: Sink)
    requires forall i: nat :: sink(i)
    ensures var gs := PlayAll(OneFails(), (), [GroupDef(1, None, None, [1]), GroupDef(2, None, None, [2])]);
            ReturnValue(sink, 0, gs) == 0 && RttReader.TotalFailed(ReportsOf(gs)) == 1
  {
    hide Play, ReportsOf, RttReader.TotalFailed, RunResult, RunOffer;
    var one, two := GroupDef(1, None, None, [1]), GroupDef(2, None, None, [2]);
    PlayOne(one, 1);
    PlayOne(two, 2);
    assert [one, two][1..] == [two] && [two][1..] == [];
    var first, second := Group(1, None, None, [1]), Group(2, None, None, [0]);
    assert PlayAll(OneFails(), (), [two]) == [second] + PlayAll(OneFails(), (), []);
    assert PlayAll(OneFails(), (), [one, two]) == [first] + [second];
    FailThenPass(1, 2);
    assert PlayAll(OneFails(), (), [one, two]) == [first, second];
  }

  lemma PlayOne(def: GroupDef, c: nat)
    requires def == GroupDef(def.id, None, None, [c])
    ensures Play(OneFails(), (), def) == ((), Group(def.id, None, None, [if c == 1 then 1 else 0]))
  {
    var env := OneFails();
    assert [c][..0] == [] && PlayCases(env, (), []) == ((), []);
    assert env.testCase((), c) == ((), if c == 1 then 1 else 0);
    PlayStep(env, (), [c], 0);
    var played := PlayCases(env, (), [c]);
    assert played.1[..0] == [] && played.1[..1] == played.1 && [c][..1] == [c];
    assert played.1 == [played.1[0]];
    assert played.1[0] == if c == 1 then 1 else 0;
    assert played.0 == ();
    assert PlayAction(env, (), None) == ((), true);
  }

  lemma FailThenPass(one: bv32, two: bv32)
    ensures var gs := [Group(one, None, None, [1]), Group(two, None, None, [0])];
            RunResult(gs, 0) == 0 && RttReader.TotalFailed(ReportsOf(gs)) == 1
  {
    hide Verdicts, Count;
    OneVerdict(1);
    OneVerdict(0);
    var gs := [Group(one, None, None, [1]), Group(two, None, None, [0])];
    ResultIsLast(gs, 0);
    TotalOfInit(gs);
    assert gs[..1] == [gs[0]];
    TotalOfInit(gs[..1]);
    assert gs[..1][..0] == [];
  }

  lemma OneVerdict(outcome: int8)
    ensures Verdicts([outcome]) == [outcome != 0] && Count(Verdicts([outcome])) == if outcome != 0 then 1 else 0
  {
    assert [outcome][..0] == [];
    assert [outcome != 0][..0] == [];
  }

  // ----- Registration

  predicate Unique(ids: seq<bv32>) {
    forall i, j :: 0 <= i < j < |ids| ==> ids[i] != ids[j]
  }

  /**
   Ids are documented to be unique and checked on registration. The check finds every duplicate if and
   only if none is the id of the group registered just before.
   */
  lemma {:induction false} RegistrationCheck(ids: seq<bv32>)
    ensures Registers(ids) <==> forall i, j :: 0 <= i && i + 1 < j < |ids| ==> ids[i] != ids[j]
    ensures Registers(ids) ==> (Unique(ids) <==> forall i :: 0 <= i < |ids| - 1 ==> ids[i] != ids[i + 1])
  {
    if ids != [] {
      var k := |ids| - 1;
      RegistrationCheck(ids[..k]);
      assert forall i :: 0 <= i < k ==> ids[..k][i] == ids[i];
    }
  }

  /** Two groups in a row with the same id are registered. */
  lemma NeighboursRegister(id: bv32)
    ensures Registers([id, id]) && !Unique([id, id])
  {
    RegistrationCheck([id, id]);
    assert [id, id][0] == [id, id][1];
  }
}
