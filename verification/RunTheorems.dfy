/** What a test run offers and calls, in which order, and what its return value says about that. */
module RunTheorems {
  import opened Words
  import opened ReportFormat
  import opened TestRun

  // ----- A script up to the first refusal

  /** What happens if every octet is accepted. */
  function Full(script: seq<Item>): (t: seq<Effect>)
    ensures |t| == |script|
    ensures forall i :: 0 <= i < |t| ==> t[i] == EffectOf(script[i])
  {
    seq(|script|, i requires 0 <= i < |script| => EffectOf(script[i]))
  }

  /** The octets of a script, with their roles. */
  function Octets(script: seq<Item>): seq<(byte, Role)> {
    if script == [] then [] else OctetOf(script[0]) + Octets(script[1..])
  }

  function OctetOf(item: Item): seq<(byte, Role)> {
    if item.Octet? then [(item.value, item.role)] else []
  }

  lemma {:induction false} OctetsConcat(a: seq<Item>, b: seq<Item>)
    ensures Octets(a + b) == Octets(a) + Octets(b)
  {
    hide OctetOf;
    if a == [] {
      assert a + b == b;
    } else {
      calc {
        Octets(a + b);
        { assert (a + b)[1..] == a[1..] + b; }
        OctetOf(a[0]) + Octets(a[1..] + b);
        { OctetsConcat(a[1..], b); }
        OctetOf(a[0]) + (Octets(a[1..]) + Octets(b));
        OctetOf(a[0]) + Octets(a[1..]) + Octets(b);
      }
    }
  }

  lemma {:induction false} OctetsHaveValues(script: seq<Item>)
    ensures |Octets(script)| == |Values(script)|
  {
    if script != [] {
      OctetsHaveValues(script[1..]);
    }
  }

  lemma {:induction false} FullIfFits(sink: Sink, at: nat, script: seq<Item>)
    requires Fits(sink, at, script)
    ensures Happened(sink, at, script) == Full(script)
    decreases script
  {
    hide Refusal;
    if script != [] {
      FullIfFits(sink, if script[0].Octet? then at + 1 else at, script[1..]);
    }
  }

  lemma FirstOctet(script: seq<Item>)
    requires script != []
    ensures Octets(script) == OctetOf(script[0]) + Octets(script[1..])
  {
  }

  lemma NoneFits(sink: Sink, at: nat)
    ensures Fits(sink, at, []) && Accepts(sink, at, 0) && Values([]) == [] && Full([]) == []
  {
  }

  lemma AcceptsMore(sink: Sink, at: nat, n: nat, m: nat)
    ensures Accepts(sink, at, n + m) <==> Accepts(sink, at, n) && Accepts(sink, at + n, m)
    ensures n == 1 ==> (Accepts(sink, at, n) <==> sink(at))
    ensures n == 0 ==> Accepts(sink, at, n)
  {
  }

  lemma FirstOf(script: seq<Item>, k: nat)
    requires 0 < k <= |script|
    ensures Full(script[..k]) == [EffectOf(script[0])] + Full(script[1..][..k - 1])
    ensures |Values(script[..k])| == Width(script[0]) + |Values(script[1..][..k - 1])|
  {
    assert script[..k][1..] == script[1..][..k - 1];
  }

  /** Otherwise the script is followed up to the octet that does not fit, and that one is refused. */
  lemma {:induction false} CutAt(sink: Sink, at: nat, script: seq<Item>) returns (k: nat, p: nat)
    requires !Fits(sink, at, script)
    ensures k < |script| && script[k].Octet? && p == |Values(script[..k])|
    ensures p < |Octets(script)| && (script[k].value, script[k].role) == Octets(script)[p]
    ensures Accepts(sink, at, p) && !sink(at + p)
    ensures Happened(sink, at, script) == Full(script[..k]) + Refusal(sink, at + p, script[k].value, script[k].role)
    decreases script
  {
    hide Happened, Values, Octets, Full, Refusal, Fits, Accepts, Tried;
    NoneFits(sink, at);
    FirstHappens(sink, at, script);
    FirstOctet(script);
    if script[0].Octet? && !sink(at) {
      k, p := 0, 0;
      assert script[..0] == [];
      assert [] + Refusal(sink, at, script[0].value, script[0].role)
          == Refusal(sink, at, script[0].value, script[0].role);
    } else {
      var first := Width(script[0]);
      k, p := CutAt(sink, at + first, script[1..]);
      FirstOf(script, k + 1);
      AcceptsMore(sink, at, first, p);
      var refusal := Refusal(sink, at + first + p, script[k + 1].value, script[k + 1].role);
      assert [EffectOf(script[0])] + Full(script[1..][..k]) + refusal
          == [EffectOf(script[0])] + (Full(script[1..][..k]) + refusal);
      k, p := k + 1, p + first;
    }
  }

  // ----- Offers

  /** The octets, out of these, that are accepted in a row, up to the first refused one. */
  function Taken(sink: Sink, at: nat, octets: seq<byte>): (taken: seq<byte>)
    ensures taken <= octets && Accepts(sink, at, |taken|)
    ensures |taken| < |octets| ==> !sink(at + |taken|)
    decreases octets
  {
    if octets == [] || !sink(at) then [] else [octets[0]] + Taken(sink, at + 1, octets[1..])
  }

  /** The same with the refused one. */
  function Offers(sink: Sink, at: nat, octets: seq<byte>): seq<byte> {
    var k := |Taken(sink, at, octets)|;
    if k < |octets| then octets[..k + 1] else octets
  }

  lemma {:induction false} TriedAre(sink: Sink, at: nat, octets: seq<byte>)
    ensures AcceptedIn(Tried(sink, at, octets)) == Taken(sink, at, octets)
    ensures OfferedIn(Tried(sink, at, octets)) == Offers(sink, at, octets)
    ensures Calls(Tried(sink, at, octets)) == []
    decreases octets
  {
    hide Accepts;
    if octets != [] {
      hide AcceptedIn, OfferedIn, Calls, Taken, Offers;
      OneOffer(octets[0], sink(at));
      FirstOffer(sink, at, octets);
      if sink(at) {
        TriedAre(sink, at + 1, octets[1..]);
        TraceConcat([Offered(octets[0], true)], Tried(sink, at + 1, octets[1..]));
      } else {
        assert [Offered(octets[0], false)] + [] == [Offered(octets[0], false)];
      }
    }
  }

  lemma {:induction false} OnlyOffersTried(sink: Sink, at: nat, octets: seq<byte>)
    ensures forall i :: 0 <= i < |Tried(sink, at, octets)| ==> Tried(sink, at, octets)[i].Offered?
    decreases octets
  {
    if octets != [] {
      OnlyOffersTried(sink, at + 1, octets[1..]);
    }
  }

  lemma FirstOffer(sink: Sink, at: nat, octets: seq<byte>)
    requires octets != []
    ensures Taken(sink, at, octets) == if sink(at) then [octets[0]] + Taken(sink, at + 1, octets[1..]) else []
    ensures Offers(sink, at, octets) == [octets[0]] + if sink(at) then Offers(sink, at + 1, octets[1..]) else []
  {
  }

  lemma OneOffer(octet: byte, accepted: bool)
    ensures AcceptedIn([Offered(octet, accepted)]) == if accepted then [octet] else []
    ensures OfferedIn([Offered(octet, accepted)]) == [octet] && Calls([Offered(octet, accepted)]) == []
  {
    assert [Offered(octet, accepted)][..0] == [];
  }

  lemma RefusalIs(sink: Sink, at: nat, value: byte, role: Role)
    ensures AcceptedIn(Refusal(sink, at, value, role)) == Taken(sink, at + 1, Again(value, role))
    ensures OfferedIn(Refusal(sink, at, value, role)) == [value] + Offers(sink, at + 1, Again(value, role))
    ensures Calls(Refusal(sink, at, value, role)) == []
    ensures forall i :: 0 <= i < |Refusal(sink, at, value, role)| ==> Refusal(sink, at, value, role)[i].Offered?
  {
    hide Taken, Offers, Again, AcceptedIn, OfferedIn, Calls, Tried;
    OneOffer(value, false);
    TriedAre(sink, at + 1, Again(value, role));
    OnlyOffersTried(sink, at + 1, Again(value, role));
    TraceConcat([Offered(value, false)], Tried(sink, at + 1, Again(value, role)));
  }

  lemma {:induction false} FullOffers(script: seq<Item>)
    ensures AcceptedIn(Full(script)) == Values(script) && OfferedIn(Full(script)) == Values(script)
  {
    if script != [] {
      var k := |script| - 1;
      FullOffers(script[..k]);
      assert Full(script)[..k] == Full(script[..k]);
      assert script == script[..k] + [script[k]];
      ValuesConcat(script[..k], [script[k]]);
      assert [script[k]][1..] == [];
    }
  }

  /** The octets still to be offered after octet p of a script is refused. */
  function Leftover(script: seq<Item>, p: nat): seq<byte> {
    if p < |Octets(script)| then Again(Octets(script)[p].0, Octets(script)[p].1) else []
  }

  lemma LeftoverConcat(a: seq<Item>, b: seq<Item>, p: nat)
    ensures Leftover(a + b, p) == if p < |Values(a)| then Leftover(a, p) else Leftover(b, p - |Values(a)|)
  {
    OctetsHaveValues(a);
    OctetsConcat(a, b);
  }

  lemma OneLeft(value: byte, role: Role, p: nat)
    ensures Leftover([Octet(value, role)], p) == if p == 0 then Again(value, role) else []
    ensures |Values([Octet(value, role)])| == 1
  {
    AllOctets([Octet(value, role)]);
    OctetsHaveValues([Octet(value, role)]);
  }

  lemma {:induction false} AllOctets(script: seq<Item>)
    requires forall i :: 0 <= i < |script| ==> script[i].Octet?
    ensures |Octets(script)| == |script|
    ensures forall i :: 0 <= i < |script| ==> Octets(script)[i] == (script[i].value, script[i].role)
  {
    if script != [] {
      AllOctets(script[1..]);
    }
  }

  lemma TakenIs(sink: Sink, at: nat, octets: seq<byte>, p: nat)
    requires p <= |octets| && Accepts(sink, at, p) && (p < |octets| ==> !sink(at + p))
    ensures Taken(sink, at, octets) == octets[..p]
  {
    assert |Taken(sink, at, octets)| == p;
  }

  /** What a script offers, and what gets through, whatever the sink does. */
  lemma ScriptOffers(sink: Sink, at: nat, script: seq<Item>)
    ensures var t, p := Happened(sink, at, script), |Taken(sink, at, Values(script))|;
            && (Fits(sink, at, script) <==> p == |Values(script)|)
            && AcceptedIn(t) == Values(script)[..p]
                  + (if Fits(sink, at, script) then [] else Taken(sink, at + p + 1, Leftover(script, p)))
            && OfferedIn(t) == (if p == |Values(script)| then Values(script)
                                else Values(script)[..p + 1] + Offers(sink, at + p + 1, Leftover(script, p)))
  {
    hide Happened, Refusal, Again, Offers, Taken, Values, Octets, AcceptedIn, OfferedIn, Full;
    var octets := Values(script);
    if Fits(sink, at, script) {
      FullIfFits(sink, at, script);
      FullOffers(script);
      TakenIs(sink, at, octets, |octets|);
      assert octets[..|octets|] + [] == octets;
    } else {
      var k, p := CutAt(sink, at, script);
      FullOffers(script[..k]);
      Refused(sink, at, script, k, p);
      TakenIs(sink, at, octets, p);
      assert octets[..p + 1] == octets[..p] + [octets[p]];
      RefusalIs(sink, at + p, script[k].value, script[k].role);
      TraceConcat(Full(script[..k]), Refusal(sink, at + p, script[k].value, script[k].role));
      var more := Offers(sink, at + p + 1, Leftover(script, p));
      assert octets[..p] + ([octets[p]] + more) == octets[..p + 1] + more;
    }
  }

  lemma Refused(sink: Sink, at: nat, script: seq<Item>, k: nat, p: nat)
    requires k < |script| && script[k].Octet? && p == |Values(script[..k])|
    ensures p < |Values(script)| && Values(script)[..p] == Values(script[..k]) && Values(script)[p] == script[k].value
    ensures p < |Octets(script)|
  {
    OctetsHaveValues(script);
    ValuesConcat(script[..k], script[k..]);
    assert script[..k] + script[k..] == script;
  }

  // ----- What is left over, group by group

  lemma CallIsSilent(script: seq<Item>, call: seq<Item>, p: nat)
    requires call == [] || (|call| == 1 && !call[0].Octet?)
    ensures Values(script + call) == Values(script)
    ensures Leftover(script + call, p) == Leftover(script, p)
  {
    OctetsConcat(script, call);
    ValuesConcat(script, call);
    assert call != [] ==> call[1..] == [];
    assert Values(call) == [] && Octets(call) == [];
    assert Values(script) + [] == Values(script) && Octets(script) + [] == Octets(script);
  }

  lemma NothingLeft(script: seq<Item>, p: nat)
    ensures p >= |Values(script)| ==> Leftover(script, p) == []
  {
    OctetsHaveValues(script);
  }

  lemma {:induction false} CasesLeft(cases: seq<nat>, outcomes: seq<int8>, n: nat, p: nat)
    requires n <= |cases| == |outcomes|
    ensures n / 8 <= |Pack(Verdicts(outcomes))| && |Values(CasesUpTo(cases, outcomes, n))| == n / 8
    ensures Leftover(CasesUpTo(cases, outcomes, n), p) == if p < n / 8 then [Pack(Verdicts(outcomes))[p]] else []
    decreases n
  {
    hide Leftover, Values, Pack, Verdicts, Stopped;
    CasesUpToValues(cases, outcomes, n);
    if n == 0 {
      NothingLeft(CasesUpTo(cases, outcomes, 0), p);
    } else {
      CasesLeft(cases, outcomes, n - 1, p);
      var before := CasesUpTo(cases, outcomes, n - 1);
      var run := if Stopped(outcomes[..n - 1]) then [] else [Case(cases[n - 1])];
      CallIsSilent(before, run, p);
      if n % 8 == 0 {
        var value := Pack(Verdicts(outcomes))[n / 8 - 1];
        OneLeft(value, Results(8), if p < n / 8 - 1 then 0 else p - (n / 8 - 1));
        LeftoverConcat(before + run, [Octet(value, Results(8))], p);
      } else {
        assert before + run + [] == before + run;
      }
    }
  }

  lemma ResultsLeft(cases: seq<nat>, outcomes: seq<int8>, p: nat)
    requires |cases| == |outcomes|
    ensures |cases| / 8 <= |Pack(Verdicts(outcomes))|
    ensures Leftover(CasesScript(cases, outcomes), p)
         == if p < |cases| / 8 then [Pack(Verdicts(outcomes))[p]] else []
  {
    hide CasesUpTo, Values, Pack, Verdicts, Leftover;
    var n := |cases|;
    CasesLeft(cases, outcomes, n, p);
    if n % 8 != 0 {
      var value := Pack(Verdicts(outcomes))[n / 8];
      OneLeft(value, Results(n % 8), if p < n / 8 then 0 else p - n / 8);
      LeftoverConcat(CasesUpTo(cases, outcomes, n), [Octet(value, Results(n % 8))], p);
    } else {
      assert CasesUpTo(cases, outcomes, n) + [] == CasesUpTo(cases, outcomes, n);
    }
  }

  lemma HeaderLeft(id: bv32, p: nat)
    ensures Leftover(HeaderScript(id), p) == if p == 0 then BigEndian(id) else []
    ensures |GroupHeader(id)| == 5
  {
    hide BigEndian, IdOctet;
    AllOctets(HeaderScript(id));
    assert p < 5 ==> p == 0 || p == 1 || p == 2 || p == 3 || p == 4;
  }

  lemma GroupLeft(def: GroupDef, g: Group, p: nat)
    requires def.id == g.id && |def.cases| == |g.outcomes|
    ensures |Values(GroupScript(def, g))| == |GroupOffer(g)|
    ensures |g.outcomes| / 8 <= |Pack(Verdicts(g.outcomes))|
    ensures Leftover(GroupScript(def, g), p)
         == if p == 0 then BigEndian(g.id)
            else if g.entry != Some(false) && 5 <= p < 5 + |g.outcomes| / 8 then [Pack(Verdicts(g.outcomes))[p - 5]]
            else []
  {
    hide HeaderScript, CasesScript, GroupHeader, Leftover, Pack, Verdicts, BigEndian;
    GroupValues(def, g);
    HeaderValues(def.id);
    CasesValues(def.cases, g.outcomes);
    HeaderLeft(def.id, p);
    CallIsSilent(HeaderScript(def.id), ActionScript(def.entry), p);
    var header, p' := HeaderScript(def.id) + ActionScript(def.entry), if p < 5 then 0 else p - 5;
    ResultsLeft(def.cases, g.outcomes, p');
    if g.entry == Some(false) {
      assert header + [] == header;
      NothingLeft(header, p);
    } else {
      var cases := CasesScript(def.cases, g.outcomes);
      var end := if g.exit == Some(false) then [] else [Octet(EXIT_GROUP, GroupEnd)];
      var p'' := if p' < |Values(cases)| then 0 else p' - |Values(cases)|;
      CallIsSilent(cases, ActionScript(def.exit), p');
      OneLeft(EXIT_GROUP, GroupEnd, p'');
      NothingLeft([], p'');
      LeftoverConcat(cases + ActionScript(def.exit), end, p');
      LeftoverConcat(header, cases + ActionScript(def.exit) + end, p);
    }
  }

  /**
   The octets that the code is still to offer after octet p of what the groups offer was refused: the
   id after a group marker; the octet itself if it completes eight test cases. The results start after
   the five octets of a group's header, eight test cases to an octet.
   */
  function StillOffered(gs: seq<Group>, p: nat): seq<byte> {
    if gs == [] then []
    else
      var g, n := gs[0], |GroupOffer(gs[0])|;
      if p >= n then (if GroupResult(g) < 0 then [] else StillOffered(gs[1..], p - n))
      else if p == 0 then BigEndian(g.id)
      else if 5 <= p < 5 + |g.outcomes| / 8 then [Pack(Verdicts(g.outcomes))[p - 5]]
      else []
  }

  lemma {:induction false} GroupsLeft(defs: seq<GroupDef>, gs: seq<Group>, p: nat)
    requires |defs| == |gs|
    requires forall i :: 0 <= i < |gs| ==> defs[i].id == gs[i].id && |defs[i].cases| == |gs[i].outcomes|
    ensures Leftover(GroupsScript(defs, gs), p) == StillOffered(gs, p)
    decreases gs
  {
    hide GroupScript, Leftover, Pack, Verdicts, BigEndian, GroupHeader;
    if gs == [] {
      OneLeft(END_OF_FILE, FileEnd, p);
    } else {
      var n := |GroupOffer(gs[0])|;
      GroupLeft(defs[0], gs[0], p);
      HeaderLeft(gs[0].id, 0);
      NothingLeft(GroupScript(defs[0], gs[0]), p);
      if GroupResult(gs[0]) >= 0 {
        var later := if p < n then 0 else p - n;
        GroupsLeft(defs[1..], gs[1..], later);
        LeftoverConcat(GroupScript(defs[0], gs[0]), GroupsScript(defs[1..], gs[1..]), p);
      } else {
        assert GroupScript(defs[0], gs[0]) + [] == GroupScript(defs[0], gs[0]);
      }
    }
  }

  /** The same with the magic number counted in. */
  function StillOfferedInRun(gs: seq<Group>, p: nat): seq<byte> {
    if p < |FOUR_CC| then [] else StillOffered(gs, p - |FOUR_CC|)
  }

  /** The octets that RTTestRun leaves in the sink. */
  function WrittenBy(sink: Sink, at: nat, gs: seq<Group>): seq<byte> {
    var offer := FOUR_CC + RunOffer(gs);
    var p := |Taken(sink, at, offer)|;
    if p == |offer| then offer else offer[..p] + Taken(sink, at + p + 1, StillOfferedInRun(gs, p))
  }

  /** The octets that RTTestRun offers to the sink. */
  function OfferedBy(sink: Sink, at: nat, gs: seq<Group>): seq<byte> {
    var offer := FOUR_CC + RunOffer(gs);
    var p := |Taken(sink, at, offer)|;
    if p == |offer| then offer else offer[..p + 1] + Offers(sink, at + p + 1, StillOfferedInRun(gs, p))
  }

  lemma RunLeft<W>(env: Env<W>, w: W, defs: seq<GroupDef>, p: nat)
    ensures Leftover(RunScript(env, w, defs), p) == StillOfferedInRun(PlayAll(env, w, defs), p)
  {
    hide GroupsScript, StillOffered, Leftover, PlayAll;
    var gs := PlayAll(env, w, defs);
    MagicValues();
    MagicLeft(p);
    GroupsLeft(defs, gs, if p < 4 then 0 else p - 4);
    LeftoverConcat(MAGIC, GroupsScript(defs, gs), p);
  }

  lemma MagicLeft(p: nat)
    ensures Leftover(MAGIC, p) == []
  {
    AllOctets(MAGIC);
    assert p < 4 ==> p == 0 || p == 1 || p == 2 || p == 3;
  }

  /**
   What a run offers and what gets through, for every sink. The run is documented to stop immediately
   when the sink refuses an octet. Instead, after a refused group marker the octets of the id are
   offered, up to another refusal, and after a refused octet that completes eight test cases, that
   octet again; in all other cases nothing.
   */
  lemma RunOffers<W>(env: Env<W>, w: W, defs: seq<GroupDef>, sink: Sink, at: nat)
    ensures var t, gs := Happened(sink, at, RunScript(env, w, defs)), PlayAll(env, w, defs);
            && OfferedIn(t) == OfferedBy(sink, at, gs)
            && AcceptedIn(t) == WrittenBy(sink, at, gs)
  {
    hide RunScript, Happened, RunOffer, StillOfferedInRun, PlayAll, Leftover, Taken, Offers, Values, Fits;
    hide AcceptedIn, OfferedIn;
    var gs, script := PlayAll(env, w, defs), RunScript(env, w, defs);
    RunValues(env, w, defs);
    ScriptOffers(sink, at, script);
    RunLeft(env, w, defs, |Taken(sink, at, Values(script))|);
    var offer, p := FOUR_CC + RunOffer(gs), |Taken(sink, at, Values(script))|;
    assert p == |offer| ==> offer[..p] + [] == offer;
  }

  /**
   How many octets are refused: none if all are accepted; one if so are all those still offered; two
   otherwise.
   */
  lemma RefusedBy(sink: Sink, at: nat, gs: seq<Group>)
    ensures var offer := FOUR_CC + RunOffer(gs);
            var p := |Taken(sink, at, offer)|;
            |OfferedBy(sink, at, gs)| - |WrittenBy(sink, at, gs)|
            == if Accepts(sink, at, |offer|) then 0
               else if Accepts(sink, at + p + 1, |StillOfferedInRun(gs, p)|) then 1
               else 2
  {
    hide RunOffer, StillOfferedInRun, Taken;
    var offer := FOUR_CC + RunOffer(gs);
    var p := |Taken(sink, at, offer)|;
    var still := StillOfferedInRun(gs, p);
    AllTakenIff(sink, at, offer);
    AllTakenIff(sink, at + p + 1, still);
  }

  lemma AllTakenIff(sink: Sink, at: nat, octets: seq<byte>)
    ensures Accepts(sink, at, |octets|) <==> |Taken(sink, at, octets)| == |octets|
  {
  }

  lemma {:induction false} ResultIsNotMinusOne(gs: seq<Group>, last: int)
    requires last >= 0
    ensures RunResult(gs, last) != -1
    decreases gs
  {
    if gs != [] && GroupResult(gs[0]) >= 0 {
      ResultIsNotMinusOne(gs[1..], GroupResult(gs[0]));
    }
  }

  // ----- After a refusal

  /** Refuses for good after n octets. */
  function RefusesFrom(n: nat): Sink {
    i => i < n
  }

  /** Refuses one octet only. */
  function RefusesOnce(n: nat): Sink {
    i => i != n
  }

  const EIGHT_CASES: GroupDef := GroupDef(7, None, None, [0, 0, 0, 0, 0, 0, 0, 0])

  /**
   A group with id 7 and eight test cases. If its marker is refused, an octet of the id is offered, and
   the whole id if that is accepted. If its result octet is refused, it is offered again. If the first
   octet of the id is refused, nothing more is offered.
   */
  lemma OffersAfterRefusal<W>(env: Env<W>, w: W)
    ensures var script, id := RunScript(env, w, [EIGHT_CASES]), BigEndian(7);
            && OfferedIn(Happened(RefusesFrom(4), 0, script)) == FOUR_CC + [ENTER_GROUP] + [id[0]]
            && OfferedIn(Happened(RefusesOnce(4), 0, script)) == FOUR_CC + [ENTER_GROUP] + id
            && OfferedIn(Happened(RefusesFrom(5), 0, script)) == FOUR_CC + [ENTER_GROUP] + [id[0]]
            && |OfferedIn(Happened(RefusesFrom(9), 0, script))| == 11
  {
    hide OfferedIn, AcceptedIn, Happened, RunScript, PlayAll, BigEndian, Pack, Verdicts, Taken, RunOffer, StillOffered;
    var gs := PlayAll(env, w, [EIGHT_CASES]);
    EightCases(env, w);
    RunOffers(env, w, [EIGHT_CASES], RefusesFrom(4), 0);
    RunOffers(env, w, [EIGHT_CASES], RefusesOnce(4), 0);
    RunOffers(env, w, [EIGHT_CASES], RefusesFrom(5), 0);
    RunOffers(env, w, [EIGHT_CASES], RefusesFrom(9), 0);
    RefusedAt(gs, 4);
    RefusedAt(gs, 5);
    RefusedAt(gs, 9);
    TakenIs(RefusesFrom(4), 5, BigEndian(7), 0);
    TakenIs(RefusesOnce(4), 5, BigEndian(7), 4);
    TakenIs(RefusesFrom(9), 10, StillOffered(gs, 5), 0);
  }

  lemma RefusedAt(gs: seq<Group>, p: nat)
    requires p < |FOUR_CC + RunOffer(gs)|
    ensures |Taken(RefusesFrom(p), 0, FOUR_CC + RunOffer(gs))| == p
    ensures |Taken(RefusesOnce(p), 0, FOUR_CC + RunOffer(gs))| == p
  {
    hide RunOffer;
    TakenIs(RefusesFrom(p), 0, FOUR_CC + RunOffer(gs), p);
    TakenIs(RefusesOnce(p), 0, FOUR_CC + RunOffer(gs), p);
  }

  lemma EightCases<W>(env: Env<W>, w: W)
    ensures var gs := PlayAll(env, w, [EIGHT_CASES]);
            && |gs| == 1 && gs[0].entry.None? && gs[0].exit.None? && |gs[0].outcomes| == 8 && gs[0].id == 7
            && RunOffer(gs)[..5] == [ENTER_GROUP] + BigEndian(7) && |RunOffer(gs)| == 8
            && StillOffered(gs, 0) == BigEndian(7) && StillOffered(gs, 1) == [] && |StillOffered(gs, 5)| == 1
  {
    hide PlayCases, BigEndian, Verdicts, Pack;
    assert [EIGHT_CASES][1..] == [];
    var g := PlayAll(env, w, [EIGHT_CASES])[0];
    assert GroupOffer(g)[..5] == GroupHeader(7) && |GroupOffer(g)| == 7 && GroupResult(g) >= 0;
  }

  predicate IsRefusal(e: Effect) {
    e.Offered? && !e.accepted
  }

  predicate SomeRefused(t: seq<Effect>) {
    exists i :: 0 <= i < |t| && IsRefusal(t[i])
  }

  lemma RefusedIff(sink: Sink, at: nat, script: seq<Item>)
    ensures SomeRefused(Happened(sink, at, script)) <==> !Fits(sink, at, script)
  {
    hide Happened, Refusal, Fits, Accepts;
    if Fits(sink, at, script) {
      FullIfFits(sink, at, script);
    } else {
      var k, p := CutAt(sink, at, script);
      FirstIsRefused(sink, at + p, script[k].value, script[k].role);
      assert Happened(sink, at, script)[k] == Offered(script[k].value, false);
    }
  }

  lemma FirstIsRefused(sink: Sink, at: nat, value: byte, role: Role)
    ensures Refusal(sink, at, value, role) != [] && Refusal(sink, at, value, role)[0] == Offered(value, false)
  {
  }

  /** Nothing is called after a refusal; what is offered then is said by RunOffers. */
  lemma RefusalEnds(sink: Sink, at: nat, script: seq<Item>, i: nat, j: nat)
    requires i < j < |Happened(sink, at, script)| && IsRefusal(Happened(sink, at, script)[i])
    ensures Happened(sink, at, script)[j].Offered?
  {
    hide Happened, Refusal, Fits, Accepts, Again, Taken, Offers, AcceptedIn, OfferedIn, Calls, Octets, Values;
    if Fits(sink, at, script) {
      FullIfFits(sink, at, script);
    } else {
      var k, p := CutAt(sink, at, script);
      var part, refusal := Full(script[..k]), Refusal(sink, at + p, script[k].value, script[k].role);
      RefusalIs(sink, at + p, script[k].value, script[k].role);
      assert i >= k;
      assert (part + refusal)[j] == refusal[j - k];
    }
  }

  // ----- Calls

  /** How many test cases are called: those up to the first fatal one, which is called too. */
  function Called(outcomes: seq<int8>): (n: nat)
    ensures n <= |outcomes|
    ensures forall j :: 0 <= j < n - 1 ==> outcomes[j] >= 0
    ensures n == |outcomes| || (n > 0 && outcomes[n - 1] < 0)
  {
    if outcomes == [] then 0
    else
      var k := |outcomes| - 1;
      if Stopped(outcomes[..k]) then Called(outcomes[..k]) else k + 1
  }

  function ActionCalls(action: Option<nat>): seq<Effect> {
    if action.Some? then [RanAction(action.value)] else []
  }

  function CaseCalls(cases: seq<nat>): (calls: seq<Effect>)
    ensures |calls| == |cases|
    ensures forall i :: 0 <= i < |calls| ==> calls[i] == RanCase(cases[i])
  {
    seq(|cases|, i requires 0 <= i < |cases| => RanCase(cases[i]))
  }

  /** Entry action, test cases up to the first fatal one, exit action; nothing after a failing action. */
  function GroupCalls(def: GroupDef, g: Group): seq<Effect>
    requires |def.cases| == |g.outcomes|
  {
    ActionCalls(def.entry) +
    if g.entry == Some(false) then []
    else CaseCalls(def.cases[..Called(g.outcomes)]) + ActionCalls(def.exit)
  }

  function RunCalls(defs: seq<GroupDef>, gs: seq<Group>): seq<Effect>
    requires |defs| == |gs| && forall i :: 0 <= i < |gs| ==> |defs[i].cases| == |gs[i].outcomes|
  {
    if gs == [] then []
    else GroupCalls(defs[0], gs[0]) + if GroupResult(gs[0]) < 0 then [] else RunCalls(defs[1..], gs[1..])
  }

  lemma FullConcat(a: seq<Item>, b: seq<Item>)
    ensures Full(a + b) == Full(a) + Full(b)
    ensures Calls(Full(a + b)) == Calls(Full(a)) + Calls(Full(b))
  {
    assert Full(a + b) == Full(a) + Full(b);
    TraceConcat(Full(a), Full(b));
  }

  lemma {:induction false} OctetsCallNothing(script: seq<Item>)
    requires forall i :: 0 <= i < |script| ==> script[i].Octet?
    ensures Calls(Full(script)) == []
  {
    if script != [] {
      OctetsCallNothing(script[1..]);
      assert script == [script[0]] + script[1..];
      FullConcat([script[0]], script[1..]);
      assert Full([script[0]]) == [Offered(script[0].value, true)];
      assert [Offered(script[0].value, true)][..0] == [];
    }
  }

  lemma ActionCalled(action: Option<nat>)
    ensures Full(ActionScript(action)) == ActionCalls(action)
    ensures Calls(Full(ActionScript(action))) == ActionCalls(action)
  {
    if action.Some? {
      assert ActionScript(action)[1..] == [];
      assert ActionCalls(action)[..0] == [];
    }
  }

  lemma CaseCalled(testCase: nat)
    ensures Full([Case(testCase)]) == [RanCase(testCase)] == Calls([RanCase(testCase)])
  {
    assert [Case(testCase)][1..] == [] && [RanCase(testCase)][..0] == [];
  }

  lemma CalledNext(cases: seq<nat>, outcomes: seq<int8>, n: nat)
    requires 0 < n <= |cases| == |outcomes|
    ensures CaseCalls(cases[..Called(outcomes[..n])])
         == CaseCalls(cases[..Called(outcomes[..n - 1])])
            + if Stopped(outcomes[..n - 1]) then [] else [RanCase(cases[n - 1])]
  {
    assert outcomes[..n][..n - 1] == outcomes[..n - 1];
    if !Stopped(outcomes[..n - 1]) {
      NotStopped(outcomes[..n - 1]);
    }
  }

  lemma NotStopped(outcomes: seq<int8>)
    requires !Stopped(outcomes)
    ensures Called(outcomes) == |outcomes|
  {
  }

  lemma {:induction false} CasesCalled(cases: seq<nat>, outcomes: seq<int8>, n: nat)
    requires n <= |cases| == |outcomes|
    ensures Calls(Full(CasesUpTo(cases, outcomes, n))) == CaseCalls(cases[..Called(outcomes[..n])])
    decreases n
  {
    hide Full, Calls, Pack, Verdicts, Stopped, Called, CaseCalls, Values;
    OctetsCallNothing([]);
    if n == 0 {
      NothingCalled(cases, outcomes);
    } else {
      CasesCalled(cases, outcomes, n - 1);
      CalledNext(cases, outcomes, n);
      var run := if Stopped(outcomes[..n - 1]) then [] else [Case(cases[n - 1])];
      var fill := if n % 8 == 0 then [Octet(Pack(Verdicts(outcomes))[n / 8 - 1], Results(8))] else [];
      FullConcat(CasesUpTo(cases, outcomes, n - 1), run);
      FullConcat(CasesUpTo(cases, outcomes, n - 1) + run, fill);
      OctetsCallNothing(fill);
      CaseCalled(cases[n - 1]);
    }
  }

  lemma NothingCalled(cases: seq<nat>, outcomes: seq<int8>)
    ensures CaseCalls(cases[..Called(outcomes[..0])]) == []
  {
  }

  lemma ResultsCalled(cases: seq<nat>, outcomes: seq<int8>)
    requires |cases| == |outcomes|
    ensures Calls(Full(CasesScript(cases, outcomes))) == CaseCalls(cases[..Called(outcomes)])
  {
    hide Full, Calls, CasesUpTo, Pack, Verdicts, Called, CaseCalls;
    var n := |cases|;
    var last := if n % 8 == 0 then [] else [Octet(Pack(Verdicts(outcomes))[n / 8], Results(n % 8))];
    CasesCalled(cases, outcomes, n);
    assert outcomes[..n] == outcomes;
    FullConcat(CasesUpTo(cases, outcomes, n), last);
    OctetsCallNothing(last);
  }

  lemma GroupCalled(def: GroupDef, g: Group)
    requires def.id == g.id && |def.cases| == |g.outcomes|
    ensures Calls(Full(GroupScript(def, g))) == GroupCalls(def, g)
  {
    hide Full, Calls, HeaderScript, CasesScript, ActionScript, ActionCalls, CaseCalls, Called;
    var header, entry, cases, exit := HeaderScript(def.id), ActionScript(def.entry),
                                      CasesScript(def.cases, g.outcomes), ActionScript(def.exit);
    var end := if g.exit == Some(false) then [] else [Octet(EXIT_GROUP, GroupEnd)];
    HeaderIsOctets(def.id);
    OctetsCallNothing(header);
    OctetsCallNothing(end);
    OctetsCallNothing([]);
    ActionCalled(def.entry);
    ActionCalled(def.exit);
    ResultsCalled(def.cases, g.outcomes);
    FullConcat(header, entry);
    FullConcat(cases, exit);
    FullConcat(cases + exit, end);
    FullConcat(header + entry, if g.entry == Some(false) then [] else cases + exit + end);
  }

  lemma HeaderIsOctets(id: bv32)
    ensures forall i :: 0 <= i < 5 ==> HeaderScript(id)[i].Octet?
  {
  }

  lemma {:induction false} GroupsCalled(defs: seq<GroupDef>, gs: seq<Group>)
    requires |defs| == |gs|
    requires forall i :: 0 <= i < |gs| ==> defs[i].id == gs[i].id && |defs[i].cases| == |gs[i].outcomes|
    ensures Calls(Full(GroupsScript(defs, gs))) == RunCalls(defs, gs)
  {
    hide Full, Calls, GroupScript, GroupCalls, GroupResult;
    OctetsCallNothing([Octet(END_OF_FILE, FileEnd)]);
    if gs != [] {
      GroupCalled(defs[0], gs[0]);
      OctetsCallNothing([]);
      var rest := if GroupResult(gs[0]) < 0 then [] else GroupsScript(defs[1..], gs[1..]);
      if GroupResult(gs[0]) >= 0 {
        GroupsCalled(defs[1..], gs[1..]);
      }
      FullConcat(GroupScript(defs[0], gs[0]), rest);
    }
  }

  /** A refusal cuts the calls short. */
  lemma CutCalls(sink: Sink, at: nat, script: seq<Item>)
    ensures Calls(Happened(sink, at, script)) <= Calls(Full(script))
    ensures Fits(sink, at, script) ==> Calls(Happened(sink, at, script)) == Calls(Full(script))
  {
    hide Full, Happened, Refusal, Calls, Fits, Accepts;
    if Fits(sink, at, script) {
      FullIfFits(sink, at, script);
    } else {
      var k, p := CutAt(sink, at, script);
      var refusal := Refusal(sink, at + p, script[k].value, script[k].role);
      assert script[..k] + script[k..] == script;
      FullConcat(script[..k], script[k..]);
      RefusalIs(sink, at + p, script[k].value, script[k].role);
      TraceConcat(Full(script[..k]), refusal);
      assert Calls(Full(script[..k])) + [] == Calls(Full(script[..k]));
    }
  }

  /**
   The application code called in a run: for each selected group in order its entry action, its test
   cases up to the first fatal one, and its exit action, up to the first failing action. If the sink
   refuses an octet, a beginning of that.
   */
  lemma RunCallsAre<W>(env: Env<W>, w: W, defs: seq<GroupDef>, sink: Sink, at: nat)
    ensures var gs := PlayAll(env, w, defs);
            var t := Happened(sink, at, RunScript(env, w, defs));
            && Calls(t) <= RunCalls(defs, gs)
            && (!SomeRefused(t) ==> Calls(t) == RunCalls(defs, gs))
  {
    hide Full, Happened, Calls, GroupsScript, RunCalls, PlayAll, Fits, SomeRefused;
    var gs, script := PlayAll(env, w, defs), RunScript(env, w, defs);
    GroupsCalled(defs, gs);
    OctetsCallNothing(MAGIC);
    FullConcat(MAGIC, GroupsScript(defs, gs));
    RefusedIff(sink, at, script);
    CutCalls(sink, at, script);
  }

  // ----- What the return value says

  /** How many actions failed. */
  function FailedActions<W>(env: Env<W>, w: W, trace: seq<Effect>): nat {
    if trace == [] then 0
    else
      var k := |trace| - 1;
      FailedActions(env, w, trace[..k])
      + if trace[k].RanAction? && !env.action(WorldAfter(env, w, trace[..k]), trace[k].action).1 then 1 else 0
  }

  lemma {:induction false} FailedConcat<W>(env: Env<W>, w: W, a: seq<Effect>, b: seq<Effect>)
    ensures WorldAfter(env, w, a + b) == WorldAfter(env, WorldAfter(env, w, a), b)
    ensures FailedActions(env, w, a + b) == FailedActions(env, w, a) + FailedActions(env, WorldAfter(env, w, a), b)
  {
    if b == [] {
      assert a + b == a;
    } else {
      var k := |b| - 1;
      FailedConcat(env, w, a, b[..k]);
      assert (a + b)[..|a + b| - 1] == a + b[..k];
    }
  }

  /** Octets, test cases: nothing that can fail the run. */
  lemma {:induction false} NoActionNoFailure<W>(env: Env<W>, w: W, trace: seq<Effect>)
    requires forall i :: 0 <= i < |trace| ==> !trace[i].RanAction?
    ensures FailedActions(env, w, trace) == 0
    ensures (forall i :: 0 <= i < |trace| ==> trace[i].Offered?) ==> WorldAfter(env, w, trace) == w
  {
    if trace != [] {
      NoActionNoFailure(env, w, trace[..|trace| - 1]);
    }
  }

  lemma QuietScript<W>(env: Env<W>, w: W, script: seq<Item>)
    requires forall i :: 0 <= i < |script| ==> !script[i].Action?
    ensures FailedActions(env, w, Full(script)) == 0
    ensures (forall i :: 0 <= i < |script| ==> script[i].Octet?) ==> WorldAfter(env, w, Full(script)) == w
  {
    NoActionNoFailure(env, w, Full(script));
  }

  lemma ActionPlayed<W>(env: Env<W>, w: W, action: Option<nat>)
    ensures var t := Full(ActionScript(action));
            && WorldAfter(env, w, t) == PlayAction(env, w, action).0
            && FailedActions(env, w, t) == (if PlayAction(env, w, action).1 then 0 else 1)
  {
    ActionCalled(action);
    if action.Some? {
      assert ActionCalls(action)[..0] == [];
    }
  }

  lemma PlayedThen<W>(env: Env<W>, w: W, a: seq<Item>, b: seq<Item>)
    ensures var t, u := Full(a), Full(b);
            && WorldAfter(env, w, Full(a + b)) == WorldAfter(env, WorldAfter(env, w, t), u)
            && FailedActions(env, w, Full(a + b))
               == FailedActions(env, w, t) + FailedActions(env, WorldAfter(env, w, t), u)
  {
    FullConcat(a, b);
    FailedConcat(env, w, Full(a), Full(b));
  }

  lemma CasePlayed<W>(env: Env<W>, w: W, testCase: nat)
    ensures WorldAfter(env, w, Full([Case(testCase)])) == env.testCase(w, testCase).0
  {
    CaseCalled(testCase);
    assert [RanCase(testCase)][..0] == [];
  }

  lemma {:induction false} CasesOnly(cases: seq<nat>, outcomes: seq<int8>, n: nat)
    requires n <= |cases| == |outcomes|
    ensures forall i :: 0 <= i < |CasesUpTo(cases, outcomes, n)| ==> !CasesUpTo(cases, outcomes, n)[i].Action?
    decreases n
  {
    hide Stopped, Pack, Verdicts;
    if n > 0 {
      CasesOnly(cases, outcomes, n - 1);
    }
  }

  lemma {:induction false} CasesPlayed<W>(env: Env<W>, w: W, cases: seq<nat>, n: nat)
    requires n <= |cases|
    ensures WorldAfter(env, w, Full(CasesUpTo(cases, PlayCases(env, w, cases).1, n)))
         == PlayCases(env, w, cases[..n]).0
    decreases n
  {
    hide Full, Pack, Verdicts, Stopped, PlayCases, WorldAfter, FailedActions, Values;
    var outcomes := PlayCases(env, w, cases).1;
    if n == 0 {
      QuietScript(env, w, []);
      NoCasesPlayed(env, w, cases);
    } else {
      var k := n - 1;
      CasesPlayed(env, w, cases, k);
      PlayStep(env, w, cases, k);
      var before, w' := CasesUpTo(cases, outcomes, k), PlayCases(env, w, cases[..k]).0;
      var run := if Stopped(outcomes[..k]) then [] else [Case(cases[k])];
      var fill := if n % 8 == 0 then [Octet(Pack(Verdicts(outcomes))[n / 8 - 1], Results(8))] else [];
      PlayedThen(env, w, before, run);
      PlayedThen(env, w, before + run, fill);
      if Stopped(outcomes[..k]) {
        QuietScript(env, w', []);
      } else {
        CasePlayed(env, w', cases[k]);
      }
      QuietScript(env, PlayCases(env, w, cases[..n]).0, fill);
    }
  }

  lemma NoCasesPlayed<W>(env: Env<W>, w: W, cases: seq<nat>)
    ensures PlayCases(env, w, cases[..0]).0 == w
  {
  }

  lemma ResultsPlayed<W>(env: Env<W>, w: W, cases: seq<nat>)
    ensures var r := PlayCases(env, w, cases);
            var t := Full(CasesScript(cases, r.1));
            WorldAfter(env, w, t) == r.0 && FailedActions(env, w, t) == 0
  {
    hide Full, CasesUpTo, Pack, Verdicts, PlayCases, WorldAfter, FailedActions;
    var n, outcomes := |cases|, PlayCases(env, w, cases).1;
    CasesPlayed(env, w, cases, n);
    CasesOnly(cases, outcomes, n);
    assert cases[..n] == cases;
    var last := if n % 8 == 0 then [] else [Octet(Pack(Verdicts(outcomes))[n / 8], Results(n % 8))];
    var before := CasesUpTo(cases, outcomes, n);
    PlayedThen(env, w, before, last);
    QuietScript(env, w, before);
    QuietScript(env, WorldAfter(env, w, Full(before)), last);
  }

  /** At most one action failed, and then nothing happened after it. */
  predicate FailsAtEnd<W>(env: Env<W>, w: W, t: seq<Effect>, failed: bool) {
    && FailedActions(env, w, t) == (if failed then 1 else 0)
    && (failed ==> t != [] && FailedActions(env, w, t[..|t| - 1]) == 0)
  }

  lemma FailsLater<W>(env: Env<W>, w: W, a: seq<Effect>, b: seq<Effect>, failed: bool)
    requires FailedActions(env, w, a) == 0 && FailsAtEnd(env, WorldAfter(env, w, a), b, failed)
    ensures FailsAtEnd(env, w, a + b, failed)
    ensures WorldAfter(env, w, a + b) == WorldAfter(env, WorldAfter(env, w, a), b)
  {
    hide FailedActions, WorldAfter;
    FailedConcat(env, w, a, b);
    if failed {
      FailedConcat(env, w, a, b[..|b| - 1]);
      assert (a + b)[..|a + b| - 1] == a + b[..|b| - 1];
    }
  }

  lemma ActionFails<W>(env: Env<W>, w: W, action: Option<nat>)
    ensures var (w', ok) := PlayAction(env, w, action);
            var t := Full(ActionScript(action));
            FailsAtEnd(env, w, t, !ok) && WorldAfter(env, w, t) == w'
  {
    ActionPlayed(env, w, action);
    ActionCalled(action);
    if action.Some? {
      assert ActionCalls(action)[..0] == [];
    }
  }

  lemma ThenFails<W>(env: Env<W>, w: W, a: seq<Item>, b: seq<Item>, failed: bool)
    requires FailedActions(env, w, Full(a)) == 0
    requires FailsAtEnd(env, WorldAfter(env, w, Full(a)), Full(b), failed)
    ensures FailsAtEnd(env, w, Full(a + b), failed)
    ensures WorldAfter(env, w, Full(a + b))
         == WorldAfter(env, WorldAfter(env, w, Full(a)), Full(b))
  {
    hide FailsAtEnd;
    FullConcat(a, b);
    FailsLater(env, w, Full(a), Full(b), failed);
  }

  lemma NothingFails<W>(env: Env<W>, w: W, script: seq<Item>)
    requires forall i :: 0 <= i < |script| ==> script[i].Octet?
    ensures FailedActions(env, w, Full(script)) == 0
    ensures FailsAtEnd(env, w, Full(script), false) && WorldAfter(env, w, Full(script)) == w
  {
    QuietScript(env, w, script);
  }

  lemma {:induction false} GroupFails<W>(env: Env<W>, w: W, def: GroupDef)
    ensures var (w', g) := Play(env, w, def);
            var t := Full(GroupScript(def, g));
            && FailsAtEnd(env, w, t, GroupResult(g) < 0)
            && (GroupResult(g) >= 0 ==> FailedActions(env, w, t) == 0 && WorldAfter(env, w, t) == w')
  {
    hide Full, HeaderScript, CasesScript, ActionScript, WorldAfter, FailedActions, PlayAction, PlayCases;
    hide Verdicts, Count;
    var g, entered := Play(env, w, def).1, PlayAction(env, w, def.entry);
    var header, entry, exit := HeaderScript(def.id), ActionScript(def.entry), ActionScript(def.exit);
    EntryOutcome(env, w, def.entry);
    HeaderIsOctets(def.id);
    NothingFails(env, w, header);
    ActionFails(env, w, def.entry);
    ThenFails(env, w, header, entry, !entered.1);
    if !entered.1 {
      assert header + entry + [] == header + entry;
    } else {
      var cases := CasesScript(def.cases, g.outcomes);
      var played := PlayCases(env, entered.0, def.cases);
      var left := PlayAction(env, played.0, def.exit);
      EntryOutcome(env, played.0, def.exit);
      ResultsPlayed(env, entered.0, def.cases);
      ActionFails(env, played.0, def.exit);
      ThenFails(env, entered.0, cases, exit, !left.1);
      if left.1 {
        NothingFails(env, left.0, [Octet(EXIT_GROUP, GroupEnd)]);
        ThenFails(env, entered.0, cases + exit, [Octet(EXIT_GROUP, GroupEnd)], false);
        ThenFails(env, w, header + entry, cases + exit + [Octet(EXIT_GROUP, GroupEnd)], false);
      } else {
        assert cases + exit + [] == cases + exit;
        ThenFails(env, w, header + entry, cases + exit, true);
      }
    }
  }

  lemma EntryOutcome<W>(env: Env<W>, w: W, action: Option<nat>)
    ensures !PlayAction(env, w, action).1 <==> Outcome(action, PlayAction(env, w, action).1) == Some(false)
    ensures Outcome(action, true) != Some(false)
  {
  }

  lemma {:induction false} GroupsFail<W>(env: Env<W>, w: W, defs: seq<GroupDef>, last: int)
    requires last >= 0
    ensures var gs := PlayAll(env, w, defs);
            FailsAtEnd(env, w, Full(GroupsScript(defs, gs)), RunResult(gs, last) < 0)
    decreases defs
  {
    hide Full, GroupScript, GroupResult, FailsAtEnd, WorldAfter, FailedActions, Play;
    if defs == [] {
      NothingFails(env, w, [Octet(END_OF_FILE, FileEnd)]);
    } else {
      var r := Play(env, w, defs[0]);
      var later := PlayAll(env, r.0, defs[1..]);
      assert PlayAll(env, w, defs)[1..] == later;
      GroupFails(env, w, defs[0]);
      if GroupResult(r.1) >= 0 {
        GroupsFail(env, r.0, defs[1..], GroupResult(r.1));
        ThenFails(env, w, GroupScript(defs[0], r.1), GroupsScript(defs[1..], later),
                  RunResult(later, GroupResult(r.1)) < 0);
      } else {
        assert GroupScript(defs[0], r.1) + [] == GroupScript(defs[0], r.1);
      }
    }
  }

  lemma PartDoesNotFail<W>(env: Env<W>, w: W, part: seq<Effect>, whole: seq<Effect>, failed: bool)
    requires part < whole && FailsAtEnd(env, w, whole, failed)
    ensures FailedActions(env, w, part) == 0
  {
    var without := whole[..|whole| - 1];
    assert part + without[|part|..] == without && part + whole[|part|..] == whole;
    FailedConcat(env, w, part, without[|part|..]);
    FailedConcat(env, w, part, whole[|part|..]);
  }

  lemma RefusalFailsNothing<W>(env: Env<W>, w: W, part: seq<Effect>, offers: seq<Effect>)
    requires FailedActions(env, w, part) == 0 && forall i :: 0 <= i < |offers| ==> offers[i].Offered?
    ensures FailsAtEnd(env, w, part + offers, false)
  {
    NoActionNoFailure(env, WorldAfter(env, w, part), offers);
    FailedConcat(env, w, part, offers);
  }

  /** The first group whose action fails decides the result: -2 for its entry action, -3 for its exit action. */
  lemma {:induction false} FirstFailureDecides(gs: seq<Group>, last: int, i: nat)
    requires i < |gs| && (gs[i].entry == Some(false) || gs[i].exit == Some(false))
    requires forall j :: 0 <= j < i ==> gs[j].entry != Some(false) && gs[j].exit != Some(false)
    ensures RunResult(gs, last) == if gs[i].entry == Some(false) then -2 else -3
    decreases i
  {
    if i > 0 {
      FirstFailureDecides(gs[1..], GroupResult(gs[0]), i - 1);
    }
  }

  /** If the sink refuses an octet, no action fails. */
  lemma CutFails<W>(env: Env<W>, w: W, sink: Sink, at: nat, script: seq<Item>, failed: bool)
    requires FailsAtEnd(env, w, Full(script), failed)
    ensures FailsAtEnd(env, w, Happened(sink, at, script), failed && Fits(sink, at, script))
  {
    hide Full, Happened, Refusal, Fits, Accepts, FailsAtEnd, FailedActions, WorldAfter, Again, Taken, Offers;
    hide AcceptedIn, OfferedIn, Calls, Octets, Values;
    if Fits(sink, at, script) {
      FullIfFits(sink, at, script);
    } else {
      var k, p := CutAt(sink, at, script);
      assert script[..k] + script[k..] == script;
      FullConcat(script[..k], script[k..]);
      assert Full(script[..k]) < Full(script[..k]) + Full(script[k..]);
      PartDoesNotFail(env, w, Full(script[..k]), Full(script), failed);
      RefusalIs(sink, at + p, script[k].value, script[k].role);
      RefusalFailsNothing(env, w, Full(script[..k]), Refusal(sink, at + p, script[k].value, script[k].role));
    }
  }

  /**
   The return value is -1 if and only if an octet was refused; it is below -1 if and only if an action
   failed, which is then the last thing that happened.
   */
  lemma ReturnSays<W>(env: Env<W>, w: W, defs: seq<GroupDef>, sink: Sink, at: nat)
    ensures var r := ReturnValue(sink, at, PlayAll(env, w, defs));
            var t := Happened(sink, at, RunScript(env, w, defs));
            && (r == -1 <==> SomeRefused(t))
            && FailsAtEnd(env, w, t, r < -1)
  {
    hide Full, Happened, GroupsScript, PlayAll, Accepts, FailsAtEnd, SomeRefused, FailedActions, RunOffer, Values;
    var gs, script := PlayAll(env, w, defs), RunScript(env, w, defs);
    RunValues(env, w, defs);
    ResultIsNotMinusOne(gs, 0);
    NothingFails(env, w, MAGIC);
    GroupsFail(env, w, defs, 0);
    ThenFails(env, w, MAGIC, GroupsScript(defs, gs), RunResult(gs, 0) < 0);
    RefusedIff(sink, at, script);
    CutFails(env, w, sink, at, script, RunResult(gs, 0) < 0);
  }
}
