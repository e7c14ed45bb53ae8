/** One run, octet by octet and call by call. */
module RunExample {
  import opened Words
  import opened ReportFormat
  import opened TestRun
  import opened RunTheorems

  /** All actions succeed; test cases 10, 11, 17 and 18 fail. */
  function Application(): Env<()> {
    Env((w, a) => (w, true), (w, c) => (w, if c == 10 || c == 11 || c == 17 || c == 18 then 1 else 0))
  }

  const GROUP: GroupDef := GroupDef(0x0102_0304, Some(1), Some(2), CASES)
  const CASES: seq<nat> := [10, 11, 12, 13, 14, 15, 16, 17, 18]
  const OUTCOMES: seq<int8> := [1, 1, 0, 0, 0, 0, 0, 1, 1]
  const BITS: seq<bool> := [true, true, false, false, false, false, false, true, true]

  // ----- Outcomes

  lemma {:induction false} Outcomes(cases: seq<nat>)
    ensures var r := PlayCases(Application(), (), cases);
            && |r.1| == |cases| && !Stopped(r.1)
            && forall i :: 0 <= i < |cases| ==> r.1[i] == Application().testCase((), cases[i]).1
  {
    if cases != [] {
      Outcomes(cases[..|cases| - 1]);
    }
  }

  lemma OutcomesAre()
    ensures PlayCases(Application(), (), CASES) == ((), OUTCOMES)
  {
    hide PlayCases, Stopped;
    Outcomes(CASES);
    var r := PlayCases(Application(), (), CASES);
    assert |r.1| == 9 && |OUTCOMES| == 9;
    forall i | 0 <= i < 9
      ensures r.1[i] == OUTCOMES[i]
    {
      assert i == 0 || i == 1 || i == 2 || i == 3 || i == 4 || i == 5 || i == 6 || i == 7 || i == 8;
    }
    assert r.1 == OUTCOMES && r.0 == ();
    assert r == (r.0, r.1);
  }

  lemma VerdictsAre()
    ensures Verdicts(OUTCOMES) == BITS && forall i :: 0 <= i <= 9 ==> !Stopped(OUTCOMES[..i])
  {
    var bits := Verdicts(OUTCOMES);
    assert forall j :: 0 <= j < 9 ==> OUTCOMES[j] >= 0;
    assert forall i :: 0 <= i < 9 ==> bits[i] == BITS[i] by {
      forall i | 0 <= i < 9
        ensures bits[i] == BITS[i]
      {
        assert i == 0 || i == 1 || i == 2 || i == 3 || i == 4 || i == 5 || i == 6 || i == 7 || i == 8;
      }
    }
  }

  // ----- Octets

  lemma SameOctet(a: byte, b: byte)
    requires forall k: nat :: k < 8 ==> (Bit(a, k) <==> Bit(b, k))
    ensures a == b
  {
    assert Bit(a, 0) == Bit(b, 0) && Bit(a, 1) == Bit(b, 1) && Bit(a, 2) == Bit(b, 2) && Bit(a, 3) == Bit(b, 3);
    assert Bit(a, 4) == Bit(b, 4) && Bit(a, 5) == Bit(b, 5) && Bit(a, 6) == Bit(b, 6) && Bit(a, 7) == Bit(b, 7);
  }

  lemma BitsOf83(k: nat)
    requires k < 8
    ensures Bit(0x83, k) <==> k == 0 || k == 1 || k == 7
    ensures Bit(0x01, k) <==> k == 0
  {
    assert k == 0 || k == 1 || k == 2 || k == 3 || k == 4 || k == 5 || k == 6 || k == 7;
  }

  lemma PackedAre()
    ensures Pack(BITS) == [0x83, 0x01]
  {
    hide Bit, PackOctet;
    var first, last := Chunk(BITS, 0), Chunk(BITS, 1);
    assert first == BITS[..8] && last == BITS[8..] && |last| == 1;
    forall k: nat | k < 8
      ensures Bit(PackOctet(first), k) <==> Bit(0x83, k)
      ensures Bit(PackOctet(last), k) <==> Bit(0x01, k)
    {
      OctetBit(first, k);
      OctetBit(last, k);
      BitsOf83(k);
      assert k == 0 || k == 1 || k == 2 || k == 3 || k == 4 || k == 5 || k == 6 || k == 7;
    }
    SameOctet(PackOctet(first), 0x83);
    SameOctet(PackOctet(last), 0x01);
  }

  lemma IdOctetsAre()
    ensures BigEndian(0x0102_0304) == [0x01, 0x02, 0x03, 0x04]
  {
  }

  // ----- The run

  /** One more test case when none is fatal. */
  lemma CasesNext(n: nat, before: seq<Item>, fill: seq<Item>)
    requires 0 < n <= 9 && CasesUpTo(CASES, OUTCOMES, n - 1) == before
    requires fill == if n == 8 then [Octet(0x83, Results(8))] else []
    ensures CasesUpTo(CASES, OUTCOMES, n) == before + [Case(CASES[n - 1])] + fill
  {
    hide Pack, Verdicts, Stopped;
    VerdictsAre();
    PackedAre();
    assert n % 8 == 0 <==> n == 8;
  }

  lemma CasesAre()
    ensures CasesScript(CASES, OUTCOMES)
         == [Case(10), Case(11), Case(12), Case(13), Case(14), Case(15), Case(16), Case(17), Octet(0x83, Results(8)),
             Case(18), Octet(0x01, Results(1))]
  {
    hide Pack, Verdicts, Stopped, CasesUpTo;
    VerdictsAre();
    PackedAre();
    NoCases();
    var c := CASES;
    CasesNext(1, [], []);
    CasesNext(2, [Case(c[0])], []);
    CasesNext(3, [Case(c[0]), Case(c[1])], []);
    CasesNext(4, [Case(c[0]), Case(c[1]), Case(c[2])], []);
    CasesNext(5, [Case(c[0]), Case(c[1]), Case(c[2]), Case(c[3])], []);
    CasesNext(6, [Case(c[0]), Case(c[1]), Case(c[2]), Case(c[3]), Case(c[4])], []);
    CasesNext(7, [Case(c[0]), Case(c[1]), Case(c[2]), Case(c[3]), Case(c[4]), Case(c[5])], []);
    var seven := [Case(c[0]), Case(c[1]), Case(c[2]), Case(c[3]), Case(c[4]), Case(c[5]), Case(c[6])];
    CasesNext(8, seven, [Octet(0x83, Results(8))]);
    CasesNext(9, seven + [Case(c[7])] + [Octet(0x83, Results(8))], []);
  }

  lemma NoCases()
    ensures CasesUpTo(CASES, OUTCOMES, 0) == []
  {
  }

  /**
   The whole run of one group with nine test cases, of which the first, second, eighth and ninth fail,
   over a sink that accepts everything.
   */
  lemma WholeRun(sink: Sink)
    requires forall i: nat :: sink(i)
    ensures Happened(sink, 0, RunScript(Application(), (), [GROUP]))
         == [Offered(0x52, true), Offered(0x54, true), Offered(0x54, true), Offered(0x61, true),
             Offered(0x3E, true),
             Offered(0x01, true), Offered(0x02, true), Offered(0x03, true), Offered(0x04, true),
             RanAction(1),
             RanCase(10), RanCase(11), RanCase(12), RanCase(13), RanCase(14), RanCase(15), RanCase(16), RanCase(17),
             Offered(0x83, true),
             RanCase(18),
             Offered(0x01, true),
             RanAction(2),
             Offered(0x3C, true), Offered(0x2A, true)]
    ensures ReturnValue(sink, 0, PlayAll(Application(), (), [GROUP])) == 4
  {
    hide PlayAll, RunScript, Happened, RunOffer, Values, RunResult, Fits, Accepts;
    GroupPlayed();
    EverythingFits(sink, RunScript(Application(), (), [GROUP]), FOUR_CC + RunOffer([PLAYED]));
    FullIfFits(sink, 0, RunScript(Application(), (), [GROUP]));
    RunIs();
  }

  lemma EverythingFits(sink: Sink, script: seq<Item>, octets: seq<byte>)
    requires forall i: nat :: sink(i)
    ensures Fits(sink, 0, script) && Accepts(sink, 0, |octets|)
  {
  }

  const PLAYED: Group := Group(0x0102_0304, Some(true), Some(true), OUTCOMES)

  lemma GroupPlayed()
    ensures PlayAll(Application(), (), [GROUP]) == [PLAYED]
    ensures RunResult([PLAYED], 0) == 4 && GroupResult(PLAYED) == 4
  {
    hide PlayCases, Verdicts;
    OutcomesAre();
    VerdictsAre();
    FourFailed();
    PlayIs(Application(), (), GROUP);
    assert [GROUP][1..] == [] && [PLAYED][1..] == [];
    assert Play(Application(), (), GROUP) == ((), PLAYED);
  }

  lemma FourFailed()
    ensures Count(BITS) == 4
  {
    CountIs(BITS);
    assert (set i | 0 <= i < |BITS| && BITS[i]) == {0, 1, 7, 8};
  }

  lemma RunIs()
    ensures RunScript(Application(), (), [GROUP])
         == [Octet(0x52, Magic), Octet(0x54, Magic), Octet(0x54, Magic), Octet(0x61, Magic),
             Octet(0x3E, Marker(0x0102_0304)),
             Octet(0x01, IdPart), Octet(0x02, IdPart), Octet(0x03, IdPart), Octet(0x04, IdPart),
             Action(1),
             Case(10), Case(11), Case(12), Case(13), Case(14), Case(15), Case(16), Case(17), Octet(0x83, Results(8)),
             Case(18), Octet(0x01, Results(1)),
             Action(2),
             Octet(0x3C, GroupEnd), Octet(0x2A, FileEnd)]
  {
    hide CasesScript, PlayAll, GroupResult;
    GroupPlayed();
    IdOctetsAre();
    CasesAre();
    assert [GROUP][1..] == [] && [PLAYED][1..] == [];
    assert GroupsScript([GROUP], [PLAYED]) == GroupScript(GROUP, PLAYED) + GroupsScript([], []);
  }
}
