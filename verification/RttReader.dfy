/**
 The report reader of src/rttest/scripts/rttest2text.py. A raised RuntimeError is None. The lines the
 reader prints for failed test cases are kept as (group id, test number) pairs.
 */
module RttReader {
  import opened Words
  import opened ReportFormat

  /** The lines printed for one group. */
  function FailLines(id: bv32, failed: seq<bool>): seq<(bv32, nat)> {
    if failed == [] then []
    else
      var k := |failed| - 1;
      FailLines(id, failed[..k]) + if failed[k] then [(id, k)] else []
  }

  /** A line is printed for exactly the failed test cases, in their order. */
  lemma {:induction false} FailLinesAre(id: bv32, failed: seq<bool>, line: (bv32, nat))
    ensures line in FailLines(id, failed) <==> line.0 == id && line.1 < |failed| && failed[line.1]
    ensures |FailLines(id, failed)| == Count(failed)
    ensures forall i, j :: 0 <= i < j < Count(failed) ==> FailLines(id, failed)[i].1 < FailLines(id, failed)[j].1
    ensures forall i :: 0 <= i < Count(failed) ==> FailLines(id, failed)[i].1 < |failed|
  {
    if failed != [] {
      FailLinesAre(id, failed[..|failed| - 1], line);
    }
  }

  function AllFailLines(reports: seq<Report>): seq<(bv32, nat)> {
    if reports == [] then []
    else FailLines(reports[0].id, reports[0].failed) + AllFailLines(reports[1..])
  }

  function TotalFailed(reports: seq<Report>): nat {
    if reports == [] then 0 else Count(reports[0].failed) + TotalFailed(reports[1..])
  }

  function TotalCases(reports: seq<Report>): nat {
    if reports == [] then 0 else |reports[0].failed| + TotalCases(reports[1..])
  }

  class RttParser {
    const data: seq<byte>
    const groups: GroupMap
    var pos: nat
    var failed: nat
    var total: nat
    var printed: seq<(bv32, nat)>

    constructor (data: seq<byte>, groups: GroupMap)
      ensures this.data == data && this.groups == groups && pos == 0
      ensures failed == 0 && total == 0 && printed == []
    {
      this.data, this.groups := data, groups;
      pos, failed, total, printed := 0, 0, 0, [];
    }

    method ReadByte() returns (octet: Option<byte>)
      modifies `pos
      ensures octet == if old(pos) < |data| then Some(data[old(pos)]) else None
      ensures pos == if old(pos) < |data| then old(pos) + 1 else old(pos)
    {
      octet := None;
      if pos < |data| {
        octet := Some(data[pos]);
        pos := pos + 1;
      }
    }

    /** The four octets of a group id. */
    method ReadId() returns (gid: Option<bv32>)
      requires pos <= |data|
      modifies `pos
      ensures gid == if old(pos) + 4 <= |data| then Some(FromBigEndian(data[old(pos)..old(pos) + 4])) else None
      ensures gid.Some? ==> pos == old(pos) + 4
    {
      hide ShiftOr, FromBigEndian;
      var id: bv32 := 0;
      ghost var start := pos;
      for i := 0 to 4
        invariant pos == start + i <= |data|
        invariant id == IdOf(data, start, i)
      {
        var octet := ReadByte();
        if octet.None? {
          return None;
        }
        MaskOctet(id, octet.value);
        id := (id << 8) | (octet.value as bv32 & 0xFF);
      }
      IdComplete(data, start);
      gid := Some(id);
    }

    /** The loop over the test cases of a group. */
    method ReadResults(gid: bv32, cases: nat) returns (ok: bool)
      requires pos <= |data|
      modifies this
      ensures ok <==> old(pos) + OctetCount(cases) <= |data|
      ensures ok ==> pos == old(pos) + OctetCount(cases)
      ensures ok ==> var bits := Unpack(data[old(pos)..old(pos) + OctetCount(cases)], cases);
                && failed == old(failed) + Count(bits) && total == old(total) + cases
                && printed == old(printed) + FailLines(gid, bits)
    {
      hide OctetCount, Bit, ResultsAt, Count, FailLines, Rest;
      ghost var start := pos;
      var testno := 0;
      var bits: byte := 0;
      NoResults(data, start, gid);
      while testno < cases
        invariant 0 <= testno <= cases
        invariant pos == start + OctetCount(testno)
        invariant pos <= |data|
        invariant testno % 8 != 0 ==> start + testno / 8 < |data|
        invariant testno % 8 != 0 ==> bits == Rest(data[start + testno / 8], testno % 8)
        invariant total == old(total) + testno
        invariant failed == old(failed) + Count(ResultsAt(data, start, testno))
        invariant printed == old(printed) + FailLines(gid, ResultsAt(data, start, testno))
      {
        OctetCountGrows(testno);
        OctetCountMonotone(testno + 1, cases);
        if testno % 8 == 0 {
          var octet := ReadByte();
          if octet.None? {
            return false;
          }
          bits := octet.value;
        }
        BitsAhead(data[start + testno / 8], testno % 8);
        OneMoreResult(data, start, testno, gid);
        if bits & 1 == 1 {
          failed := failed + 1;
          printed := printed + [(gid, testno)];
        }
        bits := bits >> 1;
        testno := testno + 1;
        total := total + 1;
      }
      ResultsAreUnpacked(data, start, cases);
      ok := true;
    }

    /** parseGroup: reads one group, or finds the end of the report. */
    method ParseGroup() returns (eof: Option<bool>)
      requires pos <= |data|
      modifies this
      ensures match ReadGroup(data, old(pos), groups)
              case Bad => eof == None
              case Eof(next) => eof == Some(true) && pos == next
                                && failed == old(failed) && total == old(total) && printed == old(printed)
              case Read(report, next) =>
                && eof == Some(false) && pos == next
                && failed == old(failed) + Count(report.failed) && total == old(total) + |report.failed|
                && printed == old(printed) + FailLines(report.id, report.failed)
    {
      hide FromBigEndian, OctetCount, Unpack, Count, FailLines;
      eof := None;
      var octet := ReadByte();
      if octet.None? {
        return;
      }
      if octet.value == END_OF_FILE {
        return Some(true);
      }
      if octet.value != ENTER_GROUP {
        return;
      }
      var gid := ReadId();
      if gid.None? || gid.value !in groups {
        return;
      }
      var ok := ReadResults(gid.value, groups[gid.value]);
      if !ok {
        return;
      }
      octet := ReadByte();
      if octet != Some(EXIT_GROUP) {
        return;
      }
      eof := Some(false);
    }

    /** Parse: None if the report is rejected, otherwise whether all tests passed. */
    method Parse() returns (passed: Option<bool>)
      requires pos == 0
      modifies this
      ensures match Decode(data, groups)
              case None => passed == None
              case Some((reports, end)) =>
                && passed == Some(TotalFailed(reports) == 0) && pos == end
                && failed == TotalFailed(reports) && total == TotalCases(reports)
                && printed == AllFailLines(reports)
    {
      hide ReadGroup, FailLines, Count;
      failed, total, printed := 0, 0, [];
      if |data| < 4 || data[..4] != FOUR_CC {
        return None;
      }
      pos := 4;
      ghost var whole, done := ReadGroups(data, 4, groups), [];
      PrependEnds([], whole, 0);
      var eof := false;
      while !eof
        invariant pos <= |data|
        invariant !eof ==> whole == Prepend(done, ReadGroups(data, pos, groups))
        invariant eof ==> whole == Some((done, pos))
        invariant failed == TotalFailed(done) && total == TotalCases(done) && printed == AllFailLines(done)
        decreases !eof, |data| - pos
      {
        ghost var read := ReadGroup(data, pos, groups);
        var r := ParseGroup();
        if r.None? {
          return None;
        }
        eof := r.value;
        PrependEnds(done, whole, pos);
        if !eof {
          SumsOfMore(done, read.report);
          PrependMore(done, read.report, ReadGroups(data, pos, groups));
          done := done + [read.report];
        }
      }
      passed := Some(failed <= 0);
    }
  }

  function Prepend(done: seq<Report>, rest: Option<(seq<Report>, nat)>): Option<(seq<Report>, nat)> {
    match rest
    case None => None
    case Some((reports, end)) => Some((done + reports, end))
  }

  lemma PrependEnds(done: seq<Report>, whole: Option<(seq<Report>, nat)>, end: nat)
    ensures Prepend([], whole) == whole
    ensures Prepend(done, Some(([], end))) == Some((done, end))
  {
    if whole.Some? {
      assert [] + whole.value.0 == whole.value.0;
    }
    assert done + [] == done;
  }

  lemma PrependMore(done: seq<Report>, report: Report, rest: Option<(seq<Report>, nat)>)
    ensures Prepend(done + [report], rest) == Prepend(done, Prepend([report], rest))
  {
    if rest.Some? {
      assert done + [report] + rest.value.0 == done + ([report] + rest.value.0);
    }
  }

  /** Totals and lines start from nothing and add up over groups. */
  lemma {:induction false} SumsOfMore(done: seq<Report>, report: Report)
    ensures TotalFailed([]) == 0 && TotalCases([]) == 0 && AllFailLines([]) == []
    ensures TotalFailed(done + [report]) == TotalFailed(done) + Count(report.failed)
    ensures TotalCases(done + [report]) == TotalCases(done) + |report.failed|
    ensures AllFailLines(done + [report]) == AllFailLines(done) + FailLines(report.id, report.failed)
  {
    hide Count, FailLines;
    if done == [] {
      assert done + [report] == [report];
    } else {
      SumsOfMore(done[1..], report);
      assert (done + [report])[1..] == done[1..] + [report];
    }
  }

  // ----- Group ids

  function ShiftOr(x: bv32, octet: byte): bv32 {
    (x << 8) | octet as bv32
  }

  /** The id after i of its octets. */
  function IdOf(data: seq<byte>, start: nat, i: nat): bv32
    requires start + i <= |data|
  {
    if i == 0 then 0 else ShiftOr(IdOf(data, start, i - 1), data[start + i - 1])
  }

  lemma MaskOctet(x: bv32, octet: byte)
    ensures (x << 8) | (octet as bv32 & 0xFF) == ShiftOr(x, octet)
  {
  }

  lemma Assemble(a: byte, b: byte, c: byte, d: byte)
    ensures ShiftOr(ShiftOr(ShiftOr(ShiftOr(0, a), b), c), d)
         == IdFrom(a, b, c, d)
  {
  }

  lemma IdComplete(data: seq<byte>, start: nat)
    requires start + 4 <= |data|
    ensures IdOf(data, start, 4) == FromBigEndian(data[start..start + 4])
  {
    hide ShiftOr, IdFrom;
    var r := data[start..start + 4];
    assert IdOf(data, start, 0) == 0 && IdOf(data, start, 1) == ShiftOr(IdOf(data, start, 0), r[0]);
    assert IdOf(data, start, 2) == ShiftOr(IdOf(data, start, 1), r[1]);
    assert IdOf(data, start, 3) == ShiftOr(IdOf(data, start, 2), r[2]);
    assert IdOf(data, start, 4) == ShiftOr(IdOf(data, start, 3), r[3]);
    Assemble(r[0], r[1], r[2], r[3]);
  }

  // ----- Results

  /** An octet with its first k results shifted out. */
  function Rest(octet: byte, k: nat): byte
    requires k < 8
  {
    octet >> k
  }

  lemma BitsAhead(octet: byte, k: nat)
    requires k < 8
    ensures Rest(octet, k) & 1 == 1 <==> Bit(octet, k)
    ensures k < 7 ==> Rest(octet, k) >> 1 == Rest(octet, k + 1)
    ensures Rest(octet, 0) == octet
  {
  }

  lemma OctetCountGrows(n: nat)
    ensures OctetCount(0) == 0
    ensures OctetCount(n + 1) == n / 8 + 1
    ensures OctetCount(n) == if n % 8 == 0 then n / 8 else n / 8 + 1
    ensures (n + 1) % 8 != 0 ==> (n + 1) / 8 == n / 8 && (n + 1) % 8 == n % 8 + 1
  {
  }

  lemma OctetCountMonotone(m: nat, n: nat)
    requires m <= n
    ensures OctetCount(m) <= OctetCount(n)
  {
  }

  /** The first n results found from `start` on. */
  function ResultsAt(data: seq<byte>, start: nat, n: nat): (r: seq<bool>)
    ensures |r| == n
  {
    seq(n, k requires 0 <= k < n => start + k / 8 < |data| && Bit(data[start + k / 8], k % 8))
  }

  lemma NoResults(data: seq<byte>, start: nat, gid: bv32)
    ensures OctetCount(0) == 0
    ensures Count(ResultsAt(data, start, 0)) == 0 && FailLines(gid, ResultsAt(data, start, 0)) == []
  {
  }

  lemma OneMoreResult(data: seq<byte>, start: nat, n: nat, gid: bv32)
    requires start + n / 8 < |data|
    ensures var before, after := ResultsAt(data, start, n), ResultsAt(data, start, n + 1);
            var bit := Bit(data[start + n / 8], n % 8);
            && Count(after) == Count(before) + (if bit then 1 else 0)
            && FailLines(gid, after) == FailLines(gid, before) + (if bit then [(gid, n)] else [])
  {
    assert ResultsAt(data, start, n + 1)[..n] == ResultsAt(data, start, n);
  }

  lemma ResultsAreUnpacked(data: seq<byte>, start: nat, n: nat)
    requires start + OctetCount(n) <= |data|
    ensures ResultsAt(data, start, n) == Unpack(data[start..start + OctetCount(n)], n)
  {
    var octets := data[start..start + OctetCount(n)];
    assert forall k :: 0 <= k < n ==> k / 8 < OctetCount(n) && octets[k / 8] == data[start + k / 8];
  }
}
