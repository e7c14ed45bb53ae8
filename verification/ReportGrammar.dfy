/**
 Which octets are a report, said without reading them: the reader accepts exactly those, whatever else
 it is given.
 */
module ReportGrammar {
  import opened Words
  import opened ReportFormat

  /** How long the block of a group with these results is. */
  function BlockLength(report: Report): nat {
    6 + (|report.failed| + 7) / 8
  }

  /**
   The block of one group: '>', the id of a known group in big-endian order, one bit per test case from
   the least significant bit of each octet on, whatever padding, '<'.
   */
  ghost predicate IsBlock(block: seq<byte>, report: Report, groups: GroupMap) {
    && report.id in groups && |report.failed| == groups[report.id]
    && |block| == BlockLength(report)
    && block[0] == 0x3E && block[1..5] == BigEndian(report.id) && block[|block| - 1] == 0x3C
    && forall k :: 0 <= k < |report.failed| ==>
         (report.failed[k] <==> (block[5 + k / 8] >> (k % 8)) & 1 == 1)
  }

  ghost predicate AreBlocks(data: seq<byte>, reports: seq<Report>, groups: GroupMap)
    decreases reports
  {
    if reports == [] then data == []
    else
      var n := BlockLength(reports[0]);
      n <= |data| && IsBlock(data[..n], reports[0], groups) && AreBlocks(data[n..], reports[1..], groups)
  }

  lemma IdOfOctets(r: seq<byte>, id: bv32)
    requires |r| == 4
    ensures FromBigEndian(r) == id <==> r == BigEndian(id)
  {
    IdRoundTrip(id);
    OctetsOfId(r[0], r[1], r[2], r[3]);
    assert r == [r[0], r[1], r[2], r[3]];
  }

  lemma OctetsOfId(a: byte, b: byte, c: byte, d: byte)
    ensures BigEndian(IdFrom(a, b, c, d)) == [a, b, c, d]
  {
  }

  /** The reader takes a block for this report exactly if it is one. */
  lemma BlockIff(data: seq<byte>, pos: nat, report: Report, next: nat, groups: GroupMap)
    ensures ReadGroup(data, pos, groups) == Read(report, next) <==>
              && next == pos + BlockLength(report) <= |data|
              && IsBlock(data[pos..next], report, groups)
  {
    hide FromBigEndian, BigEndian, IdOctet, Bit;
    if pos + 5 <= |data| {
      IdOfOctets(data[pos + 1..pos + 5], report.id);
    }
    if next == pos + BlockLength(report) <= |data| {
      var block, n := data[pos..next], |report.failed|;
      var octets := data[pos + 5..next - 1];
      PartOfPart(data, pos, next, 1, 5);
      PartOfPart(data, pos, next, 5, |block| - 1);
      ResultBits(block, octets, report.failed);
    }
  }

  lemma PartOfPart(data: seq<byte>, a: nat, b: nat, i: nat, j: nat)
    requires a <= b <= |data| && i <= j <= b - a
    ensures data[a..b][i..j] == data[a + i..a + j]
  {
    var part, same := data[a..b][i..j], data[a + i..a + j];
    assert |part| == |same| && forall k :: 0 <= k < |part| ==> part[k] == same[k];
  }

  lemma ResultBits(block: seq<byte>, octets: seq<byte>, failed: seq<bool>)
    requires |octets| == OctetCount(|failed|) && |block| == 6 + |octets| && block[5..5 + |octets|] == octets
    ensures Unpack(octets, |failed|) == failed <==>
              forall k :: 0 <= k < |failed| ==> (failed[k] <==> (block[5 + k / 8] >> (k % 8)) & 1 == 1)
  {
    var bits := Unpack(octets, |failed|);
    forall k | 0 <= k < |failed|
      ensures bits[k] <==> (block[5 + k / 8] >> (k % 8)) & 1 == 1
    {
      assert octets[k / 8] == block[5..5 + |octets|][k / 8] == block[5 + k / 8];
    }
    if forall k :: 0 <= k < |failed| ==> (failed[k] <==> (block[5 + k / 8] >> (k % 8)) & 1 == 1) {
      assert bits == failed;
    }
  }

  lemma EndIff(data: seq<byte>, pos: nat, next: nat, groups: GroupMap)
    ensures ReadGroup(data, pos, groups) == Eof(next) <==> next == pos + 1 <= |data| && data[pos] == 0x2A
  {
  }

  lemma {:induction false} GroupsIff(data: seq<byte>, pos: nat, reports: seq<Report>, end: nat, groups: GroupMap)
    ensures ReadGroups(data, pos, groups) == Some((reports, end)) <==>
              && pos < end <= |data| && data[end - 1] == 0x2A
              && AreBlocks(data[pos..end - 1], reports, groups)
    decreases reports
  {
    hide ReadGroup, IsBlock;
    if reports == [] {
      EndIff(data, pos, end, groups);
    } else {
      var n, r := BlockLength(reports[0]), ReadGroup(data, pos, groups);
      var next := pos + n;
      BlockIff(data, pos, reports[0], next, groups);
      GroupsIff(data, next, reports[1..], end, groups);
      if r.Read? {
        BlockIff(data, pos, r.report, r.pos, groups);
        var more := ReadGroups(data, r.pos, groups);
        if more.Some? && [r.report] + more.value.0 == reports {
          assert r.report == reports[0] && more.value.0 == reports[1..];
        }
        if r.report == reports[0] {
          assert [r.report] + reports[1..] == reports;
        }
      }
      if pos < end <= |data| && n <= end - 1 - pos {
        PartOfPart(data, pos, end - 1, 0, n);
        PartOfPart(data, pos, end - 1, n, end - 1 - pos);
        assert data[pos..end - 1][..n] == data[pos..end - 1][0..n];
        assert data[pos..end - 1][n..] == data[pos..end - 1][n..end - 1 - pos];
      }
    }
  }

  /**
   For any octets at all: the reader accepts them, finds these reports and stops there if and only if
   they begin with the magic number, the blocks of exactly these reports and the end-of-file mark.
   */
  lemma AcceptedIff(data: seq<byte>, groups: GroupMap, reports: seq<Report>, end: nat)
    ensures Decode(data, groups) == Some((reports, end)) <==>
              && 5 <= end <= |data| && data[..4] == [0x52, 0x54, 0x54, 0x61] && data[end - 1] == 0x2A
              && AreBlocks(data[4..end - 1], reports, groups)
  {
    GroupsIff(data, 4, reports, end, groups);
  }
}
