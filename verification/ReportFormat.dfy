/**
 The test report format shared by the writer in src/rttest and its Python reader: constants, octet
 packing, the stream a list of groups stands for, and what a stream decodes to.
 */
module ReportFormat {
  import opened Words

  const FOUR_CC: seq<byte> := [0x52, 0x54, 0x54, 0x61]  // "RTTa"
  const ENTER_GROUP: byte := 0x3E                       // '>'
  const EXIT_GROUP: byte := 0x3C                        // '<'
  const END_OF_FILE: byte := 0x2A                       // '*'

  // ----- Packing results, least significant bit first

  predicate Bit(octet: byte, k: nat)
    requires k < 8
  {
    (octet >> k) & 1 == 1
  }

  /** octet |= 1u << k */
  function SetBit(octet: byte, k: nat): byte
    requires k < 8
  {
    octet | (1 << k)
  }

  lemma LowBitOfOr(octet: byte, j: nat, k: nat)
    requires 0 <= j < 4 && k < 8
    ensures Bit(SetBit(octet, j), k) <==> Bit(octet, k) || j == k
  {
    if j == 0 {
    } else if j == 1 {
    } else if j == 2 {
    } else {
      assert j == 3;
    }
  }

  lemma HighBitOfOr(octet: byte, j: nat, k: nat)
    requires 4 <= j < 8 && k < 8
    ensures Bit(SetBit(octet, j), k) <==> Bit(octet, k) || j == k
  {
    if j == 4 {
    } else if j == 5 {
    } else if j == 6 {
    } else {
      assert j == 7;
    }
  }

  /** Setting bit j makes bit k true for k == j and leaves the others alone. */
  lemma BitOfOr(octet: byte, j: nat, k: nat)
    requires j < 8 && k < 8
    ensures Bit(SetBit(octet, j), k) <==> Bit(octet, k) || j == k
  {
    if j < 4 {
      LowBitOfOr(octet, j, k);
    } else {
      HighBitOfOr(octet, j, k);
    }
  }

  /** At most 8 results as one octet. */
  function PackOctet(bits: seq<bool>): byte
    requires |bits| <= 8
  {
    if bits == [] then 0
    else
      var j := |bits| - 1;
      if bits[j] then SetBit(PackOctet(bits[..j]), j) else PackOctet(bits[..j])
  }

  /** Bit k is result k; the padding bits are 0. */
  lemma {:induction false} OctetBit(bits: seq<bool>, k: nat)
    requires |bits| <= 8 && k < 8
    ensures Bit(PackOctet(bits), k) <==> k < |bits| && bits[k]
  {
    if bits != [] {
      var j := |bits| - 1;
      OctetBit(bits[..j], k);
      BitOfOr(PackOctet(bits[..j]), j, k);
    }
  }

  function OctetCount(n: nat): nat {
    (n + 7) / 8
  }

  function Chunk(bits: seq<bool>, i: nat): (c: seq<bool>)
    requires i < OctetCount(|bits|)
    ensures |c| <= 8
  {
    bits[8 * i..if 8 * i + 8 <= |bits| then 8 * i + 8 else |bits|]
  }

  function Pack(bits: seq<bool>): (octets: seq<byte>)
    ensures |octets| == OctetCount(|bits|)
  {
    seq(OctetCount(|bits|), i requires 0 <= i < OctetCount(|bits|) => PackOctet(Chunk(bits, i)))
  }

  function Unpack(octets: seq<byte>, n: nat): (bits: seq<bool>)
    requires |octets| == OctetCount(n)
    ensures |bits| == n
  {
    seq(n, k requires 0 <= k < n => Bit(octets[k / 8], k % 8))
  }

  /** Every result is found again, and the padding of the last octet is 0. */
  lemma PackRoundTrip(bits: seq<bool>)
    ensures Unpack(Pack(bits), |bits|) == bits
    ensures forall i, k :: 0 <= i < |Pack(bits)| && 0 <= k < 8 && 8 * i + k >= |bits| ==> !Bit(Pack(bits)[i], k)
  {
    forall k | 0 <= k < |bits|
      ensures Unpack(Pack(bits), |bits|)[k] == bits[k]
    {
      var i := k / 8;
      OctetBit(Chunk(bits, i), k % 8);
    }
    forall i, k | 0 <= i < |Pack(bits)| && 0 <= k < 8 && 8 * i + k >= |bits|
      ensures !Bit(Pack(bits)[i], k)
    {
      OctetBit(Chunk(bits, i), k);
    }
  }

  /** How many of the results are failures. */
  function Count(bits: seq<bool>): (n: nat)
    ensures n <= |bits|
  {
    if bits == [] then 0 else Count(bits[..|bits| - 1]) + if bits[|bits| - 1] then 1 else 0
  }

  lemma {:induction false} CountIs(bits: seq<bool>)
    ensures Count(bits) == |set i | 0 <= i < |bits| && bits[i]|
  {
    if bits != [] {
      var k := |bits| - 1;
      CountIs(bits[..k]);
      var before, all := set i | 0 <= i < k && bits[..k][i], set i | 0 <= i < |bits| && bits[i];
      assert all == if bits[k] then before + {k} else before;
    }
  }

  // ----- Group ids, most significant octet first

  function IdOctet(id: bv32, i: nat): byte
    requires i < 4
  {
    match i
    case 0 => (id >> 24) as byte
    case 1 => ((id >> 16) & 0xFF) as byte
    case 2 => ((id >> 8) & 0xFF) as byte
    case 3 => (id & 0xFF) as byte
  }

  function BigEndian(id: bv32): (r: seq<byte>)
    ensures |r| == 4
  {
    [IdOctet(id, 0), IdOctet(id, 1), IdOctet(id, 2), IdOctet(id, 3)]
  }

  function IdFrom(a: byte, b: byte, c: byte, d: byte): bv32 {
    (a as bv32 << 24) | (b as bv32 << 16) | (c as bv32 << 8) | d as bv32
  }

  function FromBigEndian(r: seq<byte>): bv32
    requires |r| == 4
  {
    IdFrom(r[0], r[1], r[2], r[3])
  }

  lemma IdRoundTrip(id: bv32)
    ensures FromBigEndian(BigEndian(id)) == id
  {
  }

  // ----- Streams

  /**
   A test group: its actions, if any, with the value they return, and what each test case returns when
   called (0 passed, positive failed, negative failed and fatal to the group).
   */
  datatype Group = Group(id: bv32, entry: Option<bool>, exit: Option<bool>, outcomes: seq<int8>)

  /** Some test case was fatal. */
  predicate Stopped(outcomes: seq<int8>) {
    exists j :: 0 <= j < |outcomes| && outcomes[j] < 0
  }

  /** A test case counts as failed if it failed or comes after a fatal one. */
  function Verdicts(outcomes: seq<int8>): (bits: seq<bool>)
    ensures |bits| == |outcomes|
    ensures forall i :: 0 <= i < |bits| ==> (bits[i] <==> outcomes[i] != 0 || Stopped(outcomes[..i]))
  {
    seq(|outcomes|, i requires 0 <= i < |outcomes| => outcomes[i] != 0 || Stopped(outcomes[..i]))
  }

  function GroupHeader(id: bv32): seq<byte> {
    [ENTER_GROUP] + BigEndian(id)
  }

  function GroupBytes(g: Group): seq<byte> {
    GroupHeader(g.id) + Pack(Verdicts(g.outcomes)) + [EXIT_GROUP]
  }

  /** The complete report of the given groups, after the magic number. */
  function Stream(gs: seq<Group>): seq<byte> {
    if gs == [] then [END_OF_FILE] else GroupBytes(gs[0]) + Stream(gs[1..])
  }

  // ----- Decoding

  /** What the report says about one group: which of its test cases failed. */
  datatype Report = Report(id: bv32, failed: seq<bool>)

  datatype GroupRead = Bad | Eof(pos: nat) | Read(report: Report, pos: nat)

  /** The number of test cases of each known group. */
  type GroupMap = map<bv32, nat>

  function ReadGroup(data: seq<byte>, pos: nat, groups: GroupMap): (r: GroupRead)
    ensures r.Eof? || r.Read? ==> pos < r.pos <= |data|
  {
    if pos >= |data| then Bad
    else if data[pos] == END_OF_FILE then Eof(pos + 1)
    else if data[pos] != ENTER_GROUP || pos + 5 > |data| then Bad
    else
      var id := FromBigEndian(data[pos + 1..pos + 5]);
      if id !in groups then Bad
      else
        var end := pos + 5 + OctetCount(groups[id]);
        if end >= |data| || data[end] != EXIT_GROUP then Bad
        else Read(Report(id, Unpack(data[pos + 5..end], groups[id])), end + 1)
  }

  function ReadGroups(data: seq<byte>, pos: nat, groups: GroupMap): (r: Option<(seq<Report>, nat)>)
    ensures r.Some? ==> r.value.1 <= |data|
    decreases |data| - pos
  {
    match ReadGroup(data, pos, groups)
    case Bad => None
    case Eof(end) => Some(([], end))
    case Read(report, next) =>
      match ReadGroups(data, next, groups)
      case None => None
      case Some((reports, end)) => Some(([report] + reports, end))
  }

  /** The reports in a stream and how many octets were read, or None if the reader raises an error. */
  function Decode(data: seq<byte>, groups: GroupMap): Option<(seq<Report>, nat)> {
    if |data| < 4 || data[..4] != FOUR_CC then None else ReadGroups(data, 4, groups)
  }

  // ----- Round trip

  ghost predicate Known(groups: GroupMap, gs: seq<Group>) {
    forall i :: 0 <= i < |gs| ==> gs[i].id in groups && groups[gs[i].id] == |gs[i].outcomes|
  }

  function ReportsOf(gs: seq<Group>): seq<Report> {
    if gs == [] then [] else [Report(gs[0].id, Verdicts(gs[0].outcomes))] + ReportsOf(gs[1..])
  }

  lemma GroupRoundTrip(pre: seq<byte>, g: Group, post: seq<byte>, groups: GroupMap)
    requires g.id in groups && groups[g.id] == |g.outcomes|
    ensures ReadGroup(pre + GroupBytes(g) + post, |pre|, groups)
         == Read(Report(g.id, Verdicts(g.outcomes)), |pre + GroupBytes(g)|)
  {
    var bits, data := Verdicts(g.outcomes), pre + GroupBytes(g) + post;
    var at := |pre|;
    assert data[at + 1..at + 5] == BigEndian(g.id);
    IdRoundTrip(g.id);
    assert data[at + 5..at + 5 + |Pack(bits)|] == Pack(bits);
    PackRoundTrip(bits);
  }

  lemma EndRoundTrip(pre: seq<byte>, groups: GroupMap)
    ensures ReadGroup(pre + [END_OF_FILE], |pre|, groups) == Eof(|pre| + 1)
  {
  }

  /** Decoding a complete stream reads all of it and finds exactly the groups and results written. */
  lemma {:induction false} StreamRoundTrip(pre: seq<byte>, gs: seq<Group>, groups: GroupMap)
    requires Known(groups, gs)
    ensures ReadGroups(pre + Stream(gs), |pre|, groups) == Some((ReportsOf(gs), |pre + Stream(gs)|))
    decreases gs
  {
    hide ReadGroup, GroupBytes;
    EndRoundTrip(pre, groups);
    if gs != [] {
      var g, rest := gs[0], gs[1..];
      assert pre + Stream(gs) == pre + GroupBytes(g) + Stream(rest);
      GroupRoundTrip(pre, g, Stream(rest), groups);
      StreamRoundTrip(pre + GroupBytes(g), rest, groups);
    }
  }

  lemma ReadGroupExtends(data: seq<byte>, more: seq<byte>, pos: nat, groups: GroupMap)
    requires data <= more && !ReadGroup(data, pos, groups).Bad?
    ensures ReadGroup(more, pos, groups) == ReadGroup(data, pos, groups)
  {
    hide FromBigEndian, Unpack;
    assert forall i :: 0 <= i < |data| ==> more[i] == data[i];
    if data[pos] != END_OF_FILE {
      assert more[pos + 1..pos + 5] == data[pos + 1..pos + 5];
      var n := OctetCount(groups[FromBigEndian(data[pos + 1..pos + 5])]);
      assert more[pos + 5..pos + 5 + n] == data[pos + 5..pos + 5 + n];
    }
  }

  /** What the decoder accepts, it accepts and reads alike whatever follows. */
  lemma {:induction false} ReadGroupsExtends(data: seq<byte>, more: seq<byte>, pos: nat, groups: GroupMap)
    requires data <= more && ReadGroups(data, pos, groups).Some?
    ensures ReadGroups(more, pos, groups) == ReadGroups(data, pos, groups)
    decreases |data| - pos
  {
    ReadGroupExtends(data, more, pos, groups);
    var r := ReadGroup(data, pos, groups);
    if r.Read? {
      ReadGroupsExtends(data, more, r.pos, groups);
    }
  }

  /** A complete report decodes to what was written; every strict prefix of it is rejected. */
  lemma ReportRoundTrip(gs: seq<Group>, groups: GroupMap)
    requires Known(groups, gs)
    ensures var whole := FOUR_CC + Stream(gs);
            && Decode(whole, groups) == Some((ReportsOf(gs), |whole|))
            && forall part :: part < whole ==> Decode(part, groups).None?
  {
    var whole := FOUR_CC + Stream(gs);
    assert whole[..4] == FOUR_CC;
    StreamRoundTrip(FOUR_CC, gs, groups);
    forall part | part < whole
      ensures Decode(part, groups).None?
    {
      if Decode(part, groups).Some? {
        ReadGroupsExtends(part, whole, 4, groups);
      }
    }
  }
}
