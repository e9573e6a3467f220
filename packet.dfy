/** The simulator's value types: flow identifiers, TCP header data and
    packets (simulator/src/packet/packet.h and packet.cpp).  A C++ `Packet`
    is copied by value wherever it travels (queues, server, generators), so it
    is a datatype here and each setter is a function returning the updated
    copy. */
module Packets {
  import opened Wrappers
  import opened Numeric
  import Text

  /** Smallest and largest packet sizes, in bits (64 B and 1518 B). */
  const PacketSizeMinimumInBits: nat := 512
  const PacketSizeMaximumInBits: nat := 12144

  const BitsPerByte: nat := 8
  /** The job size of a packet whose size is not known (yet). */
  const InvalidJobSize: real := -1.0

  datatype TrafficClass = Innocent | Attack

  // ---------------------------------------------------------------------
  // FlowId
  // ---------------------------------------------------------------------

  datatype FlowId = FlowId(srcIp: U32, dstIp: U32, srcPort: U16, dstPort: U16)

  /** `FlowId()`: every field zero. */
  function DefaultFlowId(): (f: FlowId)
    ensures f.srcIp == 0 && f.dstIp == 0 && f.srcPort == 0 && f.dstPort == 0
  {
    FlowId(0, 0, 0, 0)
  }

  /** `FlowId::from(value)`: the identifier of a non-networking workload. */
  function FlowIdFrom(value: U32): FlowId {
    FlowId(value, 0, 0, 0)
  }

  /** `from` is (v, 0, 0, 0); distinct values give distinct flows, and 0 gives
      the default flow. */
  lemma FlowIdFromSpec(a: U32, b: U32)
    ensures FlowIdFrom(a).srcIp == a && FlowIdFrom(a).dstIp == 0
    ensures FlowIdFrom(a).srcPort == 0 && FlowIdFrom(a).dstPort == 0
    ensures FlowIdFrom(a) == FlowIdFrom(b) <==> a == b
    ensures FlowIdFrom(0) == DefaultFlowId()
  {
  }

  /** `EqualToFlowId`: componentwise comparison of the four fields. */
  predicate EqualToFlowId(a: FlowId, b: FlowId) {
    a.srcIp == b.srcIp && a.dstIp == b.dstIp && a.srcPort == b.srcPort && a.dstPort == b.dstPort
  }

  /** Componentwise equality is identity of flow identifiers, hence an
      equivalence: reflexive, symmetric and transitive. */
  lemma EqualToFlowIdIsEquality(a: FlowId, b: FlowId, c: FlowId)
    ensures EqualToFlowId(a, b) <==> a == b
    ensures EqualToFlowId(a, a)
    ensures EqualToFlowId(a, b) ==> EqualToFlowId(b, a)
    ensures EqualToFlowId(a, b) && EqualToFlowId(b, c) ==> EqualToFlowId(a, c)
  {
  }

  /** `operator<<(FlowId)`: the four fields in lower-case hex, zero-padded to
      8, 8, 4 and 4 digits. */
  function FlowIdToString(id: FlowId): (r: string)
  {
    Text.HexPadded(id.srcIp, 8) + Text.HexPadded(id.dstIp, 8)
      + Text.HexPadded(id.srcPort, 4) + Text.HexPadded(id.dstPort, 4)
  }

  /** The printed form has exactly 24 hex digits, and each field can be read
      back from its fixed position, so distinct flows print differently. */
  lemma FlowIdToStringFields(id: FlowId)
    ensures |FlowIdToString(id)| == 24
    ensures Text.AllDigits(FlowIdToString(id), 16)
    ensures Text.DigitsValue(FlowIdToString(id)[0..8], 16) == id.srcIp
    ensures Text.DigitsValue(FlowIdToString(id)[8..16], 16) == id.dstIp
    ensures Text.DigitsValue(FlowIdToString(id)[16..20], 16) == id.srcPort
    ensures Text.DigitsValue(FlowIdToString(id)[20..24], 16) == id.dstPort
  {
    assert Text.Pow(16, 4) == 0x1_0000;
    assert Text.Pow(16, 8) == 0x1_0000_0000;
    Text.HexPaddedExact(id.srcIp, 8);
    Text.HexPaddedExact(id.dstIp, 8);
    Text.HexPaddedExact(id.srcPort, 4);
    Text.HexPaddedExact(id.dstPort, 4);
    var s := FlowIdToString(id);
    assert s[0..8] == Text.HexPadded(id.srcIp, 8);
    assert s[8..16] == Text.HexPadded(id.dstIp, 8);
    assert s[16..20] == Text.HexPadded(id.srcPort, 4);
    assert s[20..24] == Text.HexPadded(id.dstPort, 4);
  }

  lemma FlowIdToStringInjective(a: FlowId, b: FlowId)
    ensures FlowIdToString(a) == FlowIdToString(b) <==> a == b
  {
    FlowIdToStringFields(a);
    FlowIdToStringFields(b);
  }

  // ---------------------------------------------------------------------
  // TCPHeader
  // ---------------------------------------------------------------------

  datatype TcpHeader = TcpHeader(isValid: bool, flagSyn: bool, flagFin: bool, flagRst: bool,
                                 psn: U32, nextPsn: U32)

  /** `TCPHeader()`: no valid header, no flags, both sequence numbers 0. */
  function DefaultTcpHeader(): TcpHeader {
    TcpHeader(false, false, false, false, 0, 0)
  }

  /** A pass-through packet carries no payload bytes (psn == next psn). */
  predicate IsPassThroughPacket(h: TcpHeader) {
    h.psn == h.nextPsn
  }

  predicate IsFlagFinOrRst(h: TcpHeader) {
    h.flagFin || h.flagRst
  }

  /** `getSequenceNumberRange`: the half-open range [psn, next psn). */
  function SequenceNumberRange(h: TcpHeader): (r: (U32, U32))
  {
    (h.psn, h.nextPsn)
  }

  /** The default header is invalid, carries no flags and is pass-through;
      its range is empty. */
  lemma DefaultTcpHeaderFacts()
    ensures !DefaultTcpHeader().isValid && !DefaultTcpHeader().flagSyn
    ensures !IsFlagFinOrRst(DefaultTcpHeader())
    ensures IsPassThroughPacket(DefaultTcpHeader())
    ensures SequenceNumberRange(DefaultTcpHeader()) == (0, 0)
  {
  }

  /** The range starts at the header's PSN and ends at its next PSN; it is
      empty exactly for pass-through packets. */
  lemma SequenceNumberRangeSpec(h: TcpHeader)
    ensures SequenceNumberRange(h).0 == h.psn && SequenceNumberRange(h).1 == h.nextPsn
    ensures SequenceNumberRange(h).0 == SequenceNumberRange(h).1 <==> IsPassThroughPacket(h)
  {
  }

  // ---------------------------------------------------------------------
  // Packet
  // ---------------------------------------------------------------------

  datatype Packet = Packet(
    idx: U64,
    flowId: FlowId,
    cls: TrafficClass,
    packetSize: U32,
    tcpHeader: TcpHeader,
    jobSizeActual: real,
    jobSizeEstimate: real,
    arriveTime: real,
    departTime: real)

  /** `Packet(idx, flow_id, class, psize)`: both job sizes invalid, the default
      TCP header, arrival and departure times 0. */
  function NewPacket(idx: U64, flowId: FlowId, cls: TrafficClass, packetSize: U32): (p: Packet)
    ensures p.idx == idx && p.flowId == flowId && p.cls == cls && p.packetSize == packetSize
    ensures p.jobSizeActual == InvalidJobSize && p.jobSizeEstimate == InvalidJobSize
    ensures p.tcpHeader == DefaultTcpHeader() && p.arriveTime == 0.0 && p.departTime == 0.0
  {
    Packet(idx, flowId, cls, packetSize, DefaultTcpHeader(), InvalidJobSize, InvalidJobSize, 0.0, 0.0)
  }

  /** `Packet()`: packet 0 of the default flow, innocent, of size 0. */
  function DefaultPacket(): Packet {
    NewPacket(0, DefaultFlowId(), Innocent, 0)
  }

  /** `getClassTag`: "A" for attack packets and "I" for innocent ones. */
  function ClassTag(p: Packet): (tag: string)
    ensures tag == "A" <==> p.cls == Attack
    ensures tag == "I" <==> p.cls == Innocent
  {
    assert "A"[0] != "I"[0];
    match p.cls
    case Attack => "A"
    case Innocent => "I"
  }

  /** `getLatency`: departure minus arrival; an error when the packet departs
      before it arrives. */
  function GetLatency(p: Packet): (r: Result<real>)
    ensures r.Success? <==> p.departTime >= p.arriveTime
    ensures r.Success? ==> r.value >= 0.0 && p.arriveTime + r.value == p.departTime
    ensures r.Failure? ==> r.error == NegativeLatency
  {
    if p.departTime < p.arriveTime then Failure(NegativeLatency)
    else Success(p.departTime - p.arriveTime)
  }

  // Setters: each returns the packet with one field replaced.

  function SetDepartTime(p: Packet, time: real): Packet { p.(departTime := time) }
  function SetArriveTime(p: Packet, time: real): Packet { p.(arriveTime := time) }
  function SetTcpHeader(p: Packet, header: TcpHeader): Packet { p.(tcpHeader := header) }
  function SetJobSizeActual(p: Packet, jsize: real): Packet { p.(jobSizeActual := jsize) }
  function SetJobSizeEstimate(p: Packet, jsize: real): Packet { p.(jobSizeEstimate := jsize) }

  /** Each setter changes its own field and nothing else: putting the old
      value back restores the original packet. */
  lemma SettersChangeOnlyTheirField(p: Packet, t: real, h: TcpHeader)
    ensures SetDepartTime(p, t).departTime == t && SetDepartTime(p, t).(departTime := p.departTime) == p
    ensures SetArriveTime(p, t).arriveTime == t && SetArriveTime(p, t).(arriveTime := p.arriveTime) == p
    ensures SetTcpHeader(p, h).tcpHeader == h && SetTcpHeader(p, h).(tcpHeader := p.tcpHeader) == p
    ensures SetJobSizeActual(p, t).jobSizeActual == t
    ensures SetJobSizeActual(p, t).(jobSizeActual := p.jobSizeActual) == p
    ensures SetJobSizeEstimate(p, t).jobSizeEstimate == t
    ensures SetJobSizeEstimate(p, t).(jobSizeEstimate := p.jobSizeEstimate) == p
  {
  }
}
