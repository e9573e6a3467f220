/** The trace-driven traffic generator of the simulator
    (simulator/src/traffic/trace_trafficgen.cpp): it replays a trace file
    line by line, one packet per line, on a clock that advances by a
    constant gap.  The file's contents are a constructor parameter and the
    input stream is a read position in them. */
module TraceTraffic {
  import opened Wrappers
  import opened Numeric
  import opened Packets
  import Text
  import Utils
  import opened Traffic

  // ---------------------------------------------------------------------
  // Decoding one line
  // ---------------------------------------------------------------------

  /** `((flags >> 2) & 0x1) == 1`, `((flags >> 1) & 0x1) == 1` and
      `(flags & 0x1) == 1` on an `int`: Euclidean division and remainder
      give the arithmetic shift and the two's-complement low bit, negative
      values included. */
  predicate SynFlag(flags: int) { (flags / 4) % 2 == 1 }
  predicate FinFlag(flags: int) { (flags / 2) % 2 == 1 }
  predicate RstFlag(flags: int) { flags % 2 == 1 }

  /** Fields 6 to 8 of a TCP line: the flags, the PSN and the next PSN, each
      PSN narrowed to 32 bits, installed as a valid header. */
  function ParseTcpHeader(values: seq<string>, packet: Packet): (r: Result<Packet>)
    requires |values| >= 9
    ensures r.Success? ==> r.value.tcpHeader.isValid && r.value.(tcpHeader := packet.tcpHeader) == packet
  {
    var flags :- Text.StoI(values[6]);
    var psn :- Text.StoUL(values[7], 10);
    var nextPsn :- Text.StoUL(values[8], 10);
    Success(SetTcpHeader(packet, TcpHeader(true, SynFlag(flags), FinFlag(flags), RstFlag(flags),
                                           Narrow32(psn), Narrow32(nextPsn))))
  }

  /** The packet a split trace line describes: field 0 is the frame size in
      bytes, fields 1-4 the hexadecimal source and destination address and
      port (narrowed to 32 and 16 bits), field 5 says whether the packet is
      TCP, fields 6-8 its flags and sequence numbers, and an optional
      non-empty field 9 its job-size estimate.  The first field that does
      not parse raises the reader's exception; a line with fewer than nine
      fields fails the sanity assertion. */
  function ParseFields(values: seq<string>, packetIdx: U64): (r: Result<Packet>)
    ensures |values| < 9 ==> r == Failure(AssertionFailed)
    ensures r.Success? ==>
              r.value.idx == packetIdx && r.value.cls == Innocent &&
              r.value.jobSizeActual == InvalidJobSize &&
              r.value.arriveTime == 0.0 && r.value.departTime == 0.0
    ensures r.Success? ==> (r.value.tcpHeader.isValid <==> Text.StoI(values[5]) == Success(1))
    ensures r.Success? && !r.value.tcpHeader.isValid ==> r.value.tcpHeader == DefaultTcpHeader()
    ensures r.Success? && (|values| == 9 || values[9] == "") ==> r.value.jobSizeEstimate == InvalidJobSize
    ensures r.Success? && |values| > 9 && values[9] != "" ==>
              Text.StoD(values[9]).Success? && r.value.jobSizeEstimate == Text.StoD(values[9]).value
  {
    if |values| < 9 then Failure(AssertionFailed)
    else
      var bytes :- Text.StoUL(values[0], 10);
      var srcIp :- Text.StoUL(values[1], 16);
      var dstIp :- Text.StoUL(values[2], 16);
      var srcPort :- Text.StoUL(values[3], 16);
      var dstPort :- Text.StoUL(values[4], 16);
      var isTcp :- Text.StoI(values[5]);
      var flow := FlowId(Narrow32(srcIp), Narrow32(dstIp), Narrow16(srcPort), Narrow16(dstPort));
      var psize := Narrow32(Narrow64(bytes * BitsPerByte));
      var packet := NewPacket(packetIdx, flow, Innocent, psize);
      var withTcp :- if isTcp == 1 then ParseTcpHeader(values, packet) else Success(packet);
      if |values| > 9 && values[9] != "" then
        var jsize :- Text.StoD(values[9]);
        Success(SetJobSizeEstimate(withTcp, jsize))
      else
        Success(withTcp)
  }

  // ---------------------------------------------------------------------
  // The trace format, written out
  // ---------------------------------------------------------------------

  /** The TCP part of a trace record. */
  datatype TcpFields = TcpFields(syn: bool, fin: bool, rst: bool, psn: U32, nextPsn: U32)

  /** What one trace line records about a packet. */
  datatype TraceRecord = TraceRecord(bytes: nat, srcIp: U32, dstIp: U32, srcPort: U16, dstPort: U16,
                                     tcp: Option<TcpFields>, jsize: Option<nat>)

  /** The flags field: SYN is bit 2, FIN bit 1 and RST bit 0. */
  function FlagsValue(t: TcpFields): nat
  {
    (if t.syn then 4 else 0) + (if t.fin then 2 else 0) + (if t.rst then 1 else 0)
  }

  /** Decoding the written flags field gives back each flag. */
  lemma FlagsValueBits(t: TcpFields)
    ensures FlagsValue(t) < 8
    ensures SynFlag(FlagsValue(t)) == t.syn && FinFlag(FlagsValue(t)) == t.fin
    ensures RstFlag(FlagsValue(t)) == t.rst
  {
  }

  function Dec(n: nat): string { Text.NatToDigits(n, 10) }
  function Hex(n: nat): string { Text.NatToDigits(n, 16) }

  /** The fields of a record in trace order: decimal size, hexadecimal
      addresses and ports, the TCP marker with flags and sequence numbers
      (zeros for non-TCP packets), and the job size when there is one. */
  function FormatFields(rec: TraceRecord): (values: seq<string>)
    ensures |values| == 9 + (if rec.jsize.Some? then 1 else 0)
  {
    FlowPart(rec) + TcpPart(rec.tcp) +
    (match rec.jsize
     case None => []
     case Some(j) => [Dec(j)])
  }

  function FlowPart(rec: TraceRecord): (values: seq<string>)
    ensures |values| == 5
  {
    [Dec(rec.bytes), Hex(rec.srcIp), Hex(rec.dstIp), Hex(rec.srcPort), Hex(rec.dstPort)]
  }

  function TcpPart(tcp: Option<TcpFields>): (values: seq<string>)
    ensures |values| == 4
  {
    match tcp
    case None => [Dec(0), Dec(0), Dec(0), Dec(0)]
    case Some(t) => [Dec(1), Dec(FlagsValue(t)), Dec(t.psn), Dec(t.nextPsn)]
  }

  /** The record as one comma-separated trace line. */
  function FormatLine(rec: TraceRecord): string
  {
    Utils.Join(FormatFields(rec), ",")
  }

  /** The packet a record describes, stated field by field. */
  function RecordPacket(rec: TraceRecord, packetIdx: U64): Packet
    requires rec.bytes * BitsPerByte < TwoTo32
  {
    Packet(packetIdx, FlowId(rec.srcIp, rec.dstIp, rec.srcPort, rec.dstPort), Innocent,
           rec.bytes * BitsPerByte,
           match rec.tcp
           case None => DefaultTcpHeader()
           case Some(t) => TcpHeader(true, t.syn, t.fin, t.rst, t.psn, t.nextPsn),
           InvalidJobSize,
           match rec.jsize
           case None => InvalidJobSize
           case Some(j) => j as real,
           0.0, 0.0)
  }

  /** Reading a written trace line gives back the packet it records: the
      fields survive the split on ",", the decimal and hexadecimal reads
      undo the printing, and the flag bits decode to the flags written. */
  lemma TraceLineRoundTrip(rec: TraceRecord, packetIdx: U64)
    requires rec.bytes * BitsPerByte < TwoTo32
    ensures ParseFields(Utils.SplitSpec(FormatLine(rec), ","), packetIdx) == Success(RecordPacket(rec, packetIdx))
  {
    SplitFormatLine(rec);
    ParseFormatFields(rec, packetIdx);
  }

  /** The written fields contain no comma, so splitting the line on ","
      gives them back. */
  lemma SplitFormatLine(rec: TraceRecord)
    ensures Utils.SplitSpec(FormatLine(rec), ",") == FormatFields(rec)
  {
    var values := FormatFields(rec);
    forall i | 0 <= i < |values|
      ensures Utils.Free(values[i], ',')
    {
      assert Text.AllDigits(values[i], 16);
    }
    Utils.SplitJoin(values, ',');
  }

  lemma ParseFormatFields(rec: TraceRecord, packetIdx: U64)
    requires rec.bytes * BitsPerByte < TwoTo32
    ensures ParseFields(FormatFields(rec), packetIdx) == Success(RecordPacket(rec, packetIdx))
  {
    FormatFieldsRead(rec);
    ParseRecordFields(FormatFields(rec), rec, packetIdx);
  }

  /** What the readers make of each written field. */
  predicate FieldsRead(values: seq<string>, rec: TraceRecord)
  {
    |values| >= 9 &&
    Text.StoUL(values[0], 10) == Success(rec.bytes) &&
    Text.StoUL(values[1], 16) == Success(rec.srcIp as nat) &&
    Text.StoUL(values[2], 16) == Success(rec.dstIp as nat) &&
    Text.StoUL(values[3], 16) == Success(rec.srcPort as nat) &&
    Text.StoUL(values[4], 16) == Success(rec.dstPort as nat) &&
    Text.StoI(values[5]) == Success(if rec.tcp.Some? then 1 else 0) &&
    (rec.tcp.Some? ==>
       Text.StoI(values[6]) == Success(FlagsValue(rec.tcp.value)) &&
       Text.StoUL(values[7], 10) == Success(rec.tcp.value.psn as nat) &&
       Text.StoUL(values[8], 10) == Success(rec.tcp.value.nextPsn as nat)) &&
    ((|values| > 9 && values[9] != "") <==> rec.jsize.Some?) &&
    (rec.jsize.Some? ==> Text.StoD(values[9]) == Success(rec.jsize.value as real))
  }

  lemma FormatFieldsRead(rec: TraceRecord)
    requires rec.bytes * BitsPerByte < TwoTo32
    ensures FieldsRead(FormatFields(rec), rec)
  {
    var values := FormatFields(rec);
    var flow, tcp := FlowPart(rec), TcpPart(rec.tcp);
    assert values[..5] == flow && values[5..9] == tcp;
    FlowPartRead(rec);
    TcpPartRead(rec.tcp);
    match rec.jsize {
      case None =>
      case Some(j) =>
        assert values[9] == Dec(j) && |Dec(j)| >= 1;
        Text.StoDOfDigits(j);
    }
  }

  lemma FlowPartRead(rec: TraceRecord)
    requires rec.bytes * BitsPerByte < TwoTo32
    ensures var values := FlowPart(rec);
            Text.StoUL(values[0], 10) == Success(rec.bytes) &&
            Text.StoUL(values[1], 16) == Success(rec.srcIp as nat) &&
            Text.StoUL(values[2], 16) == Success(rec.dstIp as nat) &&
            Text.StoUL(values[3], 16) == Success(rec.srcPort as nat) &&
            Text.StoUL(values[4], 16) == Success(rec.dstPort as nat)
  {
    BytesRead(rec);
    SrcIpRead(rec);
    DstIpRead(rec);
    SrcPortRead(rec);
    DstPortRead(rec);
  }

  lemma TcpPartRead(tcp: Option<TcpFields>)
    ensures var values := TcpPart(tcp);
            Text.StoI(values[0]) == Success(if tcp.Some? then 1 else 0) &&
            (tcp.Some? ==>
               Text.StoI(values[1]) == Success(FlagsValue(tcp.value)) &&
               Text.StoUL(values[2], 10) == Success(tcp.value.psn as nat) &&
               Text.StoUL(values[3], 10) == Success(tcp.value.nextPsn as nat))
  {
    MarkerRead(tcp);
    if tcp.Some? {
      FlagsFieldRead(tcp.value);
      PsnRead(tcp.value);
      NextPsnRead(tcp.value);
    }
  }

  // Each field is read back in a lemma of its own: proving several of these
  // facts in one body makes the solver relate the printed forms of
  // different numbers to one another.

  lemma BytesRead(rec: TraceRecord)
    requires rec.bytes * BitsPerByte < TwoTo32
    ensures Text.StoUL(FlowPart(rec)[0], 10) == Success(rec.bytes)
  {
    Text.StoULOfDigits(rec.bytes, 10);
  }

  lemma SrcIpRead(rec: TraceRecord)
    ensures Text.StoUL(FlowPart(rec)[1], 16) == Success(rec.srcIp as nat)
  {
    Text.StoULOfDigits(rec.srcIp as nat, 16);
  }

  lemma DstIpRead(rec: TraceRecord)
    ensures Text.StoUL(FlowPart(rec)[2], 16) == Success(rec.dstIp as nat)
  {
    Text.StoULOfDigits(rec.dstIp as nat, 16);
  }

  lemma SrcPortRead(rec: TraceRecord)
    ensures Text.StoUL(FlowPart(rec)[3], 16) == Success(rec.srcPort as nat)
  {
    Text.StoULOfDigits(rec.srcPort as nat, 16);
  }

  lemma DstPortRead(rec: TraceRecord)
    ensures Text.StoUL(FlowPart(rec)[4], 16) == Success(rec.dstPort as nat)
  {
    Text.StoULOfDigits(rec.dstPort as nat, 16);
  }

  lemma MarkerRead(tcp: Option<TcpFields>)
    ensures Text.StoI(TcpPart(tcp)[0]) == Success(if tcp.Some? then 1 else 0)
  {
    Text.StoIOfDigits(if tcp.Some? then 1 else 0);
  }

  lemma FlagsFieldRead(t: TcpFields)
    ensures Text.StoI(TcpPart(Some(t))[1]) == Success(FlagsValue(t))
  {
    FlagsValueBits(t);
    Text.StoIOfDigits(FlagsValue(t));
  }

  lemma PsnRead(t: TcpFields)
    ensures Text.StoUL(TcpPart(Some(t))[2], 10) == Success(t.psn as nat)
  {
    Text.StoULOfDigits(t.psn as nat, 10);
  }

  lemma NextPsnRead(t: TcpFields)
    ensures Text.StoUL(TcpPart(Some(t))[3], 10) == Success(t.nextPsn as nat)
  {
    Text.StoULOfDigits(t.nextPsn as nat, 10);
  }

  lemma ParseRecordFields(values: seq<string>, rec: TraceRecord, packetIdx: U64)
    requires rec.bytes * BitsPerByte < TwoTo32 && FieldsRead(values, rec)
    ensures ParseFields(values, packetIdx) == Success(RecordPacket(rec, packetIdx))
  {
    var packet := NewPacket(packetIdx, FlowId(rec.srcIp, rec.dstIp, rec.srcPort, rec.dstPort), Innocent,
                            rec.bytes * BitsPerByte);
    match rec.tcp {
      case None =>
      case Some(t) => TcpFieldsRoundTrip(values, packet, t);
    }
  }

  lemma TcpFieldsRoundTrip(values: seq<string>, packet: Packet, t: TcpFields)
    requires |values| >= 9
    requires Text.StoI(values[6]) == Success(FlagsValue(t))
    requires Text.StoUL(values[7], 10) == Success(t.psn as nat)
    requires Text.StoUL(values[8], 10) == Success(t.nextPsn as nat)
    ensures ParseTcpHeader(values, packet) ==
            Success(SetTcpHeader(packet, TcpHeader(true, t.syn, t.fin, t.rst, t.psn, t.nextPsn)))
  {
    FlagsValueBits(t);
  }

  // ---------------------------------------------------------------------
  // Reading lines (`std::getline`)
  // ---------------------------------------------------------------------

  /** `std::getline` from `pos`: the text up to the next newline, and the
      position just past that newline (or the end of the text). */
  function NextLine(text: string, pos: nat): (r: (string, nat))
    requires pos <= |text|
    ensures r.1 <= |text| && (pos < |text| ==> pos < r.1)
    ensures Utils.Free(r.0, '\n')
    ensures pos + |r.0| <= |text| && r.0 == text[pos..pos + |r.0|]
    ensures r.1 == |text| || (r.1 == pos + |r.0| + 1 && text[r.1 - 1] == '\n')
  {
    Utils.FindFromFirst(text, "\n", pos);
    match Utils.FindFrom(text, "\n", pos)
    case None =>
      NoNewlineAfter(text, pos);
      (text[pos..], |text|)
    case Some(k) =>
      NoNewlineBetween(text, pos, k);
      assert text[k..k + 1] == "\n";
      (text[pos..k], k + 1)
  }

  lemma NoNewlineAfter(text: string, pos: nat)
    requires pos <= |text| && forall k :: pos <= k ==> !Utils.OccursAt(text, "\n", k)
    ensures Utils.Free(text[pos..], '\n')
  {
    forall j | 0 <= j < |text[pos..]|
      ensures text[pos..][j] != '\n'
    {
      assert !Utils.OccursAt(text, "\n", pos + j);
      assert text[pos + j..pos + j + 1] == [text[pos..][j]];
    }
  }

  lemma NoNewlineBetween(text: string, pos: nat, k: nat)
    requires pos <= k <= |text| && forall i :: pos <= i < k ==> !Utils.OccursAt(text, "\n", i)
    ensures Utils.Free(text[pos..k], '\n')
  {
    forall j | 0 <= j < |text[pos..k]|
      ensures text[pos..k][j] != '\n'
    {
      assert !Utils.OccursAt(text, "\n", pos + j);
      assert text[pos + j..pos + j + 1] == [text[pos..k][j]];
    }
  }

  // ---------------------------------------------------------------------
  // The generator
  // ---------------------------------------------------------------------

  /** A parsed packet stamped with its arrival time; a parse error passes
      through. */
  function Stamp(parsed: Result<Packet>, time: real): (r: Result<Packet>)
    ensures r.Success? <==> parsed.Success?
    ensures r.Success? ==> r.value.arriveTime == time && r.value.(arriveTime := parsed.value.arriveTime) == parsed.value
  {
    match parsed
    case Success(p) => Success(SetArriveTime(p, time))
    case Failure(e) => Failure(e)
  }

  class TraceTrafficGenerator {
    /** The contents of the trace file. */
    const trace: string
    /** The value of the constant inter-arrival distribution. */
    const iat: Time
    /** The read position of the trace stream. */
    var position: nat
    /** `has_new_arrival_`: the stream was not at its end when last checked. */
    var hasNewArrival: bool
    /** `arrival_time_`. */
    var arrivalTime: Time
    /** `avg_psize_`, NaN until calibrated. */
    var avgPsize: Double

    /** The position is inside the trace, and a generator that saw the end
        of the stream is at it. */
    ghost predicate Valid()
      reads this
    {
      position <= |trace| && (!hasNewArrival ==> position == |trace|)
    }

    /** Opens the trace and checks whether it holds anything. */
    constructor(trace: string, iat: Time)
      ensures Valid() && fresh(this)
      ensures this.trace == trace && this.iat == iat
      ensures position == 0 && hasNewArrival == (|trace| > 0)
      ensures arrivalTime == Finite(0.0) && avgPsize == NaN
    {
      this.trace := trace;
      this.iat := iat;
      position := 0;
      hasNewArrival := |trace| > 0;
      arrivalTime := Finite(0.0);
      avgPsize := NaN;
    }

    /** `isCalibrated`: the average packet size is known. */
    predicate IsCalibrated()
      reads this
    {
      avgPsize.Num?
    }

    /** `getRateInBitsPerSecondImpl`: NaN (`None`) until calibrated. */
    function RateImpl(): Option<real>
      reads this
    {
      if avgPsize.Num? then RateOf(avgPsize.v, iat) else None
    }

    /** `getCalibratedRateInBitsPerSecond`. */
    function GetCalibratedRate(): (r: Result<Option<real>>)
      reads this
      ensures r.Success? <==> IsCalibrated()
      ensures r.Success? ==> r.value == RateOf(avgPsize.v, iat)
    {
      Guarded(IsCalibrated(), RateImpl())
    }

    /** `getCalibratedAveragePacketSizeInBits`: the size given to
        `calibrate`. */
    function GetCalibratedAveragePacketSize(): (r: Result<Double>)
      reads this
      ensures r.Success? <==> IsCalibrated()
      ensures r.Success? ==> r.value.Num? && r.value == avgPsize
    {
      Guarded(IsCalibrated(), avgPsize)
    }

    /** `reset`: the clock goes back to 0 and the stream to its start. */
    method Reset()
      requires Valid()
      modifies this
      ensures Valid()
      ensures arrivalTime == Finite(0.0) && position == 0 && hasNewArrival == (|trace| > 0)
      ensures avgPsize == old(avgPsize)
    {
      arrivalTime := Finite(0.0);
      position := 0;
      hasNewArrival := |trace| > 0;
    }

    /** `updateArrivalTime`: the clock advances by one gap. */
    method UpdateArrivalTime()
      requires Valid()
      modifies this
      ensures Valid()
      ensures arrivalTime == Advance(old(arrivalTime), iat)
      ensures position == old(position) && hasNewArrival == old(hasNewArrival) && avgPsize == old(avgPsize)
    {
      arrivalTime := Advance(arrivalTime, iat);
    }

    /** `getNextArrival`: reads the next line and returns its packet stamped
        with the current clock, which does not move.  The line is consumed
        even when it does not parse; only a line that parses updates whether
        the stream has more. */
    method GetNextArrival(packetIdx: U64) returns (r: Result<Packet>)
      requires Valid() && hasNewArrival && arrivalTime.Finite?
      modifies this
      ensures Valid()
      ensures arrivalTime == old(arrivalTime) && avgPsize == old(avgPsize)
      ensures position == NextLine(trace, old(position)).1
      ensures r == Stamp(ParseFields(Utils.SplitSpec(NextLine(trace, old(position)).0, ","), packetIdx),
                         arrivalTime.ns)
      ensures hasNewArrival == (r.Failure? || position < |trace|)
    {
      var (line, next) := NextLine(trace, position);
      position := next;
      var values := Utils.Split(line, ",");
      var parsed := ParseFields(values, packetIdx);
      r := Stamp(parsed, arrivalTime.ns);
      if parsed.Success? {
        hasNewArrival := position < |trace|;
      }
    }

    /** `calibrate(avg_psize)`: records the average packet size once; a
        second call throws.  A NaN size leaves the generator uncalibrated. */
    method Calibrate(avg: Double) returns (r: Result<()>)
      requires Valid()
      modifies this
      ensures Valid()
      ensures old(IsCalibrated()) ==> r == Failure(AlreadyCalibrated) && avgPsize == old(avgPsize)
      ensures !old(IsCalibrated()) ==> r == Success(()) && avgPsize == avg
      ensures IsCalibrated() <==> old(IsCalibrated()) || avg.Num?
      ensures arrivalTime == old(arrivalTime) && position == old(position)
      ensures hasNewArrival == old(hasNewArrival)
    {
      if IsCalibrated() {
        return Failure(AlreadyCalibrated);
      }
      avgPsize := avg;
      return Success(());
    }
  }
}
