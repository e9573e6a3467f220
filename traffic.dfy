/** The synthetic traffic generators of the simulator
    (simulator/src/traffic/synthetic_trafficgen.cpp) and the calibrated
    accessors every generator shares (simulator/src/traffic/trafficgen.cpp).

    Both synthetic generators draw inter-arrival times from a constant
    distribution, so the clock advances by the same amount at every update;
    the innocent generator's packet-size sample is a parameter.  Doubles
    become reals, with +infinity written out where the generators use it. */
module Traffic {
  import opened Wrappers
  import opened Numeric
  import opened Packets

  const NanosecsPerSec: real := 1000000000.0

  /** The default margin of `DoubleApproxEqual`. */
  const ApproxEpsilon: real := 0.000001

  /** A clock reading or an inter-arrival time: a finite number of
      nanoseconds, or +infinity (a generator that never fires). */
  datatype Time = Finite(ns: real) | PosInfinity

  /** `arrival_time_ += iat`: +infinity absorbs any addend. */
  function Advance(t: Time, iat: Time): (r: Time)
    ensures r.Finite? <==> t.Finite? && iat.Finite?
  {
    if t.Finite? && iat.Finite? then Finite(t.ns + iat.ns) else PosInfinity
  }

  /** The clock after `n` updates from `origin`. */
  function ClockAfter(origin: Time, iat: Time, n: nat): Time
  {
    if n == 0 then origin else Advance(ClockAfter(origin, iat, n - 1), iat)
  }

  /** From a reset clock, `n` updates by a finite gap reach `n` gaps; an
      infinite gap sends the clock to +infinity at the first update, and a
      clock at +infinity stays there. */
  lemma {:induction false} ClockAfterClosedForm(iat: Time, n: nat)
    ensures iat.Finite? ==> ClockAfter(Finite(0.0), iat, n) == Finite(n as real * iat.ns)
    ensures iat.PosInfinity? && n > 0 ==> ClockAfter(Finite(0.0), iat, n) == PosInfinity
    ensures ClockAfter(PosInfinity, iat, n) == PosInfinity
  {
    if n > 0 {
      ClockAfterClosedForm(iat, n - 1);
      if iat.Finite? {
        assert (n - 1) as real * iat.ns + iat.ns == n as real * iat.ns;
      }
    }
  }

  /** `DoubleApproxEqual(a, b)`: `|a - b| < 1e-6`. */
  predicate ApproxEqual(a: real, b: real)
  {
    -ApproxEpsilon < a - b < ApproxEpsilon
  }

  /** Approximate equality is reflexive and symmetric. */
  lemma ApproxEqualFacts(a: real, b: real)
    ensures ApproxEqual(a, a)
    ensures ApproxEqual(a, b) <==> ApproxEqual(b, a)
  {
  }

  /** `E[P] * kNanosecsPerSec / E[T]`, the bit rate of a generator whose
      mean packet size is `bits` and whose mean gap is `iat`; `None` when the
      quotient is not a finite double (a zero gap). */
  function RateOf(bits: real, iat: Time): (r: Option<real>)
    ensures r.Some? <==> iat != Finite(0.0)
    ensures r.Some? && iat.Finite? ==> r.value * iat.ns == bits * NanosecsPerSec
    ensures iat.PosInfinity? ==> r == Some(0.0)
  {
    match iat
    case PosInfinity => Some(0.0)
    case Finite(t) => if t == 0.0 then None else Some(bits * NanosecsPerSec / t)
  }

  /** `getCalibratedRateInBitsPerSecond` and
      `getCalibratedAveragePacketSizeInBits`: the generator's own value when
      it is calibrated, otherwise the "not calibrated" error. */
  function Guarded<T>(calibrated: bool, value: T): (r: Result<T>)
    ensures r.Success? <==> calibrated
    ensures r.Failure? ==> r.error == NotCalibrated
    ensures r.Success? ==> r.value == value
  {
    if !calibrated then Failure(NotCalibrated) else Success(value)
  }

  // ---------------------------------------------------------------------
  // The round-robin flow cursor
  // ---------------------------------------------------------------------

  /** The number of distinct cursor values: `kNumFlows`, or all 2^32 values
      of the 32-bit cursor when `kNumFlows` is 0 (the cursor then never
      meets the bound and wraps around). */
  function Period(numFlows: U32): (p: nat)
    ensures 1 <= p <= TwoTo32
  {
    if numFlows == 0 then TwoTo32 else numFlows
  }

  /** `if (++next_flow_id_ == kNumFlows) next_flow_id_ = 0;` on a 32-bit
      cursor. */
  function NextCursor(cursor: U32, numFlows: U32): U32
  {
    var c := (cursor + 1) % TwoTo32;
    if c == numFlows then 0 else c
  }

  /** Within its period the cursor counts up by one and wraps to 0. */
  lemma CursorStep(cursor: U32, numFlows: U32, n: nat)
    requires cursor == n % Period(numFlows)
    ensures NextCursor(cursor, numFlows) == (n + 1) % Period(numFlows)
  {
    var p := Period(numFlows);
    ModSucc(n, p);
  }

  lemma ModSucc(n: nat, p: nat)
    requires p >= 1
    ensures (n + 1) % p == if n % p + 1 == p then 0 else n % p + 1
  {
    var q, r := n / p, n % p;
    assert n == q * p + r;
    if r + 1 == p {
      assert n + 1 == (q + 1) * p;
      ModOfMultiple(q + 1, p, 0);
    } else {
      assert n + 1 == q * p + (r + 1);
      ModOfMultiple(q, p, r + 1);
    }
  }

  lemma ModOfMultiple(q: nat, p: nat, r: nat)
    requires r < p
    ensures (q * p + r) % p == r
  {
    var n := q * p + r;
    var d, m := n / p, n % p;
    QuotientUnique(d, q, p, m, r);
  }

  lemma QuotientUnique(d: int, q: int, p: int, m: int, r: int)
    requires d * p + m == q * p + r && 0 <= m < p && 0 <= r < p
    ensures d == q && m == r
  {
    if d > q {
      MulAtLeast(d - q, p);
    } else if d < q {
      MulAtLeast(q - d, p);
    }
  }

  lemma {:induction false} MulAtLeast(k: nat, p: nat)
    requires k >= 1
    ensures k * p >= p
  {
    if k > 1 {
      MulAtLeast(k - 1, p);
      assert k * p == (k - 1) * p + p;
    }
  }

  /** Any `p` consecutive packets use each of the `p` cursor values exactly
      once: every value occurs in the window, and no two packets of the
      window share one. */
  lemma CursorCycles(p: nat, j: nat, v: nat)
    requires 1 <= p && v < p
    ensures exists i :: j <= i < j + p && i % p == v
    ensures forall i1, i2 :: j <= i1 < i2 < j + p ==> i1 % p != i2 % p
  {
    var q, r := j / p, j % p;
    assert j == q * p + r;
    if v >= r {
      ModOfMultiple(q, p, v);
      assert (j - r + v) % p == v;
    } else {
      ModOfMultiple(q + 1, p, v);
      assert (q + 1) * p + v == j - r + v + p;
      assert (j - r + v + p) % p == v;
    }
    forall i1, i2 | j <= i1 < i2 < j + p
      ensures i1 % p != i2 % p
    {
      if i1 % p == i2 % p {
        SameResidue(i1, i2, p);
      }
    }
  }

  lemma SameResidue(i1: nat, i2: nat, p: nat)
    requires 1 <= p && i1 < i2 && i1 % p == i2 % p
    ensures i2 - i1 >= p
  {
    var q1, q2 := i1 / p, i2 / p;
    assert q1 * p + i1 % p == i1 && q2 * p + i2 % p == i2;
    assert (q2 - q1) * p == i2 - i1;
    if q2 > q1 {
      MulAtLeast(q2 - q1, p);
    }
  }

  // ---------------------------------------------------------------------
  // Synthetic generators
  // ---------------------------------------------------------------------

  /** What distinguishes the two synthetic generators: the innocent one has
      a packet-size distribution (only its mean matters here), the attack
      one a flow-id offset, a fixed packet size and a fixed job size. */
  datatype SyntheticKind =
    | InnocentKind(psizeMean: real)
    | AttackKind(flowIdOffset: U32, psizeBits: U32, jsizeNs: real)

  /** The flow number of the `i`-th packet since the last reset: the cursor
      value for innocent traffic, the offset plus the cursor (on 32 bits)
      for attack traffic. */
  function FlowNumber(kind: SyntheticKind, numFlows: U32, i: nat): (v: U32)
    ensures kind.InnocentKind? ==> v == i % Period(numFlows)
  {
    var c := i % Period(numFlows);
    match kind
    case InnocentKind(_) => c
    case AttackKind(offset, _, _) => (offset + c) % TwoTo32
  }

  /** The attack offset does not merge flows: distinct cursor values give
      distinct attack flow numbers. */
  lemma AttackFlowsDistinct(offset: U32, c1: U32, c2: U32)
    requires c1 != c2
    ensures (offset + c1) % TwoTo32 != (offset + c2) % TwoTo32
  {
  }

  /** Mean packet size of a synthetic generator, in bits. */
  function MeanPacketBits(kind: SyntheticKind): real
  {
    match kind
    case InnocentKind(m) => m
    case AttackKind(_, bits, _) => bits as real
  }

  class SyntheticTrafficGenerator {
    const kind: SyntheticKind
    /** `kNumFlows`. */
    const numFlows: U32
    /** The value of the constant inter-arrival distribution. */
    const iat: Time
    /** `arrival_time_`: when the next packet arrives. */
    var arrivalTime: Time
    /** `next_flow_id_`. */
    var nextFlowId: U32
    /** `is_calibrated_`. */
    var isCalibrated: bool
    /** The clock at the last reset (or construction), the clock updates
        and the packets generated since. */
    ghost var origin: Time
    ghost var updates: nat
    ghost var generated: nat

    /** The clock is the origin advanced once per update, the cursor counts
        the packets generated modulo the period, and a calibrated generator
        has a finite rate. */
    ghost predicate Valid()
      reads this
    {
      arrivalTime == ClockAfter(origin, iat, updates) &&
      nextFlowId == generated % Period(numFlows) &&
      (isCalibrated ==> RateImpl().Some?)
    }

    /** `getRateInBitsPerSecondImpl`. */
    function RateImpl(): Option<real>
    {
      RateOf(MeanPacketBits(kind), iat)
    }

    /** `InnocentTrafficGenerator(num_flows, iat_dist, psize_dist)`. */
    constructor InnocentGenerator(numFlows: U32, iat: Time, psizeMean: real)
      ensures Valid() && fresh(this)
      ensures this.kind == InnocentKind(psizeMean) && this.numFlows == numFlows && this.iat == iat
      ensures arrivalTime == Finite(0.0) && nextFlowId == 0 && !isCalibrated
      ensures generated == 0
    {
      kind := InnocentKind(psizeMean);
      this.numFlows := numFlows;
      this.iat := iat;
      arrivalTime := Finite(0.0);
      nextFlowId := 0;
      isCalibrated := false;
      origin := Finite(0.0);
      updates := 0;
      generated := 0;
    }

    /** `AttackTrafficGenerator(num_flows, fid_offset, iat_dist, p, j)`: a
        generator with an infinite gap (zero attack bandwidth) starts with
        its clock at +infinity, so it never fires. */
    constructor AttackGenerator(numFlows: U32, flowIdOffset: U32, iat: Time, psizeBits: U32, jsizeNs: real)
      ensures Valid() && fresh(this)
      ensures this.kind == AttackKind(flowIdOffset, psizeBits, jsizeNs)
      ensures this.numFlows == numFlows && this.iat == iat
      ensures arrivalTime == (if iat.PosInfinity? then PosInfinity else Finite(0.0))
      ensures nextFlowId == 0 && !isCalibrated && generated == 0
    {
      kind := AttackKind(flowIdOffset, psizeBits, jsizeNs);
      this.numFlows := numFlows;
      this.iat := iat;
      arrivalTime := if iat.PosInfinity? then PosInfinity else Finite(0.0);
      nextFlowId := 0;
      isCalibrated := false;
      origin := if iat.PosInfinity? then PosInfinity else Finite(0.0);
      updates := 0;
      generated := 0;
    }

    /** `getCalibratedRateInBitsPerSecond`: a calibrated synthetic generator
        always has a finite rate. */
    function GetCalibratedRate(): (r: Result<Option<real>>)
      requires Valid()
      reads this
      ensures r.Success? <==> isCalibrated
      ensures r.Success? ==> r.value.Some? && r.value == RateImpl()
    {
      Guarded(isCalibrated, RateImpl())
    }

    /** `getCalibratedAveragePacketSizeInBits`. */
    function GetCalibratedAveragePacketSize(): (r: Result<real>)
      reads this
      ensures r.Success? <==> isCalibrated
      ensures r.Success? ==> r.value == MeanPacketBits(kind)
    {
      Guarded(isCalibrated, MeanPacketBits(kind))
    }

    /** `reset`: the clock and the flow cursor go back to 0 (even for an
        attack generator whose clock started at +infinity). */
    method Reset()
      requires Valid()
      modifies this
      ensures Valid()
      ensures arrivalTime == Finite(0.0) && nextFlowId == 0 && generated == 0 && updates == 0
      ensures isCalibrated == old(isCalibrated)
    {
      arrivalTime := Finite(0.0);
      nextFlowId := 0;
      origin := Finite(0.0);
      updates := 0;
      generated := 0;
    }

    /** `updateArrivalTime`: the clock advances by one gap. */
    method UpdateArrivalTime()
      requires Valid()
      modifies this
      ensures Valid()
      ensures arrivalTime == Advance(old(arrivalTime), iat)
      ensures updates == old(updates) + 1
      ensures origin == old(origin) && nextFlowId == old(nextFlowId) && generated == old(generated)
      ensures isCalibrated == old(isCalibrated)
    {
      arrivalTime := Advance(arrivalTime, iat);
      updates := updates + 1;
    }

    /** `getNextArrival`: the next packet of the generator's flows, stamped
        with the current clock, which does not move.  The `i`-th packet since
        the last reset belongs to flow number `FlowNumber(kind, numFlows, i)`.
        `psizeSample` is the innocent generator's packet-size sample; a
        double outside the range of `uint32_t` has no defined conversion. */
    method GetNextArrival(packetIdx: U64, psizeSample: real) returns (p: Packet)
      requires Valid() && arrivalTime.Finite?
      requires kind.InnocentKind? ==> 0.0 <= psizeSample < TwoTo32 as real
      modifies this
      ensures Valid()
      ensures generated == old(generated) + 1
      ensures arrivalTime == old(arrivalTime) && updates == old(updates) && origin == old(origin)
      ensures isCalibrated == old(isCalibrated)
      ensures p.idx == packetIdx && p.arriveTime == arrivalTime.ns
      ensures p.flowId == FlowIdFrom(FlowNumber(kind, numFlows, old(generated)))
      ensures p.tcpHeader == DefaultTcpHeader() && p.departTime == 0.0
      ensures kind.InnocentKind? ==>
                p.cls == Innocent && p.packetSize == Trunc(psizeSample) &&
                p.jobSizeEstimate == InvalidJobSize && p.jobSizeActual == InvalidJobSize
      ensures kind.AttackKind? ==>
                p.cls == Attack && p.packetSize == kind.psizeBits &&
                p.jobSizeEstimate == kind.jsizeNs && p.jobSizeActual == kind.jsizeNs
    {
      match kind {
        case InnocentKind(_) =>
          p := NewPacket(packetIdx, FlowIdFrom(nextFlowId), Innocent, Trunc(psizeSample));
        case AttackKind(offset, bits, jsize) =>
          var flow: U32 := (offset + nextFlowId) % TwoTo32;
          p := NewPacket(packetIdx, FlowIdFrom(flow), Attack, bits);
          p := SetJobSizeEstimate(p, jsize);
          p := SetJobSizeActual(p, jsize);
      }
      CursorStep(nextFlowId, numFlows, generated);
      nextFlowId := NextCursor(nextFlowId, numFlows);
      generated := generated + 1;
      p := SetArriveTime(p, arrivalTime.ns);
    }

    /** `calibrate(rate)`: a second calibration throws; a NaN rate leaves
        the generator uncalibrated; otherwise the generator becomes
        calibrated exactly when its own rate is within 1e-6 of `rate`, and
        throws if it is not. */
    method Calibrate(rate: Double) returns (r: Result<()>)
      requires Valid()
      modifies this
      ensures Valid()
      ensures old(isCalibrated) ==> r == Failure(AlreadyCalibrated)
      ensures !old(isCalibrated) && rate.NaN? ==> r == Success(()) && !isCalibrated
      ensures !old(isCalibrated) && rate.Num? ==>
                (r.Success? <==> RateImpl().Some? && ApproxEqual(rate.v, RateImpl().value)) &&
                (r.Failure? ==> r.error == CalibrationFailed)
      ensures isCalibrated <==> old(isCalibrated) || (r == Success(()) && rate.Num?)
      ensures arrivalTime == old(arrivalTime) && nextFlowId == old(nextFlowId)
      ensures origin == old(origin) && updates == old(updates) && generated == old(generated)
    {
      if isCalibrated {
        return Failure(AlreadyCalibrated);
      }
      if rate.Num? {
        var computed := RateImpl();
        if !(computed.Some? && ApproxEqual(rate.v, computed.value)) {
          return Failure(CalibrationFailed);
        }
        isCalibrated := true;
      }
      return Success(());
    }
  }
}
