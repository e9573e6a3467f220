/** The simulator's single non-preemptive server (simulator/src/server/):
    it asks its application for a packet's job sizes, serves one packet at a
    time and stamps its departure. */
module Servers {
  import opened Wrappers
  import opened Packets
  import opened Applications
  import opened TcpSpec
  import opened TcpReassemblyApp

  /** The application behind a server: Echo, or a TCP reassembly engine
      with its flow table. */
  datatype App = EchoApp | TcpApp(tcp: TcpReassembly)

  function IsFlowOrderRequired(app: App): (r: bool)
    ensures r <==> app.TcpApp?
  {
    match app
    case EchoApp => EchoIsFlowOrderRequired
    case TcpApp(_) => TcpReassembly.IsFlowOrderRequired
  }

  /** The constructor's check: an application that needs per-flow order
      cannot run behind a queue that does not keep it. */
  function CheckFlowOrder(app: App, queueMaintainsFlowOrder: bool): (r: Result<()>)
    ensures r.Failure? <==> IsFlowOrderRequired(app) && !queueMaintainsFlowOrder
    ensures r.Failure? ==> r.error == FlowOrderViolated
  {
    if IsFlowOrderRequired(app) && !queueMaintainsFlowOrder then Failure(FlowOrderViolated)
    else Success(())
  }

  /** In heuristic mode a TCP packet is first only estimated and then
      processed; the estimate is valid exactly when the processed size is.
      A flow not yet stored is estimated invalid, and processing creates it
      in its initial (SYN) state, which is invalid as well. */
  lemma HeuristicEstimateAgrees(flows: map<FlowId, FlowState>, p: Packet)
    requires InnerSynCheck(flows, p, true)
    ensures ProcessInnerSpec(flows, p, false).1 == InvalidJobSize <==>
            ProcessInnerSpec(flows, p, true).1 == InvalidJobSize
  {
    var h := p.tcpHeader;
    if h.isValid && !IsFlagFinOrRst(h) && !IsPassThroughPacket(h) && p.flowId in flows {
      EstimateAgreesWithProcess(flows[p.flowId], h);
    }
  }

  /** A packet's record after it is served from `time`: it departs once its
      actual job size has elapsed. */
  function Served(p: Packet, time: real): (q: Packet)
    ensures q.departTime == time + p.jobSizeActual
    ensures q.(departTime := p.departTime) == p
  {
    p.(departTime := time + p.jobSizeActual)
  }

  /** A packet that arrived no later than it entered service, with a
      non-negative job size, departs with a latency of its waiting time plus
      its job size. */
  lemma ServedLatency(p: Packet, time: real)
    requires p.arriveTime <= time && p.jobSizeActual >= 0.0
    ensures GetLatency(Served(p, time)).Success?
    ensures GetLatency(Served(p, time)).value == (time - p.arriveTime) + p.jobSizeActual
    ensures GetLatency(Served(p, time)).value >= p.jobSizeActual
  {
  }

  class Server {
    const app: App
    var isBusy: bool
    var packet: Packet
    var departTime: real

    /** An idle server that has served nothing. */
    constructor(a: App)
      ensures app == a && !isBusy && departTime == 0.0 && packet == DefaultPacket()
    {
      app := a;
      isBusy := false;
      packet := DefaultPacket();
      departTime := 0.0;
    }

    /** `Server(app, queue)`: fails when the application requires per-flow
        order that the queue does not keep. */
    static method Create(a: App, queueMaintainsFlowOrder: bool) returns (r: Result<Server>)
      ensures r.Failure? <==> CheckFlowOrder(a, queueMaintainsFlowOrder).Failure?
      ensures r.Failure? ==> r.error == FlowOrderViolated
      ensures r.Success? ==> fresh(r.value) && r.value.app == a && !r.value.isBusy &&
                             r.value.departTime == 0.0
    {
      if IsFlowOrderRequired(a) && !queueMaintainsFlowOrder {
        return Failure(FlowOrderViolated);
      }
      var s := new Server(a);
      return Success(s);
    }

    /** `setJobSizeEstimateAndActual`: the estimate is set first, then the
        actual size from processing the packet that carries it.  For TCP
        reassembly exactly one of the two calls updates the flow table. */
    method SetJobSizeEstimateAndActual(p: Packet) returns (q: Packet)
      requires app.EchoApp? ==> p.jobSizeEstimate >= 0.0
      requires app.EchoApp? && p.cls == Attack ==> p.jobSizeActual >= 0.0
      requires app.TcpApp? && p.cls == Attack ==> p.jobSizeEstimate >= 0.0 && p.jobSizeActual >= 0.0
      requires app.TcpApp? && p.cls != Attack ==>
                 p.jobSizeEstimate == InvalidJobSize && InnerSynCheck(app.tcp.flows, p, true)
      modifies if app.TcpApp? then {app.tcp} else {}
      ensures q.(jobSizeEstimate := p.jobSizeEstimate, jobSizeActual := p.jobSizeActual) == p
      ensures app.EchoApp? ==>
                q.jobSizeEstimate == p.jobSizeEstimate && q.jobSizeActual == EchoProcess(p)
      ensures app.TcpApp? && p.cls == Attack ==>
                q == p && app.tcp.flows == old(app.tcp.flows)
      ensures app.TcpApp? && p.cls != Attack ==>
                var params := app.tcp.params;
                var (flows', serviceTime) := ProcessInnerSpec(old(app.tcp.flows), p, true);
                app.tcp.flows == flows' &&
                (params.useHeuristic ==>
                   q.jobSizeEstimate == ToJobSizeInNs(params, ProcessInnerSpec(old(app.tcp.flows), p, false).1) &&
                   q.jobSizeActual == ToJobSizeInNs(params, serviceTime)) &&
                (!params.useHeuristic ==>
                   q.jobSizeEstimate == ToJobSizeInNs(params, serviceTime) &&
                   q.jobSizeActual == q.jobSizeEstimate)
    {
      match app
      case EchoApp =>
        var estimate := EchoGetJobSizeEstimate(p);
        q := SetJobSizeEstimate(p, estimate);
        q := SetJobSizeActual(q, EchoProcess(q));
      case TcpApp(tcp) =>
        var estimate := tcp.GetJobSizeEstimate(p);
        q := SetJobSizeEstimate(p, estimate);
        var actual := tcp.Process(q);
        q := SetJobSizeActual(q, actual);
    }

    /** `schedule`: an idle server whose clock has reached its last departure
        starts serving a packet with a set estimate and a valid actual size;
        it is busy until that size has elapsed. */
    method Schedule(time: real, p: Packet)
      requires p.jobSizeEstimate >= 0.0
      requires !isBusy && time >= departTime
      requires p.jobSizeActual != InvalidJobSize
      modifies this
      ensures isBusy && packet == p && departTime == time + p.jobSizeActual
    {
      departTime := time + p.jobSizeActual;
      packet := p;
      isBusy := true;
    }

    /** `recordDeparture`: the packet in service is stamped with the
        departure time, the server becomes idle, and the packet is returned. */
    method RecordDeparture() returns (q: Packet)
      modifies this
      ensures q == old(packet).(departTime := old(departTime))
      ensures packet == q && !isBusy && departTime == old(departTime)
    {
      packet := SetDepartTime(packet, departTime);
      isBusy := false;
      q := packet;
    }

    /** Scheduling a packet and recording its departure gives back the
        packet as served from `time`. */
    method ServeOne(time: real, p: Packet) returns (q: Packet)
      requires p.jobSizeEstimate >= 0.0
      requires !isBusy && time >= departTime
      requires p.jobSizeActual != InvalidJobSize
      modifies this
      ensures q == Served(p, time) && !isBusy && departTime == time + p.jobSizeActual
    {
      Schedule(time, p);
      q := RecordDeparture();
    }
  }
}
