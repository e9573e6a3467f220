/** Application parameters, the service-time-to-job-size conversion shared by
    every application (simulator/src/applications/application.h), and the
    Echo application (echo.cpp), which returns the job sizes the packet
    carries. */
module Applications {
  import opened Numeric
  import opened Packets

  /** `Application::Parameters`: whether the application estimates job sizes
      heuristically, the service-time scale factor, and the attacker's
      maximum job size (NaN when unset). */
  datatype Parameters = Parameters(useHeuristic: bool, serviceTimeScaling: real,
                                   maxAttackJobSizeNs: Double)

  /** The default parameters: no heuristic, scale 1, no maximum attack size. */
  function DefaultParameters(): (p: Parameters)
    ensures !p.useHeuristic && p.serviceTimeScaling == 1.0 && p.maxAttackJobSizeNs == NaN
  {
    Parameters(false, 1.0, NaN)
  }

  /** `toJobSizeInNs`: an invalid service time stays invalid; any other is
      scaled by the parameters' factor. */
  function ToJobSizeInNs(params: Parameters, serviceTime: real): (r: real)
    ensures serviceTime == InvalidJobSize ==> r == InvalidJobSize
    ensures serviceTime != InvalidJobSize ==> r == serviceTime * params.serviceTimeScaling
  {
    if serviceTime == InvalidJobSize then InvalidJobSize
    else serviceTime * params.serviceTimeScaling
  }

  /** With the default scale the conversion is the identity, and a
      non-negative service time under a non-negative scale gives a
      non-negative job size. */
  lemma ToJobSizeInNsFacts(params: Parameters, serviceTime: real)
    ensures params.serviceTimeScaling == 1.0 ==> ToJobSizeInNs(params, serviceTime) == serviceTime
    ensures serviceTime >= 0.0 && params.serviceTimeScaling >= 0.0 ==>
              ToJobSizeInNs(params, serviceTime) >= 0.0
  {
  }

  // ---------------------------------------------------------------------
  // Echo
  // ---------------------------------------------------------------------

  /** Echo does not need its packets served in flow order. */
  const EchoIsFlowOrderRequired: bool := false

  /** `Echo::process`: an attack packet yields its encoded actual job size,
      which must be non-negative; an innocent packet yields its estimate. */
  function EchoProcess(p: Packet): (r: real)
    requires p.cls == Attack ==> p.jobSizeActual >= 0.0
    ensures p.cls == Attack ==> r == p.jobSizeActual && r >= 0.0
    ensures p.cls == Innocent ==> r == p.jobSizeEstimate
  {
    if p.cls == Attack then p.jobSizeActual else p.jobSizeEstimate
  }

  /** `Echo::getJobSizeEstimate`: the packet's estimate, which must be set. */
  function EchoGetJobSizeEstimate(p: Packet): (r: real)
    requires p.jobSizeEstimate >= 0.0
    ensures r == p.jobSizeEstimate && r >= 0.0
  {
    p.jobSizeEstimate
  }

  /** For a packet whose estimate and actual size agree (as every attack
      packet of the generators does), Echo's estimate and actual job size are
      the same, whatever the class. */
  lemma EchoEstimateMatchesProcess(p: Packet)
    requires p.jobSizeEstimate >= 0.0 && p.jobSizeActual == p.jobSizeEstimate
    ensures EchoProcess(p) == EchoGetJobSizeEstimate(p)
  {
  }
}
