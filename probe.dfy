/**
 * The prober: one ICMP latency measurement of one address, reduced to a
 * LatencyResult.  The ping machinery itself is replaced by a ProbeOutcome
 * that says whether a pinger could be built and, if so, what statistics it
 * reported.
 *
 * Loss rates are integers counting hundredths of the value the program
 * stores: the program keeps the packet loss as reported by the ping library
 * (a percentage) rounded to two decimals, so a loss of 25 % is 2500 and the
 * sentinel LossRate 1.00 is 100.
 */
module Probe {

  /** Latency reported for an address that cannot be used. */
  const Unreachable: int := 9999
  /** LossRate 1.00 written in hundredths. */
  const SentinelLoss: nat := 100
  /** Reported packet loss from which the measurement is discarded: 35.00. */
  const LossCutoff: nat := 3500
  /** Largest LossRate the selector accepts: 0.35. */
  const AcceptableLoss: nat := 35

  /** The result of probing one address. */
  datatype LatencyResult = LatencyResult(latency: int, ip: string, lossRate: nat)

  /** What the ping library did for one address. */
  datatype ProbeOutcome =
    | PingerError                                     // the pinger could not be constructed
    | Measured(avgRttMillis: int, packetLoss: nat)    // statistics after the run; loss in hundredths

  /** The selector's filter on a result: LossRate <= 0.35. */
  predicate Acceptable(r: LatencyResult) {
    r.lossRate <= AcceptableLoss
  }

  /** The sentinel result for an address that could not be probed or lost too much. */
  function UnreachableResult(ip: string): LatencyResult {
    LatencyResult(Unreachable, ip, SentinelLoss)
  }

  /** Classification of one probe of `ip`. */
  function GetLatency(ip: string, outcome: ProbeOutcome): (r: LatencyResult)
    ensures r.ip == ip
    ensures outcome.PingerError? ==> r == UnreachableResult(ip)
    ensures outcome.Measured? && outcome.packetLoss >= LossCutoff ==> r == UnreachableResult(ip)
    ensures outcome.Measured? && outcome.packetLoss < LossCutoff ==>
              r.latency == outcome.avgRttMillis && r.lossRate == outcome.packetLoss
  {
    match outcome
    case PingerError => UnreachableResult(ip)
    case Measured(rtt, loss) =>
      if loss < LossCutoff then LatencyResult(rtt, ip, loss)
      else LatencyResult(Unreachable, ip, SentinelLoss)
  }

  /** The selector accepts a probe result exactly when a pinger was built and
      the reported loss is at most 0.35 (in the library's percentage unit). */
  lemma AcceptedProbeIff(ip: string, outcome: ProbeOutcome)
    ensures Acceptable(GetLatency(ip, outcome)) <==>
              outcome.Measured? && outcome.packetLoss <= AcceptableLoss
  {
  }

  /** The sentinel is never accepted, whatever address it is for. */
  lemma SentinelNeverAcceptable(ip: string)
    ensures !Acceptable(UnreachableResult(ip))
  {
  }

  /** A measurement with loss at or above the cut-off is discarded: the result
      does not depend on the measured latency or loss. */
  lemma HighLossIsDiscarded(ip: string, o1: ProbeOutcome, o2: ProbeOutcome)
    requires o1.Measured? && o1.packetLoss >= LossCutoff
    requires o2.PingerError? || o2.packetLoss >= LossCutoff
    ensures GetLatency(ip, o1) == GetLatency(ip, o2)
  {
  }

  /** A loss strictly between 0.35 % and 35 % passes the prober (its latency is
      kept) and is still refused by the selector, because the two thresholds
      are compared against the same percentage value. */
  lemma LossBetweenThresholdsIsKeptButRefused(ip: string, rtt: int, loss: nat)
    requires AcceptableLoss < loss < LossCutoff
    ensures GetLatency(ip, Measured(rtt, loss)).latency == rtt
    ensures !Acceptable(GetLatency(ip, Measured(rtt, loss)))
  {
  }
}
