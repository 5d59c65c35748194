/** Risk tier of a predicted claim charge and the advisory shown with it. */
module Tiering {

  /** Above this charge the claim is high risk. */
  const HighThreshold: int := 200000
  /** Above this charge (and up to HighThreshold) the claim is to be watched. */
  const WatchThreshold: int := 80000

  /** The three outcomes, in increasing order of risk. */
  datatype Tier = Standard | Watch | High

  /** Position of a tier in the order Standard < Watch < High. */
  function Rank(t: Tier): (r: nat)
  {
    match t
    case Standard => 0
    case Watch => 1
    case High => 2
  }

  /** The if/elif/else chain on the integer charge. */
  function Classify(charge: int): (t: Tier)
    ensures t == High <==> charge > HighThreshold
    ensures t == Watch <==> WatchThreshold < charge <= HighThreshold
    ensures t == Standard <==> charge <= WatchThreshold
  {
    if charge > HighThreshold then High
    else if charge > WatchThreshold then Watch
    else Standard
  }

  /** How many of the given thresholds the charge strictly exceeds. */
  function Exceeded(thresholds: seq<int>, charge: int): (n: nat)
    ensures n <= |thresholds|
  {
    if thresholds == [] then 0
    else (if charge > thresholds[0] then 1 else 0) + Exceeded(thresholds[1..], charge)
  }

  /** Reference reading of the chain: a tier's rank is the number of
      thresholds the charge is above. */
  lemma RankCountsThresholds(charge: int)
    ensures Rank(Classify(charge)) == Exceeded([WatchThreshold, HighThreshold], charge)
  {
  }

  /** The tiers at and around both boundaries. */
  lemma ClassifyBoundaries()
    ensures Classify(200001) == High
    ensures Classify(200000) == Watch
    ensures Classify(80001) == Watch
    ensures Classify(80000) == Standard
    ensures Classify(0) == Standard
  {
  }

  /** A larger charge never falls into a lower tier. */
  lemma ClassifyMonotone(a: int, b: int)
    requires a <= b
    ensures Rank(Classify(a)) <= Rank(Classify(b))
  {
  }

  /** Kind of Streamlit message box the advisory is shown in. */
  datatype Severity = Error | Warning | Success

  datatype Advisory = Advisory(severity: Severity, text: string)

  /** The message shown for each tier: an error box for High, a warning for
      Watch and a success box for Standard. */
  function AdvisoryFor(t: Tier): (a: Advisory)
    ensures a.severity == Error <==> t == High
    ensures a.severity == Warning <==> t == Watch
    ensures a.severity == Success <==> t == Standard
  {
    match t
    case High => Advisory(Error, "Risque de charge élevée. Une expertise approfondie est recommandée.")
    case Watch => Advisory(Warning, "Charge moyenne à surveiller.")
    case Standard => Advisory(Success, "Charge standard estimée.")
  }
}
