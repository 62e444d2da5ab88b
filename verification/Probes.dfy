/** The probes of a device as the user has set them up. */
module Probes {
  import opened Options

  /** `index` counts from 1; `trigger` is absent if the user set none. */
  datatype Probe = Probe(index: nat, enabled: bool, trigger: Option<string>)

  /** A device with 16 probes. */
  predicate Wired(probes: seq<Probe>) {
    forall i :: 0 <= i < |probes| ==> 1 <= probes[i].index <= 16
  }

  ghost predicate DistinctIndices(probes: seq<Probe>) {
    forall i, j :: 0 <= i < j < |probes| ==> probes[i].index != probes[j].index
  }
}
