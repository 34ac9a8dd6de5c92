/**
 * The fingerprint catalog (`fingerprints.py`): the `Sequence` record with its
 * defaults and the six sequences searched for in every log.
 *
 * Every pattern is the shared timestamp expression followed by a fixed text;
 * the timestamp expression is a parameter here.
 */
module Fingerprints {
  import opened Wrappers

  /** The action callbacks the catalog names; what they compute is not modelled. */
  datatype ActionName =
    | ExtractFaultsSentToMcsDuringWindow
    | CheckMaxError
    | CheckMaxSmallerError
    | ProcessImpactEvent

  /** `Sequence(name, patterns, window, action=None, filter_actions=None)`. */
  datatype Sequence = Sequence(
    name: string,
    patterns: seq<string>,
    window: Option<nat>,
    action: Option<ActionName>,
    filterActions: Option<bool>)

  /** The namedtuple constructor called without the two defaulted fields. */
  function NewSequence(name: string, patterns: seq<string>, window: Option<nat>): (s: Sequence)
    ensures s.action.None? && s.filterActions.None?
    ensures s.name == name && s.patterns == patterns && s.window == window
  {
    Sequence(name, patterns, window, None, None)
  }

  const FaprFault := "[A-Z] FAPR0 Sent fault to MCS for Id=fault_0C_05_00"
  const FmonFault := "[A-Z] FMON0 Sent fault to MCS for Id=fault_05_0[67]_00"
  const ImuImpact := "[A-Z] _IMU0 Impact detected"

  /** Whether `filter_actions` is truthy. */
  predicate Filters(s: Sequence) {
    s.filterActions == Some(true)
  }

  /** The `sequences` list, in order, for a given timestamp expression. */
  function Catalog(timestampRe: string): (c: seq<Sequence>)
    ensures |c| == 6
    ensures forall i, j :: 0 <= i < j < 6 ==> c[i].name != c[j].name
    ensures forall i :: 0 <= i < 6 ==>
      c[i].window.Some? && 0 < |c[i].patterns| <= c[i].window.value
    ensures forall i :: 0 <= i < 6 ==> (Filters(c[i]) <==> c[i].name == "IMU_impact_detected")
    ensures c[2].patterns == [timestampRe + FmonFault, timestampRe + FaprFault]
    ensures c[5].patterns == [timestampRe + ImuImpact, timestampRe + FaprFault]
    ensures c[0].(action := None, name := c[1].name) == c[1]
    ensures c[0].action.Some?
  {
    var fapr := timestampRe + FaprFault;
    [
      Sequence("0C_05_00_signatures", [fapr], Some(100), Some(ExtractFaultsSentToMcsDuringWindow), None),
      NewSequence("05_12_00", [fapr], Some(100)),
      NewSequence("0C_05_00_high_wheel_velocity_failure", [timestampRe + FmonFault, fapr], Some(100)),
      Sequence("0C_05_00_large_slip", [fapr], Some(20), Some(CheckMaxError), None),
      Sequence("0C_05_00_small_slip", [fapr], Some(50), Some(CheckMaxSmallerError), None),
      Sequence("IMU_impact_detected", [timestampRe + ImuImpact, fapr], Some(50), Some(ProcessImpactEvent), Some(true))
    ]
  }

  /** The names and windows of the catalog, in order, whatever the timestamp expression. */
  lemma CatalogNamesAndWindows(timestampRe: string)
    ensures forall i :: 0 <= i < 6 ==>
      Catalog(timestampRe)[i].name ==
        ["0C_05_00_signatures", "05_12_00", "0C_05_00_high_wheel_velocity_failure",
         "0C_05_00_large_slip", "0C_05_00_small_slip", "IMU_impact_detected"][i]
    ensures forall i :: 0 <= i < 6 ==> Catalog(timestampRe)[i].window == Some([100, 100, 100, 20, 50, 50][i])
  {
  }
}
