/**
 * The script backend/flows/command/move_event/temp/extract_fatals_from_summary.py:
 * `extract_fatal_faults(file_path)` as a function of the file's lines, starting from
 * an empty dictionary. Besides the dictionary it reports whether it would print
 * "No fatal fault detected.".
 */
module ExtractFatals {
  import opened Wrappers
  import opened MoveLines

  /**
   * The dictionary of fatal faults, or the IndexError of a trigger line of fewer than
   * four words. `reportsNone` is the message printed when no line set `fault_triggered`:
   * every successful trigger line records a code, so the flag is set exactly when the
   * dictionary is not empty.
   */
  method ExtractFatalFaults(fileLines: seq<string>)
    returns (r: Result<map<string, seq<string>>, ParseError>, reportsNone: bool)
    ensures var s := FatalFaults(map[], fileLines);
      && (r.Success? <==> !s.failed)
      && (r.Success? ==> r.value == s.faults)
    ensures reportsNone <==>
      r.Success? && forall k :: 0 <= k < |fileLines| ==> !IsFatalTrigger(fileLines[k])
    ensures reportsNone ==> r == Success(map[])
  {
    var fatalFaults, failed := ScanFatalFaults(map[], fileLines);
    if failed {
      return Failure(IndexError), false;
    }
    RecordedIffTriggered(fileLines);
    var faultTriggered := fatalFaults != map[];
    reportsNone := !faultTriggered;
    r := Success(fatalFaults);
  }
}
