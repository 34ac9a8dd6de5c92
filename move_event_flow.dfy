/**
 * The `SummaryParser` of the move-event plot flow
 * (backend/flows/command/move_event_flow.py): it holds the text of a correlator
 * summary and fills, from it, a list of moves and a dictionary of fatal faults.
 * The text is given as its lines; the plot, MinIO and Prefect are not modelled.
 */
module MoveEventFlow {
  import opened Wrappers
  import opened MoveLines
  import TemplateSummaryParser

  /**
   * `get_move_type` as written: the equal-area test comes first, and the test meant
   * for tower-to-deck moves repeats the rack-to-deck test, so only four names occur.
   */
  function GetMoveType(src: string, dest: string): (t: string)
    ensures t == "Rack-to-Rack Move" <==> Area(src) == Area(dest)
    ensures t == "Rack-to-Deck Move" <==> Area(src) == "1.4" && Area(dest) == "1.2"
    ensures t == "Rack-to-Tower Move" <==> Area(src) == "1.4" && Area(dest) == "1.3"
    ensures t == "Rack-to-Rack Move" || t == "Rack-to-Deck Move" || t == "Rack-to-Tower Move" || t == "Unknown Move"
  {
    var srcArea := Area(src);
    var destArea := Area(dest);
    if srcArea == destArea then "Rack-to-Rack Move"
    else if srcArea == "1.4" && destArea == "1.2" then "Rack-to-Deck Move"
    else if srcArea == "1.4" && destArea == "1.2" then "Tower-to-Deck Move"
    else if srcArea == "1.2" && destArea == "1.2" then "Deck-to-Deck Move"
    else if srcArea == "1.4" && destArea == "1.3" then "Rack-to-Tower Move"
    else if srcArea == "1.1" && destArea == "1.1" then "Workstation Move"
    else "Unknown Move"
  }

  /** Against the template reader, which tests "1.3" to "1.2" in that place: the two
      agree on every pair except tower-to-deck moves, which this one calls unknown. */
  lemma DiffersFromTemplateOnlyOnTowerToDeck(src: string, dest: string)
    ensures GetMoveType(src, dest) != TemplateSummaryParser.GetMoveType(src, dest) <==>
      Area(src) == "1.3" && Area(dest) == "1.2"
    ensures Area(src) == "1.3" && Area(dest) == "1.2" ==> GetMoveType(src, dest) == "Unknown Move"
  {
  }

  /** The entry `parse_summary` appends for a move line. */
  function Entry(line: string): Result<MoveEntry, ParseError> {
    StandardEntry(GetMoveType, line)
  }

  class SummaryParser {
    /** `summary_data`, as its lines. */
    const summaryLines: seq<string>
    /** The moves parsed so far. */
    var data: seq<MoveEntry>
    /** Fault code to the buffered lines that ended with its trigger line. */
    var fatalFaults: map<string, seq<string>>

    constructor (summaryLines: seq<string>)
      ensures this.summaryLines == summaryLines
      ensures data == [] && fatalFaults == map[]
    {
      this.summaryLines := summaryLines;
      data := [];
      fatalFaults := map[];
    }

    /**
     * `extract_fatal_faults`: records into the dictionary it already has; a trigger
     * line of fewer than four words raises, leaving what was recorded before it.
     */
    method ExtractFatalFaults() returns (err: Option<ParseError>)
      modifies this
      ensures data == old(data)
      ensures FatalScan(fatalFaults, err.Some?) == FatalFaults(old(fatalFaults), summaryLines)
    {
      var faults, failed := ScanFatalFaults(fatalFaults, summaryLines);
      fatalFaults := faults;
      err := if failed then Some(IndexError) else None;
    }

    /**
     * `parse_summary`: empties `data`, then appends one entry per move line; a move
     * line of fewer than five words raises, leaving the entries before it. What it
     * leaves does not depend on the old `data`, so a second call gives the same list.
     */
    method ParseSummary() returns (err: Option<ParseError>)
      modifies this
      ensures fatalFaults == old(fatalFaults)
      ensures MoveScan(data, err.Some?) == Moves(Entry, summaryLines)
    {
      data := [];
      var entries, failed := ParseMoves(Entry, summaryLines);
      data := entries;
      err := if failed then Some(IndexError) else None;
    }
  }
}
