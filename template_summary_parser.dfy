/**
 * The template `SummaryParser` (backend/flows/templates/summary_parser.py): the same
 * reader as the move-event flow's, except that it reads a file and names tower-to-deck
 * moves. The file's lines are passed to the methods that read it.
 */
module TemplateSummaryParser {
  import opened Wrappers
  import opened MoveLines

  /** `get_move_type`: equal areas are rack-to-rack whatever they are, so the deck-to-deck
      and workstation tests never decide; "1.3" to "1.2" is a tower-to-deck move. */
  function GetMoveType(src: string, dest: string): (t: string)
    ensures t == "Rack-to-Rack Move" <==> Area(src) == Area(dest)
    ensures t == "Rack-to-Deck Move" <==> Area(src) == "1.4" && Area(dest) == "1.2"
    ensures t == "Tower-to-Deck Move" <==> Area(src) == "1.3" && Area(dest) == "1.2"
    ensures t == "Rack-to-Tower Move" <==> Area(src) == "1.4" && Area(dest) == "1.3"
    ensures t != "Deck-to-Deck Move" && t != "Workstation Move"
    ensures t == "Unknown Move" <==>
      Area(src) != Area(dest) && (Area(src), Area(dest)) !in {("1.4", "1.2"), ("1.3", "1.2"), ("1.4", "1.3")}
    ensures t in {"Rack-to-Rack Move", "Rack-to-Deck Move", "Tower-to-Deck Move", "Rack-to-Tower Move", "Unknown Move"}
  {
    var srcArea := Area(src);
    var destArea := Area(dest);
    if srcArea == destArea then "Rack-to-Rack Move"
    else if srcArea == "1.4" && destArea == "1.2" then "Rack-to-Deck Move"
    else if srcArea == "1.3" && destArea == "1.2" then "Tower-to-Deck Move"
    else if srcArea == "1.2" && destArea == "1.2" then "Deck-to-Deck Move"
    else if srcArea == "1.4" && destArea == "1.3" then "Rack-to-Tower Move"
    else if srcArea == "1.1" && destArea == "1.1" then "Workstation Move"
    else "Unknown Move"
  }

  /** The entry `parse_summary` appends for a move line. */
  function Entry(line: string): Result<MoveEntry, ParseError> {
    StandardEntry(GetMoveType, line)
  }

  class SummaryParser {
    /** The path of the summary file. */
    const summaryFile: string
    var data: seq<MoveEntry>
    var fatalFaults: map<string, seq<string>>

    constructor (summaryFile: string)
      ensures this.summaryFile == summaryFile
      ensures data == [] && fatalFaults == map[]
    {
      this.summaryFile := summaryFile;
      data := [];
      fatalFaults := map[];
    }

    /** `extract_fatal_faults`, with `fileLines` the lines of `summaryFile`. */
    method ExtractFatalFaults(fileLines: seq<string>) returns (err: Option<ParseError>)
      modifies this
      ensures data == old(data)
      ensures FatalScan(fatalFaults, err.Some?) == FatalFaults(old(fatalFaults), fileLines)
    {
      var faults, failed := ScanFatalFaults(fatalFaults, fileLines);
      fatalFaults := faults;
      err := if failed then Some(IndexError) else None;
    }

    /** `parse_summary`, with `fileLines` the lines of `summaryFile`: `data` is emptied first. */
    method ParseSummary(fileLines: seq<string>) returns (err: Option<ParseError>)
      modifies this
      ensures fatalFaults == old(fatalFaults)
      ensures MoveScan(data, err.Some?) == Moves(Entry, fileLines)
    {
      data := [];
      var entries, failed := ParseMoves(Entry, fileLines);
      data := entries;
      err := if failed then Some(IndexError) else None;
    }
  }
}
