/**
 * The script backend/flows/command/move_event/temp/summary_to_json_v2.py: it reads
 * the move lines of a summary into `{"moves": [...]}`, naming moves by area with its
 * own `get_move_type`. The input file's lines are a parameter and the document is the
 * result; writing the output file is not modelled.
 */
module SummaryToJsonV2 {
  import opened Wrappers
  import opened MoveLines
  import TemplateSummaryParser

  /** `get_move_type` of this script: only "1.4" to "1.4" is rack-to-rack, and every
      other branch can be taken. */
  function GetMoveType(src: string, dest: string): (t: string)
    ensures t == "Rack-to-Rack Move" <==> Area(src) == "1.4" && Area(dest) == "1.4"
    ensures t == "Deck-to-Deck Move" <==> Area(src) == "1.2" && Area(dest) == "1.2"
    ensures t == "Workstation Move" <==> Area(src) == "1.1" && Area(dest) == "1.1"
    ensures t == "Tower-to-Deck Move" <==> Area(src) == "1.3" && Area(dest) == "1.2"
    ensures t == "Rack-to-Deck Move" <==> Area(src) == "1.4" && Area(dest) == "1.2"
    ensures t == "Rack-to-Tower Move" <==> Area(src) == "1.4" && Area(dest) == "1.3"
    ensures t == "Unknown Move" <==>
      (Area(src), Area(dest)) !in {("1.4", "1.4"), ("1.4", "1.2"), ("1.3", "1.2"), ("1.2", "1.2"), ("1.4", "1.3"), ("1.1", "1.1")}
    ensures t in {"Rack-to-Rack Move", "Rack-to-Deck Move", "Tower-to-Deck Move", "Deck-to-Deck Move",
                  "Rack-to-Tower Move", "Workstation Move", "Unknown Move"}
  {
    var srcArea := Area(src);
    var destArea := Area(dest);
    if srcArea == "1.4" && destArea == "1.4" then "Rack-to-Rack Move"
    else if srcArea == "1.4" && destArea == "1.2" then "Rack-to-Deck Move"
    else if srcArea == "1.3" && destArea == "1.2" then "Tower-to-Deck Move"
    else if srcArea == "1.2" && destArea == "1.2" then "Deck-to-Deck Move"
    else if srcArea == "1.4" && destArea == "1.3" then "Rack-to-Tower Move"
    else if srcArea == "1.1" && destArea == "1.1" then "Workstation Move"
    else "Unknown Move"
  }

  /** Against the template reader: the two agree whenever the areas differ; for equal
      areas other than "1.4", "1.2" and "1.1" this one says "Unknown Move". */
  lemma AgreesWithTemplateOnDifferentAreas(src: string, dest: string)
    ensures Area(src) != Area(dest) ==>
      GetMoveType(src, dest) == TemplateSummaryParser.GetMoveType(src, dest)
    ensures Area(src) == Area(dest) && Area(src) !in {"1.4", "1.2", "1.1"} ==>
      GetMoveType(src, dest) == "Unknown Move"
  {
  }

  /** The entry the loop appends for a move line. */
  function Entry(line: string): Result<MoveEntry, ParseError> {
    StandardEntry(GetMoveType, line)
  }

  /** The whole script: the document, or the IndexError of a move line of fewer than five words. */
  method SummaryToJson(inputLines: seq<string>) returns (r: Result<MovesDocument, ParseError>)
    ensures r.Success? <==> !Moves(Entry, inputLines).failed
    ensures r.Success? ==> r.value.moves == Moves(Entry, inputLines).entries
  {
    var moveData, failed := ParseMoves(Entry, inputLines);
    if failed {
      return Failure(IndexError);
    }
    r := Success(MovesDocument(moveData));
  }
}
