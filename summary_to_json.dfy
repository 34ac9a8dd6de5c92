/**
 * The script backend/flows/command/move_event/temp/summary_to_json.py: the first
 * version of the JSON writer. It calls a move vertical when the third ":"-component
 * of the two coordinates differs, and describes every move as rack-to-rack or
 * deck-to-deck from the word "Rack" anywhere on the line.
 */
module SummaryToJson {
  import opened Wrappers
  import opened Text
  import opened MoveLines

  /** `coord.split(":")[2]`, which raises IndexError when there are fewer than three components. */
  function ThirdComponent(coord: string): (r: Result<string, ParseError>)
    ensures r.Success? <==> |Split(coord, ':')| >= 3
    ensures r.Success? ==> r.value == Split(coord, ':')[2] && ':' !in r.value
  {
    var parts := Split(coord, ':');
    if |parts| < 3 then Failure(IndexError) else Success(parts[2])
  }

  /** The entry the loop appends for a move line, or the IndexError it raises. */
  function Entry(line: string): (r: Result<MoveEntry, ParseError>)
    ensures r.Success? <==>
      |Words(line)| >= 5 && |Split(Words(line)[2], ':')| >= 3 && |Split(Words(line)[4], ':')| >= 3
    ensures r.Success? ==>
      && r.value.src == Words(line)[2] && r.value.dest == Words(line)[4]
      && r.value.timestamp == Words(line)[0] + " " + Words(line)[1]
      && r.value.status == GetStatus(line)
      && (r.value.kind == "Vertical" <==> Split(Words(line)[2], ':')[2] != Split(Words(line)[4], ':')[2])
      && (r.value.kind == "Vertical" || r.value.kind == "Horizontal")
      && (r.value.description == "Rack-to-Rack Move" <==> Contains(line, "Rack"))
      && (r.value.description == "Rack-to-Rack Move" || r.value.description == "Deck-to-Deck Move")
  {
    match MoveTokens(line)
    case Failure(e) => Failure(e)
    case Success(t) =>
      match ThirdComponent(t.src)
      case Failure(e) => Failure(e)
      case Success(srcThird) =>
        match ThirdComponent(t.dest)
        case Failure(e) => Failure(e)
        case Success(destThird) =>
          var kind := if srcThird != destThird then "Vertical" else "Horizontal";
          var description := if Contains(line, "Rack") then "Rack-to-Rack Move" else "Deck-to-Deck Move";
          Success(MoveEntry(t.timestamp, t.src, t.dest, GetStatus(line), kind, description))
  }

  /** The whole script: the document, or the IndexError that stops it. */
  method SummaryToJson(inputLines: seq<string>) returns (r: Result<MovesDocument, ParseError>)
    ensures r.Success? <==> !Moves(Entry, inputLines).failed
    ensures r.Success? ==> r.value.moves == Moves(Entry, inputLines).entries
  {
    var moveData, failed := ParseMoves(Entry, inputLines);
    if failed {
      return Failure(IndexError);
    }
    r := Success(MovesDocument(moveData));
  }
}
