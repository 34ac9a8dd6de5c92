/**
 * The `SummaryParser` kept in backend/flows/command/move_event/temp/all.py: the
 * template reader without fatal faults, whose `parse_summary` does not empty `data`
 * first, and which writes its moves as a JSON document. Its `get_move_type` and
 * `get_status` are those of the template reader.
 */
module TempAll {
  import opened Wrappers
  import opened MoveLines
  import TemplateSummaryParser

  class SummaryParser {
    /** The path of the summary file. */
    const summaryFile: string
    var data: seq<MoveEntry>

    constructor (summaryFile: string)
      ensures this.summaryFile == summaryFile && data == []
    {
      this.summaryFile := summaryFile;
      data := [];
    }

    /**
     * `parse_summary`, with `fileLines` the lines of `summaryFile`: the moves are
     * appended to what `data` already holds, so a second call adds a second copy.
     */
    method ParseSummary(fileLines: seq<string>) returns (err: Option<ParseError>)
      modifies this
      ensures var r := Moves(TemplateSummaryParser.Entry, fileLines);
        data == old(data) + r.entries && (err.Some? <==> r.failed)
    {
      var entries, failed := ParseMoves(TemplateSummaryParser.Entry, fileLines);
      data := data + entries;
      err := if failed then Some(IndexError) else None;
    }

    /** The document `save_as_json` writes: `{"moves": data}`, in the order parsed. */
    method SaveAsJson() returns (doc: MovesDocument)
      ensures doc.moves == data
    {
      doc := MovesDocument(data);
    }
  }
}
