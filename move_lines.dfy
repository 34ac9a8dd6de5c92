/**
 * What the readers of the correlator's summary have in common: the move line
 * `<date> <time> <src> -> <dest> | <status>` is cut into whitespace-separated
 * words, the status is read off the whole line, the move is vertical when the
 * level (the last "."-component) of its two coordinates differs, and fatal
 * faults are stored with the last ten lines read.
 *
 * Lines are given without their line terminators; `strip`, `split()` and the
 * substring tests used here give the same answers with or without them.
 */
module MoveLines {
  import opened Wrappers
  import opened Text

  /** The exception the readers can raise themselves: a list index out of range. */
  datatype ParseError = IndexError

  /** The JSON object the readers write: `{"moves": [...]}`. */
  datatype MovesDocument = MovesDocument(moves: seq<MoveEntry>)

  /** One element of the `moves` list. */
  datatype MoveEntry = MoveEntry(
    timestamp: string,
    src: string,
    dest: string,
    status: string,
    kind: string,
    description: string)

  /** `get_status`: "Success" exactly when the text mentions it. */
  function GetStatus(description: string): (r: string)
    ensures r == "Success" || r == "Failure"
    ensures r == "Success" <==> Contains(description, "Success")
  {
    if Contains(description, "Success") then "Success" else "Failure"
  }

  /** `coord.split(":")[0]`: the area of a coordinate, everything before its first ":". */
  function Area(coord: string): (a: string)
    ensures ':' !in a
    ensures |a| <= |coord| && a == coord[..|a|] && (|a| < |coord| ==> coord[|a|] == ':')
    ensures ':' !in coord ==> a == coord
  {
    SplitFirstPiece(coord, ':');
    if ':' in coord then Split(coord, ':')[0]
    else
      SplitWithoutSeparator(coord, ':');
      Split(coord, ':')[0]
  }

  /** `coord.split(".")[-1]`: the level of a coordinate, everything after its last ".". */
  function Level(coord: string): (l: string)
    ensures '.' !in l
    ensures |l| <= |coord| && l == coord[|coord| - |l|..] && (|l| < |coord| ==> coord[|coord| - |l| - 1] == '.')
    ensures '.' !in coord ==> l == coord
  {
    SplitLastPiece(coord, '.');
    if '.' in coord then LastPiece(coord, '.')
    else
      SplitWithoutSeparator(coord, '.');
      LastPiece(coord, '.')
  }

  /** "Vertical" when the two levels differ, "Horizontal" when they agree. */
  function Orientation(src: string, dest: string): (kind: string)
    ensures kind == "Vertical" || kind == "Horizontal"
    ensures kind == "Vertical" <==> Level(src) != Level(dest)
  {
    if Level(src) != Level(dest) then "Vertical" else "Horizontal"
  }

  /** The fields a move line carries in its words. */
  datatype Tokens = Tokens(timestamp: string, src: string, dest: string)

  /** `parts = line.split()`, then `parts[0] + " " + parts[1]`, `parts[2]` and `parts[4]`;
      a line of fewer than five words raises IndexError. */
  function MoveTokens(line: string): (r: Result<Tokens, ParseError>)
    ensures r.Success? <==> |Words(line)| >= 5
    ensures r.Success? ==>
      && r.value.src == Words(line)[2] && r.value.dest == Words(line)[4]
      && r.value.timestamp == Words(line)[0] + " " + Words(line)[1]
  {
    var parts := Words(line);
    if |parts| < 5 then Failure(IndexError)
    else Success(Tokens(parts[0] + " " + parts[1], parts[2], parts[4]))
  }

  /** Whether a line describes a move: `"->" in line`. */
  predicate HasArrow(line: string) {
    Contains(line, "->")
  }

  /** How a reader turns one move line into an entry, or the error it raises. */
  type EntryOf = string -> Result<MoveEntry, ParseError>

  /**
   * The entry of a move line in the readers that classify moves by area:
   * the words, the status, the orientation and `move_type(src, dest)`.
   */
  function StandardEntry(moveType: (string, string) -> string, line: string): (r: Result<MoveEntry, ParseError>)
    ensures r.Success? <==> |Words(line)| >= 5
    ensures r.Success? ==>
      && r.value.src == Words(line)[2] && r.value.dest == Words(line)[4]
      && r.value.timestamp == Words(line)[0] + " " + Words(line)[1]
      && r.value.status == GetStatus(line)
      && (r.value.kind == "Vertical" <==> Level(Words(line)[2]) != Level(Words(line)[4]))
      && r.value.description == moveType(Words(line)[2], Words(line)[4])
  {
    match MoveTokens(line)
    case Failure(e) => Failure(e)
    case Success(t) =>
      Success(MoveEntry(t.timestamp, t.src, t.dest, GetStatus(line), Orientation(t.src, t.dest), moveType(t.src, t.dest)))
  }

  // ---------------------------------------------------------------------------
  // The move loop

  /** The result of reading move lines: the entries appended, and whether an error
      stopped the reading. */
  datatype MoveScan = MoveScan(entries: seq<MoveEntry>, failed: bool)

  /** The moves of `lines`: one entry per line containing "->", in order, up to the first
      line whose entry raises. */
  function Moves(entryOf: EntryOf, lines: seq<string>): (r: MoveScan)
    ensures |r.entries| <= |lines|
  {
    if lines == [] then MoveScan([], false)
    else
      var prev := Moves(entryOf, lines[..|lines| - 1]);
      var line := lines[|lines| - 1];
      if prev.failed || !HasArrow(line) then prev
      else
        match entryOf(line)
        case Failure(_) => MoveScan(prev.entries, true)
        case Success(e) => MoveScan(prev.entries + [e], false)
  }

  /** An error on a line ends the reading: later lines change nothing. */
  lemma {:induction false} MovesFailurePersists(entryOf: EntryOf, lines: seq<string>, n: nat)
    requires n <= |lines|
    requires Moves(entryOf, lines[..n]).failed
    ensures Moves(entryOf, lines) == Moves(entryOf, lines[..n])
    decreases |lines| - n
  {
    if n < |lines| {
      assert lines[..n + 1][..n] == lines[..n];
      MovesFailurePersists(entryOf, lines, n + 1);
    } else {
      assert lines[..n] == lines;
    }
  }

  /** The loop of `parse_summary` and of the JSON scripts: every line containing "->" is
      turned into an entry, and the first one that raises ends the loop. */
  method ParseMoves(entryOf: EntryOf, lines: seq<string>) returns (entries: seq<MoveEntry>, failed: bool)
    ensures MoveScan(entries, failed) == Moves(entryOf, lines)
  {
    entries := [];
    failed := false;
    var i := 0;
    while i < |lines|
      invariant 0 <= i <= |lines|
      invariant MoveScan(entries, false) == Moves(entryOf, lines[..i])
    {
      var line := lines[i];
      assert lines[..i + 1][..i] == lines[..i];
      if HasArrow(line) {
        var entry := entryOf(line);
        if entry.Failure? {
          failed := true;
          MovesFailurePersists(entryOf, lines, i + 1);
          return;
        }
        entries := entries + [entry.value];
      }
      i := i + 1;
    }
    assert lines[..i] == lines;
  }

  /** The lines that describe moves, in order. */
  function ArrowLines(lines: seq<string>): (moves: seq<string>)
    ensures forall k :: 0 <= k < |moves| ==> HasArrow(moves[k])
    ensures forall l :: l in lines && HasArrow(l) ==> l in moves
  {
    if lines == [] then []
    else
      var last := lines[|lines| - 1];
      assert lines == lines[..|lines| - 1] + [last];
      ArrowLines(lines[..|lines| - 1]) + (if HasArrow(last) then [last] else [])
  }

  /**
   * The moves, described without the loop: entry k comes from the k-th line containing
   * "->"; the reading fails exactly when some such line raises, and then it stops at the
   * first of them.
   */
  lemma {:induction false} MovesOfArrowLines(entryOf: EntryOf, lines: seq<string>)
    ensures var r := Moves(entryOf, lines);
      && |r.entries| <= |ArrowLines(lines)|
      && (forall k :: 0 <= k < |r.entries| ==> entryOf(ArrowLines(lines)[k]) == Success(r.entries[k]))
      && (r.failed <==> |r.entries| < |ArrowLines(lines)|)
      && (r.failed ==> entryOf(ArrowLines(lines)[|r.entries|]).Failure?)
  {
    if lines != [] {
      var prefix := lines[..|lines| - 1];
      MovesOfArrowLines(entryOf, prefix);
      var prev := Moves(entryOf, prefix);
      var a := ArrowLines(prefix);
      var line := lines[|lines| - 1];
      if HasArrow(line) {
        assert ArrowLines(lines) == a + [line];
        assert forall k :: 0 <= k < |a| ==> ArrowLines(lines)[k] == a[k];
      } else {
        assert ArrowLines(lines) == a;
      }
    }
  }

  /** Without an error every line containing "->" gives exactly one entry. */
  lemma OneEntryPerArrowLine(entryOf: EntryOf, lines: seq<string>)
    requires forall k :: 0 <= k < |lines| && HasArrow(lines[k]) ==> entryOf(lines[k]).Success?
    ensures !Moves(entryOf, lines).failed
    ensures |Moves(entryOf, lines).entries| == |ArrowLines(lines)|
  {
    MovesOfArrowLines(entryOf, lines);
    var r := Moves(entryOf, lines);
    if r.failed {
      var l := ArrowLines(lines)[|r.entries|];
      assert l in ArrowLines(lines);
      ArrowLinesFromLines(lines);
    }
  }

  /** Every line `ArrowLines` keeps is one of the input lines. */
  lemma {:induction false} ArrowLinesFromLines(lines: seq<string>)
    ensures forall l :: l in ArrowLines(lines) ==> l in lines
  {
    if lines != [] {
      ArrowLinesFromLines(lines[..|lines| - 1]);
      assert lines == lines[..|lines| - 1] + [lines[|lines| - 1]];
    }
  }

  // ---------------------------------------------------------------------------
  // The fatal-fault buffer

  /** `"[FAULT]" in line and "fatal" in line.lower()`. */
  predicate IsFatalTrigger(line: string) {
    Contains(line, "[FAULT]") && Contains(AsciiLower(line), "fatal")
  }

  /** The last `n` elements of `s`, or all of them when there are fewer. */
  function LastN<T>(s: seq<T>, n: nat): (r: seq<T>)
    ensures |r| == if |s| < n then |s| else n
  {
    if |s| <= n then s else s[|s| - n..]
  }

  /** `LastN` keeps the end of `s`, in order. */
  lemma LastNIsSuffix<T>(s: seq<T>, n: nat)
    ensures LastN(s, n) == s[|s| - |LastN(s, n)|..]
  {
  }

  /** `[line.strip() for line in lines]`. */
  function StripAll(lines: seq<string>): (r: seq<string>)
    ensures |r| == |lines|
  {
    if lines == [] then [] else StripAll(lines[..|lines| - 1]) + [Strip(lines[|lines| - 1])]
  }

  /** Each element of `StripAll(lines)` is the corresponding line, stripped. */
  lemma {:induction false} StripAllAt(lines: seq<string>)
    ensures forall i :: 0 <= i < |lines| ==> StripAll(lines)[i] == Strip(lines[i])
  {
    if lines != [] {
      var prefix := lines[..|lines| - 1];
      StripAllAt(prefix);
      assert forall i :: 0 <= i < |prefix| ==> lines[i] == prefix[i];
    }
  }

  /** The buffer after reading `lines`: the last ten of them, stripped. */
  function Context(lines: seq<string>): seq<string> {
    LastN(StripAll(lines), 10)
  }

  /** The last `n >= 1` elements end with the last element. */
  lemma LastNLast<T>(s: seq<T>, n: nat)
    requires n >= 1 && s != []
    ensures LastN(s, n)[|LastN(s, n)| - 1] == s[|s| - 1]
  {
  }

  /** Keeping the last `n` after appending `x`: append, then drop the oldest if there are too many. */
  lemma LastNSnoc<T>(s: seq<T>, x: T, n: nat)
    requires n >= 1
    ensures var b := LastN(s, n) + [x];
      LastN(s + [x], n) == if |b| > n then b[1..] else b
  {
    var b := LastN(s, n) + [x];
    var expected := if |b| > n then b[1..] else b;
    assert |LastN(s + [x], n)| == |expected|;
  }

  /** The buffer holds at most ten lines and ends with the line just read. */
  lemma ContextShape(lines: seq<string>)
    requires lines != []
    ensures 1 <= |Context(lines)| <= 10
    ensures Context(lines)[|Context(lines)| - 1] == Strip(lines[|lines| - 1])
    ensures |lines| <= 10 ==> Context(lines) == StripAll(lines)
  {
    LastNLast(StripAll(lines), 10);
  }

  /** Reading one more line: append it stripped, and drop the oldest once there are eleven. */
  lemma ContextSnoc(lines: seq<string>, line: string)
    ensures var b := Context(lines) + [Strip(line)];
      Context(lines + [line]) == if |b| > 10 then b[1..] else b
  {
    assert (lines + [line])[..|lines|] == lines;
    LastNSnoc(StripAll(lines), Strip(line), 10);
  }

  /** The fatal faults recorded while reading: the dictionary, and whether a trigger line
      without a fourth word raised. */
  datatype FatalScan = FatalScan(faults: map<string, seq<string>>, failed: bool)

  /** Reading one line, with `context` the buffer once it has been added: a trigger line stores
      the buffer under its fourth word, replacing what was there, or raises when it has fewer
      than four words; after an error nothing more happens. */
  function FatalRead(prev: FatalScan, context: seq<string>, line: string): FatalScan {
    if prev.failed || !IsFatalTrigger(line) then prev
    else
      var parts := Words(line);
      if |parts| < 4 then FatalScan(prev.faults, true)
      else FatalScan(prev.faults[parts[3] := context], false)
  }

  /** The fatal faults after reading `lines` into a dictionary that held `start`. */
  function FatalFaults(start: map<string, seq<string>>, lines: seq<string>): FatalScan {
    if lines == [] then FatalScan(start, false)
    else FatalRead(FatalFaults(start, lines[..|lines| - 1]), Context(lines), lines[|lines| - 1])
  }

  /** Reading line `i`: one step of `FatalRead`, and the buffer moves on by one line. */
  lemma FatalFaultsStep(start: map<string, seq<string>>, lines: seq<string>, i: nat)
    requires i < |lines|
    ensures FatalFaults(start, lines[..i + 1]) ==
      FatalRead(FatalFaults(start, lines[..i]), Context(lines[..i + 1]), lines[i])
    ensures var b := Context(lines[..i]) + [Strip(lines[i])];
      Context(lines[..i + 1]) == if |b| > 10 then b[1..] else b
  {
    assert lines[..i + 1][..i] == lines[..i];
    assert lines[..i + 1] == lines[..i] + [lines[i]];
    ContextSnoc(lines[..i], lines[i]);
  }

  /** After an error one more line changes nothing. */
  lemma FailedReadingStops(start: map<string, seq<string>>, lines: seq<string>, line: string)
    requires FatalFaults(start, lines).failed
    ensures FatalFaults(start, lines + [line]) == FatalFaults(start, lines)
  {
    var all := lines + [line];
    assert all[..|all| - 1] == lines;
  }

  /** An error on a trigger line ends the reading: later lines change nothing. */
  lemma {:induction false} FatalFailurePersists(start: map<string, seq<string>>, lines: seq<string>, n: nat)
    requires n <= |lines|
    requires FatalFaults(start, lines[..n]).failed
    ensures FatalFaults(start, lines) == FatalFaults(start, lines[..n])
    decreases |lines| - n
  {
    if n < |lines| {
      assert FatalFaults(start, lines[..n + 1]) == FatalFaults(start, lines[..n]) by {
        assert lines[..n + 1] == lines[..n] + [lines[n]];
        FailedReadingStops(start, lines[..n], lines[n]);
      }
      FatalFailurePersists(start, lines, n + 1);
    } else {
      assert lines[..n] == lines;
    }
  }

  /**
   * The loop of `extract_fatal_faults`: a bounded buffer of the stripped lines read so far,
   * and on each trigger line a copy of it under the line's fourth word.
   */
  method ScanFatalFaults(start: map<string, seq<string>>, lines: seq<string>)
    returns (faults: map<string, seq<string>>, failed: bool)
    ensures FatalScan(faults, failed) == FatalFaults(start, lines)
  {
    faults := start;
    failed := false;
    var buffer: seq<string> := [];
    var i := 0;
    while i < |lines|
      invariant 0 <= i <= |lines|
      invariant buffer == Context(lines[..i])
      invariant FatalScan(faults, false) == FatalFaults(start, lines[..i])
    {
      var line := lines[i];
      FatalFaultsStep(start, lines, i);
      buffer := buffer + [Strip(line)];
      if |buffer| > 10 {
        buffer := buffer[1..];
      }
      if IsFatalTrigger(line) {
        var parts := Words(line);
        if |parts| < 4 {
          failed := true;
          FatalFailurePersists(start, lines, i + 1);
          return;
        }
        faults := faults[parts[3] := buffer];
      }
      i := i + 1;
    }
    assert lines[..i] == lines;
  }

  /** Without a trigger line nothing is recorded and nothing raises. */
  lemma {:induction false} NoTriggerNoFaults(start: map<string, seq<string>>, lines: seq<string>)
    requires forall k :: 0 <= k < |lines| ==> !IsFatalTrigger(lines[k])
    ensures FatalFaults(start, lines) == FatalScan(start, false)
  {
    if lines != [] {
      NoTriggerNoFaults(start, lines[..|lines| - 1]);
    }
  }

  /** A trigger line with a fourth word stores, under that word, the buffer ending with that
      line, whatever an earlier trigger stored there. */
  lemma LatestTriggerStored(start: map<string, seq<string>>, lines: seq<string>, line: string)
    requires !FatalFaults(start, lines).failed
    requires IsFatalTrigger(line) && |Words(line)| >= 4
    ensures var r := FatalFaults(start, lines + [line]);
      && !r.failed
      && Words(line)[3] in r.faults
      && r.faults[Words(line)[3]] == Context(lines + [line])
      && r.faults[Words(line)[3]][|r.faults[Words(line)[3]]| - 1] == Strip(line)
  {
    var all := lines + [line];
    assert all[..|all| - 1] == lines;
    var r := FatalFaults(start, all);
    assert r == FatalRead(FatalFaults(start, lines), Context(all), line);
    assert r == FatalScan(FatalFaults(start, lines).faults[Words(line)[3] := Context(all)], false);
    ContextShape(all);
    assert all[|all| - 1] == line;
  }

  /** A trigger line of fewer than four words raises, and the reading stops there. */
  lemma ShortTriggerRaises(start: map<string, seq<string>>, lines: seq<string>, line: string)
    requires !FatalFaults(start, lines).failed
    requires IsFatalTrigger(line) && |Words(line)| < 4
    ensures FatalFaults(start, lines + [line]) == FatalScan(FatalFaults(start, lines).faults, true)
  {
    assert (lines + [line])[..|lines|] == lines;
  }

  /** Every code recorded beyond the starting dictionary is the fourth word of a trigger line. */
  lemma {:induction false} RecordedCodesFromTriggers(start: map<string, seq<string>>, lines: seq<string>)
    ensures forall code :: code in FatalFaults(start, lines).faults && code !in start ==>
      exists k :: 0 <= k < |lines| && IsFatalTrigger(lines[k]) && |Words(lines[k])| >= 4 && Words(lines[k])[3] == code
  {
    if lines != [] {
      var prefix := lines[..|lines| - 1];
      RecordedCodesFromTriggers(start, prefix);
      forall code | code in FatalFaults(start, lines).faults && code !in start
        ensures exists k :: 0 <= k < |lines| && IsFatalTrigger(lines[k]) && |Words(lines[k])| >= 4 && Words(lines[k])[3] == code
      {
        if code in FatalFaults(start, prefix).faults {
          var k :| 0 <= k < |prefix| && IsFatalTrigger(prefix[k]) && |Words(prefix[k])| >= 4 && Words(prefix[k])[3] == code;
          assert lines[k] == prefix[k];
        } else {
          assert Words(lines[|lines| - 1])[3] == code;
        }
      }
    }
  }

  /** Some line of the log is a trigger line exactly when one of all but its last line is, or
      its last line is. */
  lemma SomeTriggerSnoc(lines: seq<string>, prefix: seq<string>)
    requires lines != [] && prefix == lines[..|lines| - 1]
    ensures (exists k :: 0 <= k < |lines| && IsFatalTrigger(lines[k])) <==>
      (exists k :: 0 <= k < |prefix| && IsFatalTrigger(prefix[k])) || IsFatalTrigger(lines[|lines| - 1])
  {
    if exists k :: 0 <= k < |prefix| && IsFatalTrigger(prefix[k]) {
      var k :| 0 <= k < |prefix| && IsFatalTrigger(prefix[k]);
      assert lines[k] == prefix[k];
    }
    if exists k :: 0 <= k < |lines| && IsFatalTrigger(lines[k]) {
      var k :| 0 <= k < |lines| && IsFatalTrigger(lines[k]);
      if k < |prefix| {
        assert prefix[k] == lines[k];
      }
    }
  }

  /** Reading into an empty dictionary without an error, something is recorded exactly when
      some line is a trigger line. */
  lemma {:induction false} RecordedIffTriggered(lines: seq<string>)
    requires !FatalFaults(map[], lines).failed
    ensures FatalFaults(map[], lines).faults != map[] <==>
      exists k :: 0 <= k < |lines| && IsFatalTrigger(lines[k])
  {
    if lines != [] {
      var prefix := lines[..|lines| - 1];
      var last := lines[|lines| - 1];
      var prev := FatalFaults(map[], prefix);
      var r := FatalFaults(map[], lines);
      assert r == FatalRead(prev, Context(lines), last);
      assert !prev.failed;
      RecordedIffTriggered(prefix);
      SomeTriggerSnoc(lines, prefix);
      if IsFatalTrigger(last) {
        assert Words(last)[3] in r.faults;
      } else {
        assert r == prev;
      }
    }
  }
}
