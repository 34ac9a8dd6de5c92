/**
 * The bot-log event correlator (`parse_alphabot_summary` and
 * `generate_summary_for_single_file`).
 *
 * One pass over the lines of a log. Each line is tried against the
 * move-request, move-complete, tote-command, fault and safety-change patterns,
 * in that order, and the first that matches decides what the line does:
 * move requests are stored under their `(cmd_id, uuid)` key (a later request
 * overwrites, the key keeps its first position), completions set the status of
 * their key, and the other three kinds are formatted at once. After the pass
 * every stored request becomes one move line with its resolved status.
 *
 * The patterns are regular expressions; here each is a caller-supplied matcher
 * that returns the named groups of a match, or `None`.
 */
module AlphabotSummary {
  import opened Wrappers
  import opened Text
  import opened Collections

  datatype MoveRequest = MoveRequest(timestamp: string, cmdId: string, src: string, dest: string, uuid: string)
  datatype MoveComplete = MoveComplete(status: string, cmdId: string, uuid: string)
  datatype ToteCommand = ToteCommand(timestamp: string, action: string, side: string, gridId: string)
  datatype FaultReport = FaultReport(timestamp: string, faultNum: string, faultType: string)
  datatype SafetyChange = SafetyChange(timestamp: string, fpgaMsg: string)

  /** The five bot-log patterns of `Patterns`, each as the groups its `re.match` captures. */
  datatype Patterns = Patterns(
    moveRequest: string -> Option<MoveRequest>,
    moveComplete: string -> Option<MoveComplete>,
    toteCommands: string -> Option<ToteCommand>,
    faults: string -> Option<FaultReport>,
    splc: string -> Option<SafetyChange>)

  /** What a line is, once the first matching pattern has been found. */
  datatype LineKind =
    | Request(req: MoveRequest)
    | Completion(done: MoveComplete)
    | Tote(tote: ToteCommand)
    | Fault(fault: FaultReport)
    | Safety(change: SafetyChange)
    | Unmatched

  /** The patterns are tried in a fixed order and the first match wins. */
  function Classify(p: Patterns, line: string): (k: LineKind)
    ensures k.Request? <==> p.moveRequest(line).Some?
    ensures k.Completion? <==> p.moveRequest(line).None? && p.moveComplete(line).Some?
    ensures k.Tote? <==> p.moveRequest(line).None? && p.moveComplete(line).None? && p.toteCommands(line).Some?
    ensures k.Fault? <==> p.moveRequest(line).None? && p.moveComplete(line).None? &&
                          p.toteCommands(line).None? && p.faults(line).Some?
    ensures k.Safety? <==> p.moveRequest(line).None? && p.moveComplete(line).None? &&
                           p.toteCommands(line).None? && p.faults(line).None? && p.splc(line).Some?
    ensures k.Request? ==> Some(k.req) == p.moveRequest(line)
    ensures k.Completion? ==> Some(k.done) == p.moveComplete(line)
  {
    match p.moveRequest(line)
    case Some(r) => Request(r)
    case None =>
      match p.moveComplete(line)
      case Some(c) => Completion(c)
      case None =>
        match p.toteCommands(line)
        case Some(t) => Tote(t)
        case None =>
          match p.faults(line)
          case Some(f) => Fault(f)
          case None =>
            match p.splc(line)
            case Some(s) => Safety(s)
            case None => Unmatched
  }

  /** The `(cmd_id, uuid)` key that pairs a request with its completion. */
  type Key = (string, string)

  /** What is stored per pending request. */
  datatype Move = Move(timestamp: string, src: string, dest: string)

  function RequestKey(r: MoveRequest): Key {
    (r.cmdId, r.uuid)
  }

  function CompleteKey(c: MoveComplete): Key {
    (c.cmdId, c.uuid)
  }

  function MoveOf(r: MoveRequest): Move {
    Move(r.timestamp, r.src, r.dest)
  }

  /** The local state of the pass: the two dicts (with the request dict's
      insertion order kept as `order`) and the lines emitted so far. */
  datatype ScanState = ScanState(
    requests: map<Key, Move>,
    order: seq<Key>,
    completes: map<Key, string>,
    lines: seq<string>)

  const FaultNotFound := "Fault description was not found"

  /** `faults.get(num, 'Fault description was not found')`: a missing code is never an error. */
  function FaultDescription(faults: map<string, string>, num: string): (d: string)
    ensures num in faults ==> d == faults[num]
    ensures num !in faults ==> d == FaultNotFound
  {
    if num in faults then faults[num] else FaultNotFound
  }

  function ToteLine(t: ToteCommand): string {
    t.timestamp + " [TOTE] " + LJust(t.action, 13) + " " + LJust(t.side, 17) + " | " + t.gridId
  }

  function FaultLine(faults: map<string, string>, f: FaultReport): string {
    f.timestamp + " [FAULT] " + LJust(f.faultNum, 12) + " " + LJust(f.faultType, 17) + " | " +
    FaultDescription(faults, f.faultNum)
  }

  function SafetyLine(s: SafetyChange): string {
    s.timestamp + " W [FPGA1 safety debug change]          | " + s.fpgaMsg
  }

  /** The effect of one classified line on the state of the pass. */
  function Step(faults: map<string, string>, st: ScanState, k: LineKind): ScanState {
    match k
    case Request(r) =>
      var key := RequestKey(r);
      st.(requests := st.requests[key := MoveOf(r)],
          order := if key in st.requests then st.order else st.order + [key])
    case Completion(c) => st.(completes := st.completes[CompleteKey(c) := c.status])
    case Tote(t) => st.(lines := st.lines + [ToteLine(t)])
    case Fault(f) => st.(lines := st.lines + [FaultLine(faults, f)])
    case Safety(s) => st.(lines := st.lines + [SafetyLine(s)])
    case Unmatched => st
  }

  /** The request dict and its insertion order agree: every key once, no other key. */
  ghost predicate OrderMatches(st: ScanState) {
    Distinct(st.order) && forall k :: k in st.order <==> k in st.requests
  }

  /** The state after the pass over `log`. */
  function Scan(p: Patterns, faults: map<string, string>, log: seq<string>): (st: ScanState)
    ensures OrderMatches(st)
  {
    if log == [] then ScanState(map[], [], map[], [])
    else
      var prev := Scan(p, faults, log[..|log| - 1]);
      Step(faults, prev, Classify(p, log[|log| - 1]))
  }

  const BotInitializing := "Bot Initializing"
  const NoCompletion := "Move Blended or only received ACK"

  /** The status of a pending request, resolved after the pass. */
  function MoveStatus(key: Key, completes: map<Key, string>): (status: string)
    ensures key.0 == "0" ==> status == BotInitializing
    ensures key.0 != "0" && key in completes ==> status == completes[key]
    ensures key.0 != "0" && key !in completes ==> status == NoCompletion
  {
    if key.0 == "0" then BotInitializing
    else if key in completes then completes[key]
    else NoCompletion
  }

  /** `f"{timestamp} {src:<17} -> {dest:<17} | {status}"`. */
  function MoveLine(m: Move, status: string): string {
    m.timestamp + " " + LJust(m.src, 17) + " -> " + LJust(m.dest, 17) + " | " + status
  }

  /** The move lines for the keys `ks`, in that order. */
  function MoveLines(st: ScanState, ks: seq<Key>): (lines: seq<string>)
    requires forall k :: k in ks ==> k in st.requests
    ensures |lines| == |ks|
  {
    if ks == [] then []
    else
      var key := ks[|ks| - 1];
      MoveLines(st, ks[..|ks| - 1]) + [MoveLine(st.requests[key], MoveStatus(key, st.completes))]
  }

  /** `parse_alphabot_summary(log, faults, _)` as a value: the immediate lines in
      input order, then one move line per key in first-request order. */
  function Summary(p: Patterns, faults: map<string, string>, log: seq<string>): seq<string> {
    var st := Scan(p, faults, log);
    st.lines + MoveLines(st, st.order)
  }

  /** The body of the pass for one line: the first matching pattern decides. */
  method ScanLine(p: Patterns, faults: map<string, string>, st: ScanState, line: string)
    returns (next: ScanState)
    ensures next == Step(faults, st, Classify(p, line))
  {
    next := st;
    var moveReqMatch := p.moveRequest(line);
    if moveReqMatch.Some? {
      var r := moveReqMatch.value;
      var key := (r.cmdId, r.uuid);
      if key !in st.requests {
        next := next.(order := st.order + [key]);
      }
      next := next.(requests := st.requests[key := Move(r.timestamp, r.src, r.dest)]);
      return;
    }
    var moveCompleteMatch := p.moveComplete(line);
    if moveCompleteMatch.Some? {
      var c := moveCompleteMatch.value;
      next := st.(completes := st.completes[(c.cmdId, c.uuid) := c.status]);
      return;
    }
    var toteMatch := p.toteCommands(line);
    if toteMatch.Some? {
      next := st.(lines := st.lines + [ToteLine(toteMatch.value)]);
      return;
    }
    var faultMatch := p.faults(line);
    if faultMatch.Some? {
      next := st.(lines := st.lines + [FaultLine(faults, faultMatch.value)]);
      return;
    }
    var splcMatch := p.splc(line);
    if splcMatch.Some? {
      next := st.(lines := st.lines + [SafetyLine(splcMatch.value)]);
    }
  }

  /** The resolution loop: one move line per stored key, in insertion order. */
  method ResolveMoves(st: ScanState) returns (lines: seq<string>)
    requires OrderMatches(st)
    ensures lines == st.lines + MoveLines(st, st.order)
  {
    lines := st.lines;
    var k := 0;
    while k < |st.order|
      invariant 0 <= k <= |st.order|
      invariant lines == st.lines + MoveLines(st, st.order[..k])
    {
      assert st.order[..k + 1][..k] == st.order[..k];
      var key := st.order[k];
      var status;
      if key.0 == "0" {
        status := "Bot Initializing";
      } else if key in st.completes {
        status := st.completes[key];
      } else {
        status := "Move Blended or only received ACK";
      }
      lines := lines + [MoveLine(st.requests[key], status)];
      k := k + 1;
    }
    assert st.order[..k] == st.order;
  }

  /** `parse_alphabot_summary`: the pass over the lines, then the resolution of every pending request. */
  method ParseAlphabotSummary(p: Patterns, faults: map<string, string>, log: seq<string>)
    returns (lines: seq<string>)
    ensures lines == Summary(p, faults, log)
  {
    var st := ScanState(map[], [], map[], []);
    var i := 0;
    while i < |log|
      invariant 0 <= i <= |log|
      invariant st == Scan(p, faults, log[..i])
    {
      assert log[..i + 1][..i] == log[..i];
      st := ScanLine(p, faults, st, log[i]);
      i := i + 1;
    }
    assert log[..i] == log;
    lines := ResolveMoves(st);
  }
  /** `generate_summary_for_single_file`: the correlator run on one file with the
      fault and message tables (the message table is passed on and not used). */
  method GenerateSummaryForSingleFile<A>(p: Patterns, faults: map<string, string>, acp: A, log: seq<string>)
    returns (lines: seq<string>)
    ensures lines == Summary(p, faults, log)
  {
    lines := ParseAlphabotSummary(p, faults, log);
  }

  // ---------------------------------------------------------------------------
  // Properties of the correlator

  /** Whether the line is emitted at once (tote, fault or safety change). */
  predicate IsImmediate(k: LineKind) {
    k.Tote? || k.Fault? || k.Safety?
  }

  /** The number of lines emitted during the pass. */
  function ImmediateCount(p: Patterns, log: seq<string>): nat {
    if log == [] then 0
    else ImmediateCount(p, log[..|log| - 1]) + (if IsImmediate(Classify(p, log[|log| - 1])) then 1 else 0)
  }

  /** The keys of all move-request lines of the log. */
  function RequestKeys(p: Patterns, log: seq<string>): set<Key> {
    set i | 0 <= i < |log| && Classify(p, log[i]).Request? :: RequestKey(Classify(p, log[i]).req)
  }

  /** The keys of all move-complete lines of the log. */
  function CompleteKeys(p: Patterns, log: seq<string>): set<Key> {
    set i | 0 <= i < |log| && Classify(p, log[i]).Completion? :: CompleteKey(Classify(p, log[i]).done)
  }

  /** One emitted line per tote, fault or SPLC line. */
  lemma {:induction false} ScanLineCount(p: Patterns, faults: map<string, string>, log: seq<string>)
    ensures |Scan(p, faults, log).lines| == ImmediateCount(p, log)
  {
    if log != [] {
      ScanLineCount(p, faults, log[..|log| - 1]);
    }
  }

  /** The request keys of a log are those of all but its last line, plus the last line's. */
  lemma RequestKeysSnoc(p: Patterns, log: seq<string>)
    requires log != []
    ensures var n := |log|;
      RequestKeys(p, log) == RequestKeys(p, log[..n - 1]) +
        (if Classify(p, log[n - 1]).Request? then {RequestKey(Classify(p, log[n - 1]).req)} else {})
  {
    var n := |log|;
    var prefix := log[..n - 1];
    forall i | 0 <= i < n - 1 ensures prefix[i] == log[i] { }
  }

  /** The completion keys of a log are those of all but its last line, plus the last line's. */
  lemma CompleteKeysSnoc(p: Patterns, log: seq<string>)
    requires log != []
    ensures var n := |log|;
      CompleteKeys(p, log) == CompleteKeys(p, log[..n - 1]) +
        (if Classify(p, log[n - 1]).Completion? then {CompleteKey(Classify(p, log[n - 1]).done)} else {})
  {
    var n := |log|;
    var prefix := log[..n - 1];
    forall i | 0 <= i < n - 1 ensures prefix[i] == log[i] { }
  }

  /** The request dict holds exactly the keys of the request lines. */
  lemma {:induction false} ScanRequestKeys(p: Patterns, faults: map<string, string>, log: seq<string>)
    ensures Scan(p, faults, log).requests.Keys == RequestKeys(p, log)
  {
    if log != [] {
      ScanRequestKeys(p, faults, log[..|log| - 1]);
      RequestKeysSnoc(p, log);
    }
  }

  /** The completion dict holds exactly the keys of the completion lines. */
  lemma {:induction false} ScanCompleteKeys(p: Patterns, faults: map<string, string>, log: seq<string>)
    ensures Scan(p, faults, log).completes.Keys == CompleteKeys(p, log)
  {
    if log != [] {
      ScanCompleteKeys(p, faults, log[..|log| - 1]);
      CompleteKeysSnoc(p, log);
    }
  }

  /** One output line per immediate event plus exactly one move line per distinct request key. */
  lemma SummaryLength(p: Patterns, faults: map<string, string>, log: seq<string>)
    ensures |Summary(p, faults, log)| == ImmediateCount(p, log) + |RequestKeys(p, log)|
  {
    var st := Scan(p, faults, log);
    ScanLineCount(p, faults, log);
    ScanRequestKeys(p, faults, log);
    DistinctCardinality(st.order, st.requests.Keys);
  }

  /** The lines emitted during the pass, in input order. */
  function ImmediateLines(p: Patterns, faults: map<string, string>, log: seq<string>): seq<string> {
    if log == [] then []
    else
      var prev := ImmediateLines(p, faults, log[..|log| - 1]);
      match Classify(p, log[|log| - 1])
      case Tote(t) => prev + [ToteLine(t)]
      case Fault(f) => prev + [FaultLine(faults, f)]
      case Safety(s) => prev + [SafetyLine(s)]
      case _ => prev
  }

  /** The output is not sorted: the immediate lines come first, in input order. */
  lemma {:induction false} ImmediateLinesFirst(p: Patterns, faults: map<string, string>, log: seq<string>)
    ensures Scan(p, faults, log).lines == ImmediateLines(p, faults, log)
    ensures Summary(p, faults, log)[..|ImmediateLines(p, faults, log)|] == ImmediateLines(p, faults, log)
  {
    if log != [] {
      ImmediateLinesFirst(p, faults, log[..|log| - 1]);
    }
  }

  /** A request stays stored as written until a later request with the same key. */
  lemma {:induction false} RequestSurvives(p: Patterns, faults: map<string, string>, log: seq<string>, j: nat, n: nat)
    requires j < n <= |log|
    requires Classify(p, log[j]).Request?
    requires forall i :: j < i < |log| && Classify(p, log[i]).Request? ==>
      RequestKey(Classify(p, log[i]).req) != RequestKey(Classify(p, log[j]).req)
    ensures RequestKey(Classify(p, log[j]).req) in Scan(p, faults, log[..n]).requests
    ensures Scan(p, faults, log[..n]).requests[RequestKey(Classify(p, log[j]).req)] == MoveOf(Classify(p, log[j]).req)
  {
    assert log[..n][..n - 1] == log[..n - 1];
    if n > j + 1 {
      RequestSurvives(p, faults, log, j, n - 1);
    }
  }

  /** Last write wins: the last request with a key gives its stored timestamp, src and dest. */
  lemma LastRequestWins(p: Patterns, faults: map<string, string>, log: seq<string>, j: nat)
    requires j < |log| && Classify(p, log[j]).Request?
    requires forall i :: j < i < |log| && Classify(p, log[i]).Request? ==>
      RequestKey(Classify(p, log[i]).req) != RequestKey(Classify(p, log[j]).req)
    ensures RequestKey(Classify(p, log[j]).req) in Scan(p, faults, log).requests
    ensures Scan(p, faults, log).requests[RequestKey(Classify(p, log[j]).req)] == MoveOf(Classify(p, log[j]).req)
  {
    RequestSurvives(p, faults, log, j, |log|);
    assert log[..|log|] == log;
  }

  lemma {:induction false} CompletionSurvives(p: Patterns, faults: map<string, string>, log: seq<string>, j: nat, n: nat)
    requires j < n <= |log|
    requires Classify(p, log[j]).Completion?
    requires forall i :: j < i < |log| && Classify(p, log[i]).Completion? ==>
      CompleteKey(Classify(p, log[i]).done) != CompleteKey(Classify(p, log[j]).done)
    ensures CompleteKey(Classify(p, log[j]).done) in Scan(p, faults, log[..n]).completes
    ensures Scan(p, faults, log[..n]).completes[CompleteKey(Classify(p, log[j]).done)] == Classify(p, log[j]).done.status
  {
    assert log[..n][..n - 1] == log[..n - 1];
    if n > j + 1 {
      CompletionSurvives(p, faults, log, j, n - 1);
    }
  }

  /** The last completion of a key sets its status, wherever it lies relative to the request. */
  lemma LastCompletionWins(p: Patterns, faults: map<string, string>, log: seq<string>, j: nat)
    requires j < |log| && Classify(p, log[j]).Completion?
    requires forall i :: j < i < |log| && Classify(p, log[i]).Completion? ==>
      CompleteKey(Classify(p, log[i]).done) != CompleteKey(Classify(p, log[j]).done)
    ensures CompleteKey(Classify(p, log[j]).done) in Scan(p, faults, log).completes
    ensures Scan(p, faults, log).completes[CompleteKey(Classify(p, log[j]).done)] == Classify(p, log[j]).done.status
  {
    CompletionSurvives(p, faults, log, j, |log|);
    assert log[..|log|] == log;
  }

  lemma {:induction false} MoveLinesHas(st: ScanState, ks: seq<Key>, t: nat)
    requires forall k :: k in ks ==> k in st.requests
    requires t < |ks|
    ensures MoveLines(st, ks)[t] == MoveLine(st.requests[ks[t]], MoveStatus(ks[t], st.completes))
  {
    if t < |ks| - 1 {
      MoveLinesHas(st, ks[..|ks| - 1], t);
    }
  }

  /** Every stored key has its move line in the output. */
  lemma SummaryHasMoveLine(p: Patterns, faults: map<string, string>, log: seq<string>, key: Key)
    requires key in Scan(p, faults, log).requests
    ensures MoveLine(Scan(p, faults, log).requests[key], MoveStatus(key, Scan(p, faults, log).completes))
            in Summary(p, faults, log)
  {
    ResolvedHasMoveLine(Scan(p, faults, log), key);
  }

  lemma ResolvedHasMoveLine(st: ScanState, key: Key)
    requires OrderMatches(st) && key in st.requests
    ensures MoveLine(st.requests[key], MoveStatus(key, st.completes)) in st.lines + MoveLines(st, st.order)
  {
    var t :| 0 <= t < |st.order| && st.order[t] == key;
    MoveLinesHas(st, st.order, t);
    assert (st.lines + MoveLines(st, st.order))[|st.lines| + t] == MoveLines(st, st.order)[t];
  }

  /** A request whose key is completed is emitted with the last completion's status and the
      last request's timestamp, even when the completion comes first in the file. */
  lemma CompletedRequestResolved(p: Patterns, faults: map<string, string>, log: seq<string>, i: nat, j: nat)
    requires i < |log| && Classify(p, log[i]).Request?
    requires forall x :: i < x < |log| && Classify(p, log[x]).Request? ==>
      RequestKey(Classify(p, log[x]).req) != RequestKey(Classify(p, log[i]).req)
    requires j < |log| && Classify(p, log[j]).Completion?
    requires CompleteKey(Classify(p, log[j]).done) == RequestKey(Classify(p, log[i]).req)
    requires forall x :: j < x < |log| && Classify(p, log[x]).Completion? ==>
      CompleteKey(Classify(p, log[x]).done) != CompleteKey(Classify(p, log[j]).done)
    requires Classify(p, log[i]).req.cmdId != "0"
    ensures MoveLine(MoveOf(Classify(p, log[i]).req), Classify(p, log[j]).done.status) in Summary(p, faults, log)
  {
    var key := RequestKey(Classify(p, log[i]).req);
    LastRequestWins(p, faults, log, i);
    LastCompletionWins(p, faults, log, j);
    RequestSurvives(p, faults, log, i, |log|);
    assert log[..|log|] == log;
    SummaryHasMoveLine(p, faults, log, key);
  }

  /** A request whose key is never completed is emitted with the default status. */
  lemma UncompletedRequestDefault(p: Patterns, faults: map<string, string>, log: seq<string>, i: nat)
    requires i < |log| && Classify(p, log[i]).Request?
    requires forall x :: i < x < |log| && Classify(p, log[x]).Request? ==>
      RequestKey(Classify(p, log[x]).req) != RequestKey(Classify(p, log[i]).req)
    requires RequestKey(Classify(p, log[i]).req) !in CompleteKeys(p, log)
    requires Classify(p, log[i]).req.cmdId != "0"
    ensures MoveLine(MoveOf(Classify(p, log[i]).req), NoCompletion) in Summary(p, faults, log)
  {
    var key := RequestKey(Classify(p, log[i]).req);
    LastRequestWins(p, faults, log, i);
    RequestSurvives(p, faults, log, i, |log|);
    assert log[..|log|] == log;
    ScanCompleteKeys(p, faults, log);
    SummaryHasMoveLine(p, faults, log, key);
  }

  /** A request with command id "0" is emitted as "Bot Initializing", completed or not. */
  lemma InitializingRequest(p: Patterns, faults: map<string, string>, log: seq<string>, i: nat)
    requires i < |log| && Classify(p, log[i]).Request?
    requires forall x :: i < x < |log| && Classify(p, log[x]).Request? ==>
      RequestKey(Classify(p, log[x]).req) != RequestKey(Classify(p, log[i]).req)
    requires Classify(p, log[i]).req.cmdId == "0"
    ensures MoveLine(MoveOf(Classify(p, log[i]).req), BotInitializing) in Summary(p, faults, log)
  {
    var key := RequestKey(Classify(p, log[i]).req);
    LastRequestWins(p, faults, log, i);
    RequestSurvives(p, faults, log, i, |log|);
    assert log[..|log|] == log;
    SummaryHasMoveLine(p, faults, log, key);
  }

  /** The keys of the move-request lines, in input order, repeats included. */
  function RequestKeySequence(p: Patterns, log: seq<string>): (ks: seq<Key>)
    ensures forall k :: k in ks <==> k in RequestKeys(p, log)
  {
    if log == [] then []
    else
      var n := |log|;
      var prev := RequestKeySequence(p, log[..n - 1]);
      assert forall i :: 0 <= i < n - 1 ==> log[..n - 1][i] == log[i];
      assert RequestKeys(p, log) == RequestKeys(p, log[..n - 1]) +
        (if Classify(p, log[n - 1]).Request? then {RequestKey(Classify(p, log[n - 1]).req)} else {});
      match Classify(p, log[n - 1])
      case Request(r) => prev + [RequestKey(r)]
      case _ => prev
  }

  /** A key keeps the position of its first request: move lines come out in the order
      in which their keys were first requested. */
  lemma {:induction false} EmissionOrder(p: Patterns, faults: map<string, string>, log: seq<string>)
    ensures Scan(p, faults, log).order == FirstOccurrences(RequestKeySequence(p, log))
  {
    if log != [] {
      var n := |log|;
      EmissionOrder(p, faults, log[..n - 1]);
      ScanRequestKeys(p, faults, log[..n - 1]);
    }
  }

  /** The end-to-end example: a request followed by its completion gives one padded move line. */
  lemma RequestThenCompletionExample(p: Patterns, l1: string, l2: string)
    requires p.moveRequest(l1) == Some(MoveRequest("2024-01-01 00:00:00.000", "5", "A", "B", "x-x-x-x-x"))
    requires p.moveRequest(l2) == None
    requires p.moveComplete(l2) == Some(MoveComplete("COMPLETE OK", "5", "x-x-x-x-x"))
    ensures Summary(p, map[], [l1, l2]) ==
      ["2024-01-01 00:00:00.000 A                 -> B                 | COMPLETE OK"]
  {
    var log := [l1, l2];
    assert log[..1] == [l1];
    assert [l1][..0] == [];
    var st0 := Scan(p, map[], []);
    var st1 := Scan(p, map[], [l1]);
    assert st1 == Step(map[], st0, Classify(p, l1));
    var st := Scan(p, map[], log);
    assert st == Step(map[], st1, Classify(p, l2));
    assert st.order == [("5", "x-x-x-x-x")];
    assert st.lines == [];
    assert st.completes[("5", "x-x-x-x-x")] == "COMPLETE OK";
    var key := ("5", "x-x-x-x-x");
    assert st.requests[key] == Move("2024-01-01 00:00:00.000", "A", "B");
    assert MoveStatus(key, st.completes) == "COMPLETE OK";
    assert st.order[..0] == [];
    assert MoveLines(st, st.order) == [MoveLine(st.requests[key], MoveStatus(key, st.completes))];
    ExampleMoveLine();
  }

  /** A one-character field padded to 17. */
  lemma PaddedLetter(x: string)
    requires |x| == 1
    ensures LJust(x, 17) == x + "                "
  {
    assert Spaces(16) == "                ";
  }

  /** The padding of the example's move line, field by field. */
  lemma ExampleMoveLine()
    ensures MoveLine(Move("2024-01-01 00:00:00.000", "A", "B"), "COMPLETE OK") ==
      "2024-01-01 00:00:00.000 A                 -> B                 | COMPLETE OK"
  {
    PaddedLetter("A");
    PaddedLetter("B");
    var ts := "2024-01-01 00:00:00.000";
    assert ts + " " + LJust("A", 17) == "2024-01-01 00:00:00.000 A                ";
    assert ts + " " + LJust("A", 17) + " -> " + LJust("B", 17) == "2024-01-01 00:00:00.000 A                 -> B                ";
  }
}
