/**
 * The controller-message summary (`parse_vizier_summary`).
 *
 * Each line that matches the message pattern is reduced to the key
 * (timestamp up to its first ".", packet id, message-type code). A key seen
 * before in the same file suppresses the line entirely; otherwise the line is
 * formatted, in the long form when the message table knows the code and in the
 * short form when it does not. For allow-listed codes whose line also matches
 * the telemetry pattern, the decoded telemetry labels are appended; a decoding
 * error aborts the whole file.
 */
module VizierSummary {
  import opened Wrappers
  import opened Text
  import opened Telemetry

  /** The groups of a `Patterns.VIZIER` match. */
  datatype VizierMatch = VizierMatch(timestamp: string, packetId: string, func: string)

  /** `Patterns.VIZIER` and `Patterns.VIZIER_TELEMETRY` (the latter yields the telemetry block). */
  datatype VizierPatterns = VizierPatterns(
    vizier: string -> Option<VizierMatch>,
    telemetry: string -> Option<string>)

  /** One row of the message table, keyed by the lower-cased message-type code. */
  datatype AcpEntry = AcpEntry(msgId: string, dir: string, desc: string)

  /** (timestamp to the second, packet id, message-type code). */
  type DedupKey = (string, string, string)

  /** The key is built from the text before the first "." of the timestamp: a timestamp
      without a "." is used whole. */
  function KeyOf(m: VizierMatch): (k: DedupKey)
    ensures '.' !in k.0
    ensures '.' !in m.timestamp ==> k.0 == m.timestamp
    ensures k.1 == m.packetId && k.2 == m.func
  {
    var parts := Split(m.timestamp, '.');
    if '.' in m.timestamp then (parts[0], m.packetId, m.func)
    else
      SplitWithoutSeparator(m.timestamp, '.');
      (parts[0], m.packetId, m.func)
  }

  /** Python's `repr` of a list of strings none of which holds a quote or a backslash. */
  function ListRepr(items: seq<string>): string {
    "[" + ReprItems(items) + "]"
  }

  function ReprItems(items: seq<string>): string {
    if items == [] then ""
    else if |items| == 1 then "'" + items[0] + "'"
    else ReprItems(items[..|items| - 1]) + ", '" + items[|items| - 1] + "'"
  }

  /** The text appended to a line: empty, the decoded telemetry, or the decoding error. */
  function TelemetrySuffix(p: VizierPatterns, m: VizierMatch, line: string): (r: Result<string, DecodeError>)
    ensures m.func !in VizierTelemetryFunctions || p.telemetry(line).None? ==> r == Success("")
    ensures m.func in VizierTelemetryFunctions && p.telemetry(line).Some? ==>
      match TelemetryOf(p.telemetry(line).value)
      case Success(labels) => r == Success(" | TELEMETRY: " + ListRepr(labels))
      case Failure(e) => r == Failure(e)
  {
    if m.func in VizierTelemetryFunctions && p.telemetry(line).Some? then
      match TelemetryOf(p.telemetry(line).value)
      case Success(labels) => Success(" | TELEMETRY: " + ListRepr(labels))
      case Failure(e) => Failure(e)
    else Success("")
  }

  predicate IsPrefix(pre: string, s: string) {
    |pre| <= |s| && s[..|pre|] == pre
  }

  predicate IsSuffix(suf: string, s: string) {
    |suf| <= |s| && s[|s| - |suf|..] == suf
  }

  /** The output line: long form when the message table has the code, short form otherwise;
      both start with the timestamp and end with the telemetry text. */
  function FormatLine(acp: map<string, AcpEntry>, m: VizierMatch, suffix: string): (r: string)
    ensures IsPrefix(m.timestamp + " " + LJust(m.packetId, 14) + (if m.func in acp then " | DIR: " else " | MSG TYPE: "), r)
    ensures IsSuffix(suffix, r)
  {
    var head := m.timestamp + " " + LJust(m.packetId, 14);
    var lead := head + (if m.func in acp then " | DIR: " else " | MSG TYPE: ");
    var body :=
      if m.func in acp then
        var a := acp[m.func];
        LJust(a.dir, 4) + " | MSG TYPE: " + m.func + " | ID: " + LJust(a.msgId, 6) + " | DESC: " + LJust(a.desc, 34)
      else m.func;
    ConcatEnds(lead, body, suffix);
    lead + body + suffix
  }

  lemma ConcatEnds(a: string, b: string, c: string)
    ensures IsPrefix(a, a + b + c) && IsSuffix(c, a + b + c)
  {
    assert (a + b + c)[..|a|] == a;
    assert (a + b + c)[|a + b|..] == c;
  }

  /** The local state of the pass: the keys seen and the lines emitted. */
  datatype VizierState = VizierState(seen: set<DedupKey>, lines: seq<string>)

  /** The effect of one line. A duplicate key is skipped before any telemetry is decoded. */
  function VizierStep(p: VizierPatterns, acp: map<string, AcpEntry>, st: VizierState, line: string)
    : Result<VizierState, DecodeError>
  {
    match p.vizier(line)
    case None => Success(st)
    case Some(m) =>
      if KeyOf(m) in st.seen then Success(st)
      else
        match TelemetrySuffix(p, m, line)
        case Failure(e) => Failure(e)
        case Success(suffix) => Success(VizierState(st.seen + {KeyOf(m)}, st.lines + [FormatLine(acp, m, suffix)]))
  }

  /** The state after the pass over `log`, or the error that aborted it. */
  function VizierScan(p: VizierPatterns, acp: map<string, AcpEntry>, log: seq<string>): Result<VizierState, DecodeError> {
    if log == [] then Success(VizierState({}, []))
    else
      match VizierScan(p, acp, log[..|log| - 1])
      case Failure(e) => Failure(e)
      case Success(st) => VizierStep(p, acp, st, log[|log| - 1])
  }

  /** `parse_vizier_summary(log, _, acp)` as a value. */
  function VizierLines(p: VizierPatterns, acp: map<string, AcpEntry>, log: seq<string>): Result<seq<string>, DecodeError> {
    match VizierScan(p, acp, log)
    case Failure(e) => Failure(e)
    case Success(st) => Success(st.lines)
  }

  /** The telemetry text of one line, decoded with the telemetry method. */
  method ComputeSuffix(p: VizierPatterns, m: VizierMatch, line: string) returns (r: Result<string, DecodeError>)
    ensures r == TelemetrySuffix(p, m, line)
  {
    r := Success("");
    if m.func in VizierTelemetryFunctions {
      var telemMatch := p.telemetry(line);
      if telemMatch.Some? {
        var decoded := GetTelemetry(telemMatch.value);
        if decoded.Failure? {
          return Failure(decoded.error);
        }
        r := Success(" | TELEMETRY: " + ListRepr(decoded.value));
      }
    }
  }

  /** `parse_vizier_summary`: one pass with a fresh seen-set per file. */
  method ParseVizierSummary(p: VizierPatterns, acp: map<string, AcpEntry>, log: seq<string>)
    returns (r: Result<seq<string>, DecodeError>)
    ensures r == VizierLines(p, acp, log)
  {
    var lines: seq<string> := [];
    var seen: set<DedupKey> := {};
    var i := 0;
    while i < |log|
      invariant 0 <= i <= |log|
      invariant VizierScan(p, acp, log[..i]) == Success(VizierState(seen, lines))
    {
      assert log[..i + 1][..i] == log[..i];
      var line := log[i];
      assert VizierScan(p, acp, log[..i + 1]) == VizierStep(p, acp, VizierState(seen, lines), line);
      var vizierMatch := p.vizier(line);
      if vizierMatch.Some? {
        var m := vizierMatch.value;
        var key := KeyOf(m);
        if key !in seen {
          seen := seen + {key};
          var telemetry := ComputeSuffix(p, m, line);
          if telemetry.Failure? {
            ScanFailurePersists(p, acp, log, i + 1);
            assert log[..|log|] == log;
            return Failure(telemetry.error);
          }
          lines := lines + [FormatLine(acp, m, telemetry.value)];
        }
      }
      i := i + 1;
    }
    assert log[..i] == log;
    r := Success(lines);
  }

  // ---------------------------------------------------------------------------
  // Properties of the deduplication

  /** An error on some line aborts the whole file. */
  lemma {:induction false} ScanFailurePersists(p: VizierPatterns, acp: map<string, AcpEntry>, log: seq<string>, n: nat)
    requires n <= |log|
    requires VizierScan(p, acp, log[..n]).Failure?
    ensures VizierScan(p, acp, log) == VizierScan(p, acp, log[..n])
    decreases |log| - n
  {
    if n < |log| {
      assert log[..n + 1][..n] == log[..n];
      ScanFailurePersists(p, acp, log, n + 1);
    } else {
      assert log[..n] == log;
    }
  }

  /** The keys of the lines that match the message pattern. */
  function MatchedKeys(p: VizierPatterns, log: seq<string>): set<DedupKey> {
    set i | 0 <= i < |log| && p.vizier(log[i]).Some? :: KeyOf(p.vizier(log[i]).value)
  }

  /** On success, exactly one line per distinct key: the seen set is the set of all
      matched keys and each of them added exactly one line. */
  lemma {:induction false} OneLinePerKey(p: VizierPatterns, acp: map<string, AcpEntry>, log: seq<string>)
    requires VizierScan(p, acp, log).Success?
    ensures VizierScan(p, acp, log).value.seen == MatchedKeys(p, log)
    ensures |VizierScan(p, acp, log).value.lines| == |MatchedKeys(p, log)|
  {
    if log != [] {
      var n := |log|;
      var prefix := log[..n - 1];
      OneLinePerKey(p, acp, prefix);
      MatchedKeysSnoc(p, log);
      var st := VizierScan(p, acp, prefix).value;
      var r := VizierScan(p, acp, log).value;
      assert VizierScan(p, acp, log) == VizierStep(p, acp, st, log[n - 1]);
      match p.vizier(log[n - 1])
      case None =>
        assert r == st;
      case Some(m) =>
        if KeyOf(m) in st.seen {
          assert r == st;
        } else {
          var suffix := TelemetrySuffix(p, m, log[n - 1]).value;
          assert r == VizierState(st.seen + {KeyOf(m)}, st.lines + [FormatLine(acp, m, suffix)]);
          assert |st.seen + {KeyOf(m)}| == |st.seen| + 1;
        }
    }
  }

  lemma MatchedKeysSnoc(p: VizierPatterns, log: seq<string>)
    requires log != []
    ensures MatchedKeys(p, log) == MatchedKeys(p, log[..|log| - 1]) +
      (if p.vizier(log[|log| - 1]).Some? then {KeyOf(p.vizier(log[|log| - 1]).value)} else {})
  {
    var n := |log|;
    var prefix := log[..n - 1];
    forall i | 0 <= i < n - 1 ensures prefix[i] == log[i] { }
  }

  /** A later line with an already seen key changes nothing, and in particular its
      telemetry is never decoded, so it cannot raise. */
  lemma DuplicateSkipped(p: VizierPatterns, acp: map<string, AcpEntry>, log: seq<string>, j: nat)
    requires j < |log| && p.vizier(log[j]).Some?
    requires exists i :: 0 <= i < j && p.vizier(log[i]).Some? && KeyOf(p.vizier(log[i]).value) == KeyOf(p.vizier(log[j]).value)
    ensures VizierScan(p, acp, log[..j + 1]) == VizierScan(p, acp, log[..j])
  {
    assert log[..j + 1][..j] == log[..j];
    if VizierScan(p, acp, log[..j]).Success? {
      OneLinePerKey(p, acp, log[..j]);
      var i :| 0 <= i < j && p.vizier(log[i]).Some? && KeyOf(p.vizier(log[i]).value) == KeyOf(p.vizier(log[j]).value);
      assert log[..j][i] == log[i];
      assert KeyOf(p.vizier(log[j]).value) in MatchedKeys(p, log[..j]);
    }
  }

  /** The first line with a new key emits its formatted line (with telemetry when allow-listed). */
  lemma FirstOccurrenceEmitted(p: VizierPatterns, acp: map<string, AcpEntry>, log: seq<string>, j: nat)
    requires j < |log| && p.vizier(log[j]).Some?
    requires forall i :: 0 <= i < j && p.vizier(log[i]).Some? ==> KeyOf(p.vizier(log[i]).value) != KeyOf(p.vizier(log[j]).value)
    requires VizierScan(p, acp, log[..j]).Success?
    requires TelemetrySuffix(p, p.vizier(log[j]).value, log[j]).Success?
    ensures VizierScan(p, acp, log[..j + 1]).Success?
    ensures VizierScan(p, acp, log[..j + 1]).value.lines ==
      VizierScan(p, acp, log[..j]).value.lines +
      [FormatLine(acp, p.vizier(log[j]).value, TelemetrySuffix(p, p.vizier(log[j]).value, log[j]).value)]
  {
    assert log[..j + 1][..j] == log[..j];
    OneLinePerKey(p, acp, log[..j]);
  }

  /** A file whose lines carry no telemetry cannot fail. */
  lemma {:induction false} NoTelemetryNoFailure(p: VizierPatterns, acp: map<string, AcpEntry>, log: seq<string>)
    requires forall i :: 0 <= i < |log| ==> p.telemetry(log[i]).None?
    ensures VizierScan(p, acp, log).Success?
  {
    if log != [] {
      NoTelemetryNoFailure(p, acp, log[..|log| - 1]);
    }
  }
}
