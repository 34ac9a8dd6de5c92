/**
 * The fingerprint matcher (`snapstat_fingerprints_flow.py`).
 *
 * A window of a fixed number of lines slides over the log one line at a time.
 * Inside each window the patterns of a sequence are searched for greedily and
 * in order: each line is tried only against the pattern currently looked for,
 * and the next pattern is looked for only after the line that matched the
 * previous one. A window in which every pattern matched is complete; the
 * sequence's action (if any) then decides whether the window is kept and how
 * its records are annotated. Records carry a `file:line:col` locator.
 *
 * Regular-expression search is a parameter: `search(pattern, line)` is the
 * start of the first match of `pattern` in `line`, if any.
 */
module FingerprintMatcher {
  import opened Wrappers
  import opened Text
  import opened Collections
  import opened Fingerprints

  /** `re.compile(pattern).search(line)`, reduced to the start of the match. */
  type Search = (string, string) -> Option<nat>

  /** What an action callback returns: a bool, a str, or anything else (None included). */
  datatype ActionOutput = BoolOutput(b: bool) | StrOutput(s: string) | OtherOutput

  /** An action callback, called with the lines of a completed window. */
  type Action = seq<string> -> ActionOutput

  /** One row of the details table. */
  datatype MatchRecord = MatchRecord(
    logFile: string,
    matchedPattern: string,
    logLine: string,
    link: Locator,
    actionMatched: string)

  /** One row of the summary table. */
  datatype SummaryRow = SummaryRow(logFile: string, sequenceCount: nat)

  // ---------------------------------------------------------------------------
  // sliding_window

  /** The windows `sliding_window(lines, n)` yields. With `n = 0` the generator
      first yields the empty window and then one single-line window per line. */
  function Windows(lines: seq<string>, n: nat): seq<seq<string>> {
    if n == 0 then [[]] + seq(|lines|, k requires 0 <= k < |lines| => [lines[k]])
    else if |lines| < n then []
    else seq(|lines| - n + 1, k requires 0 <= k < |lines| - n + 1 => lines[k..k + n])
  }

  /** A window of n >= 1 lines is taken at every start from which n lines remain; with n = 0
      there is one window more than there are lines, the first empty and the others each
      holding one line, in order. */
  lemma WindowsShape(lines: seq<string>, n: nat)
    ensures n >= 1 ==> |Windows(lines, n)| == (if |lines| < n then 0 else |lines| - n + 1)
    ensures n >= 1 ==> forall k :: 0 <= k < |Windows(lines, n)| ==> Windows(lines, n)[k] == lines[k..k + n]
    ensures n == 0 ==> |Windows(lines, n)| == |lines| + 1 && Windows(lines, n)[0] == []
    ensures n == 0 ==> forall k :: 0 <= k < |lines| ==> Windows(lines, 0)[k + 1] == [lines[k]]
  {
  }

  /** Python's `window[1:]`. */
  function Tail<T>(s: seq<T>): seq<T> {
    if s == [] then [] else s[1..]
  }

  /** `sliding_window`: the first `n` lines if there are that many, then the window
      shifted by one line per remaining line. */
  method SlidingWindow(lines: seq<string>, n: nat) returns (windows: seq<seq<string>>)
    ensures windows == Windows(lines, n)
  {
    var first := if |lines| < n then |lines| else n;
    var window := lines[..first];
    windows := [];
    if |window| == n {
      windows := [window];
    }
    var idx := first;
    while idx < |lines|
      invariant first <= idx <= |lines|
      invariant |lines| < n ==> windows == [] && idx == |lines|
      invariant n >= 1 && n <= |lines| ==>
        window == lines[idx - n..idx] &&
        windows == seq(idx - n + 1, k requires 0 <= k < idx - n + 1 => lines[k..k + n])
      invariant n == 0 ==>
        window == (if idx == 0 then [] else [lines[idx - 1]]) &&
        windows == [[]] + seq(idx, k requires 0 <= k < idx => [lines[k]])
    {
      window := Tail(window) + [lines[idx]];
      windows := windows + [window];
      idx := idx + 1;
    }
  }

  // ---------------------------------------------------------------------------
  // Greedy in-order matching inside one window

  /** Pattern number `k` of the sequence matched line `line` of the window at `start`. */
  datatype Hit = Hit(line: nat, start: nat)

  /**
   * The matches found for patterns `pi..` from line `i` on: each line is tried
   * against the current pattern only, a match moves on to the next pattern, and
   * the search stops when every pattern has matched or the window ends.
   * Hit `k` is a match of pattern `pi + k`, on strictly increasing lines.
   */
  function GreedyMatch(search: Search, pats: seq<string>, window: seq<string>, pi: nat, i: nat): (hits: seq<Hit>)
    requires pi <= |pats| && i <= |window|
    ensures |hits| <= |pats| - pi
    ensures forall k :: 0 <= k < |hits| ==> i <= hits[k].line < |window|
    decreases |window| - i
  {
    if pi == |pats| || i == |window| then []
    else
      match search(pats[pi], window[i])
      case Some(start) =>
        var rest := GreedyMatch(search, pats, window, pi + 1, i + 1);
        var hits := [Hit(i, start)] + rest;
        assert forall k :: 0 < k < |hits| ==> hits[k] == rest[k - 1] && pi + k == (pi + 1) + (k - 1);
        hits
      case None => GreedyMatch(search, pats, window, pi, i + 1)
  }

  /** Hit `k` of the greedy result is a match of pattern `pi + k`, and the hits lie on strictly
      increasing lines. */
  lemma {:induction false} GreedyHits(search: Search, pats: seq<string>, window: seq<string>, pi: nat, i: nat)
    requires pi <= |pats| && i <= |window|
    ensures var hits := GreedyMatch(search, pats, window, pi, i);
      && (forall k :: 0 <= k < |hits| ==> search(pats[pi + k], window[hits[k].line]) == Some(hits[k].start))
      && (forall k, l :: 0 <= k < l < |hits| ==> hits[k].line < hits[l].line)
    decreases |window| - i
  {
    if pi < |pats| && i < |window| {
      GreedyStep(search, pats, window, pi, i);
      match search(pats[pi], window[i])
      case Some(start) =>
        GreedyHits(search, pats, window, pi + 1, i + 1);
        var rest := GreedyMatch(search, pats, window, pi + 1, i + 1);
        var hits := GreedyMatch(search, pats, window, pi, i);
        assert hits == [Hit(i, start)] + rest;
        assert forall k :: 0 < k < |hits| ==> hits[k] == rest[k - 1] && pi + k == (pi + 1) + (k - 1) && i < hits[k].line;
      case None =>
        GreedyHits(search, pats, window, pi, i + 1);
    }
  }

  /** Lines `idx` of the window match patterns `pi..` one each, in strictly increasing order, from line `i` on. */
  predicate EmbeddingFrom(search: Search, pats: seq<string>, window: seq<string>, pi: nat, i: nat, idx: seq<nat>)
    requires pi <= |pats|
  {
    && |idx| == |pats| - pi
    && (forall k :: 0 <= k < |idx| ==> i <= idx[k] < |window| && search(pats[pi + k], window[idx[k]]).Some?)
    && (forall k, l :: 0 <= k < l < |idx| ==> idx[k] < idx[l])
  }

  function HitLines(hits: seq<Hit>): (idx: seq<nat>)
    ensures |idx| == |hits| && forall k :: 0 <= k < |hits| ==> idx[k] == hits[k].line
  {
    seq(|hits|, k requires 0 <= k < |hits| => hits[k].line)
  }

  /** When the greedy search completes, its lines are an in-order embedding of the patterns. */
  lemma GreedyCompleteIsEmbedding(search: Search, pats: seq<string>, window: seq<string>)
    requires |GreedyMatch(search, pats, window, 0, 0)| == |pats|
    ensures EmbeddingFrom(search, pats, window, 0, 0, HitLines(GreedyMatch(search, pats, window, 0, 0)))
  {
    GreedyHits(search, pats, window, 0, 0);
  }

  /** Greedy matching loses nothing: if the patterns can be found on strictly increasing
      lines at all, the greedy search finds all of them. */
  lemma {:induction false} EmbeddingMakesGreedyComplete(search: Search, pats: seq<string>, window: seq<string>,
                                                        pi: nat, i: nat, idx: seq<nat>)
    requires pi <= |pats| && i <= |window|
    requires EmbeddingFrom(search, pats, window, pi, i, idx)
    ensures |GreedyMatch(search, pats, window, pi, i)| == |pats| - pi
    decreases |window| - i
  {
    if pi < |pats| {
      assert i <= idx[0] < |window|;
      match search(pats[pi], window[i])
      case Some(_) =>
        assert EmbeddingFrom(search, pats, window, pi + 1, i + 1, idx[1..]) by {
          forall k | 0 <= k < |idx| - 1 ensures i + 1 <= idx[1..][k] {
            assert idx[0] < idx[k + 1];
          }
        }
        EmbeddingMakesGreedyComplete(search, pats, window, pi + 1, i + 1, idx[1..]);
      case None =>
        assert idx[0] != i;
        assert EmbeddingFrom(search, pats, window, pi, i + 1, idx) by {
          forall k | 0 <= k < |idx| ensures i + 1 <= idx[k] {
            if k > 0 {
              assert idx[0] < idx[k];
            }
          }
        }
        EmbeddingMakesGreedyComplete(search, pats, window, pi, i + 1, idx);
    }
  }

  // ---------------------------------------------------------------------------
  // process_log_file

  /** Where a match is: file, 1-based line, 1-based column. */
  datatype Locator = Link(file: string, line: nat, col: nat)

  /** `f"{file}:{line}:{col}"`. */
  function LinkText(l: Locator): string {
    l.file + ":" + NatToString(l.line) + ":" + NatToString(l.col)
  }

  /** The records of the first hits of a window, numbered from `windowStart`. */
  function Records(file: string, pats: seq<string>, window: seq<string>, windowStart: nat, hits: seq<Hit>,
                   actionMatched: string): (rs: seq<MatchRecord>)
    requires |hits| <= |pats|
    requires forall k :: 0 <= k < |hits| ==> hits[k].line < |window|
    ensures |rs| == |hits|
    ensures forall k :: 0 <= k < |hits| ==> rs[k].matchedPattern == pats[k] && rs[k].actionMatched == actionMatched
  {
    if hits == [] then []
    else
      var k := |hits| - 1;
      var h := hits[k];
      Records(file, pats, window, windowStart, hits[..k], actionMatched) +
        [RecordAt(file, pats, window, windowStart, k, h, actionMatched)]
  }

  /** The record of hit `h`, the match of pattern `k`. */
  function RecordAt(file: string, pats: seq<string>, window: seq<string>, windowStart: nat, k: nat, h: Hit,
                    actionMatched: string): MatchRecord
    requires k < |pats| && h.line < |window|
  {
    MatchRecord(file, pats[k], Strip(window[h.line]), Link(file, windowStart + h.line, h.start + 1), actionMatched)
  }

  lemma GreedyStep(search: Search, pats: seq<string>, window: seq<string>, pi: nat, i: nat)
    requires pi < |pats| && i < |window|
    ensures search(pats[pi], window[i]).Some? ==>
      GreedyMatch(search, pats, window, pi, i) ==
      [Hit(i, search(pats[pi], window[i]).value)] + GreedyMatch(search, pats, window, pi + 1, i + 1)
    ensures search(pats[pi], window[i]).None? ==>
      GreedyMatch(search, pats, window, pi, i) == GreedyMatch(search, pats, window, pi, i + 1)
  {
  }

  lemma RecordsSnoc(file: string, pats: seq<string>, window: seq<string>, windowStart: nat,
                    hits: seq<Hit>, hit: Hit, actionMatched: string)
    requires |hits| < |pats| && hit.line < |window|
    requires forall k :: 0 <= k < |hits| ==> hits[k].line < |window|
    ensures Records(file, pats, window, windowStart, hits + [hit], actionMatched) ==
      Records(file, pats, window, windowStart, hits, actionMatched) +
      [RecordAt(file, pats, window, windowStart, |hits|, hit, actionMatched)]
  {
    assert (hits + [hit])[..|hits|] == hits;
  }

  /** The "Action Matched" value of a complete window, or `None` when its action returned False. */
  function ActionResult(action: Option<Action>, window: seq<string>): Option<string> {
    if action.None? then Some("No")
    else
      match action.value(window)
      case BoolOutput(b) => if b then Some("Yes") else None
      case StrOutput(s) => Some(s)
      case OtherOutput => Some("No")
  }

  /** The records a window contributes, or `None` when it is not counted: incomplete,
      or its action returned False. */
  function WindowOutcome(search: Search, pats: seq<string>, action: Option<Action>, file: string,
                         window: seq<string>, windowStart: nat): (r: Option<seq<MatchRecord>>)
    ensures r.Some? ==> |r.value| == |pats|
  {
    var hits := GreedyMatch(search, pats, window, 0, 0);
    if |hits| < |pats| then None
    else
      match ActionResult(action, window)
      case None => None
      case Some(result) => Some(Records(file, pats, window, windowStart, hits, result))
  }

  /**
   * What decides a window's records: an incomplete window is never recorded; in a
   * complete one, no action or a result that is neither bool nor str leaves "No",
   * True gives "Yes", a string (the empty one too) is used as it is, and False drops
   * the window.
   */
  lemma ActionDecidesWindow(search: Search, pats: seq<string>, action: Option<Action>, file: string,
                            window: seq<string>, windowStart: nat)
    ensures var hits := GreedyMatch(search, pats, window, 0, 0);
      var o := WindowOutcome(search, pats, action, file, window, windowStart);
      && (|hits| < |pats| ==> o.None?)
      && (|hits| == |pats| && (action.None? || action.value(window).OtherOutput?) ==>
            o == Some(Records(file, pats, window, windowStart, hits, "No")))
      && (|hits| == |pats| && action.Some? && action.value(window) == BoolOutput(true) ==>
            o == Some(Records(file, pats, window, windowStart, hits, "Yes")))
      && (|hits| == |pats| && action.Some? && action.value(window).StrOutput? ==>
            o == Some(Records(file, pats, window, windowStart, hits, action.value(window).s)))
      && (action.Some? && action.value(window) == BoolOutput(false) ==> o.None?)
  {
  }

  /** The records and the count of the windows `ws`, the k-th (0-based) being window number k + 1. */
  function ProcessWindows(search: Search, pats: seq<string>, action: Option<Action>, file: string,
                          ws: seq<seq<string>>): (r: (seq<MatchRecord>, nat))
    ensures |r.0| == |pats| * r.1
    ensures r.1 <= |ws|
  {
    if ws == [] then ([], 0)
    else
      var k := |ws| - 1;
      var prev := ProcessWindows(search, pats, action, file, ws[..k]);
      match WindowOutcome(search, pats, action, file, ws[k], k + 1)
      case None => prev
      case Some(recs) =>
        MulSucc(|pats|, prev.1);
        (prev.0 + recs, prev.1 + 1)
  }

  lemma MulPositive(a: nat, b: nat)
    ensures a * b > 0 ==> b >= 1
  {
  }

  lemma MulSucc(a: nat, b: nat)
    ensures a * (b + 1) == a * b + a
  {
  }

  /** `process_log_file(lines, patterns, n, action, file)` as a value. */
  function Process(search: Search, pats: seq<string>, n: nat, action: Option<Action>, file: string,
                   lines: seq<string>): (seq<MatchRecord>, nat)
  {
    ProcessWindows(search, pats, action, file, Windows(lines, n))
  }

  /** The inner loop: each line is tried against the current pattern only, and the
      search stops once every pattern has matched. */
  /** One step of the inner loop, seen against the whole greedy result `all`: a match of the
      current pattern is the next hit, and a miss leaves the expected hits unchanged. */
  lemma GreedyAdvance(search: Search, pats: seq<string>, window: seq<string>, file: string, windowStart: nat,
                      all: seq<Hit>, pi: nat, i: nat)
    requires pi < |pats| && i < |window| && pi <= |all|
    requires all == GreedyMatch(search, pats, window, 0, 0)
    requires GreedyMatch(search, pats, window, pi, i) == all[pi..]
    ensures search(pats[pi], window[i]).None? ==> GreedyMatch(search, pats, window, pi, i + 1) == all[pi..]
    ensures search(pats[pi], window[i]).Some? ==>
      && pi < |all| && all[pi] == Hit(i, search(pats[pi], window[i]).value)
      && GreedyMatch(search, pats, window, pi + 1, i + 1) == all[pi + 1..]
      && Records(file, pats, window, windowStart, all[..pi + 1], "No") ==
         Records(file, pats, window, windowStart, all[..pi], "No") +
         [RecordAt(file, pats, window, windowStart, pi, all[pi], "No")]
  {
    GreedyStep(search, pats, window, pi, i);
    if search(pats[pi], window[i]).Some? {
      assert all[pi + 1..] == all[pi..][1..];
      RecordsSnoc(file, pats, window, windowStart, all[..pi], all[pi], "No");
      assert all[..pi + 1] == all[..pi] + [all[pi]];
    }
  }

  /** The inner loop: each line is tried against the current pattern only, and the
      search stops once every pattern has matched. */
  method MatchWindow(search: Search, pats: seq<string>, window: seq<string>, file: string, windowStart: nat)
    returns (matches: seq<MatchRecord>, patternIdx: nat)
    ensures patternIdx == |GreedyMatch(search, pats, window, 0, 0)|
    ensures matches == Records(file, pats, window, windowStart, GreedyMatch(search, pats, window, 0, 0), "No")
  {
    ghost var all := GreedyMatch(search, pats, window, 0, 0);
    matches := [];
    patternIdx := 0;
    var i := 0;
    while i < |window|
      invariant 0 <= i <= |window|
      invariant patternIdx <= |all| <= |pats|
      invariant GreedyMatch(search, pats, window, patternIdx, i) == all[patternIdx..]
      invariant matches == Records(file, pats, window, windowStart, all[..patternIdx], "No")
    {
      if patternIdx >= |pats| {
        break;
      }
      var line := window[i];
      var m := search(pats[patternIdx], line);
      GreedyAdvance(search, pats, window, file, windowStart, all, patternIdx, i);
      if m.Some? {
        var record := RecordAt(file, pats, window, windowStart, patternIdx, Hit(i, m.value), "No");
        matches := matches + [record];
        patternIdx := patternIdx + 1;
      }
      i := i + 1;
    }
    assert GreedyMatch(search, pats, window, patternIdx, i) == [];
    assert all[..patternIdx] == all;
  }

  /** Lines 93-94: every record of the window gets the window's action result. */
  method Relabel(matches: seq<MatchRecord>, actionResult: string) returns (relabelled: seq<MatchRecord>)
    ensures |relabelled| == |matches|
    ensures forall k :: 0 <= k < |matches| ==> relabelled[k] == matches[k].(actionMatched := actionResult)
  {
    relabelled := matches;
    var j := 0;
    while j < |relabelled|
      invariant 0 <= j <= |relabelled| == |matches|
      invariant forall k :: 0 <= k < j ==> relabelled[k] == matches[k].(actionMatched := actionResult)
      invariant forall k :: j <= k < |matches| ==> relabelled[k] == matches[k]
    {
      relabelled := relabelled[j := relabelled[j].(actionMatched := actionResult)];
      j := j + 1;
    }
  }

  /** Giving every record of a window the action result `b` yields the window's records
      built with `b` in the first place. */
  lemma {:induction false} RelabelRecords(file: string, pats: seq<string>, window: seq<string>, windowStart: nat,
                                          hits: seq<Hit>, b: string, relabelled: seq<MatchRecord>)
    requires |hits| <= |pats|
    requires forall k :: 0 <= k < |hits| ==> hits[k].line < |window|
    requires |relabelled| == |hits|
    requires forall k :: 0 <= k < |hits| ==>
      relabelled[k] == Records(file, pats, window, windowStart, hits, "No")[k].(actionMatched := b)
    ensures relabelled == Records(file, pats, window, windowStart, hits, b)
  {
    if hits != [] {
      var n := |hits| - 1;
      var rs := Records(file, pats, window, windowStart, hits, "No");
      assert rs == Records(file, pats, window, windowStart, hits[..n], "No") + [RecordAt(file, pats, window, windowStart, n, hits[n], "No")];
      RelabelRecords(file, pats, window, windowStart, hits[..n], b, relabelled[..n]);
      assert relabelled == relabelled[..n] + [relabelled[n]];
    }
  }

  /** The body of the window loop: greedy matching, then the action and the relabelling
      for a complete window. `None` means the window is skipped. */
  method ProcessWindow(search: Search, pats: seq<string>, action: Option<Action>, file: string,
                       window: seq<string>, windowStart: nat)
    returns (outcome: Option<seq<MatchRecord>>)
    ensures outcome == WindowOutcome(search, pats, action, file, window, windowStart)
  {
    var matches, patternIdx := MatchWindow(search, pats, window, file, windowStart);
    if patternIdx != |pats| {
      return None;
    }
    var actionResult := "No";
    if action.Some? {
      var actionOutput := action.value(window);
      if actionOutput.BoolOutput? {
        actionResult := if actionOutput.b then "Yes" else "No";
      } else if actionOutput.StrOutput? {
        actionResult := actionOutput.s;
      }
      if actionOutput == BoolOutput(false) {
        return None;
      }
    }
    assert ActionResult(action, window) == Some(actionResult);
    var relabelled := Relabel(matches, actionResult);
    RelabelRecords(file, pats, window, windowStart, GreedyMatch(search, pats, window, 0, 0), actionResult, relabelled);
    outcome := Some(relabelled);
  }

  /** Adding window `k`, whose outcome is `o`, to the windows processed so far. */
  lemma ProcessWindowsStep(search: Search, pats: seq<string>, action: Option<Action>, file: string,
                           ws: seq<seq<string>>, k: nat, o: Option<seq<MatchRecord>>)
    requires k < |ws|
    requires o == WindowOutcome(search, pats, action, file, ws[k], k + 1)
    ensures o.None? ==>
      (ProcessWindows(search, pats, action, file, ws[..k + 1]) ==
       ProcessWindows(search, pats, action, file, ws[..k]))
    ensures o.Some? ==>
      (ProcessWindows(search, pats, action, file, ws[..k + 1]) ==
       (ProcessWindows(search, pats, action, file, ws[..k]).0 + o.value,
        ProcessWindows(search, pats, action, file, ws[..k]).1 + 1))
  {
    assert ws[..k + 1][..k] == ws[..k];
  }

  /** `process_log_file`: windows numbered from 1, greedy matching, the action, the relabelling. */
  method ProcessLogFile(search: Search, pats: seq<string>, n: nat, action: Option<Action>, file: string,
                        lines: seq<string>)
    returns (data: seq<MatchRecord>, count: nat)
    ensures (data, count) == Process(search, pats, n, action, file, lines)
    ensures |data| == |pats| * count
  {
    var windows := SlidingWindow(lines, n);
    data := [];
    count := 0;
    var k := 0;
    while k < |windows|
      invariant 0 <= k <= |windows|
      invariant (data, count) == ProcessWindows(search, pats, action, file, windows[..k])
    {
      var outcome := ProcessWindow(search, pats, action, file, windows[k], k + 1);
      ProcessWindowsStep(search, pats, action, file, windows, k, outcome);
      if outcome.Some? {
        data := data + outcome.value;
        count := count + 1;
      }
      k := k + 1;
    }
    assert windows[..k] == windows;
  }

  // ---------------------------------------------------------------------------
  // Properties of process_log_file

  /** For a window of at least one line, a record's locator names the 1-based line number
      of the matched line, and its column is the match start plus one. */
  lemma LinkIsLineNumber(search: Search, pats: seq<string>, lines: seq<string>, n: nat, k: nat, h: nat)
    requires n >= 1 && k < |Windows(lines, n)|
    requires h < |GreedyMatch(search, pats, Windows(lines, n)[k], 0, 0)|
    ensures var hit := GreedyMatch(search, pats, Windows(lines, n)[k], 0, 0)[h];
      && 1 <= k + 1 + hit.line <= |lines|
      && Windows(lines, n)[k][hit.line] == lines[(k + 1 + hit.line) - 1]
      && search(pats[h], lines[(k + 1 + hit.line) - 1]) == Some(hit.start)
  {
    GreedyHits(search, pats, Windows(lines, n)[k], 0, 0);
  }

  /** With a window of 0 the generator's leading empty window shifts every locator one line down:
      the first line is reported as line 2. */
  lemma ZeroWindowShiftsLinks(search: Search, file: string, line: string)
    requires search("p", line) == Some(0)
    ensures Process(search, ["p"], 0, None, file, [line]).0 ==
      [MatchRecord(file, "p", Strip(line), Link(file, 2, 1), "No")]
  {
    var ws := Windows([line], 0);
    assert ws == [[], [line]];
    assert ws[..1] == [[]];
    assert ws[..0] == [];
    assert GreedyMatch(search, ["p"], [], 0, 0) == [];
    assert GreedyMatch(search, ["p"], [line], 1, 1) == [];
    assert GreedyMatch(search, ["p"], [line], 0, 0) == [Hit(0, 0)];
    var first := ProcessWindows(search, ["p"], None, file, ws[..1]);
    assert first == ([], 0);
    assert [Hit(0, 0)][..0] == [];
    assert Records(file, ["p"], [line], 2, [Hit(0, 0)], "No") ==
      [MatchRecord(file, "p", Strip(line), Link(file, 2, 1), "No")];
  }

  /** A window whose action returns False is never recorded: an action that always
      returns False leaves no records and a zero count. */
  lemma {:induction false} AllFalseDropsEverything(search: Search, pats: seq<string>, f: Action, file: string,
                                                   ws: seq<seq<string>>)
    requires forall w :: f(w) == BoolOutput(false)
    ensures ProcessWindows(search, pats, Some(f), file, ws) == ([], 0)
  {
    if ws != [] {
      AllFalseDropsEverything(search, pats, f, file, ws[..|ws| - 1]);
    }
  }

  /** The number of complete windows: those where every pattern was found. */
  function CompleteWindows(search: Search, pats: seq<string>, ws: seq<seq<string>>): nat {
    if ws == [] then 0
    else
      CompleteWindows(search, pats, ws[..|ws| - 1]) +
      (if |GreedyMatch(search, pats, ws[|ws| - 1], 0, 0)| == |pats| then 1 else 0)
  }

  /** Without an action every complete window is counted and all its records say "No". */
  lemma {:induction false} NoActionCountsEveryCompleteWindow(search: Search, pats: seq<string>, file: string,
                                                             ws: seq<seq<string>>)
    ensures ProcessWindows(search, pats, None, file, ws).1 == CompleteWindows(search, pats, ws)
    ensures forall r :: r in ProcessWindows(search, pats, None, file, ws).0 ==> r.actionMatched == "No"
  {
    if ws != [] {
      NoActionCountsEveryCompleteWindow(search, pats, file, ws[..|ws| - 1]);
    }
  }

  /** The action's result never raises the count above the number of complete windows. */
  lemma {:induction false} CountAtMostCompleteWindows(search: Search, pats: seq<string>, action: Option<Action>,
                                                      file: string, ws: seq<seq<string>>)
    ensures ProcessWindows(search, pats, action, file, ws).1 <= CompleteWindows(search, pats, ws)
  {
    if ws != [] {
      CountAtMostCompleteWindows(search, pats, action, file, ws[..|ws| - 1]);
    }
  }

  // ---------------------------------------------------------------------------
  // analyze_log_for_sequence

  /** The window used for a sequence: its own, or the number of its patterns when it has none. */
  function EffectiveWindow(s: Sequence): (n: nat)
    ensures s.window.Some? ==> n == s.window.value
    ensures s.window.None? ==> n == |s.patterns|
  {
    if s.window.Some? then s.window.value else |s.patterns|
  }

  /** The callback a sequence names, looked up in the action table. */
  function ActionOf(actions: ActionName -> Action, s: Sequence): Option<Action> {
    if s.action.Some? then Some(actions(s.action.value)) else None
  }

  /** `analyze_log_for_sequence` as a value: both tables de-duplicated; a summary row only when
      at least one record was kept. */
  function Analyze(search: Search, actions: ActionName -> Action, s: Sequence, lines: seq<string>, file: string)
    : (seq<MatchRecord>, seq<SummaryRow>)
  {
    var r := Process(search, s.patterns, EffectiveWindow(s), ActionOf(actions, s), file, lines);
    if r.0 == [] then ([], [])
    else (FirstOccurrences(r.0), FirstOccurrences([SummaryRow(file, r.1)]))
  }

  method AnalyzeLogForSequence(search: Search, actions: ActionName -> Action, s: Sequence, lines: seq<string>,
                               file: string)
    returns (df: seq<MatchRecord>, summaryDf: seq<SummaryRow>)
    ensures (df, summaryDf) == Analyze(search, actions, s, lines, file)
  {
    var n := EffectiveWindow(s);
    var data: seq<MatchRecord> := [];
    var summary: seq<SummaryRow> := [];
    var fileData, fileSequenceCount := ProcessLogFile(search, s.patterns, n, ActionOf(actions, s), file, lines);
    ghost var r := Process(search, s.patterns, n, ActionOf(actions, s), file, lines);
    assert fileData == r.0 && fileSequenceCount == r.1;
    if fileData != [] {
      data := data + fileData;
      summary := summary + [SummaryRow(file, 0 + fileSequenceCount)];
      assert data == r.0 && summary == [SummaryRow(file, r.1)];
    }
    df := FirstOccurrences(data);
    summaryDf := FirstOccurrences(summary);
  }

  /** A sequence yields one summary row for the file exactly when it yields records, and then
      the row holds the (positive) number of windows counted. */
  lemma AnalyzeSummary(search: Search, actions: ActionName -> Action, s: Sequence, lines: seq<string>, file: string)
    ensures Analyze(search, actions, s, lines, file).1 == [] <==> Analyze(search, actions, s, lines, file).0 == []
    ensures Analyze(search, actions, s, lines, file).0 != [] ==>
      var count := Process(search, s.patterns, EffectiveWindow(s), ActionOf(actions, s), file, lines).1;
      Analyze(search, actions, s, lines, file).1 == [SummaryRow(file, count)] && count >= 1
  {
    var r := Process(search, s.patterns, EffectiveWindow(s), ActionOf(actions, s), file, lines);
    FirstOccurrencesOfDistinct([SummaryRow(file, r.1)]);
    if r.0 != [] {
      assert r.0[0] in FirstOccurrences(r.0);
      MulPositive(|s.patterns|, r.1);
    }
  }

  // ---------------------------------------------------------------------------
  // transform_data

  /** A row tagged with the fingerprint that produced it. */
  datatype Tagged<T> = Tagged(row: T, fingerprint: string)

  function Tag<T>(rows: seq<T>, name: string): (tagged: seq<Tagged<T>>)
    ensures |tagged| == |rows| && forall k :: 0 <= k < |rows| ==> tagged[k] == Tagged(rows[k], name)
  {
    seq(|rows|, k requires 0 <= k < |rows| => Tagged(rows[k], name))
  }

  /** A row whose action result is anything but "No". */
  predicate Acted(r: MatchRecord) {
    r.actionMatched != "No"
  }

  /** `df[df["Action Matched"] != "No"]`. */
  function KeepActed(rows: seq<MatchRecord>): (kept: seq<MatchRecord>)
    ensures forall r :: r in kept ==> r in rows && Acted(r)
    ensures forall r :: r in rows && Acted(r) ==> r in kept
  {
    if rows == [] then []
    else
      var last := rows[|rows| - 1];
      KeepActed(rows[..|rows| - 1]) + (if Acted(last) then [last] else [])
  }

  /** The acted rows are kept in table order: the result is `rows` read at the acted indices. */
  lemma {:induction false} KeepActedInOrder(rows: seq<MatchRecord>)
    ensures Picks(KeepActed(rows), rows, Where(rows, Acted))
  {
    if rows != [] {
      var init := rows[..|rows| - 1];
      KeepActedInOrder(init);
      PicksSnoc(KeepActed(init), rows, Where(init, Acted));
      WhereSnoc(rows, Acted);
    }
  }

  /** The files a table's rows name. */
  function FilesOf(rows: seq<MatchRecord>): set<string> {
    set r | r in rows :: r.logFile
  }

  /** The "Log File" column of a table. */
  function FileColumn(rows: seq<MatchRecord>): (col: seq<string>)
    ensures |col| == |rows| && forall k :: 0 <= k < |rows| ==> col[k] == rows[k].logFile
  {
    seq(|rows|, k requires 0 <= k < |rows| => rows[k].logFile)
  }

  /** `df.drop_duplicates(subset='Log File')`: the first row of each file. */
  function FirstPerFile(rows: seq<MatchRecord>): (kept: seq<MatchRecord>)
    ensures forall r :: r in kept ==> r in rows
    ensures forall i, j :: 0 <= i < j < |kept| ==> kept[i].logFile != kept[j].logFile
    ensures FilesOf(kept) == FilesOf(rows)
  {
    if rows == [] then []
    else
      var prev := FirstPerFile(rows[..|rows| - 1]);
      var last := rows[|rows| - 1];
      assert rows == rows[..|rows| - 1] + [last];
      assert FilesOf(rows) == FilesOf(rows[..|rows| - 1]) + {last.logFile};
      if last.logFile in FilesOf(prev) then prev
      else
        assert FilesOf(prev + [last]) == FilesOf(prev) + {last.logFile};
        assert forall i :: 0 <= i < |prev| ==> prev[i].logFile in FilesOf(prev);
        prev + [last]
  }

  /** The row kept for each file is that file's first row, and the kept rows are in table order:
      the result is `rows` read at the indices whose file no earlier row names. */
  lemma {:induction false} FirstPerFileInOrder(rows: seq<MatchRecord>)
    ensures Picks(FirstPerFile(rows), rows, FirstIndices(FileColumn(rows)))
  {
    if rows != [] {
      var n := |rows|;
      var init := rows[..n - 1];
      FirstPerFileInOrder(init);
      var col := FileColumn(rows);
      assert FileColumn(init) == col[..n - 1];
      PicksSnoc(FirstPerFile(init), rows, FirstIndices(col[..n - 1]));
      FirstIndicesSnoc(col);
      assert col[n - 1] in col[..n - 1] <==> rows[n - 1].logFile in FilesOf(FirstPerFile(init)) by {
        if col[n - 1] in col[..n - 1] {
          var k :| 0 <= k < n - 1 && col[k] == col[n - 1];
          assert init[k] in init;
        }
        if rows[n - 1].logFile in FilesOf(init) {
          var r :| r in init && r.logFile == rows[n - 1].logFile;
          var k :| 0 <= k < n - 1 && init[k] == r;
          assert col[..n - 1][k] == col[n - 1];
        }
      }
    }
  }

  /** Rows that all name one file keep exactly the first of them. */
  lemma {:induction false} OneFileOneRow(rows: seq<MatchRecord>, file: string)
    requires forall r :: r in rows ==> r.logFile == file
    ensures FirstPerFile(rows) == if rows == [] then [] else [rows[0]]
  {
    if |rows| > 1 {
      var init := rows[..|rows| - 1];
      OneFileOneRow(init, file);
      assert rows[0] == init[0];
      assert rows[|rows| - 1].logFile in FilesOf(FirstPerFile(init));
    }
  }

  /** The two tables one sequence contributes to the combined output. */
  function SequenceTables(search: Search, actions: ActionName -> Action, s: Sequence, lines: seq<string>, file: string)
    : (seq<Tagged<MatchRecord>>, seq<Tagged<SummaryRow>>)
  {
    var (df, summaryDf) := Analyze(search, actions, s, lines, file);
    var filtered := if Filters(s) then FirstPerFile(KeepActed(df)) else df;
    (Tag(filtered, s.name), Tag(summaryDf, s.name))
  }

  /** The per-sequence tables of `sequences`, concatenated in catalog order. */
  function AllTables(search: Search, actions: ActionName -> Action, sequences: seq<Sequence>, lines: seq<string>,
                     file: string): (seq<Tagged<MatchRecord>>, seq<Tagged<SummaryRow>>)
  {
    if sequences == [] then ([], [])
    else
      var prev := AllTables(search, actions, sequences[..|sequences| - 1], lines, file);
      var t := SequenceTables(search, actions, sequences[|sequences| - 1], lines, file);
      (prev.0 + t.0, prev.1 + t.1)
  }

  /** `transform_data` as a value: every catalog sequence in order, then de-duplication. */
  function Transform(search: Search, actions: ActionName -> Action, timestampRe: string, lines: seq<string>,
                     file: string): (seq<Tagged<MatchRecord>>, seq<Tagged<SummaryRow>>)
  {
    var all := AllTables(search, actions, Catalog(timestampRe), lines, file);
    (FirstOccurrences(all.0), FirstOccurrences(all.1))
  }

  method TransformData(search: Search, actions: ActionName -> Action, timestampRe: string, lines: seq<string>,
                       file: string)
    returns (combined: seq<Tagged<MatchRecord>>, combinedSummary: seq<Tagged<SummaryRow>>)
    ensures (combined, combinedSummary) == Transform(search, actions, timestampRe, lines, file)
  {
    var sequences := Catalog(timestampRe);
    var allData: seq<Tagged<MatchRecord>> := [];
    var allSummary: seq<Tagged<SummaryRow>> := [];
    var i := 0;
    while i < |sequences|
      invariant 0 <= i <= |sequences|
      invariant (allData, allSummary) == AllTables(search, actions, sequences[..i], lines, file)
    {
      assert sequences[..i + 1][..i] == sequences[..i];
      var eventSequence := sequences[i];
      var sequenceDf, summaryDf := AnalyzeLogForSequence(search, actions, eventSequence, lines, file);
      if eventSequence.filterActions == Some(true) {
        sequenceDf := KeepActed(sequenceDf);
        sequenceDf := FirstPerFile(sequenceDf);
      }
      allData := allData + Tag(sequenceDf, eventSequence.name);
      allSummary := allSummary + Tag(summaryDf, eventSequence.name);
      i := i + 1;
    }
    assert sequences[..i] == sequences;
    combined := FirstOccurrences(allData);
    combinedSummary := FirstOccurrences(allSummary);
  }

  // ---------------------------------------------------------------------------
  // Properties of the aggregation

  /** Every record of one file names that file. */
  lemma {:induction false} RecordsNameTheirFile(search: Search, pats: seq<string>, action: Option<Action>,
                                                file: string, ws: seq<seq<string>>)
    ensures forall r :: r in ProcessWindows(search, pats, action, file, ws).0 ==> r.logFile == file
  {
    if ws != [] {
      var k := |ws| - 1;
      RecordsNameTheirFile(search, pats, action, file, ws[..k]);
      RecordsOfFile(file, pats, ws[k], k + 1, GreedyMatch(search, pats, ws[k], 0, 0), ActionResult(action, ws[k]));
    }
  }

  lemma {:induction false} RecordsOfFile(file: string, pats: seq<string>, window: seq<string>, windowStart: nat,
                                         hits: seq<Hit>, result: Option<string>)
    requires |hits| <= |pats|
    requires forall k :: 0 <= k < |hits| ==> hits[k].line < |window|
    ensures result.Some? ==> forall r :: r in Records(file, pats, window, windowStart, hits, result.value) ==> r.logFile == file
  {
    if hits != [] && result.Some? {
      RecordsOfFile(file, pats, window, windowStart, hits[..|hits| - 1], result);
    }
  }

  /** Filtering the records of one file leaves exactly its first acted record, or nothing. */
  lemma FirstActedOfOneFile(df: seq<MatchRecord>, file: string)
    requires forall r :: r in df ==> r.logFile == file
    ensures forall i0 :: 0 <= i0 < |df| && Acted(df[i0]) && (forall j :: 0 <= j < i0 ==> !Acted(df[j])) ==>
      FirstPerFile(KeepActed(df)) == [df[i0]]
    ensures (forall i :: 0 <= i < |df| ==> !Acted(df[i])) ==> FirstPerFile(KeepActed(df)) == []
  {
    var acted := KeepActed(df);
    OneFileOneRow(acted, file);
    KeepActedInOrder(df);
    var idx := Where(df, Acted);
    forall i0 | 0 <= i0 < |df| && Acted(df[i0]) && (forall j :: 0 <= j < i0 ==> !Acted(df[j]))
      ensures FirstPerFile(acted) == [df[i0]]
    {
      var k :| 0 <= k < |idx| && idx[k] == i0;
      assert idx[0] <= i0;
      assert Acted(df[idx[0]]);
    }
    if forall i :: 0 <= i < |df| ==> !Acted(df[i]) {
      if |idx| > 0 {
        assert Acted(df[idx[0]]);
      }
    }
  }

  /** With `filter_actions`, a sequence contributes exactly the first record whose action result is
      not "No", tagged with the sequence's name, and nothing when every result is "No". */
  lemma FilterKeepsAtMostOneRow(search: Search, actions: ActionName -> Action, s: Sequence, lines: seq<string>,
                                file: string)
    requires Filters(s)
    ensures |SequenceTables(search, actions, s, lines, file).0| <= 1
    ensures forall t :: t in SequenceTables(search, actions, s, lines, file).0 ==>
      Acted(t.row) && t.fingerprint == s.name
    ensures var df := Analyze(search, actions, s, lines, file).0;
      forall i0 :: 0 <= i0 < |df| && Acted(df[i0]) && (forall j :: 0 <= j < i0 ==> !Acted(df[j])) ==>
        SequenceTables(search, actions, s, lines, file).0 == [Tagged(df[i0], s.name)]
    ensures var df := Analyze(search, actions, s, lines, file).0;
      (forall i :: 0 <= i < |df| ==> !Acted(df[i])) ==> SequenceTables(search, actions, s, lines, file).0 == []
  {
    var df := Analyze(search, actions, s, lines, file).0;
    var ws := Windows(lines, EffectiveWindow(s));
    var data := ProcessWindows(search, s.patterns, ActionOf(actions, s), file, ws).0;
    RecordsNameTheirFile(search, s.patterns, ActionOf(actions, s), file, ws);
    assert forall r :: r in df ==> r in data;
    var kept := FirstPerFile(KeepActed(df));
    assert SequenceTables(search, actions, s, lines, file).0 == Tag(kept, s.name);
    OneFileOneRow(KeepActed(df), file);
    FirstActedOfOneFile(df, file);
    assert forall r :: r in kept ==> Acted(r);
  }

  /** The filter touches only the details table: the summary count of a sequence is the same
      with or without `filter_actions`. */
  lemma FilterKeepsSummary(search: Search, actions: ActionName -> Action, s: Sequence, lines: seq<string>, file: string)
    ensures SequenceTables(search, actions, s, lines, file).1 ==
            SequenceTables(search, actions, s.(filterActions := None), lines, file).1
  {
  }
}
