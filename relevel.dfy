/**
 * The maneuver windows of the controls report
 * (backend/flows/controls/controls_report/analysis_cells/relevel_analysis.py):
 * `DMCAnalysis.extract_state_windows` cuts a time series of DMC maneuver states into
 * windows of constant state, each labelled from the 28-name `dmc_state` table, and
 * `plot_relevel_events` keeps the windows whose label mentions "RELEVEL".
 * Times are the series' timestamps as integers.
 */
module Relevel {
  import opened Wrappers
  import opened Text
  import Collections

  /** `self.dmc_state`. */
  const DmcState: seq<string> := [
    "INVALID", "MOVE", "ORIENT", "SIT", "PRE_SIT",
    "REMOVE_BACKLASH", "RELEVEL_UP", "RELEVEL_DOWN",
    "PARK_AT_CHANNEL", "PARK_AT_TOTE", "PARK_AT_FINE_POSITION",
    "PARK_AT_DOWN_SLOPE", "ENGAGE", "PREPARE_FOR_ENGAGE",
    "DESERVO_DRIVE_MOTORS", "ABORT", "DISABLE_BRIDGE_APPLY_BRAKES",
    "INIT", "KILL", "MOVE_SUPER_S_CURVE_FORWARD",
    "MOVE_SUPER_S_CURVE_REVERSE", "JOG_ANGULAR",
    "HORIZONTAL_MODE", "VERTICAL_MODE",
    "ROTATE_PINION_MODE", "MOVE_ON_PITCHED_DOWNSLOPE",
    "MOVE_ON_PITCHED_UPSLOPE", "MAX_MANEUVER"]

  /** The error a list lookup raises. */
  datatype LabelError = IndexError

  /** `table[state]` for a Python list: a negative state counts from the end, and one
      outside the table raises IndexError. */
  function Label(table: seq<string>, state: int): (r: Result<string, LabelError>)
    ensures r.Success? <==> -|table| <= state < |table|
    ensures r.Success? ==> r.value in table
    ensures 0 <= state < |table| ==> r == Success(table[state])
    ensures -|table| <= state < 0 ==> r == Success(table[|table| + state])
  {
    if 0 <= state < |table| then Success(table[state])
    else if -|table| <= state < 0 then Success(table[|table| + state])
    else Failure(IndexError)
  }

  /** One entry of the series: its time index and the `dmc_seg_maneuver` value. */
  datatype Sample = Sample(time: int, state: int)

  /** A window before it is labelled. */
  datatype Run = Run(state: int, startTime: int, endTime: int)

  /** One element of the list `extract_state_windows` returns. */
  datatype Window = Window(maneuverLabel: string, maneuverEnumValue: int, startTime: int, endTime: int)

  /**
   * The windows of `samples`, unlabelled: a sample with the state of the open window
   * extends it; one with another state closes it at its own time and opens the next.
   * The last window ends at the time of the last sample.
   */
  function Runs(samples: seq<Sample>): (runs: seq<Run>)
    ensures |runs| <= |samples|
    ensures runs == [] <==> samples == []
  {
    if samples == [] then []
    else
      var prev := Runs(samples[..|samples| - 1]);
      var s := samples[|samples| - 1];
      if prev == [] then [Run(s.state, s.time, s.time)]
      else
        var open := prev[|prev| - 1];
        var closed := prev[..|prev| - 1];
        if s.state != open.state then closed + [open.(endTime := s.time), Run(s.state, s.time, s.time)]
        else closed + [open.(endTime := s.time)]
  }

  /** The runs labelled in order; the first state the table cannot name raises. */
  function LabelAll(table: seq<string>, runs: seq<Run>): (r: Result<seq<Window>, LabelError>)
    ensures r.Success? ==> |r.value| == |runs|
  {
    if runs == [] then Success([])
    else
      var last := runs[|runs| - 1];
      match LabelAll(table, runs[..|runs| - 1])
      case Failure(e) => Failure(e)
      case Success(ws) =>
        match Label(table, last.state)
        case Failure(e) => Failure(e)
        case Success(l) => Success(ws + [Window(l, last.state, last.startTime, last.endTime)])
  }

  // ---------------------------------------------------------------------------
  // The loop

  /** One more sample: the closed runs stay, and the open one keeps its state and start. */
  lemma RunsGrow(s: seq<Sample>, j: nat)
    requires 2 <= j <= |s|
    ensures KeepsRuns(Runs(s[..j - 1]), Runs(s[..j]))
  {
    assert s[..j][..j - 1] == s[..j - 1];
  }

  /** `b` keeps the closed runs of `a` and the state and start of its open one. */
  predicate KeepsRuns(a: seq<Run>, b: seq<Run>) {
    && 1 <= |a| <= |b|
    && b[..|a| - 1] == a[..|a| - 1]
    && b[|a| - 1].state == a[|a| - 1].state
    && b[|a| - 1].startTime == a[|a| - 1].startTime
  }

  /** Keeping the runs is transitive. */
  lemma KeepsRunsTransitive(a: seq<Run>, p: seq<Run>, b: seq<Run>)
    requires KeepsRuns(a, p) && KeepsRuns(p, b)
    ensures KeepsRuns(a, b)
  {
    var k := |a| - 1;
    assert b[..k] == b[..|p| - 1][..k];
    assert p[..k] == p[..|p| - 1][..k];
    if |a| < |p| {
      assert b[k] == b[..|p| - 1][k];
      assert p[k] == p[..|p| - 1][k];
    }
  }

  /** A run that is closed stays as it is, and the open one keeps its state and start. */
  lemma {:induction false} RunsExtend(s: seq<Sample>, i: nat, j: nat)
    requires 1 <= i <= j <= |s|
    ensures KeepsRuns(Runs(s[..i]), Runs(s[..j]))
    decreases j
  {
    if i < j {
      RunsExtend(s, i, j - 1);
      RunsGrow(s, j);
      KeepsRunsTransitive(Runs(s[..i]), Runs(s[..j - 1]), Runs(s[..j]));
    } else {
      assert Runs(s[..i]) != [];
    }
  }

  /** Once a prefix of the runs fails to be labelled, all of them do. */
  lemma {:induction false} LabelAllFailurePersists(table: seq<string>, runs: seq<Run>, k: nat)
    requires k <= |runs|
    requires LabelAll(table, runs[..k]).Failure?
    ensures LabelAll(table, runs).Failure?
    decreases |runs| - k
  {
    if k < |runs| {
      assert runs[..k + 1][..k] == runs[..k];
      LabelAllFailurePersists(table, runs, k + 1);
    } else {
      assert runs[..k] == runs;
    }
  }

  /** One more sample, as the loop sees it: the closed runs and the open one. */
  lemma RunsStep(s: seq<Sample>, i: nat, closed: seq<Run>, open: Run)
    requires 0 < i < |s|
    requires Runs(s[..i]) == closed + [open]
    ensures Runs(s[..i + 1]) ==
      if s[i].state != open.state then (closed + [open.(endTime := s[i].time)]) + [Run(s[i].state, s[i].time, s[i].time)]
      else closed + [open.(endTime := s[i].time)]
  {
    assert s[..i + 1][..i] == s[..i];
    assert (closed + [open])[..|closed|] == closed;
  }

  /** A closed run the table cannot name makes the whole labelling fail. */
  lemma ClosedFailure(table: seq<string>, s: seq<Sample>, i: nat, closed: seq<Run>, open: Run)
    requires 1 <= i <= |s|
    requires Runs(s[..i]) == closed + [open]
    requires LabelAll(table, closed).Failure?
    ensures LabelAll(table, Runs(s)) == Failure(IndexError)
  {
    RunsExtend(s, i, |s|);
    assert s[..|s|] == s;
    var all := Runs(s);
    assert (closed + [open])[..|closed|] == closed;
    assert all[..|closed|] == closed;
    LabelAllFailurePersists(table, all, |closed|);
    assert LabelAll(table, all).error == IndexError;
  }

  /** The closed runs are labelled with one more window. */
  lemma LabelAllSnoc(table: seq<string>, runs: seq<Run>, run: Run)
    ensures LabelAll(table, runs + [run]) ==
      match LabelAll(table, runs)
      case Failure(e) => Failure(e)
      case Success(ws) =>
        match Label(table, run.state)
        case Failure(e) => Failure(e)
        case Success(l) => Success(ws + [Window(l, run.state, run.startTime, run.endTime)])
  {
    assert (runs + [run])[..|runs|] == runs;
  }

  // ---------------------------------------------------------------------------
  // What the windows are

  /** The states of the samples, in order. */
  function StatesOf(samples: seq<Sample>): (states: seq<int>)
    ensures |states| == |samples|
  {
    if samples == [] then [] else StatesOf(samples[..|samples| - 1]) + [samples[|samples| - 1].state]
  }

  /** The states of the runs, in order. */
  function RunStates(runs: seq<Run>): (states: seq<int>)
    ensures |states| == |runs|
  {
    if runs == [] then [] else RunStates(runs[..|runs| - 1]) + [runs[|runs| - 1].state]
  }

  /** `xs` with every element equal to the one before it dropped. */
  function Collapse(xs: seq<int>): (r: seq<int>)
    ensures |r| <= |xs|
  {
    if xs == [] then []
    else
      var p := Collapse(xs[..|xs| - 1]);
      if p != [] && p[|p| - 1] == xs[|xs| - 1] then p else p + [xs[|xs| - 1]]
  }

  /** The number of samples whose state differs from the one before. */
  function Changes(samples: seq<Sample>): nat {
    if |samples| <= 1 then 0
    else
      Changes(samples[..|samples| - 1])
        + (if samples[|samples| - 1].state != samples[|samples| - 2].state then 1 else 0)
  }

  /** The first window starts with the first sample; the last one has the last sample's
      state and ends at its time. */
  lemma {:induction false} RunsEnds(samples: seq<Sample>)
    requires samples != []
    ensures var runs := Runs(samples);
      && runs[0].startTime == samples[0].time
      && runs[|runs| - 1].state == samples[|samples| - 1].state
      && runs[|runs| - 1].endTime == samples[|samples| - 1].time
  {
    var prefix := samples[..|samples| - 1];
    if prefix != [] {
      RunsEnds(prefix);
      assert prefix[0] == samples[0];
    }
  }

  /** `b` is the window after `a`: another state, starting where `a` ends. */
  predicate Adjacent(a: Run, b: Run) {
    a.state != b.state && a.endTime == b.startTime
  }

  /** Neighbouring windows have different states, and each closed window ends where the
      next one starts. */
  lemma {:induction false} RunsAdjacent(samples: seq<Sample>)
    ensures forall k :: 0 <= k < |Runs(samples)| - 1 ==> Adjacent(Runs(samples)[k], Runs(samples)[k + 1])
  {
    if |samples| > 1 {
      var prefix := samples[..|samples| - 1];
      RunsAdjacent(prefix);
      var prev := Runs(prefix);
      var runs := Runs(samples);
      var closed := prev[..|prev| - 1];
      var open := prev[|prev| - 1];
      var x := samples[|samples| - 1];
      var extended := closed + [open.(endTime := x.time)];
      assert runs == if x.state != open.state then extended + [Run(x.state, x.time, x.time)] else extended;
      forall k | 0 <= k < |runs| - 1
        ensures Adjacent(runs[k], runs[k + 1])
      {
        if k < |closed| - 1 {
          assert runs[k] == prev[k] && runs[k + 1] == prev[k + 1];
        } else if k == |closed| - 1 {
          assert runs[k] == prev[k] && prev[k + 1] == open;
          assert runs[k + 1] == open.(endTime := x.time);
          assert Adjacent(prev[k], prev[k + 1]);
        } else {
          assert x.state != open.state;
          assert runs[k] == open.(endTime := x.time);
          assert runs[k + 1] == Run(x.state, x.time, x.time);
        }
      }
    }
  }

  /** A series with states changing `c` times makes `c + 1` windows, and none when empty. */
  lemma {:induction false} RunsCount(samples: seq<Sample>)
    ensures |Runs(samples)| == if samples == [] then 0 else 1 + Changes(samples)
  {
    if |samples| > 1 {
      var prefix := samples[..|samples| - 1];
      RunsCount(prefix);
      RunsEnds(prefix);
      assert prefix[|prefix| - 1] == samples[|samples| - 2];
    }
  }

  /** One more run adds its state. */
  lemma RunStatesSnoc(runs: seq<Run>, run: Run)
    ensures RunStates(runs + [run]) == RunStates(runs) + [run.state]
  {
    assert (runs + [run])[..|runs|] == runs;
  }

  /** One more state is kept unless it repeats the last kept one. */
  lemma CollapseSnoc(xs: seq<int>, y: int)
    ensures var p := Collapse(xs);
      Collapse(xs + [y]) == if p != [] && p[|p| - 1] == y then p else p + [y]
  {
    var ys := xs + [y];
    assert ys[..|ys| - 1] == xs;
    assert ys[|ys| - 1] == y;
    var p := Collapse(xs);
    assert Collapse(ys) == if p != [] && p[|p| - 1] == y then p else p + [y];
  }

  /** The window states are the sample states with repeats collapsed. */
  lemma {:induction false} RunsCollapse(samples: seq<Sample>)
    ensures RunStates(Runs(samples)) == Collapse(StatesOf(samples))
  {
    if samples != [] {
      var prefix := samples[..|samples| - 1];
      var x := samples[|samples| - 1];
      var xs := StatesOf(prefix);
      assert StatesOf(samples) == xs + [x.state];
      CollapseSnoc(xs, x.state);
      var c := Collapse(xs);
      if prefix == [] {
        assert Runs(samples) == [Run(x.state, x.time, x.time)];
        RunStatesSnoc([], Run(x.state, x.time, x.time));
      } else {
        RunsCollapse(prefix);
        var prev := Runs(prefix);
        var closed := prev[..|prev| - 1];
        var open := prev[|prev| - 1];
        assert prev == closed + [open];
        RunStatesSnoc(closed, open);
        assert c == RunStates(closed) + [open.state];
        var extended := closed + [open.(endTime := x.time)];
        RunStatesSnoc(closed, open.(endTime := x.time));
        assert RunStates(extended) == c;
        RunsStep(samples, |samples| - 1, closed, open);
        assert samples[..|samples|] == samples;
        if x.state != open.state {
          assert Runs(samples) == extended + [Run(x.state, x.time, x.time)];
          RunStatesSnoc(extended, Run(x.state, x.time, x.time));
          assert Collapse(xs + [x.state]) == c + [x.state];
        } else {
          assert Runs(samples) == extended;
          assert Collapse(xs + [x.state]) == c;
        }
      }
    }
  }

  /** Labelling succeeds exactly when the table names every window's state, and then
      window k carries run k's state, times and name. */
  lemma {:induction false} LabelAllPointwise(table: seq<string>, runs: seq<Run>)
    ensures LabelAll(table, runs).Success? <==>
      forall k :: 0 <= k < |runs| ==> -|table| <= runs[k].state < |table|
    ensures LabelAll(table, runs).Success? ==>
      forall k :: 0 <= k < |runs| ==>
        LabelAll(table, runs).value[k] ==
          Window(Label(table, runs[k].state).value, runs[k].state, runs[k].startTime, runs[k].endTime)
  {
    if runs != [] {
      var prefix := runs[..|runs| - 1];
      LabelAllPointwise(table, prefix);
      assert forall k :: 0 <= k < |prefix| ==> runs[k] == prefix[k];
    }
  }

  // ---------------------------------------------------------------------------
  // The relevel events

  /** A window whose maneuver label mentions RELEVEL. */
  predicate MentionsRelevel(w: Window) {
    Contains(w.maneuverLabel, "RELEVEL")
  }

  /** `[event for event in windows if "RELEVEL" in event["maneuver_label"]]`. */
  function RelevelEvents(windows: seq<Window>): (events: seq<Window>)
    ensures forall w :: w in events <==> w in windows && MentionsRelevel(w)
  {
    if windows == [] then []
    else
      var prefix := windows[..|windows| - 1];
      var w := windows[|windows| - 1];
      assert windows == prefix + [w];
      RelevelEvents(prefix) + (if MentionsRelevel(w) then [w] else [])
  }

  /** The comprehension keeps window order: the events are the windows read at the indices of
      those that mention RELEVEL. */
  lemma {:induction false} RelevelEventsInOrder(windows: seq<Window>)
    ensures Collections.Picks(RelevelEvents(windows), windows, Collections.Where(windows, MentionsRelevel))
  {
    if windows != [] {
      var prefix := windows[..|windows| - 1];
      RelevelEventsInOrder(prefix);
      Collections.PicksSnoc(RelevelEvents(prefix), windows, Collections.Where(prefix, MentionsRelevel));
      Collections.WhereSnoc(windows, MentionsRelevel);
    }
  }

  // ---------------------------------------------------------------------------
  // Which names mention RELEVEL

  /** One mismatching column rules out an occurrence at `i`. */
  lemma Mismatch(s: string, sub: string, i: int, j: nat)
    requires j < |sub| && 0 <= i + j < |s| && s[i + j] != sub[j]
    ensures !ContainsAt(s, sub, i)
  {
  }

  /** A name without the letter at column `j` of "RELEVEL" cannot contain it. */
  lemma LacksColumn(s: string, j: nat, c: char)
    requires j < 7 && "RELEVEL"[j] == c && forall i | 0 <= i < |s| :: s[i] != c
    ensures !Contains(s, "RELEVEL")
  {
    forall i | 0 <= i <= |s| - 7 ensures !ContainsAt(s, "RELEVEL", i) {
      Mismatch(s, "RELEVEL", i, j);
    }
  }

  /** Names of the table that do not mention RELEVEL. */
  lemma NoRelevel0To5()
    ensures !Contains("INVALID", "RELEVEL")
    ensures !Contains("MOVE", "RELEVEL")
    ensures !Contains("ORIENT", "RELEVEL")
    ensures !Contains("SIT", "RELEVEL")
    ensures !Contains("PRE_SIT", "RELEVEL")
    ensures !Contains("REMOVE_BACKLASH", "RELEVEL")
  {
    LacksColumn("INVALID", 0, 'R');
    LacksColumn("PRE_SIT", 4, 'V');
    var s5 := "REMOVE_BACKLASH";
    forall i | 0 <= i <= |s5| - 7 ensures !ContainsAt(s5, "RELEVEL", i) {
      if i == 0 { Mismatch(s5, "RELEVEL", i, 2); } else { Mismatch(s5, "RELEVEL", i, 0); }
    }
  }

  /** Names of the table that do not mention RELEVEL. */
  lemma NoRelevel8To13()
    ensures !Contains("PARK_AT_CHANNEL", "RELEVEL")
    ensures !Contains("PARK_AT_TOTE", "RELEVEL")
    ensures !Contains("PARK_AT_FINE_POSITION", "RELEVEL")
    ensures !Contains("PARK_AT_DOWN_SLOPE", "RELEVEL")
    ensures !Contains("ENGAGE", "RELEVEL")
    ensures !Contains("PREPARE_FOR_ENGAGE", "RELEVEL")
  {
    LacksColumn("PARK_AT_CHANNEL", 4, 'V');
    LacksColumn("PARK_AT_TOTE", 4, 'V');
    LacksColumn("PARK_AT_FINE_POSITION", 4, 'V');
    LacksColumn("PARK_AT_DOWN_SLOPE", 4, 'V');
    LacksColumn("PREPARE_FOR_ENGAGE", 4, 'V');
  }

  /** Names of the table that do not mention RELEVEL. */
  lemma NoRelevel14To18()
    ensures !Contains("DESERVO_DRIVE_MOTORS", "RELEVEL")
    ensures !Contains("ABORT", "RELEVEL")
    ensures !Contains("DISABLE_BRIDGE_APPLY_BRAKES", "RELEVEL")
    ensures !Contains("INIT", "RELEVEL")
    ensures !Contains("KILL", "RELEVEL")
  {
    LacksColumn("DESERVO_DRIVE_MOTORS", 2, 'L');
    LacksColumn("DISABLE_BRIDGE_APPLY_BRAKES", 4, 'V');
  }

  /** Names of the table that do not mention RELEVEL. */
  lemma NoRelevel19To22()
    ensures !Contains("MOVE_SUPER_S_CURVE_FORWARD", "RELEVEL")
    ensures !Contains("MOVE_SUPER_S_CURVE_REVERSE", "RELEVEL")
    ensures !Contains("JOG_ANGULAR", "RELEVEL")
    ensures !Contains("HORIZONTAL_MODE", "RELEVEL")
  {
    LacksColumn("MOVE_SUPER_S_CURVE_FORWARD", 2, 'L');
    LacksColumn("MOVE_SUPER_S_CURVE_REVERSE", 2, 'L');
    LacksColumn("JOG_ANGULAR", 4, 'V');
    LacksColumn("HORIZONTAL_MODE", 4, 'V');
  }

  /** Names of the table that do not mention RELEVEL. */
  lemma NoRelevel23To27()
    ensures !Contains("VERTICAL_MODE", "RELEVEL")
    ensures !Contains("ROTATE_PINION_MODE", "RELEVEL")
    ensures !Contains("MOVE_ON_PITCHED_DOWNSLOPE", "RELEVEL")
    ensures !Contains("MOVE_ON_PITCHED_UPSLOPE", "RELEVEL")
    ensures !Contains("MAX_MANEUVER", "RELEVEL")
  {
    var s23 := "VERTICAL_MODE";
    forall i | 0 <= i <= |s23| - 7 ensures !ContainsAt(s23, "RELEVEL", i) {
      if i == 2 { Mismatch(s23, "RELEVEL", i, 2); } else { Mismatch(s23, "RELEVEL", i, 0); }
    }
    LacksColumn("ROTATE_PINION_MODE", 4, 'V');
    LacksColumn("MOVE_ON_PITCHED_DOWNSLOPE", 0, 'R');
    LacksColumn("MOVE_ON_PITCHED_UPSLOPE", 0, 'R');
    LacksColumn("MAX_MANEUVER", 2, 'L');
  }
  /** The two names that do. */
  lemma Relevel6To7()
    ensures Contains(DmcState[6], "RELEVEL") && Contains(DmcState[7], "RELEVEL")
  {
    ContainsInMiddle("", "RELEVEL", "_UP");
    assert "" + "RELEVEL" + "_UP" == DmcState[6];
    ContainsInMiddle("", "RELEVEL", "_DOWN");
    assert "" + "RELEVEL" + "_DOWN" == DmcState[7];
  }
  /** Of the 28 names, exactly `RELEVEL_UP` (6) and `RELEVEL_DOWN` (7) mention RELEVEL. */
  lemma RelevelNames(k: int)
    requires 0 <= k < |DmcState|
    ensures Contains(DmcState[k], "RELEVEL") <==> k == 6 || k == 7
  {
    if k < 5 { NoRelevel0To5(); }
    else if k == 5 { NoRelevel0To5(); }
    else if k < 8 { Relevel6To7(); }
    else if k < 14 { NoRelevel8To13(); }
    else if k < 19 { NoRelevel14To18(); }
    else if k < 23 { NoRelevel19To22(); }
    else { NoRelevel23To27(); }
  }

  /** A state the table names is a relevel state exactly when its label mentions RELEVEL,
      and the label is then `RELEVEL_UP` or `RELEVEL_DOWN`; with Python's negative
      indexing, -22 and -21 name them too. */
  lemma RelevelLabel(state: int)
    requires -|DmcState| <= state < |DmcState|
    ensures var name := Label(DmcState, state).value;
      && (Contains(name, "RELEVEL") <==> state == 6 || state == 7 || state == -22 || state == -21)
      && (Contains(name, "RELEVEL") <==> name == "RELEVEL_UP" || name == "RELEVEL_DOWN")
  {
    var k := if state >= 0 then state else |DmcState| + state;
    assert Label(DmcState, state).value == DmcState[k];
    RelevelNames(k);
    Relevel6To7();
  }

  /** On the windows of a series the table labels, the filter keeps exactly the
      `RELEVEL_UP` and `RELEVEL_DOWN` windows. */
  lemma RelevelWindows(series: seq<Sample>)
    requires LabelAll(DmcState, Runs(series)).Success?
    ensures var windows := LabelAll(DmcState, Runs(series)).value;
      forall w :: w in RelevelEvents(windows) <==>
        w in windows && (w.maneuverLabel == "RELEVEL_UP" || w.maneuverLabel == "RELEVEL_DOWN")
  {
    var runs := Runs(series);
    var windows := LabelAll(DmcState, runs).value;
    LabelAllPointwise(DmcState, runs);
    forall w | w in windows
      ensures Contains(w.maneuverLabel, "RELEVEL") <==> w.maneuverLabel == "RELEVEL_UP" || w.maneuverLabel == "RELEVEL_DOWN"
    {
      var k :| 0 <= k < |windows| && windows[k] == w;
      RelevelLabel(runs[k].state);
    }
  }

  /** The part of `DMCAnalysis` the windows need: its table of maneuver names. */
  class DMCAnalysis {
    const dmcState: seq<string>

    constructor ()
      ensures dmcState == DmcState
    {
      dmcState := DmcState;
    }

    /** `extract_state_windows`: walks the series once, closing a window at each change of state. */
    method ExtractStateWindows(series: seq<Sample>) returns (r: Result<seq<Window>, LabelError>)
      ensures r == LabelAll(dmcState, Runs(series))
    {
      var windows: seq<Window> := [];
      var started := false;
      var currentState := 0;
      var startTime := 0;
      var time := 0;
      ghost var closed: seq<Run> := [];
      var i := 0;
      while i < |series|
        invariant 0 <= i <= |series|
        invariant started <==> i > 0
        invariant !started ==> windows == [] && closed == []
        invariant started ==> Runs(series[..i]) == closed + [Run(currentState, startTime, time)]
        invariant started ==> LabelAll(dmcState, closed) == Success(windows)
      {
        var sample := series[i];
        if !started {
          assert series[..i + 1] == [sample];
          currentState := sample.state;
          startTime := sample.time;
          started := true;
          assert Runs(series[..i + 1]) == [] + [Run(currentState, startTime, sample.time)];
        } else {
          RunsStep(series, i, closed, Run(currentState, startTime, time));
          if sample.state != currentState {
            var closing := Run(currentState, startTime, sample.time);
            LabelAllSnoc(dmcState, closed, closing);
            var name := Label(dmcState, currentState);
            if name.Failure? {
              ClosedFailure(dmcState, series, i + 1, closed + [closing], Run(sample.state, sample.time, sample.time));
              return Failure(IndexError);
            }
            windows := windows + [Window(name.value, currentState, startTime, sample.time)];
            closed := closed + [closing];
            currentState := sample.state;
            startTime := sample.time;
            assert Runs(series[..i + 1]) == closed + [Run(currentState, startTime, sample.time)];
          } else {
            assert Runs(series[..i + 1]) == closed + [Run(currentState, startTime, sample.time)];
          }
        }
        time := sample.time;
        i := i + 1;
      }
      assert series[..i] == series;
      if started {
        LabelAllSnoc(dmcState, closed, Run(currentState, startTime, time));
        var name := Label(dmcState, currentState);
        if name.Failure? {
          return Failure(IndexError);
        }
        windows := windows + [Window(name.value, currentState, startTime, time)];
      }
      r := Success(windows);
    }
  }
}
