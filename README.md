# Log processors of the Alphabot ETL flows, in Dafny

This project models the log-processing core of the Prefect/MinIO/Mongo ETL
flows that collect Alphabot robot logs and proves properties of that model.
The flows are the plumbing around this core.

- **The logfisher correlator** is `parse_alphabot_summary`. It makes a single
  pass over a bot log and pairs each move request with its completion by
  `(cmd_id, uuid)`. Tote, fault and safety-change lines are formatted at once.
  Every stored request is then emitted with its resolved status.
- **The controller-message summary** is `parse_vizier_summary`. It
  de-duplicates on (timestamp to the second, packet id, message type). It
  appends telemetry labels decoded by `get_telemetry` from the fixed
  `TELEMETRY_MAP`.
- **The snapstat fingerprint matcher** has three layers:
  - `sliding_window` and `process_log_file` do greedy in-order matching inside
    each window, apply the action result and build `file:line:col` locators;
  - `analyze_log_for_sequence` and `transform_data` combine the results over
    the six-entry fingerprint catalog;
  - the per-file filter applies to the fingerprint with `filter_actions`.
- **The readers of the correlator's summary** read move lines
  (`<date> <time> <src> -> <dest> | <status>`) into move entries and store
  fatal faults with the last ten lines:
  - the `SummaryParser` classes of the move-event flow, the template and
    `temp/all.py`;
  - the two `summary_to_json` scripts;
  - `extract_fatals_from_summary`.
- **The maneuver windows of the controls report** come from
  `DMCAnalysis.extract_state_windows`, which cuts a series of DMC states into
  windows of constant state. The relevel filter then keeps the windows whose
  label mentions RELEVEL.
- **The collector's prescan** is `process_file_with_fatal_fault`. It reads
  header fields from the top 25 lines and the code of the first fatal line.
- **The datalog converter** has two parts:
  - `convert` reads the `datalogkey` line, then the base64 data lines of the
    rotated files, in order;
  - `convert_all_datalogs_to_csv` selects the data logs of a directory
    listing and deletes the data files.

Each core file has its own module.

| module | models |
|---|---|
| `AlphabotSummary` | the correlator, in alphabot_summary.dfy |
| `VizierSummary` | the controller-message summary, in vizier_summary.dfy |
| `Telemetry` | `config.py`'s tables and decoder |
| `FingerprintMatcher` | snapstat_fingerprints_flow.py |
| `Fingerprints` | fingerprints.py |
| `MoveLines` | what the summary readers share |
| `MoveEventFlow` | move_event_flow.py |
| `TemplateSummaryParser` | templates/summary_parser.py |
| `TempAll` | temp/all.py |
| `SummaryToJsonV2` | summary_to_json_v2.py |
| `SummaryToJson` | summary_to_json.py |
| `ExtractFatals` | extract_fatals_from_summary.py |
| `Relevel` | relevel_analysis.py |
| `Prescan` | prescan.py |
| `DataToCsvs` | data_to_csvs.py |
| `RoundTrip` | the correlator's move lines read back by the readers |

Three shared modules support them:

- `Text` holds the Python `str` operations the code relies on, over
  `seq<char>`;
- `Collections` holds order-keeping de-duplication;
- `Wrappers` holds `Option` and `Result`.

Loops that update state in the source are methods with loop invariants. Each
is proved equal to a recursive specification function, and the properties are
lemmas about those functions. The `SummaryParser` and `DMCAnalysis` objects
are classes whose methods update their fields.

Regular expressions are not modelled as regular expressions. Each pattern is a
caller-supplied function from a line to its captured groups (or to the start
of its match), and the first-match-wins order of the tests is explicit.

Python exceptions that escape are `Result`/`Option` error values, or the
`err`/`failed` outputs of the methods:
- the `IndexError` of `parts[4]`, `split()[3]` and a list lookup;
- the `ValueError` of `int(...)`.

Python's negative list indexing is modelled where the code indexes with a
value it read: `TYPEKEY[int(v)]` and `dmc_state[state]`.

Behaviour of the code worth noting:

- `parse_alphabot_summary` does not sort its output. The immediate lines come
  first in input order, then the move lines in first-request order. Sorting
  happens in its callers.
- An action callback that raises is not isolated per fingerprint. Such a
  callback is outside this model, since actions are total functions here.
- An action that returns the empty string keeps the window and records "" as
  "Action Matched".
- The move line pads source and destination to 17 characters.
- In move_event_flow.py the "Tower-to-Deck Move" branch repeats the
  rack-to-deck test (lines 29 and 31), so it can never be taken. The model
  keeps that behaviour, and
  `MoveEventFlow.DiffersFromTemplateOnlyOnTowerToDeck` pins it down against
  the template reader.

## Model

Source paths are relative to the repository root.

| member | source | states |
|---|---|---|
| AlphabotSummary.Classify | backend/flows/command/logfisher_summarize/logfisher_summary_flow/parse_logs.py:61-102 | a line's kind is that of the first pattern, in the order request, completion, tote, fault, SPLC, that matches it (one iff per kind); a request or completion carries the groups of that match |
| AlphabotSummary.FaultDescription | backend/flows/command/logfisher_summarize/logfisher_summary_flow/parse_logs.py:93 | a known fault code gives its description; an unknown code gives "Fault description was not found" and is never an error |
| AlphabotSummary.Scan | backend/flows/command/logfisher_summarize/logfisher_summary_flow/parse_logs.py:55-102 | after the pass the request dict's key order lists every stored key exactly once and no other key |
| AlphabotSummary.MoveStatus | backend/flows/command/logfisher_summarize/logfisher_summary_flow/parse_logs.py:105-110 | cmd_id "0" gives "Bot Initializing" whatever completions exist; otherwise the completion status when there is one, else "Move Blended or only received ACK" |
| AlphabotSummary.MoveLines | backend/flows/command/logfisher_summarize/logfisher_summary_flow/parse_logs.py:104-114 | one move line per key resolved |
| AlphabotSummary.ScanLine | backend/flows/command/logfisher_summarize/logfisher_summary_flow/parse_logs.py:62-102 | the loop body applies exactly the effect of the line's first matching pattern |
| AlphabotSummary.Step | backend/flows/command/logfisher_summarize/logfisher_summary_flow/parse_logs.py:62-102 | defines the effect of one classified line on the request, completion and output state; ScanLine is proved to perform it and the Scan*/…Survives/…Wins lemmas state what it keeps |
| AlphabotSummary.ResolveMoves | backend/flows/command/logfisher_summarize/logfisher_summary_flow/parse_logs.py:104-114 | the resolution loop appends, after the emitted lines, one move line per stored key in insertion order |
| AlphabotSummary.ParseAlphabotSummary | backend/flows/command/logfisher_summarize/logfisher_summary_flow/parse_logs.py:54-116 | the imperative pass plus resolution returns exactly the summary value on which the lemmas below are proved |
| AlphabotSummary.Summary | backend/flows/command/logfisher_summarize/logfisher_summary_flow/parse_logs.py:54-116 | defines the summary value: immediate lines in input order, then one move line per key in first-request order (SummaryLength, ImmediateLinesFirst, SummaryHasMoveLine, EmissionOrder) |
| AlphabotSummary.GenerateSummaryForSingleFile | backend/flows/command/logfisher_summarize/logfisher_summary_flow/parse_logs.py:156-163 | the single-file summary is the correlator's output for that file with the fault table |
| AlphabotSummary.ScanLineCount | backend/flows/command/logfisher_summarize/logfisher_summary_flow/parse_logs.py:83-102 | the pass emits exactly one line per tote, fault or SPLC line |
| AlphabotSummary.ScanRequestKeys | backend/flows/command/logfisher_summarize/logfisher_summary_flow/parse_logs.py:62-71 | the request dict holds exactly the keys of the move-request lines |
| AlphabotSummary.ScanCompleteKeys | backend/flows/command/logfisher_summarize/logfisher_summary_flow/parse_logs.py:73-81 | the completion dict holds exactly the keys of the move-complete lines |
| AlphabotSummary.SummaryLength | backend/flows/command/logfisher_summarize/logfisher_summary_flow/parse_logs.py:54-116 | output length = number of tote, fault and SPLC lines + number of distinct request keys |
| AlphabotSummary.ImmediateLinesFirst | backend/flows/command/logfisher_summarize/logfisher_summary_flow/parse_logs.py:83-116 | the output is unsorted: it begins with the immediate lines in input order |
| AlphabotSummary.RequestSurvives | backend/flows/command/logfisher_summarize/logfisher_summary_flow/parse_logs.py:64-70 | a stored request keeps its timestamp, src and dest until a later request with the same key |
| AlphabotSummary.LastRequestWins | backend/flows/command/logfisher_summarize/logfisher_summary_flow/parse_logs.py:64-70 | the last request with a key decides its stored timestamp, src and dest |
| AlphabotSummary.CompletionSurvives | backend/flows/command/logfisher_summarize/logfisher_summary_flow/parse_logs.py:75-80 | a stored completion status stays until a later completion with the same key |
| AlphabotSummary.LastCompletionWins | backend/flows/command/logfisher_summarize/logfisher_summary_flow/parse_logs.py:75-80 | the last completion with a key decides its status |
| AlphabotSummary.MoveLinesHas | backend/flows/command/logfisher_summarize/logfisher_summary_flow/parse_logs.py:111-113 | move line t is the formatted stored move of key t with that key's resolved status |
| AlphabotSummary.SummaryHasMoveLine | backend/flows/command/logfisher_summarize/logfisher_summary_flow/parse_logs.py:104-116 | every stored request appears in the output as its move line with its resolved status |
| AlphabotSummary.ResolvedHasMoveLine | backend/flows/command/logfisher_summarize/logfisher_summary_flow/parse_logs.py:104-114 | resolution emits a move line for every stored key |
| AlphabotSummary.CompletedRequestResolved | backend/flows/command/logfisher_summarize/logfisher_summary_flow/parse_logs.py:73-81 | a completed request (cmd_id not "0") is emitted with the last request's fields and the last completion's status, even when the completion precedes the request |
| AlphabotSummary.UncompletedRequestDefault | backend/flows/command/logfisher_summarize/logfisher_summary_flow/parse_logs.py:108-110 | a request never completed is emitted with "Move Blended or only received ACK" |
| AlphabotSummary.InitializingRequest | backend/flows/command/logfisher_summarize/logfisher_summary_flow/parse_logs.py:105-106 | a request with cmd_id "0" is emitted as "Bot Initializing", completed or not |
| AlphabotSummary.RequestKeySequence | backend/flows/command/logfisher_summarize/logfisher_summary_flow/parse_logs.py:64-66 | the request keys in input order hold exactly the keys of the request lines |
| AlphabotSummary.EmissionOrder | backend/flows/command/logfisher_summarize/logfisher_summary_flow/parse_logs.py:104 | move lines come out in the order in which their keys were first requested; overwriting keeps a key's position |
| AlphabotSummary.RequestThenCompletionExample | backend/flows/command/logfisher_summarize/logfisher_summary_flow/parse_logs.py:62-116 | a request followed by its completion gives exactly one padded move line with the completion status |
| AlphabotSummary.ExampleMoveLine | backend/flows/command/logfisher_summarize/logfisher_summary_flow/parse_logs.py:113 | the move line format pads src and dest to 17 characters |
| AlphabotSummary.MoveLine | backend/flows/command/logfisher_summarize/logfisher_summary_flow/parse_logs.py:113 | defines the move line f-string with src and dest left-justified to 17; RoundTrip.MoveLineRoundTrip reads its fields back |
| VizierSummary.KeyOf | backend/flows/command/logfisher_summarize/logfisher_summary_flow/parse_logs.py:134 | the de-duplication key uses the timestamp up to its first "." (the whole timestamp if it has none), the packet id and the message type |
| VizierSummary.TelemetrySuffix | backend/flows/command/logfisher_summarize/logfisher_summary_flow/parse_logs.py:140-143 | telemetry is appended only for an allow-listed message type whose line matches the telemetry pattern, and then as the decoded labels or the decoding error |
| VizierSummary.FormatLine | backend/flows/command/logfisher_summarize/logfisher_summary_flow/parse_logs.py:145-153 | the long form ("\| DIR:") when the message table has the code, the short form ("\| MSG TYPE:") otherwise; both start with the timestamp and padded packet id and end with the telemetry text |
| VizierSummary.ComputeSuffix | backend/flows/command/logfisher_summarize/logfisher_summary_flow/parse_logs.py:140-143 | computes the telemetry text, or the error raised while decoding it |
| VizierSummary.ParseVizierSummary | backend/flows/command/logfisher_summarize/logfisher_summary_flow/parse_logs.py:119-154 | the imperative pass returns exactly the summary value (or the decoding error) |
| VizierSummary.VizierStep | backend/flows/command/logfisher_summarize/logfisher_summary_flow/parse_logs.py:126-153 | defines the effect of one line: skip a seen key before decoding, else record the key and append its formatted line or fail with the decode error (DuplicateSkipped, FirstOccurrenceEmitted) |
| VizierSummary.VizierScan | backend/flows/command/logfisher_summarize/logfisher_summary_flow/parse_logs.py:119-154 | defines the pass over the log, the first decode error aborting it (ScanFailurePersists, OneLinePerKey, NoTelemetryNoFailure) |
| VizierSummary.ScanFailurePersists | backend/flows/command/logfisher_summarize/logfisher_summary_flow/parse_logs.py:143 | an error raised by get_telemetry on some line aborts the whole file |
| VizierSummary.OneLinePerKey | backend/flows/command/logfisher_summarize/logfisher_summary_flow/parse_logs.py:134-138 | on success the seen set is exactly the set of matched keys, and there is exactly one output line per distinct key |
| VizierSummary.DuplicateSkipped | backend/flows/command/logfisher_summarize/logfisher_summary_flow/parse_logs.py:135-136 | a later line with an already seen key changes nothing; its telemetry is never decoded |
| VizierSummary.FirstOccurrenceEmitted | backend/flows/command/logfisher_summarize/logfisher_summary_flow/parse_logs.py:137-153 | the first line with a new key appends its formatted line |
| VizierSummary.NoTelemetryNoFailure | backend/flows/command/logfisher_summarize/logfisher_summary_flow/parse_logs.py:140-143 | a file with no telemetry block cannot fail |
| Telemetry.TableShapes | backend/flows/command/logfisher_summarize/logfisher_summary_flow/config.py:42-62 | TELEMETRY_MAP is 8 rows of 4 labels; VIZIER_TELEMETRY_FUNCTIONS holds 8 lower-case "xx yy" codes |
| Telemetry.Nibble | backend/flows/command/logfisher_summarize/logfisher_summary_flow/config.py:123 | a token shorter than 2 raises IndexError, a non-hex second character raises ValueError, otherwise the result is the hex value (< 16) of the second character |
| Telemetry.Nibbles | backend/flows/command/logfisher_summarize/logfisher_summary_flow/config.py:123 | on success, one value below 16 per token |
| Telemetry.BitLabels | backend/flows/command/logfisher_summarize/logfisher_summary_flow/config.py:125-132 | a byte lights at most 4 labels; 15 lights the whole row in order, 0 lights none |
| Telemetry.BitLabelsCount | backend/flows/command/logfisher_summarize/logfisher_summary_flow/config.py:125-132 | a nibble lights exactly as many labels as it has binary ones |
| Telemetry.Decoded | backend/flows/command/logfisher_summarize/logfisher_summary_flow/config.py:124-132 | k bytes light at most 4k labels |
| Telemetry.NibblesFailurePersists | backend/flows/command/logfisher_summarize/logfisher_summary_flow/config.py:123 | the first failing token decides the error of the whole comprehension |
| Telemetry.DecodeNibbles | backend/flows/command/logfisher_summarize/logfisher_summary_flow/config.py:123 | the loop computes the comprehension's values or its first error |
| Telemetry.AppendBitLabels | backend/flows/command/logfisher_summarize/logfisher_summary_flow/config.py:125-132 | the four bit tests append the byte's labels to telem |
| Telemetry.GetTelemetry | backend/flows/command/logfisher_summarize/logfisher_summary_flow/config.py:120-133 | get_telemetry returns the decoded labels of the block (at most 32), or the error it raises |
| Telemetry.TelemetryOf | backend/flows/command/logfisher_summarize/logfisher_summary_flow/config.py:120-133 | defines get_telemetry as a value: every token decoded, then at most eight bytes read against the label table (TelemetryBound, DecodedPrefix, BytesAfterEighthIgnored) |
| Telemetry.TelemetryBound | backend/flows/command/logfisher_summarize/logfisher_summary_flow/config.py:124 | at most 4 labels per byte, and at most 8 bytes are read because zip stops at the table's end |
| Telemetry.AllLabelsShape | backend/flows/command/logfisher_summarize/logfisher_summary_flow/config.py:42-51 | the table has 32 labels row-major; labels 24..27 are the four "RESERVED" |
| Telemetry.NibblesSecondCharOnly | backend/flows/command/logfisher_summarize/logfisher_summary_flow/config.py:123 | tokens that agree on length-at-least-2 and second character decode alike |
| Telemetry.OnlySecondCharacterMatters | backend/flows/command/logfisher_summarize/logfisher_summary_flow/config.py:120-133 | two blocks whose tokens agree on their second characters give the same result |
| Telemetry.NibblesOfUniform | backend/flows/command/logfisher_summarize/logfisher_summary_flow/config.py:123 | tokens sharing a hex second character decode to that value each |
| Telemetry.DecodedAllSet | backend/flows/command/logfisher_summarize/logfisher_summary_flow/config.py:124-132 | all-ones bytes light the first k rows, row-major |
| Telemetry.AllBitsSet | backend/flows/command/logfisher_summarize/logfisher_summary_flow/config.py:120-133 | eight tokens with second character F (such as "3F") give all 32 labels in table order, including the four "RESERVED" |
| Telemetry.DecodedZero | backend/flows/command/logfisher_summarize/logfisher_summary_flow/config.py:124-132 | zero bytes light nothing |
| Telemetry.NoBitsSet | backend/flows/command/logfisher_summarize/logfisher_summary_flow/config.py:120-133 | tokens with second character 0 (such as "30") give the empty list |
| Telemetry.DecodedPrefix | backend/flows/command/logfisher_summarize/logfisher_summary_flow/config.py:124 | bytes after the first k do not affect the labels of the first k |
| Telemetry.BytesAfterEighthIgnored | backend/flows/command/logfisher_summarize/logfisher_summary_flow/config.py:124 | bytes after the eighth add no labels |
| Telemetry.BadDigitRaises | backend/flows/command/logfisher_summarize/logfisher_summary_flow/config.py:123 | a token whose second character is not a hex digit makes the whole decode raise |
| FingerprintMatcher.WindowsShape | backend/flows/snapstat_fingerprints/snapstat/snapstat_fingerprints_flow.py:33-40 | for n ≥ 1 there are max(0, len−n+1) windows and window k is lines[k..k+n]; for n = 0 a leading empty window, then window k + 1 holds exactly line k |
| FingerprintMatcher.SlidingWindow | backend/flows/snapstat_fingerprints/snapstat/snapstat_fingerprints_flow.py:33-40 | the generator's loop yields exactly those windows |
| FingerprintMatcher.Windows | backend/flows/snapstat_fingerprints/snapstat/snapstat_fingerprints_flow.py:33-40 | defines the windows the generator yields, including the leading empty window for n = 0 (WindowsShape) |
| FingerprintMatcher.GreedyMatch | backend/flows/snapstat_fingerprints/snapstat/snapstat_fingerprints_flow.py:59-76 | at most one hit per remaining pattern, all within the window from the start line on |
| FingerprintMatcher.GreedyHits | backend/flows/snapstat_fingerprints/snapstat/snapstat_fingerprints_flow.py:59-76 | hit k matches pattern k on strictly increasing lines: a line serves at most one pattern, and pattern j+1 is searched only after pattern j's line |
| FingerprintMatcher.GreedyCompleteIsEmbedding | backend/flows/snapstat_fingerprints/snapstat/snapstat_fingerprints_flow.py:59-79 | a complete greedy search gives an in-order embedding of the patterns in the window |
| FingerprintMatcher.EmbeddingMakesGreedyComplete | backend/flows/snapstat_fingerprints/snapstat/snapstat_fingerprints_flow.py:59-79 | conversely, when any in-order embedding exists the greedy search completes, so a window completes exactly when the patterns occur in order |
| FingerprintMatcher.Records | backend/flows/snapstat_fingerprints/snapstat/snapstat_fingerprints_flow.py:69-75 | one record per hit, naming the pattern matched and the window's action result |
| FingerprintMatcher.GreedyStep | backend/flows/snapstat_fingerprints/snapstat/snapstat_fingerprints_flow.py:63-76 | a line matching the current pattern is a hit and moves on to the next pattern; otherwise the same pattern is tried on the next line |
| FingerprintMatcher.WindowOutcome | backend/flows/snapstat_fingerprints/snapstat/snapstat_fingerprints_flow.py:79-96 | a counted window contributes exactly K records |
| FingerprintMatcher.ActionDecidesWindow | backend/flows/snapstat_fingerprints/snapstat/snapstat_fingerprints_flow.py:56-94 | an incomplete window is dropped; in a complete one True gives "Yes", a str (even "") is used as it is, None or another value leaves "No", False drops the window |
| FingerprintMatcher.ProcessWindows | backend/flows/snapstat_fingerprints/snapstat/snapstat_fingerprints_flow.py:53-99 | records = K × sequence_count, and the count never exceeds the number of windows |
| FingerprintMatcher.GreedyAdvance | backend/flows/snapstat_fingerprints/snapstat/snapstat_fingerprints_flow.py:59-76 | one inner-loop step against the whole greedy result: a match appends that hit's record |
| FingerprintMatcher.MatchWindow | backend/flows/snapstat_fingerprints/snapstat/snapstat_fingerprints_flow.py:54-76 | the inner loop finds exactly the greedy hits and builds their records with "No" |
| FingerprintMatcher.Relabel | backend/flows/snapstat_fingerprints/snapstat/snapstat_fingerprints_flow.py:93-94 | every record of the window gets the action result and nothing else changes |
| FingerprintMatcher.RelabelRecords | backend/flows/snapstat_fingerprints/snapstat/snapstat_fingerprints_flow.py:93-94 | relabelling "No" records yields the records built with the action result |
| FingerprintMatcher.ProcessWindow | backend/flows/snapstat_fingerprints/snapstat/snapstat_fingerprints_flow.py:54-96 | the window loop body yields the window's outcome |
| FingerprintMatcher.ProcessWindowsStep | backend/flows/snapstat_fingerprints/snapstat/snapstat_fingerprints_flow.py:53-97 | a dropped window leaves data and count; a kept one extends data by its records and adds 1 |
| FingerprintMatcher.ProcessLogFile | backend/flows/snapstat_fingerprints/snapstat/snapstat_fingerprints_flow.py:42-99 | process_log_file returns exactly the specified records and count, with len(data) = K × count |
| FingerprintMatcher.Process | backend/flows/snapstat_fingerprints/snapstat/snapstat_fingerprints_flow.py:42-99 | defines process_log_file as a value: the windows processed in order, records and count (ProcessWindows, CountAtMostCompleteWindows, LinkIsLineNumber) |
| FingerprintMatcher.LinkIsLineNumber | backend/flows/snapstat_fingerprints/snapstat/snapstat_fingerprints_flow.py:53-75 | for windows of at least one line, hit h of window k lies on line k + 1 + (its line in the window) of the file, 1-based, which is the window's line, and pattern h matches it at the recorded start |
| FingerprintMatcher.ZeroWindowShiftsLinks | backend/flows/snapstat_fingerprints/snapstat/snapstat_fingerprints_flow.py:35-40 | with window 0 the leading empty window shifts every locator one line down |
| FingerprintMatcher.AllFalseDropsEverything | backend/flows/snapstat_fingerprints/snapstat/snapstat_fingerprints_flow.py:89-90 | an action that always returns False yields no records and a zero count |
| FingerprintMatcher.NoActionCountsEveryCompleteWindow | backend/flows/snapstat_fingerprints/snapstat/snapstat_fingerprints_flow.py:79-97 | without an action the count is the number of complete windows, and every record says "No" |
| FingerprintMatcher.CountAtMostCompleteWindows | backend/flows/snapstat_fingerprints/snapstat/snapstat_fingerprints_flow.py:79-97 | the count never exceeds the number of complete windows |
| FingerprintMatcher.EffectiveWindow | backend/flows/snapstat_fingerprints/snapstat/snapstat_fingerprints_flow.py:104 | the window is the sequence's own, or the number of patterns when it has none |
| FingerprintMatcher.AnalyzeLogForSequence | backend/flows/snapstat_fingerprints/snapstat/snapstat_fingerprints_flow.py:102-116 | computes both de-duplicated tables for one sequence |
| FingerprintMatcher.Analyze | backend/flows/snapstat_fingerprints/snapstat/snapstat_fingerprints_flow.py:102-116 | defines both de-duplicated tables of one sequence, with a summary row only when records were kept (AnalyzeSummary) |
| FingerprintMatcher.AnalyzeSummary | backend/flows/snapstat_fingerprints/snapstat/snapstat_fingerprints_flow.py:108-116 | a summary row exists exactly when records were kept, and it carries the file and its count |
| FingerprintMatcher.Tag | backend/flows/snapstat_fingerprints/snapstat/snapstat_fingerprints_flow.py:137-138 | every row is tagged with the fingerprint name, and nothing else changes |
| FingerprintMatcher.KeepActed | backend/flows/snapstat_fingerprints/snapstat/snapstat_fingerprints_flow.py:134 | a row is kept iff it is a row whose Action Matched is not "No" |
| FingerprintMatcher.KeepActedInOrder | backend/flows/snapstat_fingerprints/snapstat/snapstat_fingerprints_flow.py:134 | the kept rows are the input read at the strictly increasing indices of all rows whose Action Matched is not "No": table order is kept |
| FingerprintMatcher.FirstPerFile | backend/flows/snapstat_fingerprints/snapstat/snapstat_fingerprints_flow.py:135 | the kept rows come from the input, name pairwise different files, and cover every file of the input |
| FingerprintMatcher.FirstPerFileInOrder | backend/flows/snapstat_fingerprints/snapstat/snapstat_fingerprints_flow.py:135 | the kept rows are the input read at the strictly increasing indices of exactly those rows whose file no earlier row names: each file keeps its first row, in table order |
| FingerprintMatcher.OneFileOneRow | backend/flows/snapstat_fingerprints/snapstat/snapstat_fingerprints_flow.py:135 | rows that all name one file keep exactly the first of them (nothing when there are none) |
| FingerprintMatcher.FirstActedOfOneFile | backend/flows/snapstat_fingerprints/snapstat/snapstat_fingerprints_flow.py:133-135 | filtering the records of one file leaves exactly its first record whose Action Matched is not "No", or nothing when every record says "No" |
| FingerprintMatcher.TransformData | backend/flows/snapstat_fingerprints/snapstat/snapstat_fingerprints_flow.py:125-146 | runs every catalog sequence in order, then concatenates and de-duplicates both tables |
| FingerprintMatcher.Transform | backend/flows/snapstat_fingerprints/snapstat/snapstat_fingerprints_flow.py:125-146 | defines transform_data as a value: every catalog sequence in order, filtered where asked, concatenated and de-duplicated (FilterKeepsAtMostOneRow, FilterKeepsSummary) |
| FingerprintMatcher.RecordsNameTheirFile | backend/flows/snapstat_fingerprints/snapstat/snapstat_fingerprints_flow.py:70 | every record of a file names that file |
| FingerprintMatcher.RecordsOfFile | backend/flows/snapstat_fingerprints/snapstat/snapstat_fingerprints_flow.py:69-75 | every record built for a window names the window's file |
| FingerprintMatcher.FilterKeepsAtMostOneRow | backend/flows/snapstat_fingerprints/snapstat/snapstat_fingerprints_flow.py:133-135 | with filter_actions, a sequence contributes exactly its first record whose Action Matched is not "No", tagged with the sequence's name, and nothing when every record says "No" |
| FingerprintMatcher.FilterKeepsSummary | backend/flows/snapstat_fingerprints/snapstat/snapstat_fingerprints_flow.py:133-137 | the filter does not change the summary count |
| Fingerprints.NewSequence | backend/flows/snapstat_fingerprints/snapstat/fingerprints.py:9 | action and filter_actions default to None; name, patterns and window are as given |
| Fingerprints.Catalog | backend/flows/snapstat_fingerprints/snapstat/fingerprints.py:11-61 | six sequences with distinct names, windows positive and at least the pattern count; only IMU_impact_detected filters; FMON0 before FAPR0 and IMU before FAPR0; the first two differ only in name and action |
| Fingerprints.CatalogNamesAndWindows | backend/flows/snapstat_fingerprints/snapstat/fingerprints.py:11-61 | the names in order and windows 100, 100, 100, 20, 50, 50 |
| MoveLines.GetStatus | backend/flows/command/move_event_flow.py:42-43 | "Success" iff the text contains "Success", otherwise "Failure" |
| MoveLines.Area | backend/flows/command/move_event_flow.py:24-25 | the area is the text before the first ":" (the whole text without one) |
| MoveLines.Level | backend/flows/command/move_event_flow.py:73 | the level is the text after the last "." (the whole text without one) |
| MoveLines.Orientation | backend/flows/command/move_event_flow.py:73 | "Vertical" iff the levels of src and dest differ, else "Horizontal" |
| MoveLines.MoveTokens | backend/flows/command/move_event_flow.py:62-65 | succeeds iff the line has at least five words, and then gives word0 + " " + word1, word2 and word4 |
| MoveLines.StandardEntry | backend/flows/command/move_event_flow.py:61-75 | an entry iff five words, with timestamp/src/dest from the words, the status, the orientation and the move type |
| MoveLines.Moves | backend/flows/command/move_event_flow.py:60-75 | at most one entry per line |
| MoveLines.MovesFailurePersists | backend/flows/command/move_event_flow.py:62-65 | an IndexError on a move line ends the reading; later lines change nothing |
| MoveLines.ParseMoves | backend/flows/command/move_event_flow.py:60-75 | the loop yields exactly the specified entries and error flag |
| MoveLines.ArrowLines | backend/flows/command/move_event_flow.py:61 | the kept lines all contain "->", and every input line containing "->" is kept |
| MoveLines.MovesOfArrowLines | backend/flows/command/move_event_flow.py:60-75 | entry k comes from the k-th line containing "->"; the reading fails iff some such line raises, and stops at the first one |
| MoveLines.OneEntryPerArrowLine | backend/flows/command/move_event_flow.py:60-75 | without an error there is exactly one entry per "->" line |
| MoveLines.ArrowLinesFromLines | backend/flows/command/move_event_flow.py:61 | every kept line is an input line |
| MoveLines.LastN | backend/flows/command/move_event_flow.py:49-51 | the buffer holds min(len, n) elements |
| MoveLines.LastNIsSuffix | backend/flows/command/move_event_flow.py:49-51 | the buffer is the end of what was appended, in order |
| MoveLines.StripAll | backend/flows/command/move_event_flow.py:49 | one stripped line per line |
| MoveLines.StripAllAt | backend/flows/command/move_event_flow.py:49 | element i is line i, stripped |
| MoveLines.LastNLast | backend/flows/command/move_event_flow.py:49-51 | the buffer ends with the last element appended |
| MoveLines.LastNSnoc | backend/flows/command/move_event_flow.py:49-51 | append, then pop the oldest when the buffer is over its bound |
| MoveLines.ContextShape | backend/flows/command/move_event_flow.py:47-51 | the buffer holds 1 to 10 lines and ends with the current stripped line; with at most 10 lines read it holds them all |
| MoveLines.ContextSnoc | backend/flows/command/move_event_flow.py:49-51 | reading a line appends it stripped and drops the oldest once there are eleven |
| MoveLines.FatalFaultsStep | backend/flows/command/move_event_flow.py:48-55 | reading line i is one step of the trigger test, with the buffer moved on by one line |
| MoveLines.FailedReadingStops | backend/flows/command/move_event_flow.py:54 | after an IndexError, further lines change nothing |
| MoveLines.FatalFailurePersists | backend/flows/command/move_event_flow.py:54 | an error on a trigger line ends the reading |
| MoveLines.ScanFatalFaults | backend/flows/command/move_event_flow.py:47-55 | the buffer loop records exactly the specified faults and error flag |
| MoveLines.IsFatalTrigger | backend/flows/command/move_event_flow.py:53 | defines the trigger test: "[FAULT]" in the line and "fatal" in its lower-cased text (RecordedIffTriggered) |
| MoveLines.Context | backend/flows/command/move_event_flow.py:47-51 | defines the buffer after reading a prefix: its last ten lines, stripped (ContextShape, ContextSnoc) |
| MoveLines.FatalFaults | backend/flows/command/move_event_flow.py:45-55 | defines the faults recorded and the IndexError flag after reading a prefix (FatalFaultsStep, LatestTriggerStored, RecordedIffTriggered) |
| MoveLines.NoTriggerNoFaults | backend/flows/command/move_event_flow.py:53 | without a trigger line nothing is recorded and nothing raises |
| MoveLines.LatestTriggerStored | backend/flows/command/move_event_flow.py:53-55 | a trigger line with a fourth word stores a copy of the buffer ending with that line under that word, overwriting any earlier entry |
| MoveLines.ShortTriggerRaises | backend/flows/command/move_event_flow.py:54 | a trigger line of fewer than four words raises IndexError |
| MoveLines.RecordedCodesFromTriggers | backend/flows/command/move_event_flow.py:53-55 | every recorded code beyond the start is the fourth word of a trigger line ("[FAULT]" and case-insensitive "fatal") |
| MoveLines.RecordedIffTriggered | backend/flows/command/move_event_flow.py:53-55 | starting empty and without error, something is recorded iff some line is a trigger line |
| MoveEventFlow.GetMoveType | backend/flows/command/move_event_flow.py:23-40 | equal areas give Rack-to-Rack; only 1.4→1.2 gives Rack-to-Deck and only 1.4→1.3 gives Rack-to-Tower; otherwise Unknown, so Tower-to-Deck, Deck-to-Deck and Workstation never occur |
| MoveEventFlow.DiffersFromTemplateOnlyOnTowerToDeck | backend/flows/command/move_event_flow.py:29-32 | differs from the template's get_move_type exactly on 1.3→1.2, which it calls Unknown |
| MoveEventFlow.SummaryParser.constructor | backend/flows/command/move_event_flow.py:18-21 | keeps the summary and starts with no moves and no faults |
| MoveEventFlow.SummaryParser.ExtractFatalFaults | backend/flows/command/move_event_flow.py:45-55 | records into the existing dict exactly the fatal faults of the summary lines; data is unchanged |
| MoveEventFlow.SummaryParser.ParseSummary | backend/flows/command/move_event_flow.py:57-75 | data becomes exactly the moves of the summary (reset first, so independent of the old data); faults are unchanged |
| TemplateSummaryParser.GetMoveType | backend/flows/templates/summary_parser.py:10-27 | equal areas give Rack-to-Rack; 1.4→1.2 Rack-to-Deck, 1.3→1.2 Tower-to-Deck, 1.4→1.3 Rack-to-Tower (each iff); never Deck-to-Deck or Workstation; every other pair of differing areas, and only those, gives Unknown Move |
| TemplateSummaryParser.SummaryParser.constructor | backend/flows/templates/summary_parser.py:5-8 | keeps the path and starts with no moves and no faults |
| TemplateSummaryParser.SummaryParser.ExtractFatalFaults | backend/flows/templates/summary_parser.py:32-43 | records exactly the fatal faults of the file's lines into the existing dict; data is unchanged |
| TemplateSummaryParser.SummaryParser.ParseSummary | backend/flows/templates/summary_parser.py:45-64 | data becomes exactly the moves of the file's lines; faults are unchanged |
| TempAll.SummaryParser.constructor | backend/flows/command/move_event/temp/all.py:6-8 | keeps the path and starts with no moves |
| TempAll.SummaryParser.ParseSummary | backend/flows/command/move_event/temp/all.py:32-49 | appends the file's moves to the old data without resetting it, so a second call adds a second copy |
| TempAll.SummaryParser.SaveAsJson | backend/flows/command/move_event/temp/all.py:51-53 | the document is {"moves": data}, in parse order |
| SummaryToJsonV2.GetMoveType | backend/flows/command/move_event/temp/summary_to_json_v2.py:4-22 | Rack-to-Rack iff both areas are 1.4; Deck-to-Deck iff 1.2→1.2; Workstation iff 1.1→1.1; Tower-to-Deck iff 1.3→1.2; Rack-to-Deck iff 1.4→1.2; Rack-to-Tower iff 1.4→1.3; Unknown Move iff the pair is none of these six, so 1.3→1.3 is Unknown |
| SummaryToJsonV2.AgreesWithTemplateOnDifferentAreas | backend/flows/command/move_event/temp/summary_to_json_v2.py:9-22 | agrees with the template whenever the areas differ; equal areas other than 1.4, 1.2 and 1.1 are Unknown here |
| SummaryToJsonV2.SummaryToJson | backend/flows/command/move_event/temp/summary_to_json_v2.py:33-58 | the document holds exactly the moves of the "->" lines, in order, or the script stops with IndexError |
| SummaryToJson.ThirdComponent | backend/flows/command/move_event/temp/summary_to_json.py:25 | the third ":" component when there are at least three, otherwise IndexError |
| SummaryToJson.Entry | backend/flows/command/move_event/temp/summary_to_json.py:18-36 | an entry iff five words and both coordinates have three components; Vertical iff the third components differ; Rack-to-Rack iff the line contains "Rack", else Deck-to-Deck |
| SummaryToJson.SummaryToJson | backend/flows/command/move_event/temp/summary_to_json.py:15-41 | the document holds exactly the entries of the "->" lines, or the script stops with IndexError |
| ExtractFatals.ExtractFatalFaults | backend/flows/command/move_event/temp/extract_fatals_from_summary.py:2-25 | returns the fatal faults read from an empty dict, or the IndexError; "No fatal fault detected." is printed iff the reading succeeded with no trigger line, and then the dict is empty |
| Collections.FirstOccurrences | backend/flows/snapstat_fingerprints/snapstat/snapstat_fingerprints_flow.py:116 | de-duplication keeps each element once, drops none, adds none |
| Collections.FirstOccurrencesInOrder | backend/flows/snapstat_fingerprints/snapstat/snapstat_fingerprints_flow.py:116 | de-duplication is the input read at the strictly increasing indices of exactly the first occurrences: first-seen order is kept |
| Collections.FirstOccurrencesOfDistinct | backend/flows/snapstat_fingerprints/snapstat/snapstat_fingerprints_flow.py:143 | a table without repeats is unchanged by de-duplication |
| Collections.FirstOccurrencesIdempotent | backend/flows/snapstat_fingerprints/snapstat/snapstat_fingerprints_flow.py:143-144 | de-duplicating twice is de-duplicating once |
| RoundTrip.PaddedField | backend/flows/command/logfisher_summarize/logfisher_summary_flow/parse_logs.py:113 | a field padded to 17 and followed by a space is the field then non-empty whitespace |
| RoundTrip.MoveLineShape | backend/flows/command/logfisher_summarize/logfisher_summary_flow/parse_logs.py:113 | a move line is date, time, src, "->", dest, each followed by whitespace, then "\| status" |
| RoundTrip.MoveLineWords | backend/flows/command/move_event_flow.py:62-65 | the first five words of a move line are date, time, src, "->" and dest |
| RoundTrip.MoveLineRoundTrip | backend/flows/command/move_event_flow.py:61-65 | a correlator move line is taken for a move line, and its words give back its timestamp, src and dest |
| RoundTrip.MoveLineHasArrow | backend/flows/command/logfisher_summarize/logfisher_summary_flow/parse_logs.py:113 | every move line the correlator writes contains "->" |
| RoundTrip.MoveEntryRoundTrip | backend/flows/command/move_event_flow.py:61-75 | the entry read from such a line carries the move's own timestamp, src and dest |
| Relevel.Label | backend/flows/controls/controls_report/analysis_cells/relevel_analysis.py:32 | a list lookup table[state] succeeds iff −len(table) ≤ state < len(table), giving table[state] for a non-negative state and table[len(table) + state] for a negative one; otherwise IndexError |
| Relevel.Runs | backend/flows/controls/controls_report/analysis_cells/relevel_analysis.py:25-49 | no more windows than samples, and no windows iff the series is empty |
| Relevel.LabelAll | backend/flows/controls/controls_report/analysis_cells/relevel_analysis.py:30-49 | on success, one labelled window per run |
| Relevel.RunsExtend | backend/flows/controls/controls_report/analysis_cells/relevel_analysis.py:25-39 | a closed window never changes, and the open one keeps its state and start |
| Relevel.LabelAllFailurePersists | backend/flows/controls/controls_report/analysis_cells/relevel_analysis.py:32 | once a window's state cannot be named, the whole call raises |
| Relevel.RunsStep | backend/flows/controls/controls_report/analysis_cells/relevel_analysis.py:25-39 | one more sample extends the open window or closes it at its own time and opens the next |
| Relevel.ClosedFailure | backend/flows/controls/controls_report/analysis_cells/relevel_analysis.py:30-32 | a closed window the table cannot name makes the call raise IndexError |
| Relevel.RunsEnds | backend/flows/controls/controls_report/analysis_cells/relevel_analysis.py:41-49 | the first window starts at the first sample; the last has the last sample's state and ends at its time |
| Relevel.RunsAdjacent | backend/flows/controls/controls_report/analysis_cells/relevel_analysis.py:29-39 | adjacent windows have different states, and each closed window ends where the next starts |
| Relevel.RunsCount | backend/flows/controls/controls_report/analysis_cells/relevel_analysis.py:21-49 | an empty series gives no windows; otherwise 1 + the number of state changes |
| Relevel.RunsCollapse | backend/flows/controls/controls_report/analysis_cells/relevel_analysis.py:25-39 | the window states are the sample states with consecutive repeats collapsed |
| Relevel.Collapse | backend/flows/controls/controls_report/analysis_cells/relevel_analysis.py:29 | reference definition: the states with consecutive repeats dropped, against which RunsCollapse states the window states |
| Relevel.LabelAllPointwise | backend/flows/controls/controls_report/analysis_cells/relevel_analysis.py:32-45 | labelling succeeds iff the table names every window's state, and then window k carries run k with its label |
| Relevel.RelevelEvents | backend/flows/controls/controls_report/analysis_cells/relevel_analysis.py:77 | a window is kept iff its label contains "RELEVEL" |
| Relevel.RelevelEventsInOrder | backend/flows/controls/controls_report/analysis_cells/relevel_analysis.py:77 | the events are the windows read at the strictly increasing indices of all windows whose label contains "RELEVEL": window order is kept |
| Relevel.NoRelevel0To5 | backend/flows/controls/controls_report/analysis_cells/relevel_analysis.py:8-9 | names 0 to 5 do not contain "RELEVEL" |
| Relevel.NoRelevel8To13 | backend/flows/controls/controls_report/analysis_cells/relevel_analysis.py:10-11 | names 8 to 13 do not contain "RELEVEL" |
| Relevel.NoRelevel14To18 | backend/flows/controls/controls_report/analysis_cells/relevel_analysis.py:12-13 | names 14 to 18 do not contain "RELEVEL" |
| Relevel.NoRelevel19To22 | backend/flows/controls/controls_report/analysis_cells/relevel_analysis.py:13-15 | names 19 to 22 do not contain "RELEVEL" |
| Relevel.NoRelevel23To27 | backend/flows/controls/controls_report/analysis_cells/relevel_analysis.py:15-17 | names 23 to 27 do not contain "RELEVEL" |
| Relevel.Relevel6To7 | backend/flows/controls/controls_report/analysis_cells/relevel_analysis.py:9 | RELEVEL_UP and RELEVEL_DOWN contain "RELEVEL" |
| Relevel.RelevelNames | backend/flows/controls/controls_report/analysis_cells/relevel_analysis.py:7-18 | of the 28 names exactly those at 6 and 7 contain "RELEVEL" |
| Relevel.RelevelLabel | backend/flows/controls/controls_report/analysis_cells/relevel_analysis.py:32 | a nameable state's label mentions RELEVEL iff the state is 6, 7, −22 or −21 |
| Relevel.RelevelWindows | backend/flows/controls/controls_report/analysis_cells/relevel_analysis.py:77 | on a fully labelled series the filter keeps exactly the windows of relevel states |
| Relevel.DMCAnalysis.constructor | backend/flows/controls/controls_report/analysis_cells/relevel_analysis.py:6-18 | the state table is the 28-name dmc_state list |
| Relevel.DMCAnalysis.ExtractStateWindows | backend/flows/controls/controls_report/analysis_cells/relevel_analysis.py:20-51 | the loop returns the labelled windows of the series, or the IndexError of an unnamed state |
| Prescan.Top | backend/flows/collector/prescan.py:41 | lines[:25] is a prefix of at most 25 lines, all of them when there are at most 25 |
| Prescan.FirstFatal | backend/flows/collector/prescan.py:69-76 | the index found is a line of the file |
| Prescan.RFind | backend/flows/collector/prescan.py:77 | the last index of the character, or −1 when absent |
| Prescan.SplitExt | backend/flows/collector/prescan.py:77 | root + ext is the path; ext is empty or a dot with no "/" and no other dot, taken from the last component unless only dots precede it |
| Prescan.ProcessFileWithFatalFault | backend/flows/collector/prescan.py:31-79 | the two loops build exactly the specified record |
| Prescan.HeaderOf | backend/flows/collector/prescan.py:41-63 | defines the header fields collected line by line from the top lines (HeaderSetWhenMatched, HeaderLastWriteWins, HeaderOnlyFromTop) |
| Prescan.FatalCode | backend/flows/collector/prescan.py:69-76 | defines the code taken from the first fatal line only (FatalCodeFromFirstFatalLine, NoFatalLineNoCode) |
| Prescan.Record | backend/flows/collector/prescan.py:31-79 | defines the record the function returns (RecordAlwaysNamed) |
| Prescan.FirstFatalIsFirst | backend/flows/collector/prescan.py:69-76 | the scan finds the first line with "Type:Fatal", and finds none iff no line has it |
| Prescan.FirstFatalAt | backend/flows/collector/prescan.py:69-76 | a fatal line with none before it is the one found |
| Prescan.FatalCodeFromFirstFatalLine | backend/flows/collector/prescan.py:69-76 | the record has a code iff the first fatal line yields one, even if a later fatal line would |
| Prescan.NoFatalLineNoCode | backend/flows/collector/prescan.py:69-76 | without a fatal line there is no fatal_fault_code |
| Prescan.HeaderLineAt | backend/flows/collector/prescan.py:42-63 | a header line sets a key to its stripped group iff that search matches, else leaves it |
| Prescan.HeaderSetWhenMatched | backend/flows/collector/prescan.py:41-63 | a header key is set iff some header line's search for it matched |
| Prescan.HeaderLastWriteWins | backend/flows/collector/prescan.py:52-63 | a header key holds the stripped group of the last header line whose search matched |
| Prescan.HeaderOnlyFromTop | backend/flows/collector/prescan.py:41 | files that share their first 25 lines get the same header fields |
| Prescan.RecordAlwaysNamed | backend/flows/collector/prescan.py:77-78 | the record always carries the object name without its extension and the scan time |
| Prescan.TrimStartChars | backend/flows/collector/prescan.py:75 | the front trim leaves nothing or a first character outside the set |
| Prescan.TrimEndChars | backend/flows/collector/prescan.py:75 | the back trim keeps a prefix whose last character is outside the set |
| Prescan.StripChars | backend/flows/collector/prescan.py:75 | strip(chars) leaves neither end in the set |
| Prescan.TrimStartCharsCut | backend/flows/collector/prescan.py:75 | the front trim keeps a suffix and drops only characters of the set |
| Prescan.TrimEndCharsCut | backend/flows/collector/prescan.py:75 | the back trim keeps a prefix and drops only characters of the set |
| Prescan.StripCharsCut | backend/flows/collector/prescan.py:75 | strip(chars) cuts a run of set characters off each end and keeps the middle slice |
| Prescan.TrimStartCharsPrefix | backend/flows/collector/prescan.py:75 | leading characters of the set are all stripped |
| Prescan.StripFaultPrefix | backend/flows/collector/prescan.py:75 | a code that neither starts nor ends with a letter of "fault_" comes out whole |
| Prescan.StripIsSetBased | backend/flows/collector/prescan.py:75 | a code starting with a letter of "fault_" loses it too: strip removes a set, not a prefix |
| DataToCsvs.TypeOf | backend/flows/collector/data_to_csvs.py:35 | TYPEKEY[v] succeeds iff −11 ≤ v < 11, giving TYPEKEY[v] for v ≥ 0 and TYPEKEY[11 + v] for v < 0, and otherwise raises IndexError |
| DataToCsvs.ParsePair | backend/flows/collector/data_to_csvs.py:35-36 | a pair that does not split into exactly two parts raises ValueError; a code int() rejects raises ValueError; a code outside −11..10 raises IndexError; otherwise the field is the first part with TYPEKEY[code], counted from the end for a negative code |
| DataToCsvs.ParsePairs | backend/flows/collector/data_to_csvs.py:34-37 | one field per pair on success; the pointwise meaning is in ParsePairsPointwise |
| DataToCsvs.MapResultsPointwise | backend/flows/collector/data_to_csvs.py:34-37 | a comprehension whose element expression may raise succeeds iff every element does, result i is then element i's, and otherwise it raises the error of the first element that fails |
| DataToCsvs.ParsePairsPointwise | backend/flows/collector/data_to_csvs.py:34-37 | the key pairs parse iff every pair parses; field i is then pair i's; otherwise the error raised is the first bad pair's |
| DataToCsvs.ParseDatalogKey | backend/flows/collector/data_to_csvs.py:34-37 | one field per ";"-segment, the last segment dropped |
| DataToCsvs.Segments | backend/flows/collector/data_to_csvs.py:36 | defines line[11:].split(";")[:-1]; KeyLineSegments shows it gives back the written pairs |
| DataToCsvs.PairTextParses | backend/flows/collector/data_to_csvs.py:35-36 | "name,code" parses into the name and the TYPEKEY type of the code |
| DataToCsvs.PairsParse | backend/flows/collector/data_to_csvs.py:34-37 | the pairs parse one by one, in order, into the fields |
| DataToCsvs.KeyLineSegments | backend/flows/collector/data_to_csvs.py:36 | the segments of a key line are the pair texts it was written from |
| DataToCsvs.KeyLineRoundTrip | backend/flows/collector/data_to_csvs.py:33-37 | a key line written from names and codes parses back into those names with the TYPEKEY types of those codes, in order |
| DataToCsvs.FirstKeyLine | backend/flows/collector/data_to_csvs.py:32-38 | the index found is a key line |
| DataToCsvs.Rotate | backend/flows/collector/data_to_csvs.py:25 | the first name moves to the end, the others shift up one; an empty list raises IndexError |
| DataToCsvs.FindKeyLine | backend/flows/collector/data_to_csvs.py:32-38 | the first loop breaks at the first key line |
| DataToCsvs.ReadDataLines | backend/flows/collector/data_to_csvs.py:43-48 | the second loop collects the decoded chunks up to the first line that is not a data line |
| DataToCsvs.Chunk | backend/flows/collector/data_to_csvs.py:45-46 | defines one data line's decoded bytes, None where the split or the base64 decoding raises ValueError (DataStopsAtNonDataLine) |
| DataToCsvs.ReadOneFile | backend/flows/collector/data_to_csvs.py:29-48 | one file: its key replaces the previous one and its data follows the earlier files' |
| DataToCsvs.ReadFile | backend/flows/collector/data_to_csvs.py:29-48 | defines one file's effect: no key line changes nothing, otherwise the key replaces the previous one and the data appends (ReadFileAppends, FirstKeyLineIsFirst) |
| DataToCsvs.Convert | backend/flows/collector/data_to_csvs.py:19-52 | convert returns exactly the specified key and bytes of the rotated files, or the error raised |
| DataToCsvs.ConvertOf | backend/flows/collector/data_to_csvs.py:19-52 | defines convert as a value: the rotated order, the files read, the key and bytes or the error (Convert, RotatedOrder) |
| DataToCsvs.ReadAllFailurePersists | backend/flows/collector/data_to_csvs.py:28-48 | an error in one file ends the conversion with that error |
| DataToCsvs.ReadAll | backend/flows/collector/data_to_csvs.py:28-48 | defines the files read in order, the first error ending the conversion (ReadAllFailurePersists, ReadAllDataGrows) |
| DataToCsvs.FirstKeyLineIsFirst | backend/flows/collector/data_to_csvs.py:32-38 | only the first "datalogkey:" line is used; without one no line is a key line |
| DataToCsvs.DataStopsAtNonDataLine | backend/flows/collector/data_to_csvs.py:43-48 | nothing after the first non-data line reaches the output |
| DataToCsvs.ReadFileAppends | backend/flows/collector/data_to_csvs.py:32-48 | a file only appends to the bytes so far; without a key line it changes nothing, else its key is the parsed first key line |
| DataToCsvs.ReadAllDataGrows | backend/flows/collector/data_to_csvs.py:28-48 | the earlier files' bytes come first |
| DataToCsvs.SortedUniqueOrder | backend/flows/collector/data_to_csvs.py:22 | sorted(set(xs), reverse=True) holds exactly the names of xs, strictly descending |
| DataToCsvs.SortedUnique | backend/flows/collector/data_to_csvs.py:22 | defines sorted(set(xs), reverse=True) by insertion (SortedUniqueOrder) |
| DataToCsvs.RotateDescending | backend/flows/collector/data_to_csvs.py:25 | rotating a descending list keeps its names, each once, with the greatest last |
| DataToCsvs.RotatedOrder | backend/flows/collector/data_to_csvs.py:22-25 | the read order is a permutation of the globbed names without repeats: the greatest last, the others descending |
| DataToCsvs.MatchFromMeans | backend/flows/collector/data_to_csvs.py:55 | `.*-data\.txt` matches from i iff "-data.txt" occurs at some j ≥ i with no newline between |
| DataToCsvs.MatchFrom | backend/flows/collector/data_to_csvs.py:55 | defines the regex match of `.*-data\.txt` from an index by scanning (MatchFromMeans) |
| DataToCsvs.DataLogNameHasMarker | backend/flows/collector/data_to_csvs.py:55-72 | every converted log has "-data." in its name |
| DataToCsvs.DataLogs | backend/flows/collector/data_to_csvs.py:60 | a listed name is converted iff the start-anchored pattern matches it |
| DataToCsvs.DataLogsInOrder | backend/flows/collector/data_to_csvs.py:60 | the converted names are the listing read at the strictly increasing indices of all matching names: listing order is kept |
| DataToCsvs.DataFiles | backend/flows/collector/data_to_csvs.py:71-72 | a listed name is deleted iff it contains "-data." |
| DataToCsvs.DataFilesInOrder | backend/flows/collector/data_to_csvs.py:71-72 | the deleted names are the listing read at the strictly increasing indices of all names containing "-data.": listing order is kept |
| DataToCsvs.ConvertEach | backend/flows/collector/data_to_csvs.py:63-67 | on success, one frame per log |
| DataToCsvs.ConvertAllDatalogsToCsv | backend/flows/collector/data_to_csvs.py:54-73 | the method gives exactly the specified frames and removed files, or the first exception before anything is deleted |
| DataToCsvs.ConvertEachFailurePersists | backend/flows/collector/data_to_csvs.py:63-66 | an exception from one log ends the run |
| DataToCsvs.ConvertEachAll | backend/flows/collector/data_to_csvs.py:63-67 | the run succeeds iff every log converts, and then frame i is log i's |
| DataToCsvs.ConvertedLogsAreRemoved | backend/flows/collector/data_to_csvs.py:60-73 | with deletion on, every converted log is removed |
| Text.TrimStart | backend/flows/command/move_event_flow.py:49 | drops only leading whitespace, leaving a non-space first character or nothing |
| Text.TrimEnd | backend/flows/command/move_event_flow.py:49 | keeps a prefix, dropping only trailing whitespace |
| Text.Strip | backend/flows/command/move_event_flow.py:49 | strip() leaves neither end whitespace |
| Text.StripCut | backend/flows/command/move_event_flow.py:49 | strip() returns the slice s[a..b] of its input with only whitespace before a and after b |
| Text.WordsAreWords | backend/flows/command/move_event_flow.py:62 | every word of split() is a non-empty run of non-space characters |
| Text.WordsAfterSpaces | backend/flows/command/move_event_flow.py:62 | leading whitespace never changes split() |
| Text.WordsOfWord | backend/flows/command/move_event_flow.py:62 | a word followed by whitespace is split()'s first word |
| Text.Split | backend/flows/collector/data_to_csvs.py:36 | split(sep) gives at least one piece, none containing sep |
| Text.SplitJoin | backend/flows/collector/data_to_csvs.py:36 | joining the pieces of split(sep) with sep gives the string back |
| Text.SplitWithoutSeparator | backend/flows/command/move_event_flow.py:24 | a string without the separator is its own single piece |
| Text.LJust | backend/flows/command/logfisher_summarize/logfisher_summary_flow/parse_logs.py:113 | `{s:<w}` is s followed by spaces up to w, never truncated |
| Text.AsciiLower | backend/flows/command/move_event_flow.py:53 | each character lowered, length kept |
| Text.NatToStringValue | backend/flows/collector/data_to_csvs.py:35 | str(n) is digits whose value is n |
| Text.ParseInt | backend/flows/collector/data_to_csvs.py:35 | int(s) needs some text besides whitespace |
| Text.ParseIntOfNat | backend/flows/collector/data_to_csvs.py:35 | int(str(n)) == n |
| Text.HexValue | backend/flows/command/logfisher_summarize/logfisher_summary_flow/config.py:123 | int(c, 16) succeeds iff c is a hex digit, giving a value below 16 |
| Text.BelowIrreflexive | backend/flows/collector/data_to_csvs.py:22 | no name is below itself |
| Text.BelowTransitive | backend/flows/collector/data_to_csvs.py:22 | string order is transitive |
| Text.BelowTotal | backend/flows/collector/data_to_csvs.py:22 | of two different names one is below the other |
| Text.BelowAsymmetric | backend/flows/collector/data_to_csvs.py:22 | no two names are below each other |

## Left out

- File, MinIO, Mongo and Prefect I/O are not modelled. Logs arrive as their lines; results are values or object fields. The file writes of `save_as_json`, the JSON scripts and `to_csv` are not modelled, and neither are the `print` messages.
- Regular expressions are not modelled as regular expressions: the patterns of the logfisher `config.py` (lines 96-118), of `fingerprints.py` and of prescan.py are caller-supplied matcher or search functions. The exception is `alphabot_.*-data\.txt`, whose literal shape `DataToCsvs.MatchFrom` spells out.
- The fault and message tables are passed in as maps; `get_acp`, `get_faults` and the TOML load at import time are not modelled.
- The action callbacks of `snapstat/actions.py` are opaque total functions from a window to a bool, a str or another value. An action that raises is not modelled, and `snapstat.constants` is not part of this model.
- pandas is not modelled. DataFrames are sequences of rows; `drop_duplicates` is order-keeping de-duplication of equal rows; the "Sequence Count" column is an integer.
- In data_to_csvs.py, base64 decoding is the parameter `decode`, the glob of `convert` is `globOf`, and the listing is `files`. The NumPy `fromfile` of the collected bytes into records and the temporary file are not modelled; the result is the record layout plus the raw bytes.
- The CLI `main` of data_to_csvs.py (lines 75-76) calls `convert_all_datalogs_to_csv` without its second argument. It is not modelled.
- `ab2pandas.convert` is a copy of `data_to_csvs.convert` and is modelled once.
- `datetime.now()` in prescan.py is the parameter `now`. The prescan record holds the header fields and the fault code as options, where the source's dict omits unset keys. `load_to_mongodb` is not modelled.
- Line terminators and `splitlines()` are not modelled: files arrive as lines without terminators. For `strip()`, `split()` and the substring tests used here this makes no difference.
- `str.lower()` is approximated by ASCII lowering. It is used only to look for "fatal", and no other character lowers to one of those letters.
- Python's `repr` of the telemetry label list quotes the labels without escaping. That is exact for the table's labels.
- The DMC series' timestamps are integers, and NaN states are not modelled.
- `plot_data`, `plot_relevel_events`' figures, the rest of relevel_analysis.py and the controls report are not modelled; only the RELEVEL filter of line 77 is.
- Telemetry.BitLabels: the contract pins down only the all-ones and all-zeros nibbles and the label count (`BitLabelsCount`). The rows actually lit follow from the definition and are covered for whole blocks by `AllBitsSet`, `NoBitsSet` and `DecodedAllSet`.
- Text.ParseInt: the contract states only that whitespace alone does not parse. Which spellings `int` accepts follows from the definition (optional sign, decimal digits, surrounding whitespace), and `ParseIntOfNat` states the round trip with `str`. Underscores and non-ASCII digits are not accepted.
- Relevel.Label: a state outside −28..27 is modelled as IndexError instead of being excluded by a precondition. Negative states follow Python's indexing from the end.
