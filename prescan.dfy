/**
 * The prescan record of a log file (backend/flows/collector/prescan.py):
 * `process_file_with_fatal_fault` reads header fields from the first 25 lines that
 * carry "MAIN1 ALPHABOT_VERSION", the code of the first "Type:Fatal" line, the object
 * name without its extension and the time of the scan.
 *
 * The six regular expressions are searches the caller supplies; each returns the text
 * of its first group, or None. The file arrives already cut into lines
 * (`file_content.splitlines()`), and `datetime.now()` is the parameter `now`.
 */
module Prescan {
  import opened Wrappers
  import opened Text

  /** The compiled patterns of `process_file_with_fatal_fault`. */
  datatype Patterns = Patterns(
    alphabotVersion: string -> Option<string>,     // ALPHABOT_VERSION="([^"]+)"
    commandLine: string -> Option<string>,         // COMMAND_LINE="([^"]+)"
    gridId: string -> Option<string>,              // GRID_ID=([A-Za-z0-9]+)
    osBootCount: string -> Option<string>,         // OS_BOOT_COUNT=([A-Za-z0-9]+)
    systemCorrelatedUs: string -> Option<string>,  // SYSTEM_CORRELATED_US=(\d+)
    fatalFaultCode: string -> Option<string>)      // id:(\w+)

  /** Only lines with this text are header lines. */
  const HeaderMarker := "MAIN1 ALPHABOT_VERSION"
  /** How many lines at the top of the file may be header lines. */
  const HeaderLines := 25
  /** The text of a fatal fault line. */
  const FatalMarker := "Type:Fatal"
  /** `strip("fault_")` removes these characters, as a set, from both ends. */
  const FaultChars: set<char> := {'f', 'a', 'u', 'l', 't', '_'}

  /** The header keys of the `data` dictionary; a key that was never set is None. */
  datatype Header = Header(
    alphabotVersion: Option<string>,  // "alphabot_version"
    commandLine: Option<string>,      // "command_line"
    gridId: Option<string>,           // "grid_id"
    startTimestamp: Option<string>,   // "start_timestamp"
    osBootCount: Option<string>)      // "os_boot_count"

  const NoHeader := Header(None, None, None, None, None)

  /** The dictionary the function returns: the header keys, "fatal_fault_code" when it
      was set, and "name" and "saved_timestamp", which are always set. */
  datatype Prescan = Prescan(header: Header, fatalFaultCode: Option<string>, name: string, savedTimestamp: int)

  /** A header key. */
  datatype Key = AlphabotVersion | CommandLine | GridId | StartTimestamp | OsBootCount

  /** The value a header record holds for `key`. */
  function Field(h: Header, key: Key): Option<string> {
    match key
    case AlphabotVersion => h.alphabotVersion
    case CommandLine => h.commandLine
    case GridId => h.gridId
    case StartTimestamp => h.startTimestamp
    case OsBootCount => h.osBootCount
  }

  /** The search whose group fills `key`; "start_timestamp" comes from
      SYSTEM_CORRELATED_US. */
  function SearchFor(p: Patterns, key: Key): string -> Option<string> {
    match key
    case AlphabotVersion => p.alphabotVersion
    case CommandLine => p.commandLine
    case GridId => p.gridId
    case StartTimestamp => p.systemCorrelatedUs
    case OsBootCount => p.osBootCount
  }

  /** `data[key] = match.group(1).strip()` when the search matched, else the old value. */
  function Put(current: Option<string>, m: Option<string>): Option<string> {
    if m.Some? then Some(Strip(m.value)) else current
  }

  /** One line of the header loop. */
  function HeaderLine(p: Patterns, h: Header, line: string): Header {
    if !Contains(line, HeaderMarker) then h
    else
      Header(
        Put(h.alphabotVersion, p.alphabotVersion(line)),
        Put(h.commandLine, p.commandLine(line)),
        Put(h.gridId, p.gridId(line)),
        Put(h.startTimestamp, p.systemCorrelatedUs(line)),
        Put(h.osBootCount, p.osBootCount(line)))
  }

  /** The header fields collected from `lines`, line by line. */
  function HeaderOf(p: Patterns, lines: seq<string>): Header {
    if lines == [] then NoHeader
    else HeaderLine(p, HeaderOf(p, lines[..|lines| - 1]), lines[|lines| - 1])
  }

  /** `lines[:25]`. */
  function Top(lines: seq<string>): (top: seq<string>)
    ensures |top| <= HeaderLines && top <= lines
    ensures |lines| <= HeaderLines ==> top == lines
  {
    if |lines| <= HeaderLines then lines else lines[..HeaderLines]
  }

  /** The index of the first line with "Type:Fatal", if any. */
  function FirstFatal(lines: seq<string>): (r: Option<nat>)
    ensures r.Some? ==> r.value < |lines|
  {
    if lines == [] then None
    else
      match FirstFatal(lines[..|lines| - 1])
      case Some(i) => Some(i)
      case None => if Contains(lines[|lines| - 1], FatalMarker) then Some(|lines| - 1) else None
  }

  /** The code the fatal scan stores: taken from the first fatal line only. */
  function FatalCode(p: Patterns, lines: seq<string>): Option<string> {
    match FirstFatal(lines)
    case None => None
    case Some(i) =>
      match p.fatalFaultCode(lines[i])
      case None => None
      case Some(c) => Some(StripChars(Strip(c), FaultChars))
  }

  /** The last index of `c` in `s`, or -1: `s.rfind(c)`. */
  function RFind(s: string, c: char): (r: int)
    ensures -1 <= r < |s|
    ensures r >= 0 ==> s[r] == c
    ensures forall k | r < k < |s| :: s[k] != c
  {
    if s == [] then -1
    else if s[|s| - 1] == c then |s| - 1
    else RFind(s[..|s| - 1], c)
  }

  /** Some character of `s[from..to]` is not a dot. */
  predicate NotAllDots(s: string, from: int, to: int)
    requires 0 <= from && to <= |s|
  {
    exists k | from <= k < to :: s[k] != '.'
  }

  /**
   * `os.path.splitext` on POSIX paths: the extension starts at the last dot of the last
   * path component, unless only dots come before that dot in the component.
   */
  function SplitExt(path: string): (r: (string, string))
    ensures r.0 + r.1 == path
    ensures r.1 == [] || (r.1[0] == '.' && '/' !in r.1 && '.' !in r.1[1..])
    ensures r.1 != [] <==>
      RFind(path, '/') < RFind(path, '.') && NotAllDots(path, RFind(path, '/') + 1, RFind(path, '.'))
  {
    var sep := RFind(path, '/');
    var dot := RFind(path, '.');
    if sep < dot && NotAllDots(path, sep + 1, dot) then
      assert forall k | 0 <= k < |path[dot..]| - 1 :: path[dot..][1..][k] == path[dot + 1 + k];
      (path[..dot], path[dot..])
    else (path, [])
  }

  /** The record `process_file_with_fatal_fault` returns. */
  function Record(p: Patterns, lines: seq<string>, objectName: string, now: int): Prescan {
    Prescan(HeaderOf(p, Top(lines)), FatalCode(p, lines), SplitExt(objectName).0, now)
  }

  /** `process_file_with_fatal_fault`: a header loop over `lines[:25]`, then a scan that
      stops at the first fatal line. */
  method ProcessFileWithFatalFault(p: Patterns, lines: seq<string>, objectName: string, now: int)
    returns (data: Prescan)
    ensures data == Record(p, lines, objectName, now)
  {
    var header := NoHeader;
    var top := Top(lines);
    var i := 0;
    while i < |top|
      invariant 0 <= i <= |top|
      invariant header == HeaderOf(p, top[..i])
    {
      var line := top[i];
      assert top[..i + 1][..i] == top[..i];
      if Contains(line, HeaderMarker) {
        var matchVersion := p.alphabotVersion(line);
        var matchCommand := p.commandLine(line);
        var matchGrid := p.gridId(line);
        var matchTs := p.systemCorrelatedUs(line);
        var matchBootCount := p.osBootCount(line);
        if matchVersion.Some? {
          header := header.(alphabotVersion := Some(Strip(matchVersion.value)));
        }
        if matchCommand.Some? {
          header := header.(commandLine := Some(Strip(matchCommand.value)));
        }
        if matchGrid.Some? {
          header := header.(gridId := Some(Strip(matchGrid.value)));
        }
        if matchTs.Some? {
          header := header.(startTimestamp := Some(Strip(matchTs.value)));
        }
        if matchBootCount.Some? {
          header := header.(osBootCount := Some(Strip(matchBootCount.value)));
        }
      }
      i := i + 1;
    }
    assert top[..i] == top;
    var fatalFaultCode: Option<string> := None;
    i := 0;
    while i < |lines|
      invariant 0 <= i <= |lines|
      invariant FirstFatal(lines[..i]).None?
    {
      assert lines[..i + 1][..i] == lines[..i];
      if Contains(lines[i], FatalMarker) {
        FirstFatalExtends(lines, i + 1);
        var matchFaultCode := p.fatalFaultCode(lines[i]);
        if matchFaultCode.Some? {
          fatalFaultCode := Some(StripChars(Strip(matchFaultCode.value), FaultChars));
        }
        break;
      }
      i := i + 1;
    }
    if i == |lines| {
      assert lines[..i] == lines;
    }
    data := Prescan(header, fatalFaultCode, SplitExt(objectName).0, now);
  }

  // ---------------------------------------------------------------------------
  // The fatal scan

  /** A fatal line found in a prefix stays the first one. */
  lemma {:induction false} FirstFatalExtends(lines: seq<string>, n: nat)
    requires n <= |lines| && FirstFatal(lines[..n]).Some?
    ensures FirstFatal(lines) == FirstFatal(lines[..n])
    decreases |lines| - n
  {
    if n < |lines| {
      assert lines[..n + 1][..n] == lines[..n];
      FirstFatalExtends(lines, n + 1);
    } else {
      assert lines[..n] == lines;
    }
  }

  /** `FirstFatal` finds the first line with "Type:Fatal", and None means there is none. */
  lemma {:induction false} FirstFatalIsFirst(lines: seq<string>)
    ensures FirstFatal(lines).Some? ==>
      var i := FirstFatal(lines).value;
      Contains(lines[i], FatalMarker) && forall j | 0 <= j < i :: !Contains(lines[j], FatalMarker)
    ensures FirstFatal(lines).None? <==> forall j | 0 <= j < |lines| :: !Contains(lines[j], FatalMarker)
  {
    if lines != [] {
      var prefix := lines[..|lines| - 1];
      FirstFatalIsFirst(prefix);
      assert forall j | 0 <= j < |prefix| :: prefix[j] == lines[j];
    }
  }

  /** A fatal line with none before it is the one `FirstFatal` finds. */
  lemma {:induction false} FirstFatalAt(lines: seq<string>, i: nat)
    requires i < |lines| && Contains(lines[i], FatalMarker)
    requires forall j | 0 <= j < i :: !Contains(lines[j], FatalMarker)
    ensures FirstFatal(lines) == Some(i)
  {
    var prefix := lines[..|lines| - 1];
    if i == |lines| - 1 {
      FirstFatalIsFirst(prefix);
      assert forall j | 0 <= j < |prefix| :: !Contains(prefix[j], FatalMarker);
    } else {
      FirstFatalAt(prefix, i);
    }
  }

  /** The record has a fault code exactly when the first fatal line yields one; a later
      fatal line is never looked at, even when the first yields nothing. */
  lemma FatalCodeFromFirstFatalLine(p: Patterns, lines: seq<string>, objectName: string, now: int)
    ensures Record(p, lines, objectName, now).fatalFaultCode.Some? <==>
      exists i | 0 <= i < |lines| ::
        && Contains(lines[i], FatalMarker)
        && (forall j | 0 <= j < i :: !Contains(lines[j], FatalMarker))
        && p.fatalFaultCode(lines[i]).Some?
    ensures forall i | 0 <= i < |lines| && Contains(lines[i], FatalMarker)
        && (forall j | 0 <= j < i :: !Contains(lines[j], FatalMarker))
        && p.fatalFaultCode(lines[i]).Some? ::
      Record(p, lines, objectName, now).fatalFaultCode ==
        Some(StripChars(Strip(p.fatalFaultCode(lines[i]).value), FaultChars))
  {
    FirstFatalIsFirst(lines);
    forall i | 0 <= i < |lines| && Contains(lines[i], FatalMarker)
        && (forall j | 0 <= j < i :: !Contains(lines[j], FatalMarker))
      ensures FirstFatal(lines) == Some(i)
    {
      FirstFatalAt(lines, i);
    }
  }

  /** Without a fatal line the record has no fault code. */
  lemma NoFatalLineNoCode(p: Patterns, lines: seq<string>, objectName: string, now: int)
    requires forall j | 0 <= j < |lines| :: !Contains(lines[j], FatalMarker)
    ensures Record(p, lines, objectName, now).fatalFaultCode == None
  {
    FirstFatalIsFirst(lines);
  }

  // ---------------------------------------------------------------------------
  // The header fields

  /** The line is a header line whose search for `key` matches. */
  predicate Sets(p: Patterns, line: string, key: Key) {
    Contains(line, HeaderMarker) && SearchFor(p, key)(line).Some?
  }

  /** One header line sets a key exactly when its search matches, and otherwise leaves
      the key as it was. */
  lemma HeaderLineAt(p: Patterns, h: Header, line: string, key: Key)
    ensures Field(HeaderLine(p, h, line), key) ==
      if Sets(p, line, key) then Some(Strip(SearchFor(p, key)(line).value)) else Field(h, key)
  {
  }

  /** A header key is set exactly when some header line's search for it matched. */
  lemma {:induction false} HeaderSetWhenMatched(p: Patterns, lines: seq<string>, key: Key)
    ensures Field(HeaderOf(p, lines), key).Some? <==> exists i | 0 <= i < |lines| :: Sets(p, lines[i], key)
  {
    if lines != [] {
      var prefix := lines[..|lines| - 1];
      HeaderSetWhenMatched(p, prefix, key);
      HeaderLineAt(p, HeaderOf(p, prefix), lines[|lines| - 1], key);
      assert forall j | 0 <= j < |prefix| :: prefix[j] == lines[j];
    }
  }

  /** A header key holds the stripped group of the LAST header line whose search for it
      matched: a later header line overwrites an earlier one. */
  lemma {:induction false} HeaderLastWriteWins(p: Patterns, lines: seq<string>, key: Key, i: nat)
    requires i < |lines| && Sets(p, lines[i], key)
    requires forall j | i < j < |lines| :: !Sets(p, lines[j], key)
    ensures Field(HeaderOf(p, lines), key) == Some(Strip(SearchFor(p, key)(lines[i]).value))
  {
    var prefix := lines[..|lines| - 1];
    HeaderLineAt(p, HeaderOf(p, prefix), lines[|lines| - 1], key);
    if i < |lines| - 1 {
      HeaderLastWriteWins(p, prefix, key, i);
    }
  }

  /** Only the first 25 lines count for the header: two files that share them get the
      same header fields, whatever follows. */
  lemma HeaderOnlyFromTop(p: Patterns, a: seq<string>, b: seq<string>, objectName: string, now: int)
    requires |a| >= HeaderLines && |b| >= HeaderLines && a[..HeaderLines] == b[..HeaderLines]
    ensures Record(p, a, objectName, now).header == Record(p, b, objectName, now).header
  {
    assert Top(a) == Top(b);
  }

  /** The record always names the object and carries the scan time. */
  lemma RecordAlwaysNamed(p: Patterns, lines: seq<string>, objectName: string, now: int)
    ensures var r := Record(p, lines, objectName, now);
      r.savedTimestamp == now && r.name + SplitExt(objectName).1 == objectName
  {
  }

  // ---------------------------------------------------------------------------
  // strip with a character set

  /** Drops the leading characters that belong to `chars`. */
  function TrimStartChars(s: string, chars: set<char>): (r: string)
    ensures |r| <= |s|
    ensures r == [] || r[0] !in chars
  {
    if s != [] && s[0] in chars then TrimStartChars(s[1..], chars) else s
  }

  /** Drops the trailing characters that belong to `chars`. */
  function TrimEndChars(s: string, chars: set<char>): (r: string)
    ensures r <= s
    ensures r == [] || r[|r| - 1] !in chars
  {
    if s != [] && s[|s| - 1] in chars then TrimEndChars(s[..|s| - 1], chars) else s
  }

  /** `s.strip(chars)`: removes characters of the SET `chars` from both ends. */
  function StripChars(s: string, chars: set<char>): (r: string)
    ensures r == [] || (r[0] !in chars && r[|r| - 1] !in chars)
  {
    var t := TrimStartChars(s, chars);
    var r := TrimEndChars(t, chars);
    assert r != [] ==> r[0] == t[0];
    r
  }

  /** The front trim keeps a suffix and drops only characters of `chars`. */
  lemma {:induction false} TrimStartCharsCut(s: string, chars: set<char>)
    ensures var r := TrimStartChars(s, chars);
      r == s[|s| - |r|..] && forall i | 0 <= i < |s| - |r| :: s[i] in chars
  {
    if s != [] && s[0] in chars {
      TrimStartCharsCut(s[1..], chars);
    }
  }

  /** The back trim keeps a prefix and drops only characters of `chars`. */
  lemma {:induction false} TrimEndCharsCut(s: string, chars: set<char>)
    ensures var r := TrimEndChars(s, chars);
      forall i | |r| <= i < |s| :: s[i] in chars
  {
    if s != [] && s[|s| - 1] in chars {
      TrimEndCharsCut(s[..|s| - 1], chars);
    }
  }

  /** `strip(chars)` cuts a run of characters from `chars` off each end and keeps the
      middle as it was: the result is `s[a..b]` with `a` the number of characters the
      front loses. */
  lemma StripCharsCut(s: string, chars: set<char>)
    ensures var a := |s| - |TrimStartChars(s, chars)|;
      var b := a + |StripChars(s, chars)|;
      && 0 <= a <= b <= |s|
      && StripChars(s, chars) == s[a..b]
      && (forall i | 0 <= i < a :: s[i] in chars)
      && (forall i | b <= i < |s| :: s[i] in chars)
  {
    var t := TrimStartChars(s, chars);
    var r := TrimEndChars(t, chars);
    TrimStartCharsCut(s, chars);
    TrimEndCharsCut(t, chars);
    var a := |s| - |t|;
    var b := a + |r|;
    assert r == t[..|r|];
    assert r == s[a..b];
    assert forall i | b <= i < |s| :: s[i] == t[i - a];
  }

  /** Characters of `chars` in front are all stripped. */
  lemma {:induction false} TrimStartCharsPrefix(pre: string, s: string, chars: set<char>)
    requires forall i | 0 <= i < |pre| :: pre[i] in chars
    ensures TrimStartChars(pre + s, chars) == TrimStartChars(s, chars)
  {
    if pre != [] {
      assert (pre + s)[0] == pre[0];
      assert (pre + s)[1..] == pre[1..] + s;
      TrimStartCharsPrefix(pre[1..], s, chars);
    } else {
      assert pre + s == s;
    }
  }

  /** A code that neither starts nor ends with one of the letters of "fault_" comes out
      of `("fault_" + code).strip("fault_")` unchanged. */
  lemma StripFaultPrefix(code: string)
    requires code != [] && code[0] !in FaultChars && code[|code| - 1] !in FaultChars
    ensures StripChars("fault_" + code, FaultChars) == code
  {
    var prefix := "fault_";
    assert forall i | 0 <= i < |prefix| :: prefix[i] in FaultChars;
    TrimStartCharsPrefix(prefix, code, FaultChars);
    assert TrimStartChars(code, FaultChars) == code;
    assert TrimEndChars(code, FaultChars) == code;
  }

  /** The strip works on the set of characters, not on the prefix "fault_": a code that
      starts with one of its letters never comes out whole. */
  lemma StripIsSetBased(code: string)
    requires code != [] && code[0] in FaultChars
    ensures StripChars("fault_" + code, FaultChars) != code
  {
    var r := StripChars("fault_" + code, FaultChars);
    assert r == [] || r[0] !in FaultChars;
  }
}
