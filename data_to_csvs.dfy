/**
 * Conversion of Alphabot data logs (backend/flows/collector/data_to_csvs.py).
 *
 * `convert` reads a family of rotated data files: in each one the first
 * "datalogkey:" line names the record fields and their NumPy types, and the lines
 * after it carry a timestamp and a base64 chunk each, up to the first line that does
 * not. `convert_all_datalogs_to_csv` picks the data logs of a directory listing and,
 * when asked, deletes every data file of the listing afterwards.
 *
 * The directory listing, the glob of `convert`, file contents and base64 decoding are
 * parameters; building the DataFrame from the bytes and writing CSV files are not
 * modelled.
 */
module DataToCsvs {
  import opened Wrappers
  import opened Text
  import Collections

  /** `TYPEKEY`: NumPy type codes for the `datalogkey` codes. */
  const TypeKey: seq<string> := ["u1", "u2", "u4", "u8", "i1", "i2", "i4", "i8", "?", "f4", "f8"]

  /** The start of the key line; `line[11:]` skips it. */
  const KeyPrefix := "datalogkey:"

  /** The exceptions `convert` lets escape. */
  datatype ConvertError =
    | IndexError         // `pop(0)` of an empty list, or a code outside TYPEKEY
    | ValueError         // a pair that is not "name,code", or a code that is not an int
    | UnboundLocalError  // no file had a key line, so `datalogkey` was never set

  /** One field of the record layout: its name and NumPy type. */
  datatype Field = Field(name: string, dtype: string)

  // ---------------------------------------------------------------------------
  // The datalogkey line

  /** `TYPEKEY[v]` on a Python list: negative codes count from the end. */
  function TypeOf(v: int): (r: Result<string, ConvertError>)
    ensures r.Success? <==> -|TypeKey| <= v < |TypeKey|
    ensures r.Success? ==> r.value in TypeKey
    ensures 0 <= v < |TypeKey| ==> r == Success(TypeKey[v])
    ensures -|TypeKey| <= v < 0 ==> r == Success(TypeKey[|TypeKey| + v])
    ensures r.Failure? ==> r.error == IndexError
  {
    if 0 <= v < |TypeKey| then Success(TypeKey[v])
    else if -|TypeKey| <= v < 0 then Success(TypeKey[|TypeKey| + v])
    else Failure(IndexError)
  }

  /** `k, v = pair.split(",")` and then `(k, TYPEKEY[int(v)])`. */
  function ParsePair(pair: string): (r: Result<Field, ConvertError>)
    ensures r.Success? ==> |Split(pair, ',')| == 2 && r.value.name == Split(pair, ',')[0] && r.value.dtype in TypeKey
    ensures |Split(pair, ',')| != 2 ==> r == Failure(ValueError)
    ensures |Split(pair, ',')| == 2 && ParseInt(Split(pair, ',')[1]).None? ==> r == Failure(ValueError)
    ensures |Split(pair, ',')| == 2 && ParseInt(Split(pair, ',')[1]).Some? ==>
      var v := ParseInt(Split(pair, ',')[1]).value;
      && (0 <= v < |TypeKey| ==> r == Success(Field(Split(pair, ',')[0], TypeKey[v])))
      && (-|TypeKey| <= v < 0 ==> r == Success(Field(Split(pair, ',')[0], TypeKey[|TypeKey| + v])))
      && (v < -|TypeKey| || |TypeKey| <= v ==> r == Failure(IndexError))
  {
    var parts := Split(pair, ',');
    if |parts| != 2 then Failure(ValueError)
    else
      match ParseInt(parts[1])
      case None => Failure(ValueError)
      case Some(v) =>
        match TypeOf(v)
        case Failure(e) => Failure(e)
        case Success(t) => Success(Field(parts[0], t))
  }

  /** A list comprehension whose element expression may raise: the results of `f` on the
      elements in order, or the error of the first element it fails on. */
  function MapResults<A, T, E>(xs: seq<A>, f: A -> Result<T, E>): (r: Result<seq<T>, E>)
    ensures r.Success? ==> |r.value| == |xs|
  {
    if xs == [] then Success([])
    else
      match MapResults(xs[..|xs| - 1], f)
      case Failure(e) => Failure(e)
      case Success(ys) =>
        match f(xs[|xs| - 1])
        case Failure(e) => Failure(e)
        case Success(y) => Success(ys + [y])
  }

  /** Such a comprehension succeeds iff every element succeeds; result i is then element i's,
      and otherwise the error is that of the first element that fails. */
  lemma {:induction false} MapResultsPointwise<A, T, E>(xs: seq<A>, f: A -> Result<T, E>)
    ensures MapResults(xs, f).Success? <==> forall i | 0 <= i < |xs| :: f(xs[i]).Success?
    ensures MapResults(xs, f).Success? ==> forall i | 0 <= i < |xs| :: MapResults(xs, f).value[i] == f(xs[i]).value
    ensures MapResults(xs, f).Failure? ==>
      exists i | 0 <= i < |xs| :: && f(xs[i]).Failure?
                                   && (forall j | 0 <= j < i :: f(xs[j]).Success?)
                                   && MapResults(xs, f).error == f(xs[i]).error
  {
    if xs != [] {
      var n := |xs|;
      var prefix := xs[..n - 1];
      MapResultsPointwise(prefix, f);
      assert forall i | 0 <= i < n - 1 :: prefix[i] == xs[i];
      var before, last := MapResults(prefix, f), f(xs[n - 1]);
      if before.Failure? {
        var i :| 0 <= i < n - 1 && f(prefix[i]).Failure?
                 && (forall j | 0 <= j < i :: f(prefix[j]).Success?)
                 && before.error == f(prefix[i]).error;
        assert forall j | 0 <= j < i :: f(xs[j]).Success?;
      } else if last.Failure? {
        assert forall j | 0 <= j < n - 1 :: f(xs[j]).Success?;
      }
    }
  }

  /** The comprehension over the pairs, left to right: the first bad pair raises. */
  function ParsePairs(pairs: seq<string>): (r: Result<seq<Field>, ConvertError>)
    ensures r.Success? ==> |r.value| == |pairs|
  {
    MapResults(pairs, ParsePair)
  }

  /** The key-line comprehension succeeds iff every pair parses; field i is then pair i's,
      and otherwise the error is the one the first bad pair raises. */
  lemma ParsePairsPointwise(pairs: seq<string>)
    ensures ParsePairs(pairs).Success? <==> forall i | 0 <= i < |pairs| :: ParsePair(pairs[i]).Success?
    ensures ParsePairs(pairs).Success? ==>
      forall i | 0 <= i < |pairs| :: ParsePairs(pairs).value[i] == ParsePair(pairs[i]).value
    ensures ParsePairs(pairs).Failure? ==>
      exists i | 0 <= i < |pairs| :: && ParsePair(pairs[i]).Failure?
                                      && (forall j | 0 <= j < i :: ParsePair(pairs[j]).Success?)
                                      && ParsePairs(pairs).error == ParsePair(pairs[i]).error
  {
    MapResultsPointwise(pairs, ParsePair);
  }

  /** `line[11:].split(";")[:-1]`: the pairs of a key line; the piece after the last ";"
      is dropped, whatever it holds. */
  function Segments(line: string): seq<string> {
    var rest := if |line| >= |KeyPrefix| then line[|KeyPrefix|..] else [];
    var parts := Split(rest, ';');
    parts[..|parts| - 1]
  }

  /** The `datalogkey` list a key line defines. */
  function ParseDatalogKey(line: string): (r: Result<seq<Field>, ConvertError>)
    ensures r.Success? ==> |r.value| == |Segments(line)|
  {
    ParsePairs(Segments(line))
  }

  /** A pair as a key line writes it: "name,code", the code in any spelling `int`
      accepts. */
  function PairText(name: string, codeText: string): string {
    name + [','] + codeText
  }

  /** The key text "name,code;" for each field in order. */
  function KeyBody(names: seq<string>, codeTexts: seq<string>): string
    requires |names| == |codeTexts|
  {
    if names == [] then []
    else KeyBody(names[..|names| - 1], codeTexts[..|codeTexts| - 1]) + PairText(names[|names| - 1], codeTexts[|codeTexts| - 1]) + [';']
  }

  /** The pair texts of the fields, in order. */
  function PairTexts(names: seq<string>, codeTexts: seq<string>): (texts: seq<string>)
    requires |names| == |codeTexts|
    ensures |texts| == |names|
  {
    if names == [] then []
    else PairTexts(names[..|names| - 1], codeTexts[..|codeTexts| - 1]) + [PairText(names[|names| - 1], codeTexts[|codeTexts| - 1])]
  }

  /** The fields with these names and the TYPEKEY types of these codes. */
  function Fields(names: seq<string>, codes: seq<int>): (fields: seq<Field>)
    requires |names| == |codes|
    requires forall i | 0 <= i < |codes| :: -|TypeKey| <= codes[i] < |TypeKey|
    ensures |fields| == |names|
    ensures forall i | 0 <= i < |fields| :: fields[i].name == names[i] && TypeOf(codes[i]) == Success(fields[i].dtype)
  {
    if names == [] then []
    else Fields(names[..|names| - 1], codes[..|codes| - 1]) + [Field(names[|names| - 1], TypeOf(codes[|codes| - 1]).value)]
  }

  /** A code text as a key line may hold it: `int` reads the code from it, and it holds
      neither separator. */
  predicate Spells(codeText: string, code: int) {
    ParseInt(codeText) == Some(code) && ',' !in codeText && ';' !in codeText
  }

  /** `str(code)` is such a spelling. */
  lemma DecimalSpells(code: nat)
    ensures Spells(NatToString(code), code)
  {
    var digits := NatToString(code);
    forall i | 0 <= i < |digits| ensures digits[i] != ',' && digits[i] != ';' {
      assert '0' <= digits[i] <= '9';
    }
    ParseIntOfNat(code);
  }

  /** What follows a prefix. */
  lemma AfterPrefix(prefix: string, rest: string)
    ensures (prefix + rest)[|prefix|..] == rest
  {
  }

  /** Splitting at a separator splits the two sides on their own. */
  lemma {:induction false} SplitAround(a: string, sep: char, b: string)
    ensures Split(a + [sep] + b, sep) == Split(a, sep) + Split(b, sep)
  {
    if a == [] {
      assert a + [sep] + b == [sep] + b;
      assert ([sep] + b)[1..] == b;
    } else {
      var s := a + [sep] + b;
      assert s[0] == a[0];
      assert s[1..] == a[1..] + [sep] + b;
      SplitAround(a[1..], sep, b);
    }
  }

  /** A pair splits at its one comma. */
  lemma PairSplits(name: string, codeText: string)
    requires ',' !in name && ',' !in codeText
    ensures Split(PairText(name, codeText), ',') == [name, codeText]
  {
    SplitAround(name, ',', codeText);
    SplitWithoutSeparator(name, ',');
    SplitWithoutSeparator(codeText, ',');
  }

  /** One pair parses into its name and the type of its code. */
  lemma PairTextParses(name: string, codeText: string, code: int)
    requires ',' !in name && Spells(codeText, code) && -|TypeKey| <= code < |TypeKey|
    ensures ParsePair(PairText(name, codeText)) == Success(Field(name, TypeOf(code).value))
  {
    PairSplits(name, codeText);
  }

  /** The last field's text comes last, in the key body and among the pair texts. */
  lemma KeyBodySnoc(names: seq<string>, codeTexts: seq<string>, tail: string)
    requires |names| == |codeTexts| && names != []
    ensures var n := |names| - 1;
      KeyBody(names, codeTexts) + tail ==
        KeyBody(names[..n], codeTexts[..n]) + (PairText(names[n], codeTexts[n]) + [';'] + tail)
      && PairTexts(names, codeTexts) == PairTexts(names[..n], codeTexts[..n]) + [PairText(names[n], codeTexts[n])]
  {
    var n := |names| - 1;
    var front, pair := KeyBody(names[..n], codeTexts[..n]), PairText(names[n], codeTexts[n]);
    assert KeyBody(names, codeTexts) == (front + pair) + [';'];
    ConcatAssoc(front, pair, [';']);
    ConcatAssoc(front, pair + [';'], tail);
  }

  /** Concatenation of sequences is associative. */
  lemma ConcatAssoc<T>(a: seq<T>, b: seq<T>, c: seq<T>)
    ensures a + (b + c) == (a + b) + c
  {
  }

  /** The pieces of a key body followed by `tail`. */
  lemma {:induction false} KeyBodySplits(names: seq<string>, codeTexts: seq<string>, tail: string)
    requires |names| == |codeTexts|
    requires forall i | 0 <= i < |names| :: ';' !in names[i] && ';' !in codeTexts[i]
    ensures Split(KeyBody(names, codeTexts) + tail, ';') == PairTexts(names, codeTexts) + Split(tail, ';')
  {
    if names == [] {
      assert KeyBody(names, codeTexts) + tail == tail;
    } else {
      var n := |names| - 1;
      var last := PairText(names[n], codeTexts[n]);
      assert ';' !in last;
      var tail' := last + [';'] + tail;
      KeyBodySnoc(names, codeTexts, tail);
      KeyBodySplits(names[..n], codeTexts[..n], tail');
      SplitAround(last, ';', tail);
      SplitWithoutSeparator(last, ';');
      var before := PairTexts(names[..n], codeTexts[..n]);
      var rest := Split(tail, ';');
      calc {
        Split(KeyBody(names, codeTexts) + tail, ';');
        Split(KeyBody(names[..n], codeTexts[..n]) + tail', ';');
        before + Split(tail', ';');
        before + ([last] + rest);
        { ConcatAssoc(before, [last], rest); }
        (before + [last]) + rest;
        PairTexts(names, codeTexts) + rest;
      }
    }
  }

  /** The pairs parse one by one into the fields. */
  lemma {:induction false} PairsParse(names: seq<string>, codeTexts: seq<string>, codes: seq<int>)
    requires |names| == |codeTexts| == |codes|
    requires forall i | 0 <= i < |names| :: ',' !in names[i] && Spells(codeTexts[i], codes[i])
    requires forall i | 0 <= i < |codes| :: -|TypeKey| <= codes[i] < |TypeKey|
    ensures ParsePairs(PairTexts(names, codeTexts)) == Success(Fields(names, codes))
  {
    if names != [] {
      var n := |names| - 1;
      var texts := PairTexts(names, codeTexts);
      assert texts[..n] == PairTexts(names[..n], codeTexts[..n]);
      assert texts[n] == PairText(names[n], codeTexts[n]);
      PairsParse(names[..n], codeTexts[..n], codes[..n]);
      PairTextParses(names[n], codeTexts[n], codes[n]);
    }
  }

  /** The pairs of a key line are the pair texts it was written from. */
  lemma KeyLineSegments(names: seq<string>, codeTexts: seq<string>, tail: string)
    requires |names| == |codeTexts|
    requires forall i | 0 <= i < |names| :: ';' !in names[i] && ';' !in codeTexts[i]
    requires ';' !in tail
    ensures Segments(KeyPrefix + KeyBody(names, codeTexts) + tail) == PairTexts(names, codeTexts)
  {
    var body := KeyBody(names, codeTexts) + tail;
    var line := KeyPrefix + KeyBody(names, codeTexts) + tail;
    assert line == KeyPrefix + body;
    AfterPrefix(KeyPrefix, body);
    KeyBodySplits(names, codeTexts, tail);
    SplitWithoutSeparator(tail, ';');
    var parts := Split(body, ';');
    assert parts == PairTexts(names, codeTexts) + [tail];
  }

  /**
   * Round trip: a key line written from names and codes — "datalogkey:" then
   * "name,code;" per field, then a tail without ";" such as the line end — parses
   * back into those names with the TYPEKEY types of those codes, in order.
   */
  lemma KeyLineRoundTrip(names: seq<string>, codeTexts: seq<string>, codes: seq<int>, tail: string)
    requires |names| == |codeTexts| == |codes|
    requires forall i | 0 <= i < |names| :: ',' !in names[i] && ';' !in names[i] && Spells(codeTexts[i], codes[i])
    requires forall i | 0 <= i < |codes| :: -|TypeKey| <= codes[i] < |TypeKey|
    requires ';' !in tail
    ensures ParseDatalogKey(KeyPrefix + KeyBody(names, codeTexts) + tail) == Success(Fields(names, codes))
  {
    KeyLineSegments(names, codeTexts, tail);
    PairsParse(names, codeTexts, codes);
  }

  // ---------------------------------------------------------------------------
  // Reading the files

  /** `line.startswith("datalogkey:")`. */
  predicate IsKeyLine(line: string) {
    KeyPrefix <= line
  }

  /** The index of the first key line, where the first loop breaks. */
  function FirstKeyLine(lines: seq<string>): (r: Option<nat>)
    ensures r.Some? ==> r.value < |lines| && IsKeyLine(lines[r.value])
  {
    if lines == [] then None
    else
      match FirstKeyLine(lines[..|lines| - 1])
      case Some(i) => Some(i)
      case None => if IsKeyLine(lines[|lines| - 1]) then Some(|lines| - 1) else None
  }

  /** `_, encoded = line.split()` and `b64decode(encoded)`: None where either raises
      ValueError. */
  function Chunk(decode: string -> Option<seq<bv8>>, line: string): Option<seq<bv8>> {
    var tokens := Words(line);
    if |tokens| != 2 then None else decode(tokens[1])
  }

  /** `Chunk` for a given decoder, as one function of the line. */
  function ChunkOf(decode: string -> Option<seq<bv8>>): string -> Option<seq<bv8>> {
    line => Chunk(decode, line)
  }

  /** The bytes of the data lines from index `from` on, up to the first line that is
      not one. */
  function DataFrom(chunkOf: string -> Option<seq<bv8>>, lines: seq<string>, from: nat): seq<bv8>
    requires from <= |lines|
    decreases |lines| - from
  {
    if from == |lines| then []
    else
      match chunkOf(lines[from])
      case None => []
      case Some(bytes) => bytes + DataFrom(chunkOf, lines, from + 1)
  }

  /** The key and the bytes `convert` has after some files. */
  datatype Progress = Progress(datalogkey: Option<seq<Field>>, data: seq<bv8>)

  /** One file: a file without a key line changes nothing (the first loop uses up the
      file); otherwise its key replaces the previous one and its data lines follow. */
  function ReadFile(decode: string -> Option<seq<bv8>>, lines: seq<string>, before: Progress): Result<Progress, ConvertError> {
    match FirstKeyLine(lines)
    case None => Success(before)
    case Some(i) =>
      match ParseDatalogKey(lines[i])
      case Failure(e) => Failure(e)
      case Success(key) => Success(Progress(Some(key), before.data + DataFrom(ChunkOf(decode), lines, i + 1)))
  }

  /** The files read in order, the first error ending the conversion. */
  function ReadAll(decode: string -> Option<seq<bv8>>, read: string -> seq<string>, paths: seq<string>): Result<Progress, ConvertError> {
    if paths == [] then Success(Progress(None, []))
    else
      match ReadAll(decode, read, paths[..|paths| - 1])
      case Failure(e) => Failure(e)
      case Success(before) => ReadFile(decode, read(paths[|paths| - 1]), before)
  }

  // ---------------------------------------------------------------------------
  // The file order

  /** `x` placed into the strictly descending `s`, unless it is already there. */
  function InsertDescending(x: string, s: seq<string>): seq<string> {
    if s == [] then [x]
    else if x == s[0] then s
    else if Below(s[0], x) then [x] + s
    else [s[0]] + InsertDescending(x, s[1..])
  }

  /** `sorted(set(xs), reverse=True)`. */
  function SortedUnique(xs: seq<string>): seq<string> {
    if xs == [] then [] else InsertDescending(xs[|xs| - 1], SortedUnique(xs[..|xs| - 1]))
  }

  /** Each element is greater than the next. */
  predicate Descending(s: seq<string>) {
    forall i | 0 <= i < |s| - 1 :: Below(s[i + 1], s[i])
  }

  /** `data_file_paths.append(data_file_paths.pop(0))`: the first (greatest) name goes to
      the end; an empty list raises IndexError. */
  function Rotate(s: seq<string>): (r: Result<seq<string>, ConvertError>)
    ensures r.Failure? <==> s == []
    ensures r.Success? ==> |r.value| == |s| && r.value[|s| - 1] == s[0]
    ensures r.Success? ==> forall i | 0 <= i < |s| - 1 :: r.value[i] == s[i + 1]
  {
    if s == [] then Failure(IndexError) else Success(s[1..] + [s[0]])
  }

  /** What `convert` returns: the record layout and the decoded bytes of all files. */
  datatype Converted = Converted(datalogkey: seq<Field>, data: seq<bv8>)

  /** `convert`, given the names the glob found. */
  function ConvertOf(globbed: seq<string>, read: string -> seq<string>, decode: string -> Option<seq<bv8>>): Result<Converted, ConvertError> {
    match Rotate(SortedUnique(globbed))
    case Failure(e) => Failure(e)
    case Success(paths) =>
      match ReadAll(decode, read, paths)
      case Failure(e) => Failure(e)
      case Success(progress) =>
        if progress.datalogkey.None? then Failure(UnboundLocalError)
        else Success(Converted(progress.datalogkey.value, progress.data))
  }

  /** The first loop of `convert` over one file: where it breaks, if it does. */
  method FindKeyLine(lines: seq<string>) returns (found: Option<nat>)
    ensures found == FirstKeyLine(lines)
  {
    var i := 0;
    while i < |lines|
      invariant 0 <= i <= |lines|
      invariant FirstKeyLine(lines[..i]).None?
    {
      assert lines[..i + 1][..i] == lines[..i];
      if IsKeyLine(lines[i]) {
        FirstKeyLineExtends(lines, i + 1);
        return Some(i);
      }
      i := i + 1;
    }
    assert lines[..i] == lines;
    return None;
  }

  /** The second loop of `convert` over one file: the decoded chunks of the data lines
      from `start` on, up to the first line that is not one. */
  method ReadDataLines(chunkOf: string -> Option<seq<bv8>>, lines: seq<string>, start: nat)
    returns (chunks: seq<bv8>)
    requires start <= |lines|
    ensures chunks == DataFrom(chunkOf, lines, start)
  {
    chunks := [];
    var j := start;
    while j < |lines|
      invariant start <= j <= |lines|
      invariant chunks + DataFrom(chunkOf, lines, j) == DataFrom(chunkOf, lines, start)
    {
      var chunk := chunkOf(lines[j]);
      if chunk.None? {
        break;
      }
      chunks := chunks + chunk.value;
      j := j + 1;
    }
  }

  /** The body of `convert`'s loop for one file: the key line, then the data lines after
      it appended to what the earlier files gave. */
  method ReadOneFile(decode: string -> Option<seq<bv8>>, lines: seq<string>, before: Progress)
    returns (r: Result<Progress, ConvertError>)
    ensures r == ReadFile(decode, lines, before)
  {
    var keyLine := FindKeyLine(lines);
    if keyLine.None? {
      return Success(before);
    }
    var parsed := ParseDatalogKey(lines[keyLine.value]);
    if parsed.Failure? {
      return Failure(parsed.error);
    }
    var chunks := ReadDataLines(ChunkOf(decode), lines, keyLine.value + 1);
    r := Success(Progress(Some(parsed.value), before.data + chunks));
  }

  /** `convert`: orders the rotated files, then reads each file's key line and the data
      lines after it into the temporary file. */
  method Convert(globbed: seq<string>, read: string -> seq<string>, decode: string -> Option<seq<bv8>>)
    returns (r: Result<Converted, ConvertError>)
    ensures r == ConvertOf(globbed, read, decode)
  {
    var dataFilePaths := SortedUnique(globbed);
    if dataFilePaths == [] {
      return Failure(IndexError);
    }
    var newest := dataFilePaths[0];
    dataFilePaths := dataFilePaths[1..];
    dataFilePaths := dataFilePaths + [newest];
    assert Rotate(SortedUnique(globbed)) == Success(dataFilePaths);
    var datalogkey: Option<seq<Field>> := None;
    var tempFile: seq<bv8> := [];
    var n := 0;
    while n < |dataFilePaths|
      invariant 0 <= n <= |dataFilePaths|
      invariant ReadAll(decode, read, dataFilePaths[..n]) == Success(Progress(datalogkey, tempFile))
    {
      assert dataFilePaths[..n + 1][..n] == dataFilePaths[..n];
      var next := ReadOneFile(decode, read(dataFilePaths[n]), Progress(datalogkey, tempFile));
      if next.Failure? {
        ReadAllFailurePersists(decode, read, dataFilePaths, n + 1);
        return Failure(next.error);
      }
      datalogkey, tempFile := next.value.datalogkey, next.value.data;
      n := n + 1;
    }
    assert dataFilePaths[..n] == dataFilePaths;
    if datalogkey.None? {
      return Failure(UnboundLocalError);
    }
    r := Success(Converted(datalogkey.value, tempFile));
  }

  /** A key line found in a prefix stays the first one. */
  lemma {:induction false} FirstKeyLineExtends(lines: seq<string>, n: nat)
    requires n <= |lines| && FirstKeyLine(lines[..n]).Some?
    ensures FirstKeyLine(lines) == FirstKeyLine(lines[..n])
    decreases |lines| - n
  {
    if n < |lines| {
      assert lines[..n + 1][..n] == lines[..n];
      FirstKeyLineExtends(lines, n + 1);
    } else {
      assert lines[..n] == lines;
    }
  }

  /** Once a prefix of the files fails, the whole conversion fails with that error. */
  lemma {:induction false} ReadAllFailurePersists(decode: string -> Option<seq<bv8>>, read: string -> seq<string>, paths: seq<string>, n: nat)
    requires n <= |paths| && ReadAll(decode, read, paths[..n]).Failure?
    ensures ReadAll(decode, read, paths) == ReadAll(decode, read, paths[..n])
    decreases |paths| - n
  {
    if n < |paths| {
      assert paths[..n + 1][..n] == paths[..n];
      ReadAllFailurePersists(decode, read, paths, n + 1);
    } else {
      assert paths[..n] == paths;
    }
  }

  /** The key line is the first: no line before it starts with "datalogkey:", and
      without one no line does. */
  lemma {:induction false} FirstKeyLineIsFirst(lines: seq<string>)
    ensures FirstKeyLine(lines).Some? ==> forall j | 0 <= j < FirstKeyLine(lines).value :: !IsKeyLine(lines[j])
    ensures FirstKeyLine(lines).None? ==> forall j | 0 <= j < |lines| :: !IsKeyLine(lines[j])
  {
    if lines != [] {
      var prefix := lines[..|lines| - 1];
      FirstKeyLineIsFirst(prefix);
      assert forall j | 0 <= j < |prefix| :: prefix[j] == lines[j];
    }
  }

  /** The data stop at the first line that is not a data line: whatever follows it
      never reaches the output. */
  lemma {:induction false} DataStopsAtNonDataLine(chunkOf: string -> Option<seq<bv8>>, lines: seq<string>, other: seq<string>, from: nat, stop: nat)
    requires from <= stop < |lines| && stop < |other|
    requires lines[..stop + 1] == other[..stop + 1]
    requires chunkOf(lines[stop]).None?
    ensures DataFrom(chunkOf, lines, from) == DataFrom(chunkOf, other, from)
    decreases stop - from
  {
    assert lines[from] == lines[..stop + 1][from] == other[..stop + 1][from] == other[from];
    if from < stop {
      DataStopsAtNonDataLine(chunkOf, lines, other, from + 1, stop);
    }
  }

  /** Reading one more file only appends to the bytes read so far. */
  lemma ReadFileAppends(decode: string -> Option<seq<bv8>>, lines: seq<string>, before: Progress)
    requires ReadFile(decode, lines, before).Success?
    ensures before.data <= ReadFile(decode, lines, before).value.data
    ensures FirstKeyLine(lines).None? ==> ReadFile(decode, lines, before).value == before
    ensures FirstKeyLine(lines).Some? ==>
      ReadFile(decode, lines, before).value.datalogkey == Some(ParseDatalogKey(lines[FirstKeyLine(lines).value]).value)
  {
    var found := FirstKeyLine(lines);
    if found.Some? {
      var key := ParseDatalogKey(lines[found.value]);
      var data := DataFrom(ChunkOf(decode), lines, found.value + 1);
      assert ReadFile(decode, lines, before) == Success(Progress(Some(key.value), before.data + data));
    }
  }

  /** The bytes of the earlier files come first: each file's data follows those of the
      files before it. */
  lemma {:induction false} ReadAllDataGrows(decode: string -> Option<seq<bv8>>, read: string -> seq<string>, paths: seq<string>, n: nat)
    requires n <= |paths| && ReadAll(decode, read, paths).Success?
    ensures ReadAll(decode, read, paths[..n]).Success?
    ensures ReadAll(decode, read, paths[..n]).value.data <= ReadAll(decode, read, paths).value.data
    decreases |paths| - n
  {
    if n == |paths| {
      assert paths[..n] == paths;
    } else {
      ReadAllDataGrows(decode, read, paths, n + 1);
      var prefix := paths[..n + 1];
      assert prefix[..n] == paths[..n];
      var before := ReadAll(decode, read, paths[..n]);
      if before.Failure? {
        ReadAllFailurePersists(decode, read, prefix, n);
        assert false;
      }
      ReadFileAppends(decode, read(paths[n]), before.value);
    }
  }

  // ---------------------------------------------------------------------------
  // Properties of the file order

  /** Inserting keeps exactly the elements of `s` and `x`. */
  lemma {:induction false} InsertDescendingElements(x: string, s: seq<string>)
    ensures forall y :: y in InsertDescending(x, s) <==> y == x || y in s
  {
    if s != [] && x != s[0] && !Below(s[0], x) {
      InsertDescendingElements(x, s[1..]);
      assert s == [s[0]] + s[1..];
    }
  }

  /** Inserting into a descending sequence keeps it descending; the new first element
      is `x` or the old one. */
  lemma {:induction false} InsertDescendingSorted(x: string, s: seq<string>)
    requires Descending(s)
    ensures var r := InsertDescending(x, s);
      Descending(r) && r != [] && (r[0] == x || (s != [] && r[0] == s[0]))
  {
    if s != [] && x != s[0] && !Below(s[0], x) {
      BelowTotal(x, s[0]);
      var t := InsertDescending(x, s[1..]);
      InsertDescendingSorted(x, s[1..]);
      var r := [s[0]] + t;
      assert Below(t[0], s[0]) by {
        if t[0] != x {
          assert Below(s[1], s[0]);
        }
      }
      forall i | 0 <= i < |r| - 1
        ensures Below(r[i + 1], r[i])
      {
        if i > 0 {
          assert r[i + 1] == t[i] && r[i] == t[i - 1];
        }
      }
    }
  }

  /** `sorted(set(xs), reverse=True)` holds the names of `xs`, each once, greatest first. */
  lemma {:induction false} SortedUniqueOrder(xs: seq<string>)
    ensures forall y :: y in SortedUnique(xs) <==> y in xs
    ensures Descending(SortedUnique(xs))
  {
    if xs != [] {
      var prefix := xs[..|xs| - 1];
      SortedUniqueOrder(prefix);
      InsertDescendingElements(xs[|xs| - 1], SortedUnique(prefix));
      InsertDescendingSorted(xs[|xs| - 1], SortedUnique(prefix));
      assert xs == prefix + [xs[|xs| - 1]];
    }
  }

  /** In a descending sequence every element is greater than every later one. */
  lemma {:induction false} DescendingStrict(s: seq<string>, i: nat, j: nat)
    requires Descending(s) && i < j < |s|
    ensures Below(s[j], s[i])
    decreases j - i
  {
    if i + 1 < j {
      DescendingStrict(s, i + 1, j);
      BelowTransitive(s[j], s[i + 1], s[i]);
    }
  }

  /** So no name appears twice. */
  lemma DescendingDistinct(s: seq<string>)
    requires Descending(s)
    ensures forall i, j | 0 <= i < j < |s| :: s[i] != s[j]
  {
    forall i, j | 0 <= i < j < |s|
      ensures s[i] != s[j]
    {
      DescendingStrict(s, i, j);
      BelowIrreflexive(s[i]);
    }
  }

  /** Rotating a descending sequence: the same names, each once, the greatest last and
      the others still descending. */
  lemma RotateDescending(s: seq<string>)
    requires s != [] && Descending(s)
    ensures var r := s[1..] + [s[0]];
      (forall y :: y in r <==> y in s)
      && (forall i, j | 0 <= i < j < |r| :: r[i] != r[j])
      && (forall i | 0 <= i < |r| - 1 :: Below(r[i], r[|r| - 1]))
      && Descending(r[..|r| - 1])
  {
    var r := s[1..] + [s[0]];
    assert s == [s[0]] + s[1..];
    forall i | 0 <= i < |r| - 1
      ensures Below(r[i], r[|r| - 1])
    {
      DescendingStrict(s, 0, i + 1);
    }
    forall i, j | 0 <= i < j < |r|
      ensures r[i] != r[j]
    {
      BelowIrreflexive(r[i]);
      if j < |r| - 1 {
        DescendingStrict(s, i + 1, j + 1);
      }
    }
    assert r[..|r| - 1] == s[1..];
  }

  /** The order `convert` reads the files in: each globbed name once, the greatest one
      (the name without a rotation number) last, the others greatest first. */
  lemma RotatedOrder(globbed: seq<string>)
    requires globbed != []
    ensures Rotate(SortedUnique(globbed)).Success?
    ensures var r := Rotate(SortedUnique(globbed)).value;
      (forall y :: y in r <==> y in globbed)
      && (forall i, j | 0 <= i < j < |r| :: r[i] != r[j])
      && (forall i | 0 <= i < |r| - 1 :: Below(r[i], r[|r| - 1]))
      && Descending(r[..|r| - 1])
  {
    var s := SortedUnique(globbed);
    SortedUniqueOrder(globbed);
    assert globbed[0] in s;
    RotateDescending(s);
    assert Rotate(s).value == s[1..] + [s[0]];
  }

  // ---------------------------------------------------------------------------
  // Converting a directory

  /** The literal parts of the pattern `alphabot_.*-data\.txt`. */
  const LogPrefix := "alphabot_"
  const LogSuffix := "-data.txt"

  /** The text of a name `'-data.' in file` looks for before deleting it. */
  const DataMarker := "-data."

  /** `re.match` of the rest of the pattern from index `i`: some later index starts
      "-data.txt" and the `.*` before it crosses no newline. */
  predicate MatchFrom(f: string, i: nat)
    decreases |f| - i
  {
    if i + |LogSuffix| > |f| then false
    else if ContainsAt(f, LogSuffix, i) then true
    else if f[i] == '\n' then false
    else MatchFrom(f, i + 1)
  }

  /** `pattern.match(f)`: anchored at the start, not at the end. */
  predicate IsDataLogName(f: string) {
    LogPrefix <= f && MatchFrom(f, |LogPrefix|)
  }

  /** What `.*` followed by "-data.txt" accepts from index `i`, stated without the
      scan: both directions. */
  lemma {:induction false} MatchFromMeans(f: string, i: nat)
    ensures MatchFrom(f, i) <==>
      exists j | i <= j :: ContainsAt(f, LogSuffix, j) && forall k | i <= k < j :: f[k] != '\n'
    decreases |f| - i
  {
    if i + |LogSuffix| > |f| {
      assert forall j | i <= j :: !ContainsAt(f, LogSuffix, j);
    } else if !ContainsAt(f, LogSuffix, i) {
      MatchFromMeans(f, i + 1);
      if f[i] == '\n' {
        forall j | i <= j && ContainsAt(f, LogSuffix, j)
          ensures exists k | i <= k < j :: f[k] == '\n'
        {
          assert j != i;
        }
      } else if MatchFrom(f, i + 1) {
        var j :| i + 1 <= j && ContainsAt(f, LogSuffix, j) && forall k | i + 1 <= k < j :: f[k] != '\n';
        assert forall k | i <= k < j :: f[k] != '\n';
      } else {
        forall j | i <= j && ContainsAt(f, LogSuffix, j)
          ensures exists k | i <= k < j :: f[k] == '\n'
        {
          assert j != i;
        }
      }
    }
  }

  /** Every data log the pattern picks has "-data." in its name. */
  lemma DataLogNameHasMarker(f: string)
    requires IsDataLogName(f)
    ensures Contains(f, DataMarker)
  {
    MatchFromMeans(f, |LogPrefix|);
    var j :| |LogPrefix| <= j && ContainsAt(f, LogSuffix, j) && forall k | |LogPrefix| <= k < j :: f[k] != '\n';
    assert f[j..j + |LogSuffix|] == LogSuffix;
    assert f[j..j + |DataMarker|] == f[j..j + |LogSuffix|][..|DataMarker|];
    assert LogSuffix[..|DataMarker|] == DataMarker;
    assert ContainsAt(f, DataMarker, j);
  }

  /** `[f for f in files if pattern.match(f)]`. */
  function DataLogs(files: seq<string>): (logs: seq<string>)
    ensures forall f :: f in logs <==> f in files && IsDataLogName(f)
  {
    if files == [] then []
    else
      var rest := DataLogs(files[..|files| - 1]);
      var f := files[|files| - 1];
      assert files == files[..|files| - 1] + [f];
      if IsDataLogName(f) then rest + [f] else rest
  }

  /** The data logs are converted in listing order: they are the listing read at the indices of
      the matching names. */
  lemma {:induction false} DataLogsInOrder(files: seq<string>)
    ensures Collections.Picks(DataLogs(files), files, Collections.Where(files, IsDataLogName))
  {
    if files != [] {
      var prefix := files[..|files| - 1];
      DataLogsInOrder(prefix);
      Collections.PicksSnoc(DataLogs(prefix), files, Collections.Where(prefix, IsDataLogName));
      Collections.WhereSnoc(files, IsDataLogName);
    }
  }

  /** A name with "-data." in it. */
  predicate HasDataMarker(f: string) {
    Contains(f, DataMarker)
  }

  /** The files the deletion loop removes: every listed name with "-data." in it. */
  function DataFiles(files: seq<string>): (removed: seq<string>)
    ensures forall f :: f in removed <==> f in files && HasDataMarker(f)
  {
    if files == [] then []
    else
      var rest := DataFiles(files[..|files| - 1]);
      var f := files[|files| - 1];
      assert files == files[..|files| - 1] + [f];
      if HasDataMarker(f) then rest + [f] else rest
  }

  /** The files are removed in listing order. */
  lemma {:induction false} DataFilesInOrder(files: seq<string>)
    ensures Collections.Picks(DataFiles(files), files, Collections.Where(files, HasDataMarker))
  {
    if files != [] {
      var prefix := files[..|files| - 1];
      DataFilesInOrder(prefix);
      Collections.PicksSnoc(DataFiles(prefix), files, Collections.Where(prefix, HasDataMarker));
      Collections.WhereSnoc(files, HasDataMarker);
    }
  }

  /** One converted data log and the frame written next to it. */
  datatype Csv = Csv(file: string, frame: Converted)

  /** What a run over a directory leaves: the frames in order and the removed files. */
  datatype Outcome = Outcome(csvs: seq<Csv>, removed: seq<string>)

  /** `convert` of each log in order; the first exception ends the run. `globOf` gives
      the names the glob of each log's path finds. */
  function ConvertEach(logs: seq<string>, globOf: string -> seq<string>, read: string -> seq<string>, decode: string -> Option<seq<bv8>>): (r: Result<seq<Csv>, ConvertError>)
    ensures r.Success? ==> |r.value| == |logs|
  {
    if logs == [] then Success([])
    else
      match ConvertEach(logs[..|logs| - 1], globOf, read, decode)
      case Failure(e) => Failure(e)
      case Success(csvs) =>
        var f := logs[|logs| - 1];
        match ConvertOf(globOf(f), read, decode)
        case Failure(e) => Failure(e)
        case Success(frame) => Success(csvs + [Csv(f, frame)])
  }

  /** `convert_all_datalogs_to_csv` on the listing `files`. */
  function ConvertAllOf(files: seq<string>, removeSourceFiles: bool, globOf: string -> seq<string>, read: string -> seq<string>, decode: string -> Option<seq<bv8>>): Result<Outcome, ConvertError> {
    match ConvertEach(DataLogs(files), globOf, read, decode)
    case Failure(e) => Failure(e)
    case Success(csvs) => Success(Outcome(csvs, if removeSourceFiles then DataFiles(files) else []))
  }

  /** `convert_all_datalogs_to_csv`: converts the data logs of the listing, then, when
      asked, deletes every data file of the listing. An exception from `convert`
      escapes before anything is deleted. */
  method ConvertAllDatalogsToCsv(files: seq<string>, removeSourceFiles: bool, globOf: string -> seq<string>,
                                 read: string -> seq<string>, decode: string -> Option<seq<bv8>>)
    returns (r: Result<Outcome, ConvertError>)
    ensures r == ConvertAllOf(files, removeSourceFiles, globOf, read, decode)
  {
    var matchingFiles := DataLogs(files);
    var csvs: seq<Csv> := [];
    var n := 0;
    while n < |matchingFiles|
      invariant 0 <= n <= |matchingFiles|
      invariant ConvertEach(matchingFiles[..n], globOf, read, decode) == Success(csvs)
    {
      assert matchingFiles[..n + 1][..n] == matchingFiles[..n];
      var frame := Convert(globOf(matchingFiles[n]), read, decode);
      if frame.Failure? {
        ConvertEachFailurePersists(matchingFiles, globOf, read, decode, n + 1);
        return Failure(frame.error);
      }
      csvs := csvs + [Csv(matchingFiles[n], frame.value)];
      n := n + 1;
    }
    assert matchingFiles[..n] == matchingFiles;
    var removed: seq<string> := [];
    if removeSourceFiles {
      var m := 0;
      while m < |files|
        invariant 0 <= m <= |files|
        invariant removed == DataFiles(files[..m])
      {
        assert files[..m + 1][..m] == files[..m];
        if Contains(files[m], DataMarker) {
          removed := removed + [files[m]];
        }
        m := m + 1;
      }
      assert files[..m] == files;
    }
    r := Success(Outcome(csvs, removed));
  }

  /** Once a prefix of the logs fails, the run fails with that error. */
  lemma {:induction false} ConvertEachFailurePersists(logs: seq<string>, globOf: string -> seq<string>, read: string -> seq<string>, decode: string -> Option<seq<bv8>>, n: nat)
    requires n <= |logs| && ConvertEach(logs[..n], globOf, read, decode).Failure?
    ensures ConvertEach(logs, globOf, read, decode) == ConvertEach(logs[..n], globOf, read, decode)
    decreases |logs| - n
  {
    if n < |logs| {
      assert logs[..n + 1][..n] == logs[..n];
      ConvertEachFailurePersists(logs, globOf, read, decode, n + 1);
    } else {
      assert logs[..n] == logs;
    }
  }

  /** The run succeeds exactly when every log converts, and then the i-th frame is the
      i-th log's. */
  lemma {:induction false} ConvertEachAll(logs: seq<string>, globOf: string -> seq<string>, read: string -> seq<string>, decode: string -> Option<seq<bv8>>)
    ensures ConvertEach(logs, globOf, read, decode).Success? <==>
      forall i | 0 <= i < |logs| :: ConvertOf(globOf(logs[i]), read, decode).Success?
    ensures ConvertEach(logs, globOf, read, decode).Success? ==>
      forall i | 0 <= i < |logs| :: ConvertEach(logs, globOf, read, decode).value[i] ==
        Csv(logs[i], ConvertOf(globOf(logs[i]), read, decode).value)
  {
    if logs != [] {
      var n := |logs|;
      var prefix := logs[..n - 1];
      ConvertEachAll(prefix, globOf, read, decode);
      assert forall i | 0 <= i < |prefix| :: prefix[i] == logs[i];
      var before, last := ConvertEach(prefix, globOf, read, decode), ConvertOf(globOf(logs[n - 1]), read, decode);
      if before.Failure? {
        assert ConvertEach(logs, globOf, read, decode).Failure?;
      } else if last.Failure? {
        assert ConvertEach(logs, globOf, read, decode).Failure?;
      } else {
        assert ConvertEach(logs, globOf, read, decode) == Success(before.value + [Csv(logs[n - 1], last.value)]);
      }
    }
  }

  /** With deletion on, a successful run removes every log it converted (and the
      rotated files beside them, which the pattern itself does not pick). */
  lemma ConvertedLogsAreRemoved(files: seq<string>, globOf: string -> seq<string>, read: string -> seq<string>, decode: string -> Option<seq<bv8>>)
    requires ConvertAllOf(files, true, globOf, read, decode).Success?
    ensures var outcome := ConvertAllOf(files, true, globOf, read, decode).value;
      forall c | c in outcome.csvs :: c.file in outcome.removed
  {
    var logs := DataLogs(files);
    var outcome := ConvertAllOf(files, true, globOf, read, decode).value;
    ConvertEachAll(logs, globOf, read, decode);
    forall c | c in outcome.csvs
      ensures c.file in outcome.removed
    {
      var i :| 0 <= i < |outcome.csvs| && outcome.csvs[i] == c;
      DataLogNameHasMarker(logs[i]);
    }
  }
}
