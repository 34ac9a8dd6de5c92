/**
 * The device-message telemetry decoder and its constant tables
 * (`TELEMETRY_MAP`, `VIZIER_TELEMETRY_FUNCTIONS`, `get_telemetry`).
 * A telemetry block is a run of space-separated hex byte tokens; of each token
 * only the second character is read, as one hex nibble, and byte `i` lights the
 * labels of row `i` of the table for bits 8, 4, 2 and 1, in that order.
 */
module Telemetry {
  import opened Wrappers
  import opened Text

  /** `TELEMETRY_MAP`: eight rows of four labels, for bits 8, 4, 2, 1 of each byte. */
  const TelemetryMap: seq<seq<string>> := [
    ["ONLINE", "HOMED", "TOTE PRES", "LOW CONFIDENCE TOTE"],
    ["SAFE TO AUTO HOME", "BRAKE ON", "E-STOP 1", "E-STOP 0"],
    ["OPERATION", "LOADING", "UNLOADING", "TRAVELING"],
    ["ENGAGE FAILED", "DISENGAGE FAILED", "LOW CONFIDENCE MOVE", "HOMING"],
    ["PINIONS OUT", "PINIONS IN", "WHEELS OUT", "WHEELS IN"],
    ["DEINIT", "LP LEFT", "LP MID", "LP RIGHT"],
    ["RESERVED", "RESERVED", "RESERVED", "RESERVED"],
    ["SEND GYRO", "SEND PROX", "SEND TEMP", "SEND SSID"]
  ]

  /** `VIZIER_TELEMETRY_FUNCTIONS`: the message types whose lines carry a telemetry block. */
  const VizierTelemetryFunctions: seq<string> :=
    ["01 08", "01 42", "06 41", "40 02", "c0 03", "c0 05", "40 0c", "c0 0d"]

  /** A lower-case "xx yy" message-type code, as the allow-list spells them. */
  predicate IsLowerHexPair(code: string) {
    |code| == 5 && code[2] == ' ' &&
    forall i :: 0 <= i < 5 && i != 2 ==> ('0' <= code[i] <= '9' || 'a' <= code[i] <= 'f')
  }

  lemma TableShapes()
    ensures |TelemetryMap| == 8 && forall i :: 0 <= i < 8 ==> |TelemetryMap[i]| == 4
    ensures |VizierTelemetryFunctions| == 8
    ensures forall i :: 0 <= i < 8 ==> IsLowerHexPair(VizierTelemetryFunctions[i])
  {
  }

  /** Why decoding a block raised: the token at that index is shorter than two characters
      (IndexError on `c[1]`) or its second character is not a hex digit (ValueError). */
  datatype DecodeError = IndexError(token: nat) | ValueError(token: nat)

  /** `int(c[1], 16)` for one token. */
  function Nibble(token: string, index: nat): (r: Result<nat, DecodeError>)
    ensures r.Success? ==> |token| >= 2 && HexValue(token[1]) == Some(r.value) && r.value < 16
    ensures r.Failure? ==>
      || (|token| < 2 && r.error == IndexError(index))
      || (|token| >= 2 && HexValue(token[1]).None? && r.error == ValueError(index))
  {
    if |token| < 2 then Failure(IndexError(index))
    else match HexValue(token[1])
      case Some(v) => Success(v)
      case None => Failure(ValueError(index))
  }

  /** `[int(c[1], 16) for c in tokens]`: every token is converted, left to right, before any is used. */
  function Nibbles(tokens: seq<string>): (r: Result<seq<nat>, DecodeError>)
    ensures r.Success? ==> |r.value| == |tokens| && forall i :: 0 <= i < |tokens| ==> r.value[i] < 16
  {
    if tokens == [] then Success([])
    else match Nibbles(tokens[..|tokens| - 1])
      case Failure(e) => Failure(e)
      case Success(prefix) =>
        match Nibble(tokens[|tokens| - 1], |tokens| - 1)
        case Failure(e) => Failure(e)
        case Success(v) => Success(prefix + [v])
  }

  /** `byte & bit != 0` for a single-bit mask. */
  predicate BitSet(b: nat, bit: nat)
    requires bit > 0
  {
    (b / bit) % 2 == 1
  }

  /** The labels one byte contributes from its row, for bits 8, 4, 2, 1 in that order. */
  function BitLabels(row: seq<string>, b: nat): (labels: seq<string>)
    requires |row| == 4
    ensures |labels| <= 4
    ensures b == 15 ==> labels == row
    ensures b == 0 ==> labels == []
  {
    (if BitSet(b, 8) then [row[0]] else []) +
    (if BitSet(b, 4) then [row[1]] else []) +
    (if BitSet(b, 2) then [row[2]] else []) +
    (if BitSet(b, 1) then [row[3]] else [])
  }

  /** The number of ones in the binary digits of `b`. */
  function PopCount(b: nat): nat {
    if b == 0 then 0 else b % 2 + PopCount(b / 2)
  }

  /** A nibble lights one label per binary one: as many labels as set bits. */
  lemma BitLabelsCount(row: seq<string>, b: nat)
    requires |row| == 4 && b < 16
    ensures |BitLabels(row, b)| == PopCount(b)
  {
    var one := (a: bool) => if a then 1 else 0;
    assert |BitLabels(row, b)| == one(BitSet(b, 8)) + one(BitSet(b, 4)) + one(BitSet(b, 2)) + one(BitSet(b, 1));
    assert b / 2 / 2 == b / 4 && b / 4 / 2 == b / 8 && b / 8 / 2 == 0;
    assert PopCount(b / 8) == b / 8 % 2;
    assert PopCount(b / 4) == b / 4 % 2 + b / 8 % 2;
    assert PopCount(b / 2) == b / 2 % 2 + b / 4 % 2 + b / 8 % 2;
  }

  function Min(a: nat, b: nat): nat {
    if a < b then a else b
  }

  /** The labels of the first `k` bytes, row-major. */
  function Decoded(bytes: seq<nat>, k: nat): (labels: seq<string>)
    requires k <= |bytes| && k <= |TelemetryMap|
    ensures |labels| <= 4 * k
  {
    if k == 0 then [] else Decoded(bytes, k - 1) + BitLabels(TelemetryMap[k - 1], bytes[k - 1])
  }

  /** `zip(telemetry_bytes, TELEMETRY_MAP)` stops at the shorter: at most eight bytes count. */
  function LabelsOf(bytes: seq<nat>): seq<string> {
    Decoded(bytes, Min(|bytes|, |TelemetryMap|))
  }

  /** `get_telemetry(block)` as a value: decode every token, then read at most eight bytes. */
  function TelemetryOf(block: string): Result<seq<string>, DecodeError> {
    match Nibbles(Words(block))
    case Failure(e) => Failure(e)
    case Success(bytes) => Success(LabelsOf(bytes))
  }

  lemma {:induction false} NibblesFailurePersists(tokens: seq<string>, i: nat)
    requires i <= |tokens| && Nibbles(tokens[..i]).Failure?
    ensures Nibbles(tokens) == Nibbles(tokens[..i])
    decreases |tokens| - i
  {
    if i < |tokens| {
      assert tokens[..i + 1][..i] == tokens[..i];
      NibblesFailurePersists(tokens, i + 1);
    } else {
      assert tokens[..i] == tokens;
    }
  }

  /** The list comprehension of `get_telemetry`: one nibble per token, or the first error. */
  method DecodeNibbles(tokens: seq<string>) returns (r: Result<seq<nat>, DecodeError>)
    ensures r == Nibbles(tokens)
  {
    var bytes: seq<nat> := [];
    var i := 0;
    while i < |tokens|
      invariant 0 <= i <= |tokens|
      invariant Nibbles(tokens[..i]) == Success(bytes)
    {
      assert tokens[..i + 1][..i] == tokens[..i];
      var c := tokens[i];
      if |c| < 2 {
        NibblesFailurePersists(tokens, i + 1);
        return Failure(IndexError(i));
      }
      var v := HexValue(c[1]);
      if v.None? {
        NibblesFailurePersists(tokens, i + 1);
        return Failure(ValueError(i));
      }
      bytes := bytes + [v.value];
      i := i + 1;
    }
    assert tokens[..i] == tokens;
    r := Success(bytes);
  }

  /** The four `if byte & bit: telem.append(...)` tests of one loop iteration. */
  method AppendBitLabels(telem: seq<string>, row: seq<string>, b: nat) returns (t: seq<string>)
    requires |row| == 4
    ensures t == telem + BitLabels(row, b)
  {
    t := telem;
    if b / 8 % 2 == 1 {
      t := t + [row[0]];
    }
    if b / 4 % 2 == 1 {
      t := t + [row[1]];
    }
    if b / 2 % 2 == 1 {
      t := t + [row[2]];
    }
    if b % 2 == 1 {
      t := t + [row[3]];
    }
  }

  /** `get_telemetry`: the decoded labels of `block`, or the error it raises. */
  method GetTelemetry(block: string) returns (r: Result<seq<string>, DecodeError>)
    ensures r == TelemetryOf(block)
    ensures r.Success? ==> |r.value| <= 32
  {
    var decoded := DecodeNibbles(Words(block));
    if decoded.Failure? {
      return Failure(decoded.error);
    }
    var bytes := decoded.value;
    assert TelemetryOf(block) == Success(LabelsOf(bytes));
    TableShapes();
    var telem: seq<string> := [];
    var k := 0;
    while k < |bytes| && k < |TelemetryMap|
      invariant 0 <= k <= Min(|bytes|, |TelemetryMap|)
      invariant telem == Decoded(bytes, k)
    {
      assert |TelemetryMap[k]| == 4;
      telem := AppendBitLabels(telem, TelemetryMap[k], bytes[k]);
      k := k + 1;
    }
    assert k == Min(|bytes|, |TelemetryMap|);
    r := Success(telem);
  }

  /** Each byte lights at most four labels, and at most eight bytes are read. */
  lemma TelemetryBound(block: string)
    requires TelemetryOf(block).Success?
    ensures |TelemetryOf(block).value| <= 4 * Min(|Words(block)|, 8)
  {
  }

  /** The rows, in order, concatenated. */
  function Flatten(rows: seq<seq<string>>): seq<string> {
    if rows == [] then [] else Flatten(rows[..|rows| - 1]) + rows[|rows| - 1]
  }

  lemma {:induction false} FlattenLength(rows: seq<seq<string>>)
    requires forall j :: 0 <= j < |rows| ==> |rows[j]| == 4
    ensures |Flatten(rows)| == 4 * |rows|
  {
    if rows != [] {
      FlattenLength(rows[..|rows| - 1]);
    }
  }

  lemma {:induction false} FlattenRow(rows: seq<seq<string>>, i: nat)
    requires forall j :: 0 <= j < |rows| ==> |rows[j]| == 4
    requires i < |rows|
    ensures |Flatten(rows)| == 4 * |rows|
    ensures Flatten(rows)[4 * i..4 * i + 4] == rows[i]
  {
    var n := |rows|;
    var p := rows[..n - 1];
    FlattenLength(rows);
    FlattenLength(p);
    assert Flatten(rows) == Flatten(p) + rows[n - 1];
    if i < n - 1 {
      FlattenRow(p, i);
      assert p[i] == rows[i];
      assert Flatten(rows)[4 * i..4 * i + 4] == Flatten(p)[4 * i..4 * i + 4];
    } else {
      assert |Flatten(p)| == 4 * i;
    }
  }

  /** All 32 labels of the table, row-major; the seventh row is the four "RESERVED". */
  lemma AllLabelsShape()
    ensures |Flatten(TelemetryMap)| == 32
    ensures Flatten(TelemetryMap)[24..28] == ["RESERVED", "RESERVED", "RESERVED", "RESERVED"]
  {
    TableShapes();
    FlattenRow(TelemetryMap, 6);
  }

  /** Decoding reads only the second character of each token. */
  lemma {:induction false} NibblesSecondCharOnly(t1: seq<string>, t2: seq<string>)
    requires |t1| == |t2|
    requires forall i :: 0 <= i < |t1| ==> (|t1[i]| >= 2 <==> |t2[i]| >= 2)
    requires forall i :: 0 <= i < |t1| && |t1[i]| >= 2 && |t2[i]| >= 2 ==> t1[i][1] == t2[i][1]
    ensures Nibbles(t1) == Nibbles(t2)
  {
    if t1 != [] {
      NibblesSecondCharOnly(t1[..|t1| - 1], t2[..|t2| - 1]);
    }
  }

  /** A block is decoded from the second character of each token alone. */
  lemma OnlySecondCharacterMatters(b1: string, b2: string)
    requires |Words(b1)| == |Words(b2)|
    requires forall i :: 0 <= i < |Words(b1)| ==> (|Words(b1)[i]| >= 2 <==> |Words(b2)[i]| >= 2)
    requires forall i :: 0 <= i < |Words(b1)| && |Words(b1)[i]| >= 2 && |Words(b2)[i]| >= 2 ==>
      Words(b1)[i][1] == Words(b2)[i][1]
    ensures TelemetryOf(b1) == TelemetryOf(b2)
  {
    NibblesSecondCharOnly(Words(b1), Words(b2));
  }

  lemma {:induction false} NibblesOfUniform(tokens: seq<string>, c: char, v: nat)
    requires forall i :: 0 <= i < |tokens| ==> |tokens[i]| >= 2 && tokens[i][1] == c
    requires HexValue(c) == Some(v)
    ensures Nibbles(tokens) == Success(seq(|tokens|, _ => v))
  {
    if tokens != [] {
      var n := |tokens|;
      NibblesOfUniform(tokens[..n - 1], c, v);
      assert tokens[..n - 1][..n - 1] == tokens[..n - 1];
      assert Nibble(tokens[n - 1], n - 1) == Success(v);
      assert Nibbles(tokens) == Success(seq(n - 1, _ => v) + [v]);
      assert seq(n - 1, _ => v) + [v] == seq(n, _ => v);
    } else {
      assert seq(0, _ => v) == [];
    }
  }

  lemma {:induction false} DecodedAllSet(bytes: seq<nat>, k: nat)
    requires k <= |bytes| && k <= 8
    requires forall i :: 0 <= i < |bytes| ==> bytes[i] == 15
    ensures Decoded(bytes, k) == Flatten(TelemetryMap[..k])
  {
    if k > 0 {
      DecodedAllSet(bytes, k - 1);
      assert TelemetryMap[..k][..k - 1] == TelemetryMap[..k - 1];
    }
  }

  /** Eight tokens whose second character is F (such as "3F") light all 32 labels, row-major. */
  lemma AllBitsSet(block: string)
    requires |Words(block)| == 8
    requires forall i :: 0 <= i < 8 ==> |Words(block)[i]| >= 2 && Words(block)[i][1] == 'F'
    ensures TelemetryOf(block) == Success(Flatten(TelemetryMap))
  {
    var tokens := Words(block);
    NibblesOfUniform(tokens, 'F', 15);
    var bytes: seq<nat> := seq(8, _ => 15);
    assert Nibbles(tokens) == Success(bytes);
    DecodedAllSet(bytes, 8);
    assert TelemetryMap[..8] == TelemetryMap;
    assert LabelsOf(bytes) == Decoded(bytes, 8);
  }

  lemma {:induction false} DecodedZero(bytes: seq<nat>, k: nat)
    requires k <= |bytes| && k <= 8
    requires forall i :: 0 <= i < |bytes| ==> bytes[i] == 0
    ensures Decoded(bytes, k) == []
  {
    if k > 0 {
      DecodedZero(bytes, k - 1);
    }
  }

  /** Tokens whose second character is 0 (such as "30") light nothing. */
  lemma NoBitsSet(block: string)
    requires forall i :: 0 <= i < |Words(block)| ==> |Words(block)[i]| >= 2 && Words(block)[i][1] == '0'
    ensures TelemetryOf(block) == Success([])
  {
    var n := |Words(block)|;
    NibblesOfUniform(Words(block), '0', 0);
    DecodedZero(seq(n, _ => 0), Min(n, 8));
  }

  lemma {:induction false} DecodedPrefix(bytes: seq<nat>, more: seq<nat>, k: nat)
    requires k <= |bytes| && k <= 8
    ensures Decoded(bytes + more, k) == Decoded(bytes, k)
  {
    if k > 0 {
      DecodedPrefix(bytes, more, k - 1);
    }
  }

  /** Bytes after the eighth are converted (and may raise) but add no label. */
  lemma BytesAfterEighthIgnored(bytes: seq<nat>, more: seq<nat>)
    requires |bytes| >= 8
    ensures LabelsOf(bytes + more) == LabelsOf(bytes)
  {
    DecodedPrefix(bytes, more, 8);
  }

  /** A token whose second character is not a hex digit makes the whole decode raise,
      even when it lies beyond the eighth byte. */
  lemma BadDigitRaises(block: string, i: nat)
    requires i < |Words(block)| && |Words(block)[i]| >= 2 && HexValue(Words(block)[i][1]).None?
    ensures TelemetryOf(block).Failure?
  {
    var tokens := Words(block);
    assert Nibbles(tokens[..i + 1]).Failure? by {
      assert tokens[..i + 1][..i] == tokens[..i];
    }
    NibblesFailurePersists(tokens, i + 1);
  }
}
