/**
 * The correlator's move lines read back by the summary readers: a line written by
 * `parse_alphabot_summary` (the logfisher parse_logs.py) gives back, under
 * `line.split()`, the timestamp, source and destination it was written from, as long
 * as none of them contains whitespace and the timestamp is a date and a time.
 */
module RoundTrip {
  import opened Wrappers
  import opened Text
  import opened AlphabotSummary
  import opened MoveLines

  /** A word followed by some whitespace and then by `rest`: the word, then the words of `rest`. */
  lemma WordThenSpaces(w: string, sp: string, rest: string)
    requires w != [] && NoSpace(w) && sp != [] && AllSpace(sp)
    ensures Words(w + sp + rest) == [w] + Words(rest)
  {
    assert w + sp + rest == w + (sp + rest);
    WordsOfWord(w, sp + rest);
    WordsAfterSpaces(sp, rest);
  }

  /** A field padded to seventeen characters and then a space is the field and some whitespace. */
  lemma PaddedField(w: string)
    ensures exists sp :: LJust(w, 17) + " " == w + sp && sp != [] && AllSpace(sp)
  {
    LJustOfWord(w, 17);
    var pad :| LJust(w, 17) == w + pad && AllSpace(pad);
    assert LJust(w, 17) + " " == w + (pad + " ");
  }

  /** Five words, each followed by whitespace, then anything: those five come first. */
  lemma {:induction false} FiveWords(w0: string, w1: string, w2: string, w3: string, w4: string,
                                     sp2: string, sp4: string, tail: string,
                                     x0: string, x1: string, x2: string, x3: string, x4: string)
    requires w0 != [] && NoSpace(w0) && w1 != [] && NoSpace(w1) && w2 != [] && NoSpace(w2)
    requires w3 != [] && NoSpace(w3) && w4 != [] && NoSpace(w4)
    requires sp2 != [] && AllSpace(sp2) && sp4 != [] && AllSpace(sp4)
    requires x4 == w4 + sp4 + tail && x3 == w3 + " " + x4 && x2 == w2 + sp2 + x3
    requires x1 == w1 + " " + x2 && x0 == w0 + " " + x1
    ensures |Words(x0)| >= 5
    ensures Words(x0)[0] == w0 && Words(x0)[1] == w1 && Words(x0)[2] == w2
    ensures Words(x0)[3] == w3 && Words(x0)[4] == w4
  {
    WordThenSpaces(w4, sp4, tail);
    WordThenSpaces(w3, " ", x4);
    WordThenSpaces(w2, sp2, x3);
    WordThenSpaces(w1, " ", x2);
    WordThenSpaces(w0, " ", x1);
    var a0, a1, a2, a3, a4 := Words(x0), Words(x1), Words(x2), Words(x3), Words(x4);
    assert a4[0] == w4;
    assert a3[0] == w3 && a3[1] == a4[0];
    assert a2[0] == w2 && a2[1] == a3[0] && a2[2] == a3[1];
    assert a1[0] == w1 && a1[1] == a2[0] && a1[2] == a2[1] && a1[3] == a2[2];
    assert a0[0] == w0 && a0[1] == a1[0] && a0[2] == a1[1] && a0[3] == a1[2] && a0[4] == a1[3];
  }

  /** A move line, regrouped: the five fields with what separates them. */
  lemma MoveLineShape(date: string, time: string, src: string, dest: string, status: string,
                      sp2: string, sp4: string)
    requires LJust(src, 17) + " " == src + sp2 && LJust(dest, 17) + " " == dest + sp4
    ensures MoveLine(Move(date + " " + time, src, dest), status) ==
      date + " " + (time + " " + (src + sp2 + ("->" + " " + (dest + sp4 + ("| " + status)))))
  {
    var tail := "| " + status;
    assert LJust(dest, 17) + " | " + status == dest + sp4 + tail;
    assert LJust(src, 17) + " -> " == src + sp2 + "-> ";
  }

  /** The first five words of a move line: date, time, source, the arrow and destination. */
  lemma MoveLineWords(date: string, time: string, src: string, dest: string, status: string)
    requires date != [] && NoSpace(date) && time != [] && NoSpace(time)
    requires src != [] && NoSpace(src) && dest != [] && NoSpace(dest)
    ensures var ws := Words(MoveLine(Move(date + " " + time, src, dest), status));
      |ws| >= 5 && ws[0] == date && ws[1] == time && ws[2] == src && ws[3] == "->" && ws[4] == dest
  {
    PaddedField(src);
    var sp2 :| LJust(src, 17) + " " == src + sp2 && sp2 != [] && AllSpace(sp2);
    PaddedField(dest);
    var sp4 :| LJust(dest, 17) + " " == dest + sp4 && sp4 != [] && AllSpace(sp4);
    MoveLineShape(date, time, src, dest, status, sp2, sp4);
    var tail := "| " + status;
    var x4 := dest + sp4 + tail;
    var x3 := "->" + " " + x4;
    var x2 := src + sp2 + x3;
    var x1 := time + " " + x2;
    var x0 := date + " " + x1;
    FiveWords(date, time, src, "->", dest, sp2, sp4, tail, x0, x1, x2, x3, x4);
  }

  /**
   * Reading a move line back: the readers take it for a move line, and its words give
   * back the timestamp, source and destination it was written from.
   */
  lemma MoveLineRoundTrip(date: string, time: string, src: string, dest: string, status: string)
    requires date != [] && NoSpace(date) && time != [] && NoSpace(time)
    requires src != [] && NoSpace(src) && dest != [] && NoSpace(dest)
    ensures var line := MoveLine(Move(date + " " + time, src, dest), status);
      && HasArrow(line)
      && MoveTokens(line) == Success(Tokens(date + " " + time, src, dest))
  {
    MoveLineHasArrow(Move(date + " " + time, src, dest), status);
    MoveLineWords(date, time, src, dest, status);
  }

  /** Every move line the correlator writes contains the arrow the readers look for. */
  lemma MoveLineHasArrow(m: Move, status: string)
    ensures HasArrow(MoveLine(m, status))
  {
    var before := m.timestamp + " " + LJust(m.src, 17) + " ";
    var after := " " + LJust(m.dest, 17) + " | " + status;
    assert MoveLine(m, status) == before + "->" + after;
    ContainsInMiddle(before, "->", after);
  }

  /** The entry a reader builds from such a line carries the move's own fields. */
  lemma MoveEntryRoundTrip(moveType: (string, string) -> string,
                           date: string, time: string, src: string, dest: string, status: string)
    requires date != [] && NoSpace(date) && time != [] && NoSpace(time)
    requires src != [] && NoSpace(src) && dest != [] && NoSpace(dest)
    ensures var line := MoveLine(Move(date + " " + time, src, dest), status);
      StandardEntry(moveType, line) ==
        Success(MoveEntry(date + " " + time, src, dest, GetStatus(line), Orientation(src, dest), moveType(src, dest)))
  {
    MoveLineRoundTrip(date, time, src, dest, status);
  }
}
