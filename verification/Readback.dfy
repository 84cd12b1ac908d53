/**
 * internal/kube/table.go, read back from what it writes: cut into lines, the output is the
 * header, one line for every printed row in order, and the note about the hidden rows; and every
 * line holds the cells of its row at their columns, spaces between them, and nothing else.
 */
module Readback {
  import opened Sequences
  import opened Rendering
  import opened Tables
  import opened Text
  import Ansi

  // ---- one line ----------------------------------------------------------------------------------

  ghost predicate Blank(line: string, a: nat, b: nat) {
    a <= b <= |line| && forall k :: a <= k < b ==> line[k] == ' '
  }

  /** The line shows cell `i` at its column; spaces follow up to the next one, and after the last
      cell nothing. */
  ghost predicate ShowsCell(line: string, ws: seq<nat>, cells: Row, i: nat)
    requires i < |ws|
  {
    var text := Ansi.Visible(if i < |cells| then cells[i] else "");
    && StandsAt(line, Offset(ws, i), text)
    && if i + 1 < |ws| then |text| <= ws[i] && Offset(ws, i + 1) == Offset(ws, i) + ws[i] + 2
                            && Blank(line, Offset(ws, i) + |text|, Offset(ws, i + 1))
       else |line| == Offset(ws, i) + |text|
  }

  ghost predicate ShowsRow(line: string, ws: seq<nat>, cells: Row) {
    && (forall i :: 0 <= i < |ws| ==> ShowsCell(line, ws, cells, i))
    && (ws == [] ==> line == "")
  }

  /** A line without its line break. */
  function Body(enabled: bool, header: bool, ws: seq<nat>, cells: Row): string
    requires Fits(ws, cells)
  {
    ShownFits(enabled, header, ws, cells);
    Columns(Fields(ws, Shown(enabled, header, |ws|, cells)), |ws|)
  }

  lemma LastFieldStrips(ws: seq<nat>, cells: Row)
    requires ws != [] && Fits(ws, cells)
    ensures Ansi.Strip(Fields(ws, cells)[|ws| - 1]) == Seen(ws, cells)[|ws| - 1]
  {
    var last := |ws| - 1;
    assert Spaces(0) == "" && Cell(cells, last) + "" == Cell(cells, last);
    assert Fields(ws, cells)[last] == Cell(cells, last);
    assert Seen(ws, cells)[last] == Ansi.Strip(Cell(cells, last)) + "" == Ansi.Strip(Cell(cells, last));
  }

  lemma ColumnsStripAlone(ws: seq<nat>, cells: Row)
    requires Fits(ws, cells)
    ensures Ansi.Strip(Columns(Fields(ws, cells), |ws|)) == Columns(Seen(ws, cells), |ws|)
  {
    if ws != [] {
      var f := (s: string) => Ansi.Strip(s);
      var last := |ws| - 1;
      FieldsShowAs(ws, cells, f);
      ColumnsAligned(f, Fields(ws, cells), Seen(ws, cells), last, Fields(ws, cells)[last]);
      LastFieldStrips(ws, cells);
    }
  }

  lemma BodyStrips(enabled: bool, header: bool, ws: seq<nat>, cells: Row)
    requires Fits(ws, cells)
    ensures Ansi.Visible(Body(enabled, header, ws, cells)) == Columns(Seen(ws, cells), |ws|)
  {
    var shown := Shown(enabled, header, |ws|, cells);
    SeenShown(enabled, header, ws, cells);
    ColumnsStripAlone(ws, shown);
    Ansi.StripIsVisible(Body(enabled, header, ws, cells));
  }

  lemma {:induction false} ColumnsBeyond(fields: seq<string>, i: nat, n: nat) returns (tail: string)
    requires i < n <= |fields|
    ensures Columns(fields, n) == Columns(fields, i) + (fields[i] + tail)
    ensures n == i + 1 ==> tail == ""
    decreases n - i
  {
    if n == i + 1 {
      tail := "";
      assert fields[i] + "" == fields[i];
    } else {
      var before := ColumnsBeyond(fields, i, n - 1);
      tail := before + fields[n - 1];
      Associate(Columns(fields, i), fields[i] + before, fields[n - 1]);
      Associate(fields[i], before, fields[n - 1]);
    }
  }

  lemma PieceAt(before: string, text: string, pad: string, tail: string)
    requires forall c :: c in pad ==> c == ' '
    ensures var line := before + (text + pad + tail);
      StandsAt(line, |before|, text) && Blank(line, |before| + |text|, |before| + |text| + |pad|)
  {
    var line := before + (text + pad + tail);
    assert line[|before|..|before| + |text|] == text;
    var at := |before| + |text|;
    var padding := line[at..at + |pad|];
    assert padding == pad;
    forall k | at <= k < at + |pad| ensures line[k] == ' ' {
      assert line[k] == padding[k - at] && padding[k - at] in pad;
    }
  }

  lemma BodyShowsCell(enabled: bool, header: bool, ws: seq<nat>, cells: Row, i: nat)
    requires i < |ws| && Fits(ws, cells)
    ensures ShowsCell(Ansi.Visible(Body(enabled, header, ws, cells)), ws, cells, i)
  {
    var seen := Seen(ws, cells);
    var text, pad := Ansi.Strip(Cell(cells, i)), Spaces(Padding(ws, cells, i));
    BodyStrips(enabled, header, ws, cells);
    Ansi.StripIsVisible(Cell(cells, i));
    var tail := ColumnsBeyond(seen, i, |ws|);
    SeenLength(ws, cells, i);
    PieceAt(Columns(seen, i), text, pad, tail);
    if i + 1 < |ws| { SeenLength(ws, cells, i + 1); }
  }

  /** In the line itself the cell stands as it was given, but a header's is bold in colour. */
  lemma BodyHoldsCell(enabled: bool, header: bool, ws: seq<nat>, cells: Row, i: nat)
    returns (before: string, tail: string)
    requires i < |ws| && Fits(ws, cells)
    ensures var cell := if i < |cells| then cells[i] else "";
      var shown := if enabled && header && cell != "" then "\U{1B}[1m" + cell + "\U{1B}[0m" else cell;
      Body(enabled, header, ws, cells) == before + (shown + tail) && |Ansi.Visible(before)| == Offset(ws, i)
  {
    var shown := Shown(enabled, header, |ws|, cells);
    SeenShown(enabled, header, ws, cells);
    var fields := Fields(ws, shown);
    before := Columns(fields, i);
    var more := ColumnsBeyond(fields, i, |ws|);
    tail := Spaces(Padding(ws, shown, i)) + more;
    Associate(shown[i], Spaces(Padding(ws, shown, i)), more);
    FrontVisible(ws, shown, i);
  }

  lemma FrontVisible(ws: seq<nat>, cells: Row, i: nat)
    requires i < |ws| && Fits(ws, cells)
    ensures |Ansi.Visible(Columns(Fields(ws, cells), i))| == Offset(ws, i)
  {
    var f := (s: string) => Ansi.Strip(s);
    var front := Columns(Fields(ws, cells), i);
    FieldsShowAs(ws, cells, f);
    ColumnsAligned(f, Fields(ws, cells), Seen(ws, cells), i, "");
    assert front + "" == front && Columns(Seen(ws, cells), i) + "" == Columns(Seen(ws, cells), i);
    SeenLength(ws, cells, i);
    Ansi.StripIsVisible(front);
  }

  lemma BodyShowsRow(enabled: bool, header: bool, ws: seq<nat>, cells: Row)
    requires Fits(ws, cells)
    ensures ShowsRow(Ansi.Visible(Body(enabled, header, ws, cells)), ws, cells)
  {
    forall i | 0 <= i < |ws| { BodyShowsCell(enabled, header, ws, cells, i); }
    BodyStrips(enabled, header, ws, cells);
  }

  // ---- the lines of the output -----------------------------------------------------------------------

  predicate NoBreak(s: string) { '\n' !in s }

  predicate NoBreaks(cells: Row) { forall s :: s in cells ==> NoBreak(s) }

  lemma {:induction false} ColumnsNoBreak(fields: seq<string>, i: nat)
    requires i <= |fields| && forall k :: 0 <= k < |fields| ==> NoBreak(fields[k])
    ensures NoBreak(Columns(fields, i))
  {
    if i > 0 { ColumnsNoBreak(fields, i - 1); }
  }

  lemma BodyNoBreak(enabled: bool, header: bool, ws: seq<nat>, cells: Row)
    requires Fits(ws, cells) && NoBreaks(cells)
    ensures NoBreak(Body(enabled, header, ws, cells))
  {
    ShownFits(enabled, header, ws, cells);
    var fields := Fields(ws, Shown(enabled, header, |ws|, cells));
    forall k | 0 <= k < |fields| ensures NoBreak(fields[k]) {
      if k < |cells| { assert cells[k] in cells; }
      assert NoBreak(Cell(cells, k));
    }
    ColumnsNoBreak(fields, |ws|);
  }

  function Bodies(ws: seq<nat>, rows: seq<Row>): (bodies: seq<string>)
    requires forall r :: r in rows ==> Fits(ws, r)
    ensures |bodies| == |rows| && forall i :: 0 <= i < |rows| ==> bodies[i] == Body(false, false, ws, rows[i])
  {
    if rows == [] then [] else [Body(false, false, ws, rows[0])] + Bodies(ws, rows[1..])
  }

  lemma {:induction false} CutLines(ws: seq<nat>, rows: seq<Row>, rest: string)
    requires forall r :: r in rows ==> Fits(ws, r) && NoBreaks(r)
    ensures Cut(Lines(ws, rows) + rest, '\n') == Bodies(ws, rows) + Cut(rest, '\n')
  {
    if rows == [] {
      assert "" + rest == rest;
    } else {
      var body, more := Body(false, false, ws, rows[0]), Lines(ws, rows[1..]);
      assert rows[0] in rows;
      BodyNoBreak(false, false, ws, rows[0]);
      Associate(body + "\n", more, rest);
      CutPiece(body, '\n', more + rest);
      CutLines(ws, rows[1..], rest);
      Associate([body], Bodies(ws, rows[1..]), Cut(rest, '\n'));
    }
  }

  /** What the note says: how many rows are hidden, and why. */
  function NoteText(hidden: nat, note: string): string {
    Itoa(hidden) + (if hidden == 1 then " row hidden " else " rows hidden ") + note
  }

  lemma CutNote(t: Setup, hidden: nat) returns (lines: seq<string>)
    requires NoBreak(t.note)
    ensures Cut(t.Note(hidden), '\n') == lines + [""]
    ensures if hidden == 0 then lines == []
      else |lines| == 1 && Ansi.Visible(lines[0]) == Ansi.Visible(NoteText(hidden, t.note))
  {
    if hidden == 0 {
      lines := [];
    } else {
      var text := NoteText(hidden, t.note);
      var line := Ansi.Paint(t.enabled, Ansi.GRAY, text);
      forall c | c in text ensures c != '\n' {
        if c in Itoa(hidden) { assert IsDigit(c); }
      }
      CutPiece(line, '\n', "");
      assert line + ['\n'] + "" == t.Note(hidden);
      Ansi.PaintIsInvisible(t.enabled, Ansi.GRAY, text);
      lines := [line];
    }
  }

  /** The output, cut at its line breaks: the header, the printed rows in order, the note when rows
      are hidden, and nothing after the last line break. */
  lemma OutputReadsBack(t: Setup, printed: seq<Row>, hidden: nat)
    requires NoBreaks(t.headers) && NoBreak(t.note)
    requires forall r :: r in printed ==> NoBreaks(r)
    ensures var lines, ws := Cut(t.Output(printed, hidden), '\n'), Widths(t.headers, printed);
      && |lines| == 1 + |printed| + (if hidden > 0 then 1 else 0) + 1
      && ShowsRow(Ansi.Visible(lines[0]), ws, t.headers)
      && (forall i :: 0 <= i < |printed| ==> ShowsRow(Ansi.Visible(lines[1 + i]), ws, printed[i]))
      && (hidden > 0 ==> Ansi.Visible(lines[1 + |printed|]) == Ansi.Visible(NoteText(hidden, t.note)))
      && lines[|lines| - 1] == ""
  {
    var ws := Widths(t.headers, printed);
    EverythingFits(t.headers, printed);
    var head := Body(t.enabled, true, ws, t.headers);
    var bodies := Bodies(ws, printed);
    var note := CutNote(t, hidden);
    BodyNoBreak(t.enabled, true, ws, t.headers);
    Associate(head + "\n", Lines(ws, printed), t.Note(hidden));
    CutPiece(head, '\n', Lines(ws, printed) + t.Note(hidden));
    CutLines(ws, printed, t.Note(hidden));
    assert Cut(t.Output(printed, hidden), '\n') == [head] + (bodies + (note + [""]));
    BodyShowsRow(t.enabled, true, ws, t.headers);
    BodiesShowRows(ws, printed);
    LinesAt(head, bodies, note);
  }

  lemma BodiesShowRows(ws: seq<nat>, rows: seq<Row>)
    requires forall r :: r in rows ==> Fits(ws, r)
    ensures forall i :: 0 <= i < |rows| ==> ShowsRow(Ansi.Visible(Bodies(ws, rows)[i]), ws, rows[i])
  {
    forall i | 0 <= i < |rows| ensures ShowsRow(Ansi.Visible(Bodies(ws, rows)[i]), ws, rows[i]) {
      BodyShowsRow(false, false, ws, rows[i]);
    }
  }

  lemma LinesAt(head: string, bodies: seq<string>, note: seq<string>)
    requires |note| <= 1
    ensures var lines := [head] + (bodies + (note + [""]));
      && |lines| == 1 + |bodies| + |note| + 1 && lines[0] == head && lines[|lines| - 1] == ""
      && (forall i :: 0 <= i < |bodies| ==> lines[1 + i] == bodies[i])
      && (note != [] ==> lines[1 + |bodies|] == note[0])
  {
  }
}
