/**
 * internal/kube/table.go, the layout arithmetic: column widths, padding and lines. Widths
 * are visible widths; a cell may hold any text, including broken escapes.
 */
module Rendering {
  import opened Sequences
  import opened Ansi

  const TABLE_GAP := 2

  type Row = seq<string>

  /** table.go:263-268: a short row reads as empty cells. */
  function Cell(row: Row, i: nat): string {
    if i < |row| then row[i] else ""
  }

  function Max(a: nat, b: nat): nat { if a < b then b else a }

  function ColumnWidth(rows: seq<Row>, i: nat): nat {
    if rows == [] then 0 else Max(Width(Cell(rows[0], i)), ColumnWidth(rows[1..], i))
  }

  /** The header and the rows, as wide as the widest of them in every column. */
  function Widths(headers: Row, rows: seq<Row>): (ws: seq<nat>)
    ensures |ws| == |headers|
  {
    seq(|headers|, i requires 0 <= i < |headers| => ColumnWidth([headers] + rows, i))
  }

  function Spaces(n: nat): (s: string)
    ensures |s| == n && forall k :: 0 <= k < n ==> s[k] == ' '
  {
    seq(n, _ => ' ')
  }

  /** The cells one line shows, one per column: a header is painted bold. */
  function Shown(enabled: bool, header: bool, n: nat, cells: Row): (shown: Row)
    ensures |shown| == n
  {
    seq(n, i requires 0 <= i < n => if header then Paint(enabled, BOLD, Cell(cells, i)) else Cell(cells, i))
  }

  lemma ShownText(enabled: bool, header: bool, n: nat, cells: Row, i: nat)
    requires i < n
    ensures Strip(Shown(enabled, header, n, cells)[i]) == Strip(Cell(cells, i))
  {
    PaintIsInvisible(enabled, BOLD, Cell(cells, i));
  }

  ghost predicate Fits(ws: seq<nat>, cells: Row) {
    forall i :: 0 <= i < |ws| ==> Width(Cell(cells, i)) <= ws[i]
  }

  lemma ShownFits(enabled: bool, header: bool, ws: seq<nat>, cells: Row)
    requires Fits(ws, cells)
    ensures Fits(ws, Shown(enabled, header, |ws|, cells))
  {
    forall i | 0 <= i < |ws| { ShownText(enabled, header, |ws|, cells, i); }
  }

  /** How many spaces follow cell `i`: none after the last column. */
  function Padding(ws: seq<nat>, cells: Row, i: nat): (n: nat)
    requires i < |ws| && Width(Cell(cells, i)) <= ws[i]
    ensures i + 1 < |ws| ==> TABLE_GAP <= n && Width(Cell(cells, i)) + n == ws[i] + TABLE_GAP
  {
    if i + 1 < |ws| then ws[i] - Width(Cell(cells, i)) + TABLE_GAP else 0
  }

  function Field(ws: seq<nat>, cells: Row, i: nat): string
    requires i < |ws| && Width(Cell(cells, i)) <= ws[i]
  {
    Cell(cells, i) + Spaces(Padding(ws, cells, i))
  }

  /** The padded cells of a line. */
  function Fields(ws: seq<nat>, cells: Row): (fs: seq<string>)
    requires Fits(ws, cells)
    ensures |fs| == |ws|
  {
    seq(|ws|, i requires 0 <= i < |ws| => Field(ws, cells, i))
  }

  /** The first `i` of them, one after the other. */
  function Columns(fields: seq<string>, i: nat): string
    requires i <= |fields|
  {
    if i == 0 then "" else Columns(fields, i - 1) + fields[i - 1]
  }

  function Line(enabled: bool, header: bool, ws: seq<nat>, cells: Row): string
    requires Fits(ws, cells)
  {
    ShownFits(enabled, header, ws, cells);
    Columns(Fields(ws, Shown(enabled, header, |ws|, cells)), |ws|) + "\n"
  }

  function Lines(ws: seq<nat>, rows: seq<Row>): string
    requires forall r :: r in rows ==> Fits(ws, r)
  {
    if rows == [] then "" else Line(false, false, ws, rows[0]) + Lines(ws, rows[1..])
  }

  // ---- alignment ---------------------------------------------------------------------------

  /** Where column `i` starts. */
  function Offset(ws: seq<nat>, i: nat): nat
    requires i <= |ws|
  {
    if i == 0 then 0 else Offset(ws, i - 1) + ws[i - 1] + TABLE_GAP
  }

  lemma {:induction false} ColumnWidthCovers(rows: seq<Row>, i: nat, k: nat)
    requires k < |rows|
    ensures Width(Cell(rows[k], i)) <= ColumnWidth(rows, i)
  {
    if k > 0 { ColumnWidthCovers(rows[1..], i, k - 1); }
  }

  /** No Repeat count is ever below the gap: every shown row fits the widths. */
  lemma EverythingFits(headers: Row, rows: seq<Row>)
    ensures Fits(Widths(headers, rows), headers)
    ensures forall r :: r in rows ==> Fits(Widths(headers, rows), r)
  {
    var all := [headers] + rows;
    forall i | 0 <= i < |headers| ensures Width(Cell(headers, i)) <= Widths(headers, rows)[i] {
      ColumnWidthCovers(all, i, 0);
    }
    forall r | r in rows ensures Fits(Widths(headers, rows), r) {
      var k :| 0 <= k < |rows| && rows[k] == r;
      assert all[k + 1] == r;
      forall i | 0 <= i < |headers| { ColumnWidthCovers(all, i, k + 1); }
    }
  }

  /** ... and no column is wider than it has to be. */
  lemma {:induction false} ColumnWidthAttained(rows: seq<Row>, i: nat)
    requires rows != []
    ensures exists k :: 0 <= k < |rows| && ColumnWidth(rows, i) == Width(Cell(rows[k], i))
  {
    if ColumnWidth(rows, i) == Width(Cell(rows[0], i)) {
    } else {
      assert rows[1..] != [] by { assert ColumnWidth([], i) == 0; }
      ColumnWidthAttained(rows[1..], i);
      var k :| 0 <= k < |rows[1..]| && ColumnWidth(rows[1..], i) == Width(Cell(rows[1..][k], i));
      assert rows[1..][k] == rows[k + 1];
    }
  }

  lemma {:induction false} StripSpaces(n: nat, rest: string)
    ensures Strip(Spaces(n) + rest) == Spaces(n) + Strip(rest)
    decreases n
  {
    var s := Spaces(n) + rest;
    if n == 0 {
      assert s == rest;
    } else {
      assert s[1..] == Spaces(n - 1) + rest;
      StripSpaces(n - 1, rest);
      assert s[0] == ' ';
      assert Strip(s) == " " + Strip(s[1..]);
      assert " " + Spaces(n - 1) == Spaces(n);
    }
  }

  /** What one sees of the fields: the visible text of each cell and its padding. */
  ghost function Seen(ws: seq<nat>, cells: Row): (seen: seq<string>)
    requires Fits(ws, cells)
    ensures |seen| == |ws|
  {
    seq(|ws|, i requires 0 <= i < |ws| => Strip(Cell(cells, i)) + Spaces(Padding(ws, cells, i)))
  }

  /** A padded cell is visible as its text and its padding, whatever follows. */
  lemma FieldVisible(ws: seq<nat>, cells: Row, i: nat, rest: string)
    requires i < |ws| && Fits(ws, cells)
    requires i + 1 < |ws| || (rest != "" && Breaks(rest[0]))
    ensures Strip(Fields(ws, cells)[i] + rest) == Seen(ws, cells)[i] + Strip(rest)
  {
    var c, pad := Cell(cells, i), Spaces(Padding(ws, cells, i));
    Associate(c, pad, rest);
    assert pad != "" ==> (pad + rest)[0] == ' ';
    assert pad == "" ==> pad + rest == rest;
    StripAppend(c, pad + rest);
    StripSpaces(Padding(ws, cells, i), rest);
    Associate(Strip(c), pad, Strip(rest));
  }

  lemma {:induction false} SeenLength(ws: seq<nat>, cells: Row, i: nat)
    requires i < |ws| && Fits(ws, cells)
    ensures |Columns(Seen(ws, cells), i)| == Offset(ws, i)
    decreases i
  {
    if i > 0 { SeenLength(ws, cells, i - 1); }
  }

  /** `f` turns `field` into `seen` and goes on with what follows. */
  ghost predicate ShowsAs(f: string -> string, field: string, seen: string) {
    forall rest {:trigger field + rest} :: f(field + rest) == seen + f(rest)
  }

  lemma {:induction false} ColumnsAligned(f: string -> string, fields: seq<string>, seen: seq<string>, i: nat,
      rest: string)
    requires i <= |fields| == |seen| && forall j :: 0 <= j < i ==> ShowsAs(f, fields[j], seen[j])
    ensures f(Columns(fields, i) + rest) == Columns(seen, i) + f(rest)
    decreases i
  {
    if i == 0 {
      assert "" + rest == rest;
    } else {
      Associate(Columns(fields, i - 1), fields[i - 1], rest);
      ColumnsAligned(f, fields, seen, i - 1, fields[i - 1] + rest);
      assert ShowsAs(f, fields[i - 1], seen[i - 1]);
      Associate(Columns(seen, i - 1), seen[i - 1], f(rest));
    }
  }

  /** What a line holds from column `i` on. */
  ghost function From(fields: seq<string>, i: nat): string
    requires i <= |fields|
    decreases |fields| - i
  {
    if i == |fields| then "\n" else fields[i] + From(fields, i + 1)
  }

  lemma {:induction false} ColumnsThenFrom(fields: seq<string>, i: nat)
    requires i <= |fields|
    ensures Columns(fields, |fields|) + "\n" == Columns(fields, i) + From(fields, i)
    decreases |fields| - i
  {
    if i < |fields| {
      ColumnsThenFrom(fields, i + 1);
      Associate(Columns(fields, i), fields[i], From(fields, i + 1));
    }
  }

  lemma FieldsShowAs(ws: seq<nat>, cells: Row, f: string -> string)
    requires Fits(ws, cells) && forall s :: f(s) == Strip(s)
    ensures forall j :: 0 <= j < |ws| - 1 ==> ShowsAs(f, Fields(ws, cells)[j], Seen(ws, cells)[j])
  {
    forall j, rest | 0 <= j < |ws| - 1
      ensures f(Fields(ws, cells)[j] + rest) == Seen(ws, cells)[j] + f(rest)
    {
      FieldVisible(ws, cells, j, rest);
    }
  }

  lemma VisibleLine(ws: seq<nat>, cells: Row, i: nat) returns (tail: string)
    requires i < |ws| && Fits(ws, cells)
    ensures Strip(Columns(Fields(ws, cells), |ws|) + "\n") ==
      Columns(Seen(ws, cells), i) + (Strip(Cell(cells, i)) + tail)
  {
    var f := (s: string) => Strip(s);
    var rest := From(Fields(ws, cells), i + 1);
    ColumnsThenFrom(Fields(ws, cells), i);
    FieldsShowAs(ws, cells, f);
    ColumnsAligned(f, Fields(ws, cells), Seen(ws, cells), i, From(Fields(ws, cells), i));
    FieldVisible(ws, cells, i, rest);
    tail := Spaces(Padding(ws, cells, i)) + Strip(rest);
    Associate(Strip(Cell(cells, i)), Spaces(Padding(ws, cells, i)), Strip(rest));
  }

  /** The stripped line: what stands before cell `i`, the cell, and what follows. */
  lemma LineSeen(enabled: bool, header: bool, ws: seq<nat>, cells: Row, i: nat) returns (before: string, tail: string)
    requires i < |ws| && Fits(ws, cells)
    ensures Strip(Line(enabled, header, ws, cells)) == before + (Strip(Cell(cells, i)) + tail)
    ensures |before| == Offset(ws, i)
  {
    var shown := Shown(enabled, header, |ws|, cells);
    ShownFits(enabled, header, ws, cells);
    ShownText(enabled, header, |ws|, cells, i);
    tail := VisibleLine(ws, shown, i);
    before := Columns(Seen(ws, shown), i);
    SeenLength(ws, shown, i);
  }

  ghost predicate StandsAt(line: string, at: nat, text: string) {
    at + |text| <= |line| && line[at..at + |text|] == text
  }

  /** In the visible text of a line, column `i` starts at the sum of the widths and gaps
      before it, and what stands there is the visible text of cell `i`. */
  lemma LineAligned(enabled: bool, header: bool, ws: seq<nat>, cells: Row, i: nat)
    requires i < |ws| && Fits(ws, cells)
    ensures StandsAt(Visible(Line(enabled, header, ws, cells)), Offset(ws, i), Visible(Cell(cells, i)))
  {
    var before, tail := LineSeen(enabled, header, ws, cells, i);
    StripIsVisible(Line(enabled, header, ws, cells));
    StripIsVisible(Cell(cells, i));
    Slice(before, Visible(Cell(cells, i)), tail);
  }

  lemma Slice(a: string, b: string, c: string)
    ensures (a + (b + c))[|a|..|a| + |b|] == b
  {
  }

  // ---- stripped lines ------------------------------------------------------------------------

  /** A line without its colours. */
  ghost function SeenLine(ws: seq<nat>, cells: Row): string
    requires Fits(ws, cells)
  {
    Columns(Seen(ws, cells), |ws|) + "\n"
  }

  ghost function SeenLines(ws: seq<nat>, rows: seq<Row>): string
    requires forall r :: r in rows ==> Fits(ws, r)
  {
    if rows == [] then "" else SeenLine(ws, rows[0]) + SeenLines(ws, rows[1..])
  }

  lemma StripNewline(rest: string)
    ensures Strip("\n" + rest) == "\n" + Strip(rest)
  {
    StripFirst("\n" + rest);
    assert ("\n" + rest)[1..] == rest;
  }

  lemma AllColumnsAligned(f: string -> string, fields: seq<string>, seen: seq<string>, rest: string)
    requires |fields| == |seen| && forall j :: 0 <= j < |fields| - 1 ==> ShowsAs(f, fields[j], seen[j])
    requires fields != [] ==> f(fields[|fields| - 1] + rest) == seen[|fields| - 1] + f(rest)
    ensures f(Columns(fields, |fields|) + rest) == Columns(seen, |seen|) + f(rest)
  {
    if fields == [] {
      assert "" + rest == rest;
    } else {
      var last := |fields| - 1;
      ColumnsAligned(f, fields, seen, last, fields[last] + rest);
      Associate(Columns(fields, last), fields[last], rest);
      Associate(Columns(seen, last), seen[last], f(rest));
    }
  }

  lemma ColumnsStrip(ws: seq<nat>, cells: Row, rest: string)
    requires Fits(ws, cells) && rest != "" && Breaks(rest[0])
    ensures Strip(Columns(Fields(ws, cells), |ws|) + rest) == Columns(Seen(ws, cells), |ws|) + Strip(rest)
  {
    var f := (s: string) => Strip(s);
    FieldsShowAs(ws, cells, f);
    if ws != [] { FieldVisible(ws, cells, |ws| - 1, rest); }
    AllColumnsAligned(f, Fields(ws, cells), Seen(ws, cells), rest);
  }

  lemma SeenShown(enabled: bool, header: bool, ws: seq<nat>, cells: Row)
    requires Fits(ws, cells)
    ensures Fits(ws, Shown(enabled, header, |ws|, cells))
    ensures Seen(ws, Shown(enabled, header, |ws|, cells)) == Seen(ws, cells)
  {
    ShownFits(enabled, header, ws, cells);
    forall i | 0 <= i < |ws| { ShownText(enabled, header, |ws|, cells, i); }
  }

  /** Painted or not, a line is stripped to the same text, whatever follows it. */
  lemma LineStrips(enabled: bool, header: bool, ws: seq<nat>, cells: Row, rest: string)
    requires Fits(ws, cells)
    ensures Strip(Line(enabled, header, ws, cells) + rest) == SeenLine(ws, cells) + Strip(rest)
  {
    var shown := Shown(enabled, header, |ws|, cells);
    SeenShown(enabled, header, ws, cells);
    Associate(Columns(Fields(ws, shown), |ws|), "\n", rest);
    ColumnsStrip(ws, shown, "\n" + rest);
    StripNewline(rest);
    Associate(Columns(Seen(ws, cells), |ws|), "\n", Strip(rest));
  }

  lemma {:induction false} LinesStrip(ws: seq<nat>, rows: seq<Row>, rest: string)
    requires forall r :: r in rows ==> Fits(ws, r)
    ensures Strip(Lines(ws, rows) + rest) == SeenLines(ws, rows) + Strip(rest)
  {
    if rows == [] {
      assert "" + rest == rest;
    } else {
      LinesStrip(ws, rows[1..], rest);
      Associate(Line(false, false, ws, rows[0]), Lines(ws, rows[1..]), rest);
      LineStrips(false, false, ws, rows[0], Lines(ws, rows[1..]) + rest);
      Associate(SeenLine(ws, rows[0]), SeenLines(ws, rows[1..]), Strip(rest));
    }
  }

  // ---- padding bound -------------------------------------------------------------------------

  function PaddingUpTo(ws: seq<nat>, cells: Row, i: nat): nat
    requires i <= |ws| && Fits(ws, cells)
  {
    if i == 0 then 0 else PaddingUpTo(ws, cells, i - 1) + Padding(ws, cells, i - 1)
  }

  lemma {:induction false} PaddingUpToOffset(ws: seq<nat>, cells: Row, i: nat)
    requires i < |ws| && Fits(ws, cells)
    ensures PaddingUpTo(ws, cells, i) <= Offset(ws, i)
    decreases i
  {
    if i > 0 { PaddingUpToOffset(ws, cells, i - 1); }
  }

  /** table.go:179-185. */
  method MaxPadding(ws: seq<nat>) returns (total: nat)
    ensures total == Offset(ws, if |ws| == 0 then 0 else |ws| - 1)
    ensures forall cells :: Fits(ws, cells) ==> PaddingUpTo(ws, cells, |ws|) <= total
  {
    total := 0;
    var n := if |ws| == 0 then 0 else |ws| - 1;
    for i := 0 to n
      invariant total == Offset(ws, i)
    {
      total := total + ws[i] + TABLE_GAP;
    }
    forall cells | Fits(ws, cells) ensures PaddingUpTo(ws, cells, |ws|) <= total {
      if |ws| > 0 { PaddingUpToOffset(ws, cells, |ws| - 1); }
    }
  }

  /** table.go:97-108, the widths pass. */
  method MeasureWidths(headers: Row, rows: seq<Row>) returns (ws: seq<nat>)
    ensures ws == Widths(headers, rows)
  {
    ws := [];
    for i := 0 to |headers|
      invariant |ws| == i && forall k :: 0 <= k < i ==> ws[k] == Width(headers[k])
    {
      var w := VisibleWidth(headers[i]);
      StripIsVisible(headers[i]);
      ws := ws + [w];
    }
    for j := 0 to |rows|
      invariant |ws| == |headers|
      invariant forall k :: 0 <= k < |ws| ==> ws[k] == ColumnWidth([headers] + rows[..j], k)
    {
      var r := rows[j];
      var n := if |ws| < |r| then |ws| else |r|;
      ghost var before := ws;
      for i := 0 to n
        invariant |ws| == |headers|
        invariant forall k :: 0 <= k < i ==> ws[k] == Max(before[k], Width(r[k]))
        invariant forall k :: i <= k < |ws| ==> ws[k] == before[k]
      {
        var w := VisibleWidth(r[i]);
        StripIsVisible(r[i]);
        ws := ws[i := Max(ws[i], w)];
      }
      assert [headers] + rows[..j + 1] == ([headers] + rows[..j]) + [r];
      forall k | 0 <= k < |ws| ensures ws[k] == ColumnWidth([headers] + rows[..j + 1], k) {
        ColumnWidthSnoc([headers] + rows[..j], r, k);
      }
    }
    assert rows[..|rows|] == rows;
  }

  lemma {:induction false} ColumnWidthSnoc(rows: seq<Row>, r: Row, i: nat)
    ensures ColumnWidth(rows + [r], i) == Max(ColumnWidth(rows, i), Width(Cell(r, i)))
  {
    if rows == [] {
      assert [r][1..] == [];
    } else {
      assert (rows + [r])[1..] == rows[1..] + [r];
      ColumnWidthSnoc(rows[1..], r, i);
    }
  }

  /** table.go:197-199: the count handed to Repeat is at least the gap. */
  method PadTo(width: nat, c: string) returns (pad: string)
    requires Width(c) <= width
    ensures pad == Spaces(width - Width(c) + TABLE_GAP)
  {
    var w := VisibleWidth(c);
    StripIsVisible(c);
    assert width - w + TABLE_GAP >= TABLE_GAP;
    pad := Spaces(width - w + TABLE_GAP);
  }

  /** table.go:192-199, one cell of a line with its padding. */
  method PaddedCell(enabled: bool, header: bool, ws: seq<nat>, cells: Row, i: nat) returns (field: string)
    requires i < |ws| && Fits(ws, Shown(enabled, header, |ws|, cells))
    ensures field == Fields(ws, Shown(enabled, header, |ws|, cells))[i]
  {
    var c := Cell(cells, i);
    if header {
      c := Paint(enabled, BOLD, c);
    }
    assert c == Cell(Shown(enabled, header, |ws|, cells), i);
    var pad := "";
    if i < |ws| - 1 {
      pad := PadTo(ws[i], c);
    }
    field := c + pad;
  }

  lemma NextColumn(out: string, fields: seq<string>, i: nat)
    requires i < |fields|
    ensures out + Columns(fields, i + 1) == out + Columns(fields, i) + fields[i]
  {
    Associate(out, Columns(fields, i), fields[i]);
  }

  /** table.go:189-202. `out` is the builder. */
  method WriteLine(out: string, enabled: bool, header: bool, ws: seq<nat>, cells: Row) returns (text: string)
    requires Fits(ws, cells)
    ensures text == out + Line(enabled, header, ws, cells)
  {
    text := out;
    ShownFits(enabled, header, ws, cells);
    ghost var fields := Fields(ws, Shown(enabled, header, |ws|, cells));
    for i := 0 to |ws|
      invariant text == out + Columns(fields, i)
    {
      var field := PaddedCell(enabled, header, ws, cells, i);
      NextColumn(out, fields, i);
      text := text + field;
    }
    text := text + "\n";
    Associate(out, Columns(fields, |ws|), "\n");
  }

  lemma LinesCons(ws: seq<nat>, r: Row, rows: seq<Row>)
    requires Fits(ws, r) && forall x :: x in rows ==> Fits(ws, x)
    ensures Lines(ws, [r] + rows) == Line(false, false, ws, r) + Lines(ws, rows)
  {
    assert ([r] + rows)[1..] == rows;
  }

  lemma {:induction false} LinesSnoc(ws: seq<nat>, rows: seq<Row>, i: nat)
    requires i < |rows| && forall r :: r in rows ==> Fits(ws, r)
    ensures Lines(ws, rows[..i + 1]) == Lines(ws, rows[..i]) + Line(false, false, ws, rows[i])
  {
    if i == 0 {
      assert rows[..1] == [rows[0]] + rows[..0];
      LinesCons(ws, rows[0], rows[..0]);
    } else {
      var first, tail := rows[0], rows[1..];
      assert rows[..i + 1] == [first] + tail[..i] && rows[..i] == [first] + tail[..i - 1];
      LinesCons(ws, first, tail[..i]);
      LinesCons(ws, first, tail[..i - 1]);
      LinesSnoc(ws, tail, i - 1);
      Associate(Line(false, false, ws, first), Lines(ws, tail[..i - 1]), Line(false, false, ws, rows[i]));
    }
  }
}
