/**
 * internal/kube/table.go and internal/view/verdict.go: a table printed in colour is the table
 * printed without, painted: the same rows in the same order, on the same columns.
 */
module Colours {
  import opened Sequences
  import opened Sorting
  import opened Rendering
  import opened Tables
  import opened Verdicts
  import Ansi
  import Text

  /** Two rows whose cells differ in colour only. */
  ghost predicate Alike(a: Row, b: Row) {
    forall k :: Ansi.Strip(Cell(a, k)) == Ansi.Strip(Cell(b, k))
  }

  type Pair = (Row, Row)

  ghost predicate AllAlike(ps: seq<Pair>) {
    forall p :: p in ps ==> Alike(p.0, p.1)
  }

  function Fst(): Pair -> Row { (p: Pair) => p.0 }
  function Snd(): Pair -> Row { (p: Pair) => p.1 }

  /** Two tables set up the same way, one of them perhaps in colour. */
  ghost predicate SameSetup(t: Setup, u: Setup) {
    u == t.(enabled := u.enabled)
  }

  // ---- which rows, and in which order --------------------------------------------------------------

  lemma {:induction false} SameIndexFrom(t: Setup, u: Setup, column: string, i: nat)
    requires SameSetup(t, u) && i <= |t.headers|
    ensures t.IndexFrom(column, i) == u.IndexFrom(column, i)
    decreases |t.headers| - i
  {
    if i < |t.headers| { SameIndexFrom(t, u, column, i + 1); }
  }

  lemma SameColumnIndex(t: Setup, u: Setup, column: string)
    requires SameSetup(t, u)
    ensures t.ColumnIndex(column) == u.ColumnIndex(column)
  {
    if column != "" { SameIndexFrom(t, u, column, 0); }
  }

  lemma {:induction false} SameFilterColumns(t: Setup, u: Setup, columns: seq<string>)
    requires SameSetup(t, u)
    ensures t.FilterColumnsOf(columns) == u.FilterColumnsOf(columns)
  {
    if columns != [] {
      SameColumnIndex(t, u, columns[0]);
      SameFilterColumns(t, u, columns[1..]);
    }
  }

  lemma AlikePass(t: Setup, u: Setup, a: Row, b: Row)
    requires SameSetup(t, u) && Alike(a, b)
    ensures t.Passes(a) == u.Passes(b) && t.Hides(a) == u.Hides(b)
  {
    SameFilterColumns(t, u, t.filterCol);
    SameColumnIndex(t, u, t.hideCol);
  }

  lemma {:induction false} FilterPairs(ps: seq<Pair>, p: Row -> bool, q: Row -> bool) returns (kept: seq<Pair>)
    requires forall x :: x in ps ==> p(x.0) == q(x.1)
    ensures Map(Fst(), kept) == Filter(Map(Fst(), ps), p) && Map(Snd(), kept) == Filter(Map(Snd(), ps), q)
    ensures forall x :: x in kept ==> x in ps
  {
    if ps == [] {
      kept := [];
    } else {
      var rest := FilterPairs(ps[1..], p, q);
      kept := if p(ps[0].0) then [ps[0]] + rest else rest;
    }
  }

  lemma SameRemaining(t: Setup, u: Setup, ps: seq<Pair>) returns (left: seq<Pair>)
    requires SameSetup(t, u) && AllAlike(ps)
    ensures AllAlike(left)
    ensures Map(Fst(), left) == t.Remaining(Map(Fst(), ps)) && Map(Snd(), left) == u.Remaining(Map(Snd(), ps))
    ensures t.HiddenCount(Map(Fst(), ps)) == u.HiddenCount(Map(Snd(), ps))
  {
    forall x | x in ps ensures t.Passing()(x.0) == u.Passing()(x.1) && t.Hides(x.0) == u.Hides(x.1) {
      AlikePass(t, u, x.0, x.1);
    }
    var kept := FilterPairs(ps, t.Passing(), u.Passing());
    left := FilterPairs(kept, Not(t.Hiding()), Not(u.Hiding()));
    assert |Map(Fst(), kept)| == |Map(Snd(), kept)|;
    assert |Map(Fst(), left)| == |Map(Snd(), left)|;
  }

  lemma SameNumeric(t: Setup, u: Setup, ps: seq<Pair>, idx: nat)
    requires SameSetup(t, u) && AllAlike(ps)
    ensures t.Numeric(Map(Fst(), ps), idx) == u.Numeric(Map(Snd(), ps), idx)
  {
    forall i | 0 <= i < |ps|
      ensures Ansi.Strip(Cell(Map(Fst(), ps)[i], idx)) == Ansi.Strip(Cell(Map(Snd(), ps)[i], idx))
    {
      assert ps[i] in ps;
    }
  }

  lemma SameArranged(t: Setup, u: Setup, ps: seq<Pair>) returns (out: seq<Pair>)
    requires SameSetup(t, u) && AllAlike(ps)
    ensures AllAlike(out)
    ensures Map(Fst(), out) == t.Arranged(Map(Fst(), ps)) && Map(Snd(), out) == u.Arranged(Map(Snd(), ps))
  {
    SameColumnIndex(t, u, t.sortCol);
    out := ps;
    if t.ColumnIndex(t.sortCol).Some? {
      var idx := t.ColumnIndex(t.sortCol).value;
      var first, second := t.Order(Map(Fst(), ps), idx), u.Order(Map(Snd(), ps), idx);
      SameNumeric(t, u, ps, idx);
      forall x, y | x in ps && y in ps ensures first(x.0, y.0) == second(x.1, y.1) {
        assert Alike(x.0, x.1) && Alike(y.0, y.1);
      }
      out := SortPairs(ps, first, second);
    }
  }

  lemma SortPairs(ps: seq<Pair>, first: (Row, Row) -> bool, second: (Row, Row) -> bool) returns (out: seq<Pair>)
    requires forall x, y :: x in ps && y in ps ==> first(x.0, y.0) == second(x.1, y.1)
    ensures forall x :: x in out ==> x in ps
    ensures Map(Fst(), out) == StableSort(Map(Fst(), ps), first)
    ensures Map(Snd(), out) == StableSort(Map(Snd(), ps), second)
  {
    var le := (x: Pair, y: Pair) => first(x.0, y.0);
    out := StableSort(ps, le);
    SortCommutesWithMap(Fst(), ps, le, first);
    SortCommutesWithMap(Snd(), ps, le, second);
    forall x | x in out ensures x in ps { assert x in multiset(out); }
  }

  /** The same rows are printed in the same order, and as many are hidden. */
  lemma SameRowsPrinted(t: Setup, u: Setup, ps: seq<Pair>) returns (out: seq<Pair>)
    requires SameSetup(t, u) && AllAlike(ps)
    ensures AllAlike(out)
    ensures Map(Fst(), out) == t.Printed(Map(Fst(), ps)) && Map(Snd(), out) == u.Printed(Map(Snd(), ps))
    ensures t.HiddenCount(Map(Fst(), ps)) == u.HiddenCount(Map(Snd(), ps))
  {
    var left := SameRemaining(t, u, ps);
    out := SameArranged(t, u, left);
  }

  // ---- what is written -------------------------------------------------------------------------------

  lemma {:induction false} SameColumnWidth(ps: seq<Pair>, i: nat)
    requires AllAlike(ps)
    ensures ColumnWidth(Map(Fst(), ps), i) == ColumnWidth(Map(Snd(), ps), i)
  {
    if ps != [] {
      assert ps[0] in ps && Alike(ps[0].0, ps[0].1);
      SameColumnWidth(ps[1..], i);
    }
  }

  lemma SameWidths(headers: Row, ps: seq<Pair>)
    requires AllAlike(ps)
    ensures Widths(headers, Map(Fst(), ps)) == Widths(headers, Map(Snd(), ps))
  {
    var all := [(headers, headers)] + ps;
    assert Map(Fst(), all) == [headers] + Map(Fst(), ps) && Map(Snd(), all) == [headers] + Map(Snd(), ps);
    forall i | 0 <= i < |headers|
      ensures Widths(headers, Map(Fst(), ps))[i] == Widths(headers, Map(Snd(), ps))[i]
    {
      SameColumnWidth(all, i);
    }
  }

  ghost predicate AllFit(ws: seq<nat>, rows: seq<Row>) { forall r :: r in rows ==> Fits(ws, r) }

  lemma SameSeen(ws: seq<nat>, a: Row, b: Row)
    requires Alike(a, b) && Fits(ws, a) && Fits(ws, b)
    ensures SeenLine(ws, a) == SeenLine(ws, b)
  {
    assert Seen(ws, a) == Seen(ws, b);
  }

  lemma {:induction false} SameSeenLines(ws: seq<nat>, ps: seq<Pair>)
    requires AllAlike(ps) && AllFit(ws, Map(Fst(), ps)) && AllFit(ws, Map(Snd(), ps))
    ensures SeenLines(ws, Map(Fst(), ps)) == SeenLines(ws, Map(Snd(), ps))
  {
    if ps != [] {
      var first, second := Map(Fst(), ps), Map(Snd(), ps);
      assert first[1..] == Map(Fst(), ps[1..]) && second[1..] == Map(Snd(), ps[1..]);
      assert ps[0] in ps && Alike(ps[0].0, ps[0].1) && first[0] in first && second[0] in second;
      SameSeen(ws, first[0], second[0]);
      SameSeenLines(ws, ps[1..]);
    }
  }

  lemma NoteStrips(t: Setup, hidden: nat)
    ensures Ansi.Strip(t.Note(hidden)) == Ansi.Strip(t.(enabled := false).Note(hidden))
  {
    if hidden > 0 {
      var noun := if hidden == 1 then " row hidden " else " rows hidden ";
      var text := Text.Itoa(hidden) + noun + t.note;
      Ansi.PaintIsInvisible(t.enabled, Ansi.GRAY, text);
      Ansi.StripAppend(Ansi.Paint(t.enabled, Ansi.GRAY, text), "\n");
      Ansi.StripAppend(text, "\n");
    }
  }

  lemma OutputStrips(t: Setup, printed: seq<Row>, hidden: nat)
    ensures var ws := Widths(t.headers, printed);
      && Fits(ws, t.headers) && AllFit(ws, printed)
      && Ansi.Strip(t.Output(printed, hidden))
         == SeenLine(ws, t.headers) + (SeenLines(ws, printed) + Ansi.Strip(t.Note(hidden)))
  {
    var ws := Widths(t.headers, printed);
    EverythingFits(t.headers, printed);
    var head, lines, note := Line(t.enabled, true, ws, t.headers), Lines(ws, printed), t.Note(hidden);
    Associate(head, lines, note);
    LineStrips(t.enabled, true, ws, t.headers, lines + note);
    LinesStrip(ws, printed, note);
  }

  /** Rows whose cells differ in colour only, in tables set up alike but for colour: the same
      rows are printed in the same order, and without its colours the output is the same text. */
  lemma ColoursChangeNothing(t: Setup, u: Setup, ps: seq<Pair>)
    requires SameSetup(t, u) && AllAlike(ps)
    ensures var first, second := Map(Fst(), ps), Map(Snd(), ps);
      && t.HiddenCount(first) == u.HiddenCount(second)
      && Ansi.Visible(t.Output(t.Printed(first), t.HiddenCount(first)))
         == Ansi.Visible(u.Output(u.Printed(second), u.HiddenCount(second)))
  {
    var first, second := Map(Fst(), ps), Map(Snd(), ps);
    var hidden := t.HiddenCount(first);
    var out := SameRowsPrinted(t, u, ps);
    OutputStrips(t, Map(Fst(), out), hidden);
    OutputStrips(u, Map(Snd(), out), hidden);
    SameWidths(t.headers, out);
    SameSeenLines(Widths(t.headers, Map(Fst(), out)), out);
    NoteStrips(t, hidden);
    NoteStrips(u, hidden);
    Ansi.StripIsVisible(t.Output(t.Printed(first), hidden));
    Ansi.StripIsVisible(u.Output(u.Printed(second), hidden));
  }

  // ---- verdict tables -----------------------------------------------------------------------------------

  function BothRows(one: bool, other: bool): Finding -> Pair {
    (f: Finding) => (RowOf(one)(f), RowOf(other)(f))
  }

  lemma AlikeLast(cells: Row, x: string, y: string)
    requires Ansi.Strip(x) == Ansi.Strip(y)
    ensures Alike(cells + [x], cells + [y])
  {
    forall k: nat ensures Ansi.Strip(Cell(cells + [x], k)) == Ansi.Strip(Cell(cells + [y], k)) {
      if k < |cells| {
        assert Cell(cells + [x], k) == cells[k] == Cell(cells + [y], k);
      } else if k == |cells| {
        assert Cell(cells + [x], k) == x && Cell(cells + [y], k) == y;
      } else {
        assert Cell(cells + [x], k) == "" == Cell(cells + [y], k);
      }
    }
  }

  lemma FindingsAlike(one: bool, other: bool, f: Finding)
    ensures Alike(RowOf(one)(f), RowOf(other)(f))
  {
    var x, y := Ansi.Paint(one, Code(f.sev), f.verdict), Ansi.Paint(other, Code(f.sev), f.verdict);
    SamePaint(one, other, Code(f.sev), f.verdict);
    AlikeLast([f.ns, f.name] + f.middle, x, y);
  }

  lemma SamePaint(one: bool, other: bool, code: string, text: string)
    requires Ansi.IsSgr(code)
    ensures Ansi.Strip(Ansi.Paint(one, code, text)) == Ansi.Strip(Ansi.Paint(other, code, text))
  {
    Ansi.PaintIsInvisible(one, code, text);
    Ansi.PaintIsInvisible(other, code, text);
  }

  /** A verdict table reads the same with and without colour. */
  lemma VerdictColoursChangeNothing(t: Setup, u: Setup, fs: seq<Finding>)
    requires SameSetup(t, u)
    ensures var first, second := Map(RowOf(t.enabled), fs), Map(RowOf(u.enabled), fs);
      Ansi.Visible(t.Output(t.Printed(first), t.HiddenCount(first)))
        == Ansi.Visible(u.Output(u.Printed(second), u.HiddenCount(second)))
  {
    var ps := Map(BothRows(t.enabled, u.enabled), fs);
    assert Map(Fst(), ps) == Map(RowOf(t.enabled), fs) && Map(Snd(), ps) == Map(RowOf(u.enabled), fs);
    forall p | p in ps ensures Alike(p.0, p.1) {
      var i :| 0 <= i < |ps| && ps[i] == p;
      FindingsAlike(t.enabled, u.enabled, fs[i]);
    }
    ColoursChangeNothing(t, u, ps);
  }
}
