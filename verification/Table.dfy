/**
 * internal/kube/table.go: rows kept in shared blocks, then filtered, hidden, sorted and
 * rendered at Flush.
 */
module Tables {
  import opened Sequences
  import opened Sorting
  import opened Text
  import opened Rendering
  import Ansi
  import Glob

  const ROW_ARENA := 4096

  // ---- what Flush is meant to show ------------------------------------------------------------

  /** A float64 as far as `cmp.Compare` sees it. */
  datatype Number = NotANumber | NegativeInfinity | Finite(r: real) | PositiveInfinity

  predicate NumberAtMost(a: Number, b: Number) {
    match (a, b)
    case (NotANumber, _) => true
    case (_, NotANumber) => false
    case (NegativeInfinity, _) => true
    case (_, PositiveInfinity) => true
    case (Finite(x), Finite(y)) => x <= y
    case _ => false
  }

  /** Everything a table is told besides its rows. `parse` is `strconv.ParseFloat`. */
  datatype Setup = Setup(
    enabled: bool, headers: Row, sortCol: string, ranks: map<string, string -> int>,
    filterCol: seq<string>, names: seq<string>,
    hideCol: string, drops: Option<string -> bool>, note: string,
    parse: string -> Option<Number>)
  {
    /** table.go:256-261: the first header equal to `column` up to case. */
    function ColumnIndex(column: string): (idx: Option<nat>)
      ensures idx.Some? ==> column != "" && idx.value < |headers| && Lower(headers[idx.value]) == Lower(column)
      ensures idx.Some? ==> forall j :: 0 <= j < idx.value ==> Lower(headers[j]) != Lower(column)
      ensures idx.None? <==> column == "" || forall j :: 0 <= j < |headers| ==> Lower(headers[j]) != Lower(column)
    {
      if column == "" then None else IndexFrom(column, 0)
    }

    function IndexFrom(column: string, i: nat): (idx: Option<nat>)
      requires i <= |headers|
      ensures idx.Some? ==> i <= idx.value < |headers| && Lower(headers[idx.value]) == Lower(column)
      ensures idx.Some? ==> forall j :: i <= j < idx.value ==> Lower(headers[j]) != Lower(column)
      ensures idx.None? <==> forall j :: i <= j < |headers| ==> Lower(headers[j]) != Lower(column)
      decreases |headers| - i
    {
      if i == |headers| then None
      else if Lower(headers[i]) == Lower(column) then Some(i)
      else IndexFrom(column, i + 1)
    }

    /** The columns FilterBy named that the table has. */
    function FilterColumns(): (idx: seq<nat>)
      ensures forall i :: 0 <= i < |idx| ==> exists c :: c in filterCol && ColumnIndex(c) == Some(idx[i])
      ensures forall c :: c in filterCol && ColumnIndex(c).Some? ==> ColumnIndex(c).value in idx
    {
      FilterColumnsOf(filterCol)
    }

    function FilterColumnsOf(columns: seq<string>): (idx: seq<nat>)
      ensures forall i :: 0 <= i < |idx| ==> exists c :: c in columns && ColumnIndex(c) == Some(idx[i])
      ensures forall c :: c in columns && ColumnIndex(c).Some? ==> ColumnIndex(c).value in idx
    {
      if columns == [] then []
      else
        var rest := FilterColumnsOf(columns[1..]);
        match ColumnIndex(columns[0]) case None => rest case Some(i) => [i] + rest
    }

    /** FilterBy keeps the row: nothing to filter on, or some named column matches. */
    predicate Passes(row: Row) {
      names == [] || FilterColumns() == []
      || exists i :: i in FilterColumns() && MatchesAny(names, Ansi.Strip(Cell(row, i)))
    }

    /** HideRows drops the row. */
    predicate Hides(row: Row) {
      drops.Some? && ColumnIndex(hideCol).Some? && drops.value(Ansi.Strip(Cell(row, ColumnIndex(hideCol).value)))
    }

    predicate Numeric(rows: seq<Row>, idx: nat) {
      rows != [] && forall i :: 0 <= i < |rows| ==> parse(Ansi.Strip(Cell(rows[i], idx))).Some?
    }

    /** The order of two rows: by rank, else by number, else by visible text. */
    function Order(rows: seq<Row>, idx: nat): (Row, Row) -> bool {
      if Lower(sortCol) in ranks then
        (a, b) => ranks[Lower(sortCol)](Ansi.Strip(Cell(a, idx))) <= ranks[Lower(sortCol)](Ansi.Strip(Cell(b, idx)))
      else if Numeric(rows, idx) then
        (a, b) => NumberAtMost(NumberOf(Ansi.Strip(Cell(a, idx))), NumberOf(Ansi.Strip(Cell(b, idx))))
      else
        (a, b) => AtMost(Ansi.Strip(Cell(a, idx)), Ansi.Strip(Cell(b, idx)))
    }

    function NumberOf(text: string): Number {
      match parse(text) case Some(n) => n case None => Finite(0.0)
    }

    function Arranged(rows: seq<Row>): seq<Row> {
      match ColumnIndex(sortCol)
      case None => rows
      case Some(idx) => StableSort(rows, Order(rows, idx))
    }

    function Passing(): Row -> bool { row => Passes(row) }
    function Hiding(): Row -> bool { row => Hides(row) }

    function Kept(rows: seq<Row>): seq<Row> { Filter(rows, Passing()) }
    function NotHidden(rows: seq<Row>): seq<Row> { Filter(rows, Not(Hiding())) }
    function Remaining(rows: seq<Row>): seq<Row> { NotHidden(Kept(rows)) }
    function Printed(rows: seq<Row>): seq<Row> { Arranged(Remaining(rows)) }
    function HiddenCount(rows: seq<Row>): nat { |Kept(rows)| - |Remaining(rows)| }

    function Note(hidden: nat): string {
      if hidden == 0 then ""
      else
        var noun := if hidden == 1 then " row hidden " else " rows hidden ";
        Ansi.Paint(enabled, Ansi.GRAY, Itoa(hidden) + noun + note) + "\n"
    }

    function Output(printed: seq<Row>, hidden: nat): string {
      EverythingFits(headers, printed);
      var ws := Widths(headers, printed);
      Line(enabled, true, ws, headers) + Lines(ws, printed) + Note(hidden)
    }
  }

  function Not(p: Row -> bool): Row -> bool { row => !p(row) }

  /** table.go:165-172. */
  predicate MatchesAny(patterns: seq<string>, s: string) {
    exists p :: p in patterns && Glob.Matches(p, s)
  }

  lemma OrderIsTotal(t: Setup, rows: seq<Row>, idx: nat)
    ensures TotalPreorder(t.Order(rows, idx))
  {
    ByTextOrders();
    var le := t.Order(rows, idx);
    forall a, b ensures le(a, b) || le(b, a) {
      AtMostTotal(Ansi.Strip(Cell(a, idx)), Ansi.Strip(Cell(b, idx)));
    }
    forall a, b, c | le(a, b) && le(b, c) ensures le(a, c) {
      if Lower(t.sortCol) !in t.ranks && !t.Numeric(rows, idx) {
        AtMostTransitive(Ansi.Strip(Cell(a, idx)), Ansi.Strip(Cell(b, idx)), Ansi.Strip(Cell(c, idx)));
      }
    }
  }

  /** What is printed: exactly the rows that pass and are not hidden, each as often as it was
      added; with the hidden ones they add up to the rows that pass; and their order is the
      stable one. */
  lemma PrintedRows(t: Setup, rows: seq<Row>)
    ensures forall r :: multiset(t.Printed(rows))[r] == if t.Passes(r) && !t.Hides(r) then multiset(rows)[r] else 0
    ensures |t.Printed(rows)| + t.HiddenCount(rows) == |t.Kept(rows)|
    ensures t.ColumnIndex(t.sortCol).None? ==> t.Printed(rows) == t.Remaining(rows)
    ensures t.ColumnIndex(t.sortCol).Some? ==>
      StableSortOf(t.Remaining(rows), t.Printed(rows), t.Order(t.Remaining(rows), t.ColumnIndex(t.sortCol).value))
  {
    forall r ensures multiset(t.Remaining(rows))[r] == if t.Passes(r) && !t.Hides(r) then multiset(rows)[r] else 0 {
      FilterCount(rows, t.Passing(), r);
      FilterCount(t.Kept(rows), Not(t.Hiding()), r);
    }
    match t.ColumnIndex(t.sortCol)
    case None =>
    case Some(idx) =>
      OrderIsTotal(t, t.Remaining(rows), idx);
      StableSortIsStable(t.Remaining(rows), t.Order(t.Remaining(rows), idx));
  }

  /** A column of the row that FilterBy named has a cell some given pattern matches. */
  ghost predicate Matched(t: Setup, r: Row) {
    exists c, i, p :: c in t.filterCol && t.ColumnIndex(c) == Some(i) && p in t.names
      && Glob.Match(p, Ansi.Strip(Cell(r, i))) == Some(true)
  }

  /** A column of the row that FilterBy named shows one of the given names. */
  ghost predicate Named(t: Setup, r: Row) {
    exists c, i :: c in t.filterCol && t.ColumnIndex(c) == Some(i) && Ansi.Strip(Cell(r, i)) in t.names
  }

  /** HideRows' column of the row has a cell that is to be hidden. */
  ghost predicate ToHide(t: Setup, r: Row) {
    t.drops.Some? && exists i :: t.ColumnIndex(t.hideCol) == Some(i) && t.drops.value(Ansi.Strip(Cell(r, i)))
  }

  /** There are names to filter by, and the table has a column to filter on. */
  ghost predicate Filters(t: Setup) {
    t.names != [] && exists c :: c in t.filterCol && t.ColumnIndex(c).Some?
  }

  lemma MatchedPasses(t: Setup, r: Row)
    requires Matched(t, r)
    ensures t.Passes(r)
  {
    var c, i, p :| c in t.filterCol && t.ColumnIndex(c) == Some(i) && p in t.names
      && Glob.Match(p, Ansi.Strip(Cell(r, i))) == Some(true);
    assert Glob.Matches(p, Ansi.Strip(Cell(r, i)));
    assert i in t.FilterColumns() && MatchesAny(t.names, Ansi.Strip(Cell(r, i)));
  }

  lemma PassesMatched(t: Setup, r: Row, i: nat)
    requires i in t.FilterColumns() && MatchesAny(t.names, Ansi.Strip(Cell(r, i)))
    ensures Matched(t, r)
  {
    var k :| 0 <= k < |t.FilterColumns()| && t.FilterColumns()[k] == i;
    var c :| c in t.filterCol && t.ColumnIndex(c) == Some(i);
    var p :| p in t.names && Glob.Matches(p, Ansi.Strip(Cell(r, i)));
  }

  lemma FiltersColumns(t: Setup)
    ensures Filters(t) <==> t.names != [] && t.FilterColumns() != []
  {
    if t.FilterColumns() != [] {
      var c :| c in t.filterCol && t.ColumnIndex(c) == Some(t.FilterColumns()[0]);
    }
  }

  lemma PassingRows(t: Setup, r: Row)
    ensures t.Passes(r) <==> !Filters(t) || Matched(t, r)
  {
    FiltersColumns(t);
    if Matched(t, r) { MatchedPasses(t, r); }
    forall i | i in t.FilterColumns() && MatchesAny(t.names, Ansi.Strip(Cell(r, i))) ensures Matched(t, r) {
      PassesMatched(t, r, i);
    }
  }

  lemma HidingRows(t: Setup, r: Row)
    ensures t.Hides(r) <==> ToHide(t, r)
  {
  }

  /** Which rows are printed: any one of the patterns in any one of the columns keeps a row;
      without patterns, or without such a column, every row stays. */
  lemma PatternsSelectRows(t: Setup, rows: seq<Row>, r: Row)
    ensures multiset(t.Printed(rows))[r] ==
      if (Filters(t) ==> Matched(t, r)) && !ToHide(t, r) then multiset(rows)[r] else 0
  {
    PrintedRows(t, rows);
    PassingRows(t, r);
    HidingRows(t, r);
  }

  /** Plain names select the rows that show one of them. */
  lemma NamesSelectRows(t: Setup, rows: seq<Row>, r: Row)
    requires forall n, c :: n in t.names && c in n ==> c !in "*?[\\"
    ensures multiset(t.Printed(rows))[r] ==
      if (Filters(t) ==> Named(t, r)) && !ToHide(t, r) then multiset(rows)[r] else 0
  {
    PatternsSelectRows(t, rows, r);
    forall n, s | n in t.names ensures Glob.Match(n, s) == Some(n == s) { Glob.PlainNameMatchesItself(n, s); }
    if Named(t, r) {
      var c, i :| c in t.filterCol && t.ColumnIndex(c) == Some(i) && Ansi.Strip(Cell(r, i)) in t.names;
      assert Glob.Match(Ansi.Strip(Cell(r, i)), Ansi.Strip(Cell(r, i))) == Some(true);
    }
  }

  lemma SameHeadersSameColumn(t: Setup, u: Setup, column: string)
    requires t.headers == u.headers
    ensures t.ColumnIndex(column) == u.ColumnIndex(column)
  {
  }

  /** One more name never drops a row. */
  lemma MoreNamesKeepRows(t: Setup, n: string, rows: seq<Row>, r: Row)
    requires t.names != []
    ensures multiset(t.Printed(rows))[r] <= multiset(t.(names := t.names + [n]).Printed(rows))[r]
  {
    var u := t.(names := t.names + [n]);
    PatternsSelectRows(t, rows, r);
    PatternsSelectRows(u, rows, r);
    forall c ensures t.ColumnIndex(c) == u.ColumnIndex(c) { SameHeadersSameColumn(t, u, c); }
    if Matched(t, r) {
      var c, i, p :| c in t.filterCol && t.ColumnIndex(c) == Some(i) && p in t.names
        && Glob.Match(p, Ansi.Strip(Cell(r, i))) == Some(true);
      assert p in u.names;
    }
  }

  /** Numbers ascend, what is not a number before all of them. */
  ghost predicate Ascend(a: Number, b: Number) {
    && (a.Finite? && b.Finite? ==> a.r <= b.r)
    && (b == NotANumber ==> a == NotANumber)
    && (b == NegativeInfinity ==> a == NotANumber || a == NegativeInfinity)
    && (a == PositiveInfinity ==> b == PositiveInfinity)
  }

  /** Of two cells the second has no smaller rank, or no smaller number when all are numbers, or
      else no smaller text. */
  ghost predicate CellsAscend(t: Setup, allNumbers: bool, a: string, b: string) {
    if Lower(t.sortCol) in t.ranks then t.ranks[Lower(t.sortCol)](a) <= t.ranks[Lower(t.sortCol)](b)
    else if allNumbers then t.parse(a).Some? && t.parse(b).Some? && Ascend(t.parse(a).value, t.parse(b).value)
    else exists k :: Precedes(a, b, k)
  }

  lemma OrderMeaning(t: Setup, rows: seq<Row>, idx: nat, x: Row, y: Row)
    requires t.Order(rows, idx)(x, y) && x in rows && y in rows
    ensures CellsAscend(t, t.Numeric(rows, idx), Ansi.Strip(Cell(x, idx)), Ansi.Strip(Cell(y, idx)))
  {
    var a, b := Ansi.Strip(Cell(x, idx)), Ansi.Strip(Cell(y, idx));
    if Lower(t.sortCol) !in t.ranks {
      if t.Numeric(rows, idx) {
        NumericCells(t, rows, idx, x);
        NumericCells(t, rows, idx, y);
        AtMostAscends(t.NumberOf(a), t.NumberOf(b));
      } else {
        AtMostMeaning(a, b);
      }
    }
  }

  lemma AtMostAscends(a: Number, b: Number)
    ensures NumberAtMost(a, b) <==> Ascend(a, b)
  {
  }

  lemma NumericCells(t: Setup, rows: seq<Row>, idx: nat, x: Row)
    requires t.Numeric(rows, idx) && x in rows
    ensures t.parse(Ansi.Strip(Cell(x, idx))) == Some(t.NumberOf(Ansi.Strip(Cell(x, idx))))
  {
    var i :| 0 <= i < |rows| && rows[i] == x;
  }

  /** What the printed order is. */
  lemma PrintedAscending(t: Setup, rows: seq<Row>, idx: nat, i: nat, j: nat)
    requires t.ColumnIndex(t.sortCol) == Some(idx) && i < j < |t.Printed(rows)|
    ensures var printed := t.Printed(rows);
      var allNumbers := forall r :: r in printed ==> t.parse(Ansi.Strip(Cell(r, idx))).Some?;
      CellsAscend(t, allNumbers, Ansi.Strip(Cell(printed[i], idx)), Ansi.Strip(Cell(printed[j], idx)))
  {
    var left, printed := t.Remaining(rows), t.Printed(rows);
    SortedRows(t, left, printed, idx, i, j);
    NumericRows(t, left, printed, idx);
    OrderMeaning(t, left, idx, printed[i], printed[j]);
  }

  lemma SortedRows(t: Setup, left: seq<Row>, sorted: seq<Row>, idx: nat, i: nat, j: nat)
    requires sorted == StableSort(left, t.Order(left, idx)) && i < j < |sorted|
    ensures t.Order(left, idx)(sorted[i], sorted[j])
    ensures forall r :: r in left <==> r in sorted
  {
    OrderIsTotal(t, left, idx);
    StableSortSorted(left, t.Order(left, idx));
    forall r ensures r in left <==> r in sorted { assert r in multiset(left) <==> r in multiset(sorted); }
  }

  lemma NumericRows(t: Setup, left: seq<Row>, printed: seq<Row>, idx: nat)
    requires printed != [] && forall r :: r in left <==> r in printed
    ensures t.Numeric(left, idx) <==> forall r :: r in printed ==> t.parse(Ansi.Strip(Cell(r, idx))).Some?
  {
    assert printed[0] in left;
    forall i | 0 <= i < |left| ensures left[i] in printed {}
  }

  /** Every line of the output is aligned on the same columns, header and rows alike. */
  lemma TableAligned(t: Setup, printed: seq<Row>, i: nat, cells: Row, header: bool)
    requires i < |t.headers|
    requires if header then cells == t.headers else cells in printed
    ensures var ws := Widths(t.headers, printed);
      && Fits(ws, cells)
      && StandsAt(Ansi.Visible(Line(header && t.enabled, header, ws, cells)),
                  Offset(ws, i), Ansi.Visible(Cell(cells, i)))
  {
    EverythingFits(t.headers, printed);
    LineAligned(header && t.enabled, header, Widths(t.headers, printed), cells, i);
  }

  // ---- storage ---------------------------------------------------------------------------------

  /** A three-index slice of a block: its capacity ends where it does. */
  datatype Slice = Slice(block: array<string>, lo: nat, hi: nat) {
    ghost predicate InBounds() { lo <= hi <= block.Length }

    function Cells(): Row
      requires InBounds()
      reads block
    {
      block[lo..hi]
    }

    ghost predicate Disjoint(other: Slice) {
      block != other.block || hi <= other.lo || other.hi <= lo
    }
  }

  /** A stored row: where its cells live, and what they were when Row was called. */
  datatype Stored = Stored(slice: Slice, ghost cells: Row) {
    ghost predicate Intact(blocks: set<array<string>>)
      reads blocks
    {
      slice.InBounds() && slice.block in blocks && slice.Cells() == cells
    }
  }

  ghost predicate AllIntact(rows: seq<Stored>, blocks: set<array<string>>)
    reads blocks
  {
    forall i :: 0 <= i < |rows| ==> rows[i].Intact(blocks)
  }

  /** No two of the rows share a cell of a block. */
  ghost predicate Separate(rows: multiset<Stored>) {
    forall r, s :: r in rows && s in rows && (r != s || rows[r] > 1) ==> r.slice.Disjoint(s.slice)
  }

  /** What is left of the current block lies above every row in it. */
  ghost predicate Below(rows: multiset<Stored>, arena: Slice) {
    forall r :: r in rows && r.slice.block == arena.block ==> r.slice.hi <= arena.lo
  }

  lemma {:induction false} FewerStaySeparate(fewer: multiset<Stored>, rows: multiset<Stored>, arena: Slice)
    requires fewer <= rows && Separate(rows) && Below(rows, arena)
    ensures Separate(fewer) && Below(fewer, arena)
  {
  }

  lemma {:induction false} SeparateAppend(rows: seq<Stored>, s: Stored)
    requires Separate(multiset(rows)) && forall r :: r in rows ==> r.slice.Disjoint(s.slice)
    ensures Separate(multiset(rows + [s]))
  {
    var all := multiset(rows + [s]);
    assert all == multiset(rows) + multiset{s};
    forall r, q | r in all && q in all && (r != q || all[r] > 1) ensures r.slice.Disjoint(q.slice) {
      assert r == s || r in rows;
      assert q == s || q in rows;
      if r == q == s {
        assert s in multiset(rows);
      }
    }
  }

  lemma {:induction false} SeparateMeansDisjoint(rows: seq<Stored>, i: nat, j: nat)
    requires Separate(multiset(rows)) && i < j < |rows|
    ensures rows[i].slice.Disjoint(rows[j].slice)
  {
    if rows[i] == rows[j] {
      assert rows == rows[..j] + [rows[j]] + rows[j + 1..];
      assert rows[i] in rows[..j];
    }
  }

  lemma {:induction false} AboveEveryRow(rows: seq<Stored>, arena: Slice, slice: Slice)
    requires Below(multiset(rows), arena) && slice.block == arena.block && arena.lo <= slice.lo
    ensures forall i :: 0 <= i < |rows| ==> rows[i].slice.Disjoint(slice)
  {
    forall i | 0 <= i < |rows| ensures rows[i].slice.Disjoint(slice) {
      assert rows[i] in multiset(rows);
    }
  }

  lemma {:induction false} BelowAppend(rows: seq<Stored>, row: Stored, arena: Slice)
    requires Below(multiset(rows), arena) && row.slice.lo == arena.lo <= row.slice.hi
    ensures Below(multiset(rows + [row]), Slice(arena.block, row.slice.hi, arena.hi))
  {
    assert multiset(rows + [row]) == multiset(rows) + multiset{row};
  }

  lemma {:induction false} AppendStored(rows: seq<Stored>, row: Stored, blocks: set<array<string>>, arena: Slice)
    requires AllIntact(rows, blocks) && Separate(multiset(rows)) && Below(multiset(rows), arena)
    requires row.Intact(blocks) && row.slice.block == arena.block && row.slice.lo == arena.lo
    ensures AllIntact(rows + [row], blocks) && Separate(multiset(rows + [row]))
    ensures Below(multiset(rows + [row]), Slice(arena.block, row.slice.hi, arena.hi))
    ensures CellsOf(rows + [row]) == CellsOf(rows) + [row.cells]
  {
    AboveEveryRow(rows, arena, row.slice);
    SeparateAppend(rows, row);
    BelowAppend(rows, row, arena);
    MapSnoc(CellsIn(), rows, row);
  }

  datatype SortKey = SortKey(row: Stored, text: string, num: Number)

  predicate ByNumber(a: SortKey, b: SortKey) { NumberAtMost(a.num, b.num) }
  predicate ByVisibleText(a: SortKey, b: SortKey) { AtMost(a.text, b.text) }

  ghost function CellsIn(): Stored -> Row { (r: Stored) => r.cells }
  ghost function CellsOf(rows: seq<Stored>): seq<Row> { Map(CellsIn(), rows) }
  function RowIn(): SortKey -> Stored { (k: SortKey) => k.row }

  /** Sorting the keys of rows and taking the rows back sorts the rows by their cells. */
  lemma {:induction false} SortKeysSortRows(rows: seq<Stored>, keys: seq<SortKey>,
                         byKey: (SortKey, SortKey) -> bool, order: (Row, Row) -> bool)
    requires Map(RowIn(), keys) == rows
    requires forall a, b :: a in keys && b in keys ==> byKey(a, b) == order(a.row.cells, b.row.cells)
    ensures var out := Map(RowIn(), StableSort(keys, byKey));
      multiset(out) == multiset(rows) && CellsOf(out) == StableSort(CellsOf(rows), order)
  {
    var le := (a: Stored, b: Stored) => order(a.cells, b.cells);
    SortCommutesWithMap(RowIn(), keys, byKey, le);
    SortCommutesWithMap(CellsIn(), rows, le, order);
  }

  // ---- the steps of Flush, on the stored rows -------------------------------------------------

  ghost function Keeping(drop: Row -> bool): Stored -> bool { (r: Stored) => !drop(r.cells) }

  lemma {:induction false} KeptCells(rows: seq<Stored>, drop: Row -> bool)
    ensures CellsOf(Filter(rows, Keeping(drop))) == Filter(CellsOf(rows), Not(drop))
  {
    if rows != [] { KeptCells(rows[1..], drop); }
  }

  /** `slices.DeleteFunc` on the rows: what stays keeps its order. */
  method DeleteFunc(rows: seq<Stored>, ghost blocks: set<array<string>>, drop: Row -> bool) returns (kept: seq<Stored>)
    requires AllIntact(rows, blocks)
    ensures multiset(kept) <= multiset(rows)
    ensures CellsOf(kept) == Filter(CellsOf(rows), Not(drop))
  {
    kept := [];
    for i := 0 to |rows|
      invariant kept == Filter(rows[..i], Keeping(drop))
    {
      FilterSnoc(rows, i, Keeping(drop));
      assert rows[i].Intact(blocks);
      if !drop(rows[i].slice.Cells()) {
        kept := kept + [rows[i]];
      }
    }
    assert rows[..|rows|] == rows;
    KeptCells(rows, drop);
    FilterMultiset(rows, Keeping(drop));
  }

  /** table.go:128-149. */
  method FilterRows(t: Setup, rows: seq<Stored>, ghost blocks: set<array<string>>) returns (kept: seq<Stored>)
    requires AllIntact(rows, blocks)
    ensures multiset(kept) <= multiset(rows)
    ensures CellsOf(kept) == t.Kept(CellsOf(rows))
  {
    var idx := t.FilterColumns();
    if t.names == [] || idx == [] {
      FilterAll(CellsOf(rows), t.Passing());
      return rows;
    }
    var drop := (row: Row) => !exists i :: i in idx && MatchesAny(t.names, Ansi.Strip(Cell(row, i)));
    FilterExtensional(CellsOf(rows), t.Passing(), Not(drop));
    kept := DeleteFunc(rows, blocks, drop);
  }

  /** table.go:152-160. */
  method HideRows(t: Setup, rows: seq<Stored>, ghost blocks: set<array<string>>)
    returns (kept: seq<Stored>, hidden: nat)
    requires AllIntact(rows, blocks)
    ensures multiset(kept) <= multiset(rows)
    ensures CellsOf(kept) == t.NotHidden(CellsOf(rows))
    ensures hidden == |rows| - |kept|
  {
    var idx := t.ColumnIndex(t.hideCol);
    if t.drops.None? || idx.None? {
      FilterAll(CellsOf(rows), Not(t.Hiding()));
      return rows, 0;
    }
    var drop := (row: Row) => t.drops.value(Ansi.Strip(Cell(row, idx.value)));
    FilterExtensional(CellsOf(rows), Not(t.Hiding()), Not(drop));
    kept := DeleteFunc(rows, blocks, drop);
    hidden := |rows| - |kept|;
  }

  /** table.go:212-215. */
  method ExtractKeys(rows: seq<Stored>, ghost blocks: set<array<string>>, idx: nat) returns (keys: seq<SortKey>)
    requires AllIntact(rows, blocks)
    ensures |keys| == |rows|
    ensures forall k :: 0 <= k < |rows| ==> keys[k].row == rows[k]
    ensures forall k :: 0 <= k < |rows| ==> keys[k].text == Ansi.Strip(Cell(rows[k].cells, idx))
  {
    keys := [];
    for i := 0 to |rows|
      invariant |keys| == i
      invariant forall k :: 0 <= k < i ==> keys[k].row == rows[k]
      invariant forall k :: 0 <= k < i ==> keys[k].text == Ansi.Strip(Cell(rows[k].cells, idx))
    {
      var text := Ansi.StripAnsi(Cell(rows[i].slice.Cells(), idx));
      Ansi.StripIsVisible(Cell(rows[i].cells, idx));
      keys := keys + [SortKey(rows[i], text, Finite(0.0))];
    }
  }

  /** table.go:242-254. */
  method ParseNumeric(parse: string -> Option<Number>, keys: seq<SortKey>) returns (numeric: bool, filled: seq<SortKey>)
    ensures |filled| == |keys|
    ensures forall i :: 0 <= i < |keys| ==> filled[i].row == keys[i].row && filled[i].text == keys[i].text
    ensures numeric <==> keys != [] && forall i :: 0 <= i < |keys| ==> parse(keys[i].text).Some?
    ensures numeric ==> forall i :: 0 <= i < |keys| ==> filled[i].num == parse(keys[i].text).value
  {
    filled := keys;
    if keys == [] { return false, filled; }
    for i := 0 to |keys|
      invariant |filled| == |keys|
      invariant forall k :: 0 <= k < |keys| ==> filled[k].row == keys[k].row && filled[k].text == keys[k].text
      invariant forall k :: 0 <= k < i ==> parse(keys[k].text).Some? && filled[k].num == parse(keys[k].text).value
    {
      var f := parse(filled[i].text);
      if f.None? { return false, filled; }
      filled := filled[i := filled[i].(num := f.value)];
    }
    numeric := true;
  }

  /** table.go:216-224: the comparison, and the keys with their numbers filled in. */
  method ChooseOrder(t: Setup, ghost rows: seq<Row>, idx: nat, keys: seq<SortKey>)
    returns (filled: seq<SortKey>, byKey: (SortKey, SortKey) -> bool)
    requires |keys| == |rows|
    requires forall k :: 0 <= k < |keys| ==>
      keys[k].row.cells == rows[k] && keys[k].text == Ansi.Strip(Cell(rows[k], idx))
    ensures |filled| == |keys| && forall k :: 0 <= k < |keys| ==> filled[k].row == keys[k].row
    ensures forall i, j :: 0 <= i < |keys| && 0 <= j < |keys| ==>
      byKey(filled[i], filled[j]) == t.Order(rows, idx)(rows[i], rows[j])
  {
    filled, byKey := keys, ByVisibleText;
    if Lower(t.sortCol) in t.ranks {
      var rank := t.ranks[Lower(t.sortCol)];
      for i := 0 to |keys|
        invariant |filled| == |keys|
        invariant forall k :: 0 <= k < |keys| ==> filled[k].row == keys[k].row && filled[k].text == keys[k].text
        invariant forall k :: 0 <= k < i ==> filled[k].num == Finite(rank(keys[k].text) as real)
      {
        filled := filled[i := filled[i].(num := Finite(rank(filled[i].text) as real))];
      }
      byKey := ByNumber;
    } else {
      var numeric;
      numeric, filled := ParseNumeric(t.parse, keys);
      assert numeric == t.Numeric(rows, idx);
      if numeric {
        byKey := ByNumber;
      }
    }
  }

  /** table.go:211-229: extract each key once, sort the keys, take the rows back. */
  method SortRows(t: Setup, rows: seq<Stored>, ghost blocks: set<array<string>>, idx: nat) returns (sorted: seq<Stored>)
    requires AllIntact(rows, blocks)
    ensures multiset(sorted) == multiset(rows)
    ensures CellsOf(sorted) == StableSort(CellsOf(rows), t.Order(CellsOf(rows), idx))
  {
    var keys := ExtractKeys(rows, blocks, idx);
    var byKey;
    keys, byKey := ChooseOrder(t, CellsOf(rows), idx, keys);
    assert Map(RowIn(), keys) == rows;
    SortKeysSortRows(rows, keys, byKey, t.Order(CellsOf(rows), idx));
    sorted := Map(RowIn(), StableSort(keys, byKey));
  }

  /** table.go:97-122, the part of Flush after the sort. */
  method Render(t: Setup, rows: seq<Row>, hidden: nat) returns (text: string)
    ensures text == t.Output(rows, hidden)
  {
    EverythingFits(t.headers, rows);
    var ws := MeasureWidths(t.headers, rows);
    text := WriteLine("", t.enabled, true, ws, t.headers);
    ghost var top := Line(t.enabled, true, ws, t.headers);
    assert "" + top == top;
    for i := 0 to |rows|
      invariant text == top + Lines(ws, rows[..i])
    {
      Associate(top, Lines(ws, rows[..i]), Line(false, false, ws, rows[i]));
      LinesSnoc(ws, rows, i);
      text := WriteLine(text, false, false, ws, rows[i]);
    }
    assert rows[..|rows|] == rows;
    if hidden > 0 {
      var noun := if hidden == 1 then " row hidden " else " rows hidden ";
      text := text + (Ansi.Paint(t.enabled, Ansi.GRAY, Itoa(hidden) + noun + t.note) + "\n");
    }
  }

  // ---- the table --------------------------------------------------------------------------------

  method CopyCells(dst: Slice, src: Slice)
    requires dst.InBounds() && src.InBounds() && dst.block != src.block
    requires dst.hi - dst.lo == src.hi - src.lo
    modifies dst.block
    ensures dst.Cells() == old(src.Cells())
    ensures forall k :: 0 <= k < dst.lo || dst.hi <= k < dst.block.Length ==> dst.block[k] == old(dst.block[k])
  {
    forall i | 0 <= i < dst.hi - dst.lo {
      dst.block[dst.lo + i] := src.block[src.lo + i];
    }
  }

  /** Copying into a slice that no row has cells in leaves the rows as they were. */
  method CopyBeside(dst: Slice, src: Slice, ghost rows: seq<Stored>, ghost blocks: set<array<string>>)
    requires dst.InBounds() && src.InBounds() && dst.block != src.block && dst.hi - dst.lo == src.hi - src.lo
    requires AllIntact(rows, blocks) && forall i :: 0 <= i < |rows| ==> rows[i].slice.Disjoint(dst)
    modifies dst.block
    ensures dst.Cells() == old(src.Cells())
    ensures AllIntact(rows, blocks)
  {
    CopyCells(dst, src);
    forall i | 0 <= i < |rows| ensures rows[i].Intact(blocks) {
      var s := rows[i].slice;
      assert old(rows[i].Intact(blocks));
      assert forall k :: s.lo <= k < s.hi ==> s.block[k] == old(s.block[k]);
      assert s.Cells() == old(s.Cells());
    }
  }

  /** The row's copy, at the start of what is left of the block. */
  method CopyRow(arena: Slice, cols: Slice, ghost rows: seq<Stored>, ghost blocks: set<array<string>>)
    returns (row: Stored)
    requires arena.InBounds() && arena.block in blocks && cols.InBounds() && cols.block !in blocks
    requires cols.hi - cols.lo <= arena.hi - arena.lo
    requires AllIntact(rows, blocks) && Separate(multiset(rows)) && Below(multiset(rows), arena)
    modifies arena.block
    ensures row.slice == Slice(arena.block, arena.lo, arena.lo + (cols.hi - cols.lo))
    ensures AllIntact(rows + [row], blocks) && Separate(multiset(rows + [row]))
    ensures Below(multiset(rows + [row]), Slice(arena.block, row.slice.hi, arena.hi))
    ensures CellsOf(rows + [row]) == CellsOf(rows) + [old(cols.Cells())]
  {
    var slice := Slice(arena.block, arena.lo, arena.lo + (cols.hi - cols.lo));
    row := Stored(slice, cols.Cells());
    AboveEveryRow(rows, arena, slice);
    CopyBeside(slice, cols, rows, blocks);
    AppendStored(rows, row, blocks, arena);
  }

  class Table {
    var setup: Setup
    var rows: seq<Stored>
    var arena: Slice
    ghost var Blocks: set<array<string>>

    ghost predicate Valid()
      reads this, Blocks
    {
      && arena.InBounds() && arena.hi == arena.block.Length && arena.block in Blocks
      && AllIntact(rows, Blocks)
      && Separate(multiset(rows)) && Below(multiset(rows), arena)
    }

    /** The rows as the caller passed them. */
    ghost function Contents(): seq<Row>
      reads this
    {
      CellsOf(rows)
    }

    constructor (enabled: bool, headers: Row, parse: string -> Option<Number>)
      ensures Valid() && fresh(Blocks) && Contents() == []
      ensures setup == Setup(enabled, headers, "", map[], [], [], "", None, "", parse)
    {
      setup := Setup(enabled, headers, "", map[], [], [], "", None, "", parse);
      rows := [];
      var none := new string[0];
      arena := Slice(none, 0, 0);
      Blocks := {none};
    }

    /** table.go:45-47: a new block when the current one cannot hold the row. */
    method Reserve(n: nat)
      requires Valid()
      modifies this`arena, this`Blocks
      ensures Valid() && fresh(Blocks - old(Blocks)) && arena.hi - arena.lo >= n
      ensures arena == old(arena) || fresh(arena.block)
      ensures Contents() == old(Contents())
    {
      if arena.hi - arena.lo < n {
        var size := if ROW_ARENA < n then n else ROW_ARENA;
        var block := new string[size];
        arena := Slice(block, 0, size);
        Blocks := Blocks + {block};
      }
    }

    /** table.go:48-51, once there is room. */
    method Store(cols: Slice)
      requires Valid() && cols.InBounds() && cols.block !in Blocks
      requires cols.hi - cols.lo <= arena.hi - arena.lo
      modifies this`rows, this`arena, arena.block
      ensures Valid() && Contents() == old(Contents()) + [old(cols.Cells())]
    {
      var row := CopyRow(arena, cols, rows, Blocks);
      arena := Slice(arena.block, row.slice.hi, arena.hi);
      rows := rows + [row];
    }

    /** table.go:44-52. The caller keeps its buffer: it is read, never written or kept. */
    method Row(cols: Slice)
      requires Valid() && cols.InBounds() && cols.block !in Blocks
      modifies this`rows, this`arena, this`Blocks, arena.block
      ensures Valid() && fresh(Blocks - old(Blocks)) && cols.block !in Blocks
      ensures Contents() == old(Contents()) + [old(cols.Cells())]
    {
      Reserve(cols.hi - cols.lo);
      Store(cols);
    }

    method SortBy(column: string)
      modifies this`setup
      ensures setup == old(setup).(sortCol := column)
    {
      setup := setup.(sortCol := column);
    }

    method FilterBy(columns: seq<string>, names: seq<string>)
      modifies this`setup
      ensures setup == old(setup).(filterCol := columns, names := names)
    {
      setup := setup.(filterCol := columns, names := names);
    }

    method HideRows(column: string, drops: string -> bool, note: string)
      modifies this`setup
      ensures setup == old(setup).(hideCol := column, drops := Some(drops), note := note)
    {
      setup := setup.(hideCol := column, drops := Some(drops), note := note);
    }

    method SortRank(column: string, key: string -> int)
      modifies this`setup
      ensures setup == old(setup).(ranks := old(setup).ranks[Lower(column) := key])
    {
      setup := setup.(ranks := setup.ranks[Lower(column) := key]);
    }

    method SetRows(fewer: seq<Stored>)
      requires Valid() && AllIntact(fewer, Blocks) && multiset(fewer) <= multiset(rows)
      modifies this`rows
      ensures Valid() && rows == fewer
    {
      FewerStaySeparate(multiset(fewer), multiset(rows), arena);
      rows := fewer;
    }

    /** table.go:88-125. */
    method Flush() returns (text: string)
      requires Valid()
      modifies this`rows
      ensures Valid() && Contents() == setup.Printed(old(Contents()))
      ensures text == setup.Output(Contents(), setup.HiddenCount(old(Contents())))
    {
      var shown;
      shown, text := FlushRows(setup, rows, Blocks);
      SetRows(shown);
    }
  }

  method FlushRows(t: Setup, rows: seq<Stored>, ghost blocks: set<array<string>>)
    returns (shown: seq<Stored>, text: string)
    requires AllIntact(rows, blocks)
    ensures multiset(shown) <= multiset(rows) && AllIntact(shown, blocks)
    ensures CellsOf(shown) == t.Printed(CellsOf(rows))
    ensures text == t.Output(CellsOf(shown), t.HiddenCount(CellsOf(rows)))
  {
    var hidden, cells;
    shown, hidden, cells := Prepare(t, rows, blocks);
    text := Render(t, cells, hidden);
  }

  /** table.go:92-96, and the cells of the rows that are left. */
  method Prepare(t: Setup, rows: seq<Stored>, ghost blocks: set<array<string>>)
    returns (shown: seq<Stored>, hidden: nat, cells: seq<Row>)
    requires AllIntact(rows, blocks)
    ensures multiset(shown) <= multiset(rows) && AllIntact(shown, blocks)
    ensures cells == CellsOf(shown) == t.Printed(CellsOf(rows))
    ensures hidden == t.HiddenCount(CellsOf(rows))
  {
    var kept := FilterRows(t, rows, blocks);
    StillIntact(kept, rows, blocks);
    shown, hidden := HideRows(t, kept, blocks);
    StillIntact(shown, rows, blocks);
    shown := ArrangeRows(t, shown, blocks);
    StillIntact(shown, rows, blocks);
    cells := ReadRows(shown, blocks);
  }

  /** table.go:94-96. */
  method ArrangeRows(t: Setup, rows: seq<Stored>, ghost blocks: set<array<string>>) returns (arranged: seq<Stored>)
    requires AllIntact(rows, blocks)
    ensures multiset(arranged) == multiset(rows)
    ensures CellsOf(arranged) == t.Arranged(CellsOf(rows))
  {
    arranged := rows;
    var idx := t.ColumnIndex(t.sortCol);
    if idx.Some? {
      arranged := SortRows(t, rows, blocks, idx.value);
    }
  }

  method ReadRows(rows: seq<Stored>, ghost blocks: set<array<string>>) returns (cells: seq<Row>)
    requires AllIntact(rows, blocks)
    ensures cells == CellsOf(rows)
  {
    cells := [];
    for i := 0 to |rows|
      invariant |cells| == i && forall k :: 0 <= k < i ==> cells[k] == rows[k].cells
    {
      assert rows[i].Intact(blocks);
      cells := cells + [rows[i].slice.Cells()];
    }
  }

  lemma {:induction false} StillIntact(fewer: seq<Stored>, rows: seq<Stored>, blocks: set<array<string>>)
    requires AllIntact(rows, blocks) && multiset(fewer) <= multiset(rows)
    ensures AllIntact(fewer, blocks)
  {
    forall i | 0 <= i < |fewer| ensures fewer[i].Intact(blocks) {
      assert fewer[i] in multiset(fewer);
      assert fewer[i] in rows;
    }
  }

  /** What the caller does with its own buffers afterwards cannot reach a stored row. */
  twostate lemma StoredRowsStay(t: Table)
    requires old(t.Valid()) && unchanged(t) && forall b :: b in old(t.Blocks) ==> unchanged(b)
    ensures t.Valid() && t.Contents() == old(t.Contents())
  {
  }
}
