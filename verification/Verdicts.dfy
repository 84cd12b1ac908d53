/** internal/view/verdict.go: the order every verdict table promises. */
module Verdicts {
  import opened Sequences
  import opened Sorting
  import opened Text
  import opened Rendering
  import opened Tables
  import Ansi

  /** How bad a verdict is: 0 when it is not listed, otherwise higher the earlier it is. */
  function Rank(worstFirst: seq<string>, verdict: string): (r: nat)
    ensures r <= |worstFirst|
    ensures r == 0 <==> verdict !in worstFirst
    ensures r > 0 ==> worstFirst[|worstFirst| - r] == verdict
    ensures r > 0 ==> verdict !in worstFirst[|worstFirst| - r + 1..]
  {
    if worstFirst == [] then 0
    else
      var later := Rank(worstFirst[1..], verdict);
      if later > 0 then later
      else if worstFirst[0] == verdict then |worstFirst| else 0
  }

  lemma {:induction false} RankOfLast(worstFirst: seq<string>, i: nat)
    requires i < |worstFirst| && worstFirst[i] !in worstFirst[i + 1..]
    ensures Rank(worstFirst, worstFirst[i]) == |worstFirst| - i
  {
    if i > 0 {
      assert worstFirst[1..][i - 1] == worstFirst[i] && worstFirst[1..][i..] == worstFirst[i + 1..];
      RankOfLast(worstFirst[1..], i - 1);
    }
  }

  /** verdict.go:58-67. A verdict listed twice keeps its last place. */
  method VerdictRank(worstFirst: seq<string>) returns (rank: map<string, int>)
    ensures forall v :: (if v in rank then rank[v] else 0) == Rank(worstFirst, v)
  {
    rank := map[];
    var n := |worstFirst|;
    for i := 0 to n
      invariant forall v :: v in rank <==> v in worstFirst[..i]
      invariant forall v :: v in rank ==>
        exists k :: 0 <= k < i && worstFirst[k] == v && rank[v] == n - k && v !in worstFirst[k + 1..i]
    {
      var v := worstFirst[i];
      assert worstFirst[..i + 1] == worstFirst[..i] + [v];
      forall u | u in rank && u != v
        ensures exists k :: 0 <= k < i && worstFirst[k] == u && rank[u] == n - k && u !in worstFirst[k + 1..i + 1]
      {
        var k :| 0 <= k < i && worstFirst[k] == u && rank[u] == n - k && u !in worstFirst[k + 1..i];
        assert worstFirst[k + 1..i + 1] == worstFirst[k + 1..i] + [v];
      }
      rank := rank[v := n - i];
    }
    assert worstFirst[..n] == worstFirst;
    forall v ensures (if v in rank then rank[v] else 0) == Rank(worstFirst, v) {
      if v in rank {
        var k :| 0 <= k < n && worstFirst[k] == v && rank[v] == n - k && v !in worstFirst[k + 1..n];
        RankOfLast(worstFirst, k);
      }
    }
  }

  // ---- the order of a verdict table -------------------------------------------------------------

  datatype Severity = Bad | Warn | Muted | Fine

  /** verdict.go:40-51. */
  function Code(sev: Severity): string {
    match sev case Bad => Ansi.RED case Warn => Ansi.YELLOW case Muted => Ansi.GRAY case Fine => Ansi.GREEN
  }

  /** An object graded by a view. `middle` holds the cells between name and verdict. */
  datatype Finding = Finding(ns: string, name: string, middle: Row, verdict: string, sev: Severity)

  function RowOf(enabled: bool): Finding -> Row {
    (f: Finding) => [f.ns, f.name] + f.middle + [Ansi.Paint(enabled, Code(f.sev), f.verdict)]
  }

  /** verdict.go:28-30. */
  function ByNsName(): (Finding, Finding) -> bool {
    (a: Finding, b: Finding) => AtMost(a.ns, b.ns) && (a.ns == b.ns ==> AtMost(a.name, b.name))
  }

  function ByRank(worstFirst: seq<string>): (Finding, Finding) -> bool {
    (a: Finding, b: Finding) => Rank(worstFirst, a.verdict) <= Rank(worstFirst, b.verdict)
  }

  lemma ByNsNameOrders()
    ensures TotalPreorder(ByNsName())
  {
    ByTextOrders();
    forall a, b ensures ByNsName()(a, b) || ByNsName()(b, a) {
      AtMostTotal(a.ns, b.ns);
      AtMostTotal(a.name, b.name);
    }
    forall a, b, c | ByNsName()(a, b) && ByNsName()(b, c) ensures ByNsName()(a, c) {
      AtMostTransitive(a.ns, b.ns, c.ns);
      AtMostTotal(a.ns, b.ns);
      AtMostTotal(b.ns, c.ns);
      if a.ns == c.ns { AtMostTransitive(a.name, b.name, c.name); }
    }
  }

  /** flushVerdicts' settings on a table whose last column is VERDICT. */
  ghost predicate VerdictTable(t: Setup, worstFirst: seq<string>, idx: nat) {
    && t.sortCol == "verdict" && Lower("verdict") in t.ranks
    && (forall v :: t.ranks[Lower("verdict")](v) == Rank(worstFirst, v))
    && t.ColumnIndex("verdict") == Some(idx)
  }

  function RankIn(rank: map<string, int>): string -> int { cell => if cell in rank then rank[cell] else 0 }

  /** verdict.go:18-23 and 32-38: the table is ranked by the verdicts and sorted by them, unless
      the user asked for another column; then it is flushed. */
  method FlushVerdicts(t: Table, sort: string, worstFirst: seq<string>) returns (text: string)
    requires t.Valid()
    modifies t`setup, t`rows
    ensures t.Valid()
    ensures t.setup.sortCol == if sort == "" then "verdict" else sort
    ensures Lower("VERDICT") in t.setup.ranks && forall v :: t.setup.ranks[Lower("VERDICT")](v) == Rank(worstFirst, v)
    ensures t.setup.(sortCol := "", ranks := map[]) == old(t.setup).(sortCol := "", ranks := map[])
    ensures t.Contents() == t.setup.Printed(old(t.Contents()))
    ensures text == t.setup.Output(t.Contents(), t.setup.HiddenCount(old(t.Contents())))
  {
    var rank := VerdictRank(worstFirst);
    t.SortRank("VERDICT", RankIn(rank));
    t.SortBy(if sort == "" then "verdict" else sort);
    text := t.Flush();
  }

  /** Without --sort, these are the settings of a verdict table. */
  lemma FlushedByVerdict(t: Setup, worstFirst: seq<string>, idx: nat)
    requires t.sortCol == "verdict" && Lower("VERDICT") in t.ranks
    requires forall v :: t.ranks[Lower("VERDICT")](v) == Rank(worstFirst, v)
    requires t.ColumnIndex("verdict") == Some(idx)
    ensures VerdictTable(t, worstFirst, idx)
  {
    LowerFolds("VERDICT", "verdict");
  }

  ghost predicate Listed(fs: seq<Finding>, idx: nat) {
    forall f :: f in fs ==> |f.middle| + 2 == idx && Ansi.ESCAPE !in f.verdict
  }

  lemma VerdictCell(enabled: bool, f: Finding, idx: nat)
    requires |f.middle| + 2 == idx && Ansi.ESCAPE !in f.verdict
    ensures Ansi.Strip(Cell(RowOf(enabled)(f), idx)) == f.verdict
  {
    Ansi.PaintIsInvisible(enabled, Code(f.sev), f.verdict);
    Ansi.StripPlain(f.verdict);
  }

  /** The row of a finding: namespace, name, the cells between, and the verdict in the colour of
      its severity: red, yellow, grey or green. */
  lemma RowShows(enabled: bool, f: Finding)
    ensures var row, n := RowOf(enabled)(f), |f.middle|;
      var number := match f.sev case Bad => "31" case Warn => "33" case Muted => "90" case Fine => "32";
      var painted := "\U{1B}[" + number + "m" + f.verdict + "\U{1B}[0m";
      && |row| == n + 3 && row[0] == f.ns && row[1] == f.name && row[2..n + 2] == f.middle
      && (!enabled || f.verdict == "" ==> row[n + 2] == f.verdict)
      && (enabled && f.verdict != "" ==> row[n + 2] == painted)
  {
  }

  /** The rank of a row is the rank of its verdict, painted or not. */
  lemma RowRank(t: Setup, worstFirst: seq<string>, idx: nat, rows: seq<Row>, enabled: bool, fs: seq<Finding>)
    requires VerdictTable(t, worstFirst, idx) && Listed(fs, idx)
    ensures forall a, b :: a in fs && b in fs ==>
      ByRank(worstFirst)(a, b) == t.Order(rows, idx)(RowOf(enabled)(a), RowOf(enabled)(b))
  {
    var order := t.Order(rows, idx);
    forall a, b | a in fs && b in fs
      ensures ByRank(worstFirst)(a, b) == order(RowOf(enabled)(a), RowOf(enabled)(b))
    {
      VerdictCell(enabled, a, idx);
      VerdictCell(enabled, b, idx);
    }
  }

  function ShownFinding(t: Setup, enabled: bool): Finding -> bool {
    (f: Finding) => t.Passes(RowOf(enabled)(f)) && !t.Hides(RowOf(enabled)(f))
  }

  lemma {:induction false} RemainingFindings(t: Setup, enabled: bool, fs: seq<Finding>)
    ensures t.Remaining(Map(RowOf(enabled), fs)) == Map(RowOf(enabled), Filter(fs, ShownFinding(t, enabled)))
  {
    if fs != [] { RemainingFindings(t, enabled, fs[1..]); }
  }

  /** Pre-sorting by namespace and name, then the table's stable sort by painted verdict, is
      one sort by (rank, namespace, name) of the findings that are shown. */
  lemma {:induction false} FlushVerdictsOrder(t: Setup, worstFirst: seq<string>, idx: nat, enabled: bool,
      fs: seq<Finding>)
    requires VerdictTable(t, worstFirst, idx) && Listed(fs, idx)
    ensures t.Printed(Map(RowOf(enabled), StableSort(fs, ByNsName())))
      == Map(RowOf(enabled), StableSort(Filter(fs, ShownFinding(t, enabled)), Lex(ByRank(worstFirst), ByNsName())))
  {
    var pre, shown := StableSort(fs, ByNsName()), ShownFinding(t, enabled);
    ByNsNameOrders();
    RemainingFindings(t, enabled, pre);
    FilterCommutesWithSort(fs, shown, ByNsName());
    ListedPart(fs, Filter(fs, shown), StableSort(Filter(fs, shown), ByNsName()), idx);
    ArrangedByRank(t, worstFirst, idx, enabled, StableSort(Filter(fs, shown), ByNsName()));
    TwoPassesAreLexicographic(Filter(fs, shown), ByRank(worstFirst), ByNsName());
  }

  lemma ListedPart(fs: seq<Finding>, part: seq<Finding>, list: seq<Finding>, idx: nat)
    requires Listed(fs, idx) && (forall f :: f in part ==> f in fs) && multiset(list) == multiset(part)
    ensures Listed(list, idx)
  {
    forall f | f in list ensures f in fs { assert f in multiset(part); }
  }

  lemma {:induction false} ArrangedByRank(t: Setup, worstFirst: seq<string>, idx: nat, enabled: bool,
      list: seq<Finding>)
    requires VerdictTable(t, worstFirst, idx) && Listed(list, idx)
    ensures t.Arranged(Map(RowOf(enabled), list)) == Map(RowOf(enabled), StableSort(list, ByRank(worstFirst)))
  {
    var rows := Map(RowOf(enabled), list);
    RowRank(t, worstFirst, idx, rows, enabled, list);
    SortCommutesWithMap(RowOf(enabled), list, ByRank(worstFirst), t.Order(rows, idx));
  }

  lemma LexMeaning(worstFirst: seq<string>, a: Finding, b: Finding)
    requires Lex(ByRank(worstFirst), ByNsName())(a, b)
    ensures Rank(worstFirst, a.verdict) <= Rank(worstFirst, b.verdict)
    ensures a.verdict in worstFirst ==> b.verdict in worstFirst
    ensures a.verdict == b.verdict ==> AtMost(a.ns, b.ns) && (a.ns == b.ns ==> AtMost(a.name, b.name))
  {
  }

  /** Unlisted verdicts come first, and from there on it only gets worse. */
  lemma WorstComesLast(worstFirst: seq<string>, fs: seq<Finding>, i: nat, j: nat)
    requires i < j < |fs|
    ensures var out := StableSort(fs, Lex(ByRank(worstFirst), ByNsName()));
      var a, b := out[i], out[j];
      && Rank(worstFirst, a.verdict) <= Rank(worstFirst, b.verdict)
      && (a.verdict in worstFirst ==> b.verdict in worstFirst)
      && (a.verdict == b.verdict ==> AtMost(a.ns, b.ns) && (a.ns == b.ns ==> AtMost(a.name, b.name)))
  {
    var le := Lex(ByRank(worstFirst), ByNsName());
    ByNsNameOrders();
    LexTotal(ByRank(worstFirst), ByNsName());
    StableSortSorted(fs, le);
    LexMeaning(worstFirst, StableSort(fs, le)[i], StableSort(fs, le)[j]);
  }
}
