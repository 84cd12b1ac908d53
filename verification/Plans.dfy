/**
 * internal/kube/list.go, listScoped: a scope of namespaces is read with one list, a list per
 * namespace, or one wide list that is filtered afterwards. The choice must not show.
 */
module Plans {
  import opened Sequences
  import opened Listing
  import opened Fanout

  const MAX_NAMESPACE_FANOUT := 16

  // ---- the three plans as calls ----------------------------------------------------------------

  function ListTask<T>(ns: string, opts: ListOptions, want: Option<set<string>>): Task<T> {
    Walk(ns, opts.(limit := CHUNK_SIZE), [], want, Waiting)
  }

  function Workers<T>(tasks: seq<Task<T>>): (ws: seq<Worker<T>>)
    ensures |ws| == |tasks|
    ensures forall i :: 0 <= i < |tasks| ==> ws[i] == Worker(tasks[i], Items([]), None, false)
  {
    if tasks == [] then [] else [Worker(tasks[0], Items([]), None, false)] + Workers(tasks[1..])
  }

  /** `Concurrent` over the given functions, not yet started. */
  function ConcurrentTask<T>(concat: bool, tasks: seq<Task<T>>): Task<T> {
    Fan(concat, Workers(tasks), 0, |tasks|)
  }

  function PerNamespace<T>(names: seq<string>, opts: ListOptions): (tasks: seq<Task<T>>)
    ensures |tasks| == |names|
    ensures forall i :: 0 <= i < |names| ==> tasks[i] == ListTask(names[i], opts, None)
  {
    if names == [] then [] else [ListTask(names[0], opts, None)] + PerNamespace(names[1..], opts)
  }

  function FanoutTask<T>(names: seq<string>, opts: ListOptions): Task<T> {
    ConcurrentTask(true, PerNamespace(names, opts))
  }

  function NameSet(names: seq<string>): set<string> { set n | n in names }

  function WideTask<T>(names: seq<string>, opts: ListOptions): Task<T> {
    ListTask("", opts, Some(NameSet(names)))
  }

  /** list.go:146-156. */
  function ScopedTask<T>(names: seq<string>, opts: ListOptions): Task<T> {
    if |names| <= 1 then ListTask(if names == [] then "" else names[0], opts, None)
    else if |names| > MAX_NAMESPACE_FANOUT then WideTask(names, opts)
    else FanoutTask(names, opts)
  }

  /** How many lists of one scope can be under way at once. */
  function ListsAtOnce<T>(t: Task<T>): nat {
    match t case Fan(_, ws, _, _) => |ws| case _ => 1
  }

  /** One list for one namespace or all of them, one for each of a few, one for very many: never
      more than MAX_NAMESPACE_FANOUT at once. */
  lemma FanoutIsCapped<T>(names: seq<string>, opts: ListOptions)
    ensures ListsAtOnce<T>(ScopedTask(names, opts)) ==
      if 2 <= |names| <= MAX_NAMESPACE_FANOUT then |names| else 1
    ensures 1 <= ListsAtOnce<T>(ScopedTask(names, opts)) <= 16
  {
  }

  lemma ConcurrentFresh<T>(concat: bool, tasks: seq<Task<T>>)
    requires forall i :: 0 <= i < |tasks| ==> Fresh(tasks[i])
    ensures Fresh(ConcurrentTask(concat, tasks))
  {
  }

  /** The lists of a view: each has its own scope and options, which also tell the page
      function which kind of object is meant. */
  ghost predicate ViewLists<T>(scopes: seq<seq<string>>, optss: seq<ListOptions>, views: seq<Task<T>>) {
    && |views| == |scopes| == |optss|
    && forall i :: 0 <= i < |scopes| ==> views[i] == ScopedTask(scopes[i], optss[i])
  }

  /** A view's lists, each fanned out in turn, are a call every result about runs applies to. */
  lemma NestedFanoutIsFresh<T>(scopes: seq<seq<string>>, optss: seq<ListOptions>, views: seq<Task<T>>)
    requires ViewLists(scopes, optss, views)
    ensures Fresh(ConcurrentTask(false, views))
  {
    forall i | 0 <= i < |views| ensures Fresh(views[i]) {
      ConcurrentFresh<T>(true, PerNamespace(scopes[i], optss[i]));
    }
    ConcurrentFresh(false, views);
  }

  // ---- what they return --------------------------------------------------------------------------

  /** Each namespace's list in scope order, or the error of the first that failed. */
  ghost function FanoutOutcome<T>(e: Env<T>, rank: Rank, names: seq<string>, opts: ListOptions): (out: Outcome<T>)
    requires RunsOut(e.page, rank)
    ensures out.Ok? <==> forall i :: 0 <= i < |names| ==> ListIn(e.page, rank, names[i], opts).Ok?
  {
    if names == [] then Ok([])
    else match ListIn(e.page, rank, names[0], opts)
      case Err(error) => Err(error)
      case Ok(items) => Listing.Prepend(items, FanoutOutcome(e, rank, names[1..], opts))
  }

  /** Which error it is: no earlier namespace failed. */
  lemma {:induction false} LowestFailureWins<T>(e: Env<T>, rank: Rank, names: seq<string>, opts: ListOptions, i: nat)
    requires RunsOut(e.page, rank) && i < |names| && ListIn(e.page, rank, names[i], opts).Err?
    requires forall j :: 0 <= j < i ==> ListIn(e.page, rank, names[j], opts).Ok?
    ensures FanoutOutcome(e, rank, names, opts) == ListIn(e.page, rank, names[i], opts)
  {
    if i > 0 {
      assert names[1..][i - 1] == names[i];
      assert forall j :: 0 <= j < i - 1 ==> names[1..][j] == names[j + 1];
      LowestFailureWins(e, rank, names[1..], opts, i - 1);
    }
  }

  /** The order of the items: what comes before a namespace in the scope, its own list, the rest. */
  lemma {:induction false} FanoutInScopeOrder<T>(e: Env<T>, rank: Rank, names: seq<string>, opts: ListOptions, i: nat)
    requires RunsOut(e.page, rank) && i < |names| && FanoutOutcome(e, rank, names, opts).Ok?
    ensures FanoutOutcome(e, rank, names[..i], opts).Ok? && FanoutOutcome(e, rank, names[i + 1..], opts).Ok?
    ensures ListIn(e.page, rank, names[i], opts).Ok?
    ensures FanoutOutcome(e, rank, names, opts).items ==
      FanoutOutcome(e, rank, names[..i], opts).items
      + (ListIn(e.page, rank, names[i], opts).items + FanoutOutcome(e, rank, names[i + 1..], opts).items)
    decreases i
  {
    if i > 0 {
      var tail := names[1..];
      assert names[..i] == [names[0]] + tail[..i - 1] && names[..i][1..] == tail[..i - 1];
      assert names[i + 1..] == tail[i..] && names[i] == tail[i - 1];
      FanoutInScopeOrder(e, rank, tail, opts, i - 1);
      Associate(ListIn(e.page, rank, names[0], opts).items, FanoutOutcome(e, rank, tail[..i - 1], opts).items,
                ListIn(e.page, rank, names[i], opts).items + FanoutOutcome(e, rank, names[i + 1..], opts).items);
    }
  }

  ghost function WideOutcome<T>(e: Env<T>, rank: Rank, names: seq<string>, opts: ListOptions): Outcome<T>
    requires RunsOut(e.page, rank)
  {
    match ListIn(e.page, rank, "", opts)
    case Ok(items) => Ok(Filter(items, InNames(e, NameSet(names))))
    case Err(error) => Err(error)
  }

  ghost function ScopedOutcome<T>(e: Env<T>, rank: Rank, names: seq<string>, opts: ListOptions): Outcome<T>
    requires RunsOut(e.page, rank)
  {
    if |names| <= 1 then ListIn(e.page, rank, if names == [] then "" else names[0], opts)
    else if |names| > MAX_NAMESPACE_FANOUT then WideOutcome(e, rank, names, opts)
    else FanoutOutcome(e, rank, names, opts)
  }

  function ToOutcome<T>(a: Answer<T>): Outcome<T> {
    match a case Good(v) => Ok(Flat(v)) case Bad(error) => Err(error)
  }

  lemma ListTaskMeaning<T>(e: Env<T>, rank: Rank, ns: string, opts: ListOptions, want: Option<set<string>>)
    requires RunsOut(e.page, rank)
    ensures Meaning(e, rank, ListTask(ns, opts, want)) == Finish(e, ListIn(e.page, rank, ns, opts), want)
  {
    var out := ListIn(e.page, rank, ns, opts);
    if out.Ok? { assert [] + out.items == out.items; }
  }

  lemma JoinedCons<T>(first: Answer<T>, rest: seq<Answer<T>>)
    ensures ToOutcome(Joined(true, [first] + rest)) ==
      match first
      case Bad(error) => Err(error)
      case Good(v) => Listing.Prepend(Flat(v), ToOutcome(Joined(true, rest)))
  {
    assert ([first] + rest)[1..] == rest;
  }

  lemma {:induction false} FanoutMeaning<T>(e: Env<T>, rank: Rank, names: seq<string>, opts: ListOptions)
    requires RunsOut(e.page, rank)
    ensures ToOutcome(Joined(true, Meanings(e, rank, Workers(PerNamespace(names, opts))))) ==
      FanoutOutcome(e, rank, names, opts)
  {
    if names != [] {
      var first := ListTask<T>(names[0], opts, None);
      var ws := Workers<T>(PerNamespace(names, opts));
      var rest := Workers<T>(PerNamespace(names[1..], opts));
      assert PerNamespace<T>(names, opts)[1..] == PerNamespace(names[1..], opts);
      assert ws == [Worker(first, Items([]), None, false)] + rest;
      FanoutMeaning(e, rank, names[1..], opts);
      ListTaskMeaning(e, rank, names[0], opts, None);
      assert Meanings(e, rank, ws) == [Meaning(e, rank, first)] + Meanings(e, rank, rest) by { assert ws[1..] == rest; }
      JoinedCons(Meaning(e, rank, first), Meanings(e, rank, rest));
    }
  }

  /** Any run of the chosen plan, under any schedule, returns this outcome. */
  lemma ScopedMeaning<T>(e: Env<T>, rank: Rank, names: seq<string>, opts: ListOptions)
    requires RunsOut(e.page, rank)
    ensures Fresh<T>(ScopedTask(names, opts))
    ensures ToOutcome(Meaning(e, rank, ScopedTask(names, opts))) == ScopedOutcome(e, rank, names, opts)
  {
    if |names| <= 1 {
      ListTaskMeaning(e, rank, if names == [] then "" else names[0], opts, None);
    } else if |names| > MAX_NAMESPACE_FANOUT {
      ListTaskMeaning(e, rank, "", opts, Some(NameSet(names)));
    } else {
      ConcurrentFresh<T>(true, PerNamespace(names, opts));
      FanoutMeaning(e, rank, names, opts);
    }
  }

  lemma {:induction false} MeaningsAt<T>(e: Env<T>, rank: Rank, ws: seq<Worker<T>>, i: nat)
    requires RunsOut(e.page, rank) && i < |ws|
    ensures Meanings(e, rank, ws)[i] == AnswerOf(e, rank, ws[i])
  {
    if i > 0 { MeaningsAt(e, rank, ws[1..], i - 1); }
  }

  lemma {:induction false} ValuesAt<T>(answers: seq<Answer<T>>, i: nat)
    requires i < |answers| && answers[i].Good?
    ensures |Values(answers)| == |answers| && Values(answers)[i] == answers[i].value
  {
    if i > 0 { ValuesAt(answers[1..], i - 1); } else { ValuesLength(answers); }
  }

  lemma {:induction false} ValuesLength<T>(answers: seq<Answer<T>>)
    ensures |Values(answers)| == |answers|
  {
    if answers != [] { ValuesLength(answers[1..]); }
  }

  ghost predicate FirstToFail<T>(e: Env<T>, rank: Rank, scopes: seq<seq<string>>, optss: seq<ListOptions>, i: nat,
      error: string)
    requires RunsOut(e.page, rank) && |scopes| == |optss|
  {
    && i < |scopes| && ScopedOutcome(e, rank, scopes[i], optss[i]) == Err(error)
    && forall j :: 0 <= j < i ==> ScopedOutcome(e, rank, scopes[j], optss[j]).Ok?
  }

  lemma FirstErrorIsFirstToFail<T>(e: Env<T>, rank: Rank, scopes: seq<seq<string>>, optss: seq<ListOptions>,
      answers: seq<Answer<T>>)
    requires RunsOut(e.page, rank) && |answers| == |scopes| == |optss| && FirstError(answers).Some?
    requires forall i :: 0 <= i < |scopes| ==> ToOutcome(answers[i]) == ScopedOutcome(e, rank, scopes[i], optss[i])
    ensures exists i: nat :: FirstToFail(e, rank, scopes, optss, i, FirstError(answers).value)
  {
    var i: nat :| FirstBad(answers, i, FirstError(answers).value);
    assert forall j :: 0 <= j <= i ==> ScopedOutcome(e, rank, scopes[j], optss[j]) == ToOutcome(answers[j]);
    assert FirstToFail(e, rank, scopes, optss, i, FirstError(answers).value);
  }

  /** A view that issues several scoped lists gets each of them whole, or the error of the
      first that failed. */
  lemma NestedFanoutMeaning<T>(e: Env<T>, rank: Rank, scopes: seq<seq<string>>, optss: seq<ListOptions>,
      views: seq<Task<T>>)
    requires RunsOut(e.page, rank) && ViewLists(scopes, optss, views)
    ensures match Meaning(e, rank, ConcurrentTask(false, views))
      case Good(v) => v.Parts? && |v.parts| == |scopes|
        && (forall i :: 0 <= i < |scopes| ==> ScopedOutcome(e, rank, scopes[i], optss[i]) == Ok(Flat(v.parts[i])))
      case Bad(error) => exists i: nat :: FirstToFail(e, rank, scopes, optss, i, error)
  {
    var answers := Meanings(e, rank, Workers(views));
    assert Meaning(e, rank, ConcurrentTask(false, views)) == Joined(false, answers);
    forall i | 0 <= i < |scopes| ensures ToOutcome(answers[i]) == ScopedOutcome(e, rank, scopes[i], optss[i]) {
      MeaningsAt(e, rank, Workers(views), i);
      ScopedMeaning(e, rank, scopes[i], optss[i]);
    }
    if FirstError(answers).None? {
      assert Meaning(e, rank, ConcurrentTask(false, views)) == Good(Parts(Values(answers)));
      ValuesLength(answers);
      forall i | 0 <= i < |scopes| { ValuesAt(answers, i); }
    } else {
      assert Meaning(e, rank, ConcurrentTask(false, views)) == Bad(FirstError(answers).value);
      FirstErrorIsFirstToFail(e, rank, scopes, optss, answers);
    }
  }

  // ---- the code --------------------------------------------------------------------------------------

  /** list.go:207-220: keeps the wanted elements at the front, moving one only when needed. */
  method CompactInPlace<T>(all: array<T>, e: Env<T>, want: set<string>) returns (n: nat)
    modifies all
    ensures n <= all.Length && all[..n] == Filter(old(all[..]), InNames(e, want))
  {
    n := 0;
    ghost var before := all[..];
    for i := 0 to all.Length
      invariant 0 <= n <= i
      invariant all[..n] == Filter(before[..i], InNames(e, want))
      invariant all[i..] == before[i..]
    {
      FilterSnoc(before, i, InNames(e, want));
      assert all[i] == all[i..][0] == before[i];
      if e.nsOf(all[i]) !in want {
        assert all[i + 1..] == all[i..][1..];
        continue;
      }
      if n != i {
        all[n] := all[i];
      }
      n := n + 1;
      assert all[..n] == all[..n - 1] + [before[i]];
      assert all[i + 1..] == before[i + 1..];
    }
    assert before[..all.Length] == before;
  }

  /** list.go:194-221. */
  method ListWideFiltered<T>(e: Env<T>, names: seq<string>, opts: ListOptions, ghost rank: Rank)
    returns (out: Outcome<T>)
    requires RunsOut(e.page, rank)
    ensures out == WideOutcome(e, rank, names, opts)
  {
    var listed, _ := ListAll(e.page, "", opts, rank);
    if listed.Err? { return listed; }
    var want := {};
    for i := 0 to |names|
      invariant want == NameSet(names[..i])
    {
      want := want + {names[i]};
    }
    assert names[..|names|] == names;
    var items := listed.items;
    var all := new T[|items|](i requires 0 <= i < |items| => items[i]);
    assert all[..] == items;
    var n := CompactInPlace(all, e, want);
    out := Ok(all[..n]);
  }

  /** list.go:142-169. `pick` is the scheduler: any that never idles while someone can move. */
  method ListScoped<T(!new)>(e: Env<T>, names: seq<string>, opts: ListOptions,
                             pick: (Task<T>, nat) -> seq<nat>, ghost rank: Rank) returns (out: Outcome<T>)
    requires RunsOut(e.page, rank)
    requires forall t, slots :: CanMove(e, t, slots) ==> Step(e, t, slots, pick(t, slots)).Some?
    ensures out == ScopedOutcome(e, rank, names, opts)
  {
    if |names| <= 1 {
      var ns := "";
      if |names| == 1 {
        ns := names[0];
      }
      var listed, _ := ListAll(e.page, ns, opts, rank);
      out := listed;
      return;
    }
    if |names| > MAX_NAMESPACE_FANOUT {
      out := ListWideFiltered(e, names, opts, rank);
      return;
    }
    ScopedMeaning(e, rank, names, opts);
    var answer := RunToEnd(e, FanoutTask(names, opts), pick, rank);
    out := ToOutcome(answer);
  }

  // ---- the plans agree ----------------------------------------------------------------------------------

  function InNs<T>(e: Env<T>, ns: string): T -> bool { x => e.nsOf(x) == ns }

  /** Over one snapshot, every list succeeds and returns the objects it is about, in whatever
      order the server likes; "" is every namespace. */
  ghost predicate Honest<T>(e: Env<T>, rank: Rank, opts: ListOptions, snapshot: seq<T>)
    requires RunsOut(e.page, rank)
  {
    forall ns :: var out := ListIn(e.page, rank, ns, opts);
      out.Ok? && multiset(out.items) == multiset(if ns == "" then snapshot else Filter(snapshot, InNs(e, ns)))
  }

  function Occurrences(names: seq<string>, ns: string): nat {
    if names == [] then 0 else (if names[0] == ns then 1 else 0) + Occurrences(names[1..], ns)
  }

  lemma {:induction false} DistinctOccurrences(names: seq<string>, ns: string)
    ensures Occurrences(names, ns) > 0 <==> ns in names
    ensures Distinct(names) ==> Occurrences(names, ns) <= 1
  {
    if names != [] {
      DistinctOccurrences(names[1..], ns);
      assert forall k :: 0 <= k < |names| - 1 ==> names[1..][k] == names[k + 1];
      assert Distinct(names) ==> Distinct(names[1..]) && names[0] !in names[1..];
    }
  }

  lemma OneMore(c: nat, names: seq<string>, ns: string)
    requires names != []
    ensures c * Occurrences(names, ns) == (if names[0] == ns then c else 0) + c * Occurrences(names[1..], ns)
  {
    var k := Occurrences(names[1..], ns);
    assert c * (1 + k) == c + c * k;
  }

  /** The fan-out returns every object once for every time its namespace is in the scope. */
  lemma {:induction false} FanoutCounts<T>(e: Env<T>, rank: Rank, names: seq<string>, opts: ListOptions,
      snapshot: seq<T>, x: T)
    requires RunsOut(e.page, rank) && Honest(e, rank, opts, snapshot) && "" !in names
    ensures var out := FanoutOutcome(e, rank, names, opts);
      out.Ok? && multiset(out.items)[x] == multiset(snapshot)[x] * Occurrences(names, e.nsOf(x))
  {
    if names != [] {
      FanoutCounts(e, rank, names[1..], opts, snapshot, x);
      var first := ListIn(e.page, rank, names[0], opts);
      assert names[0] in names;
      FilterCount(snapshot, InNs(e, names[0]), x);
      OneMore(multiset(snapshot)[x], names, e.nsOf(x));
    }
  }

  /** The wide list returns every object of a scoped namespace exactly once. */
  lemma WideCounts<T>(e: Env<T>, rank: Rank, names: seq<string>, opts: ListOptions, snapshot: seq<T>, x: T)
    requires RunsOut(e.page, rank) && Honest(e, rank, opts, snapshot)
    ensures var out := WideOutcome(e, rank, names, opts);
      out.Ok? && multiset(out.items)[x] == if e.nsOf(x) in names then multiset(snapshot)[x] else 0
  {
    var all := ListIn(e.page, rank, "", opts);
    FilterCount(all.items, InNames(e, NameSet(names)), x);
  }

  ghost function InScope<T>(e: Env<T>, snapshot: seq<T>, names: seq<string>): seq<T> {
    if names == [] then snapshot else Filter(snapshot, InNames(e, NameSet(names)))
  }

  ghost predicate SameAnswer<T>(e: Env<T>, rank: Rank, names: seq<string>, opts: ListOptions)
    requires RunsOut(e.page, rank)
  {
    var fan, wide := FanoutOutcome(e, rank, names, opts), WideOutcome(e, rank, names, opts);
    fan.Ok? && wide.Ok? && multiset(fan.items) == multiset(wide.items)
  }

  /** The fan-out and the wide list return the same objects exactly when no object's namespace
      is given twice. */
  lemma PlansAgreeExactly<T(!new)>(e: Env<T>, rank: Rank, names: seq<string>, opts: ListOptions, snapshot: seq<T>)
    requires RunsOut(e.page, rank) && Honest(e, rank, opts, snapshot) && "" !in names
    ensures SameAnswer(e, rank, names, opts) <==> forall x :: x in snapshot ==> Occurrences(names, e.nsOf(x)) <= 1
  {
    var fan, wide := FanoutOutcome(e, rank, names, opts), WideOutcome(e, rank, names, opts);
    forall x: T
      ensures fan.Ok? && wide.Ok?
      ensures multiset(fan.items)[x] == multiset(wide.items)[x] <==>
        (x in snapshot ==> Occurrences(names, e.nsOf(x)) <= 1)
    {
      FanoutCounts(e, rank, names, opts, snapshot, x);
      WideCounts(e, rank, names, opts, snapshot, x);
      DistinctOccurrences(names, e.nsOf(x));
      Times(multiset(snapshot)[x], Occurrences(names, e.nsOf(x)));
    }
    NoFailure(e, rank, names, opts, snapshot);
  }

  lemma NoFailure<T>(e: Env<T>, rank: Rank, names: seq<string>, opts: ListOptions, snapshot: seq<T>)
    requires RunsOut(e.page, rank) && Honest(e, rank, opts, snapshot)
    ensures FanoutOutcome(e, rank, names, opts).Ok? && WideOutcome(e, rank, names, opts).Ok?
  {
  }

  /** Taking each of `c` objects `k` times is taking it once, if at all, exactly for small `k`. */
  lemma Times(c: nat, k: nat)
    ensures c * k == (if k == 0 then 0 else c) <==> c == 0 || k <= 1
  {
    if c > 0 && k > 1 { assert c * k == c + c * (k - 1) && c * (k - 1) > 0; }
  }

  /** For distinct namespaces the fan-out and the wide list return the same objects, whatever
      their number; so crossing MAX_NAMESPACE_FANOUT never changes the answer. */
  lemma PlansAgree<T(!new)>(e: Env<T>, rank: Rank, names: seq<string>, opts: ListOptions, snapshot: seq<T>)
    requires RunsOut(e.page, rank) && Honest(e, rank, opts, snapshot)
    requires "" !in names && Distinct(names)
    ensures SameAnswer(e, rank, names, opts)
  {
    forall ns ensures Occurrences(names, ns) <= 1 { DistinctOccurrences(names, ns); }
    PlansAgreeExactly(e, rank, names, opts, snapshot);
  }

  lemma WideListsTheScope<T(!new)>(e: Env<T>, rank: Rank, names: seq<string>, opts: ListOptions, snapshot: seq<T>)
    requires RunsOut(e.page, rank) && Honest(e, rank, opts, snapshot) && names != []
    ensures var out := WideOutcome(e, rank, names, opts);
      out.Ok? && multiset(out.items) == multiset(InScope(e, snapshot, names))
  {
    FilterSameMultiset(ListIn(e.page, rank, "", opts).items, snapshot, InNames(e, NameSet(names)));
  }

  /** listScoped returns exactly the objects of the scope, all of them for an empty one. */
  lemma ScopedListsTheScope<T(!new)>(e: Env<T>, rank: Rank, names: seq<string>, opts: ListOptions, snapshot: seq<T>)
    requires RunsOut(e.page, rank) && Honest(e, rank, opts, snapshot)
    requires "" !in names && Distinct(names)
    ensures var out := ScopedOutcome(e, rank, names, opts);
      out.Ok? && multiset(out.items) == multiset(InScope(e, snapshot, names))
  {
    if |names| == 1 {
      assert names[0] in names;
      FilterExtensional(snapshot, InNs(e, names[0]), InNames(e, NameSet(names)));
    } else if |names| > 1 {
      PlansAgree(e, rank, names, opts, snapshot);
      WideListsTheScope(e, rank, names, opts, snapshot);
    }
  }

  // ---- distinct names, on every cluster -----------------------------------------------------------------

  function NamespaceIs<T>(nsOf: T -> string, ns: string): T -> bool { x => nsOf(x) == ns }

  /** A server that holds the snapshot and hands it out in one page. */
  function OnePage<T>(snapshot: seq<T>, nsOf: T -> string): Env<T> {
    Env((ns, o) => Page(if ns == "" then snapshot else Filter(snapshot, NamespaceIs(nsOf, ns)), "", None), nsOf)
  }

  lemma OnePageIsHonest<T>(snapshot: seq<T>, nsOf: T -> string, rank: Rank, opts: ListOptions)
    ensures var e := OnePage(snapshot, nsOf); RunsOut(e.page, rank) && Honest(e, rank, opts, snapshot)
  {
    var e := OnePage(snapshot, nsOf);
    assert RunsOut(e.page, rank);
    forall ns
      ensures ListIn(e.page, rank, ns, opts) == Ok(if ns == "" then snapshot else Filter(snapshot, InNs(e, ns)))
    {
      DrainStep(e.page, rank, ns, opts.(limit := CHUNK_SIZE));
      FilterExtensional(snapshot, NamespaceIs(nsOf, ns), InNs(e, ns));
    }
  }

  ghost predicate AgreeOver<T>(snapshot: seq<T>, nsOf: T -> string, rank: Rank, names: seq<string>, opts: ListOptions) {
    var e := OnePage(snapshot, nsOf);
    RunsOut(e.page, rank) && SameAnswer(e, rank, names, opts)
  }

  /** Distinctness is exactly what the agreement needs on every cluster: with a namespace given
      twice, a cluster with one object in it is enough to tell the plans apart. */
  lemma PlansAgreeExactlyOnDistinctNames<T(!new)>(nsOf: T -> string, make: string -> T, rank: Rank,
      names: seq<string>, opts: ListOptions)
    requires (forall ns :: nsOf(make(ns)) == ns) && "" !in names
    ensures (forall snapshot :: AgreeOver(snapshot, nsOf, rank, names, opts)) <==> Distinct(names)
  {
    if Distinct(names) {
      forall snapshot: seq<T> ensures AgreeOver(snapshot, nsOf, rank, names, opts) {
        OnePageIsHonest(snapshot, nsOf, rank, opts);
        PlansAgree(OnePage(snapshot, nsOf), rank, names, opts, snapshot);
      }
    } else {
      var i, j :| 0 <= i < j < |names| && names[i] == names[j];
      TwiceTellsApart(nsOf, make(names[i]), rank, names, opts, i, j);
    }
  }

  lemma TwiceTellsApart<T(!new)>(nsOf: T -> string, x: T, rank: Rank, names: seq<string>, opts: ListOptions, i: nat,
      j: nat)
    requires i < j < |names| && names[i] == names[j] == nsOf(x) && "" !in names
    ensures !AgreeOver([x], nsOf, rank, names, opts)
  {
    OnePageIsHonest([x], nsOf, rank, opts);
    PlansAgreeExactly(OnePage([x], nsOf), rank, names, opts, [x]);
    Repeated(names, i, j);
    assert x in [x];
  }

  lemma {:induction false} Repeated(names: seq<string>, i: nat, j: nat)
    requires i < j < |names| && names[i] == names[j]
    ensures Occurrences(names, names[i]) >= 2
  {
    if i == 0 {
      assert names[1..][j - 1] == names[0];
      DistinctOccurrences(names[1..], names[0]);
    } else {
      assert names[1..][i - 1] == names[i] && names[1..][j - 1] == names[j];
      Repeated(names[1..], i - 1, j - 1);
    }
  }
}
