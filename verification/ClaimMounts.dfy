/**
 * internal/view/pvcresize.go: which pods mount a claim, read from as few pods as possible;
 * and internal/view/pvcunused.go, which claims no pod mounts.
 */
module ClaimMounts {
  import opened Sequences
  import opened Sorting
  import opened Text
  import Ansi
  import opened Listing
  import opened Fanout
  import opened Plans

  /** A volume is the name of the claim it mounts, or None for another kind of volume. */
  datatype Pod = Pod(ns: string, name: string, volumes: seq<Option<string>>)
  datatype Claim = Claim(ns: string, name: string)

  // ---- which pods mount a claim --------------------------------------------------------------------

  predicate MountsAt(p: Pod, c: Claim, j: nat) {
    p.ns == c.ns && j < |p.volumes| && p.volumes[j] == Some(c.name)
  }

  ghost predicate Mounts(p: Pod, c: Claim) { exists j :: MountsAt(p, c, j) }

  /** The pod's name, once for each of its first `n` volumes that is the claim. */
  function Mentions(p: Pod, c: Claim, n: nat): seq<string> {
    if n == 0 then [] else Mentions(p, c, n - 1) + if MountsAt(p, c, n - 1) then [p.name] else []
  }

  function Mounters(pods: seq<Pod>, c: Claim): seq<string> {
    if pods == [] then []
    else
      var p := pods[|pods| - 1];
      Mounters(pods[..|pods| - 1], c) + Mentions(p, c, |p.volumes|)
  }

  lemma MountersSnoc(pods: seq<Pod>, p: Pod, c: Claim)
    ensures Mounters(pods + [p], c) == Mounters(pods, c) + Mentions(p, c, |p.volumes|)
  {
    assert (pods + [p])[..|pods|] == pods;
  }

  function At(mounts: map<Claim, seq<string>>, c: Claim): seq<string> {
    if c in mounts then mounts[c] else []
  }

  /** One volume of `p` entered into the index. */
  function Enter(mounts: map<Claim, seq<string>>, p: Pod, volume: Option<string>): map<Claim, seq<string>> {
    match volume
    case None => mounts
    case Some(name) => mounts[Claim(p.ns, name) := At(mounts, Claim(p.ns, name)) + [p.name]]
  }

  ghost predicate Entered(mounts: map<Claim, seq<string>>, before: map<Claim, seq<string>>, p: Pod, n: nat, c: Claim) {
    At(mounts, c) == At(before, c) + Mentions(p, c, n)
  }

  lemma EnterOne(mounts: map<Claim, seq<string>>, before: map<Claim, seq<string>>, p: Pod, j: nat, c: Claim)
    requires j < |p.volumes| && Entered(mounts, before, p, j, c)
    ensures Entered(Enter(mounts, p, p.volumes[j]), before, p, j + 1, c)
  {
    var more := if MountsAt(p, c, j) then [p.name] else [];
    assert At(Enter(mounts, p, p.volumes[j]), c) == At(mounts, c) + more;
    Associate(At(before, c), Mentions(p, c, j), more);
  }

  /** pvcresize.go:218-224 over view.go:188-201, the volumes of one pod. */
  method MentionsOf(p: Pod, before: map<Claim, seq<string>>) returns (mounts: map<Claim, seq<string>>)
    ensures forall c :: Entered(mounts, before, p, |p.volumes|, c)
  {
    mounts := before;
    for j := 0 to |p.volumes|
      invariant forall c :: Entered(mounts, before, p, j, c)
    {
      var next := Enter(mounts, p, p.volumes[j]);
      ghost var n := j + 1;
      forall c ensures Entered(next, before, p, n, c) { EnterOne(mounts, before, p, j, c); }
      mounts := next;
    }
  }

  /** claimMounts: every claim is indexed to the pods mounting it. */
  method IndexMounts(pods: seq<Pod>) returns (mounts: map<Claim, seq<string>>)
    ensures forall c :: At(mounts, c) == Mounters(pods, c)
  {
    mounts := map[];
    for i := 0 to |pods|
      invariant forall c :: At(mounts, c) == Mounters(pods[..i], c)
    {
      var next := MentionsOf(pods[i], mounts);
      assert pods[..i + 1] == pods[..i] + [pods[i]];
      forall c ensures At(next, c) == Mounters(pods[..i + 1], c) {
        assert Entered(next, mounts, pods[i], |pods[i].volumes|, c);
        MountersSnoc(pods[..i], pods[i], c);
      }
      mounts := next;
    }
    assert pods[..|pods|] == pods;
  }

  ghost predicate MountedBy(pods: seq<Pod>, n: nat, c: Claim) {
    exists i :: 0 <= i < n <= |pods| && Mounts(pods[i], c)
  }

  ghost predicate MountsBefore(p: Pod, c: Claim, n: nat) { exists j: nat :: j < n && MountsAt(p, c, j) }

  method AddMounted(p: Pod, before: set<Claim>) returns (mounted: set<Claim>)
    ensures forall c :: c in mounted <==> c in before || Mounts(p, c)
  {
    mounted := before;
    for j := 0 to |p.volumes|
      invariant forall c :: c in mounted <==> c in before || MountsBefore(p, c, j)
    {
      ghost var was := mounted;
      if p.volumes[j].Some? {
        mounted := mounted + {Claim(p.ns, p.volumes[j].value)};
      }
      forall c ensures c in mounted <==> c in before || MountsBefore(p, c, j + 1) {
        assert MountsBefore(p, c, j + 1) <==> MountsBefore(p, c, j) || MountsAt(p, c, j);
        assert c in mounted <==> c in was || MountsAt(p, c, j);
      }
    }
    assert forall c :: MountsBefore(p, c, |p.volumes|) <==> Mounts(p, c);
  }

  /** pvcunused.go:108-114: a claim is in the set exactly when some pod mounts it. */
  method MountedClaims(pods: seq<Pod>) returns (mounted: set<Claim>)
    ensures forall c :: c in mounted <==> MountedBy(pods, |pods|, c)
  {
    mounted := {};
    for i := 0 to |pods|
      invariant forall c :: c in mounted <==> MountedBy(pods, i, c)
    {
      mounted := AddMounted(pods[i], mounted);
      assert forall c :: MountedBy(pods, i + 1, c) <==> MountedBy(pods, i, c) || Mounts(pods[i], c);
    }
  }

  /** The set and the index agree: a claim is mounted exactly when it has mounters. */
  lemma {:induction false} MountedIffMounters(pods: seq<Pod>, c: Claim)
    ensures MountedBy(pods, |pods|, c) <==> Mounters(pods, c) != []
  {
    if pods != [] {
      var init, p := pods[..|pods| - 1], pods[|pods| - 1];
      MountedIffMounters(init, c);
      MentionsSome(p, c, |p.volumes|);
      assert Mounts(p, c) <==> exists j: nat :: j < |p.volumes| && MountsAt(p, c, j);
      assert forall i :: 0 <= i < |init| ==> init[i] == pods[i];
    }
  }

  lemma {:induction false} MentionsSome(p: Pod, c: Claim, n: nat)
    ensures Mentions(p, c, n) != [] <==> exists j: nat :: j < n && MountsAt(p, c, j)
  {
    if n > 0 { MentionsSome(p, c, n - 1); }
  }

  /** A volume of a pod, by their numbers. */
  datatype Place = Place(pod: nat, volume: nat)

  ghost predicate IsPlace(pods: seq<Pod>, c: Claim, v: Place) { v.pod < |pods| && MountsAt(pods[v.pod], c, v.volume) }

  predicate Earlier(v: Place, w: Place) { v.pod < w.pod || (v.pod == w.pod && v.volume < w.volume) }

  /** The places are all the mounts of the claim, in list order, each once. */
  ghost predicate AllPlaces(pods: seq<Pod>, c: Claim, places: seq<Place>) {
    && (forall k :: 0 <= k < |places| ==> IsPlace(pods, c, places[k]))
    && (forall k, l :: 0 <= k < l < |places| ==> Earlier(places[k], places[l]))
    && (forall v :: IsPlace(pods, c, v) ==> v in places)
  }

  ghost predicate NamesAt(pods: seq<Pod>, places: seq<Place>, names: seq<string>) {
    && |names| == |places|
    && forall k :: 0 <= k < |places| ==> places[k].pod < |pods| && names[k] == pods[places[k].pod].name
  }

  /** A claim's mounters are the names of the pods at its mounts, in list order. */
  lemma {:induction false} MountersArePlaces(pods: seq<Pod>, c: Claim) returns (places: seq<Place>)
    ensures AllPlaces(pods, c, places) && NamesAt(pods, places, Mounters(pods, c))
  {
    if pods == [] {
      places := [];
    } else {
      var init, p := pods[..|pods| - 1], pods[|pods| - 1];
      assert pods == init + [p];
      var before := MountersArePlaces(init, c);
      places := PlacesOneMore(init, p, c, before);
    }
  }

  lemma PlacesOneMore(pods: seq<Pod>, p: Pod, c: Claim, before: seq<Place>) returns (places: seq<Place>)
    requires AllPlaces(pods, c, before) && NamesAt(pods, before, Mounters(pods, c))
    ensures AllPlaces(pods + [p], c, places) && NamesAt(pods + [p], places, Mounters(pods + [p], c))
  {
    var volumes := MentionsAreVolumes(p, c, |p.volumes|);
    var last := seq(|volumes|, k requires 0 <= k < |volumes| => Place(|pods|, volumes[k]));
    places := before + last;
    MountersSnoc(pods, p, c);
    forall k | 0 <= k < |places| ensures IsPlace(pods + [p], c, places[k]) {
      if k < |before| { assert IsPlace(pods, c, before[k]); }
    }
    forall v | IsPlace(pods + [p], c, v) ensures v in places {
      if v.pod < |pods| {
        assert IsPlace(pods, c, v);
      } else {
        var k :| 0 <= k < |volumes| && volumes[k] == v.volume;
        assert last[k] == v;
      }
    }
  }

  lemma {:induction false} MentionsAreVolumes(p: Pod, c: Claim, n: nat) returns (volumes: seq<nat>)
    ensures |volumes| == |Mentions(p, c, n)|
    ensures forall k :: 0 <= k < |volumes| ==>
      volumes[k] < n && MountsAt(p, c, volumes[k]) && Mentions(p, c, n)[k] == p.name
    ensures forall k, l :: 0 <= k < l < |volumes| ==> volumes[k] < volumes[l]
    ensures forall j: nat :: j < n && MountsAt(p, c, j) ==> j in volumes
  {
    volumes := [];
    if n > 0 {
      var before := MentionsAreVolumes(p, c, n - 1);
      volumes := before + if MountsAt(p, c, n - 1) then [n - 1] else [];
    }
  }

  // ---- the POD cell -------------------------------------------------------------------------------

  /** pvcresize.go:228-234. */
  function PodCell(colour: bool): seq<string> -> string {
    (names: seq<string>) =>
      if names == [] then Ansi.Paint(colour, Ansi.GRAY, "<none>") else Join(StableSort(names, ByText()), ",")
  }

  /** What the cell shows of the pods: none, or, cut at its commas, their names in order. */
  ghost predicate CellShows(cell: string, names: seq<string>) {
    if names == [] then Ansi.Visible(cell) == "<none>"
    else (forall n :: n in names ==> ',' !in n) ==>
      Sorted(Cut(cell, ','), ByText()) && multiset(Cut(cell, ',')) == multiset(names)
  }

  lemma PodCellShows(colour: bool, names: seq<string>)
    ensures CellShows(PodCell(colour)(names), names)
    ensures !colour && names == [] ==> PodCell(colour)(names) == "<none>"
    ensures |names| == 1 ==> PodCell(colour)(names) == names[0]
  {
    if names == [] {
      Ansi.PaintIsInvisible(colour, Ansi.GRAY, "<none>");
      Ansi.StripIsVisible("<none>");
      Ansi.StripPlain("<none>");
    } else {
      SortedCell(names);
    }
  }

  lemma SortedCell(names: seq<string>)
    requires names != []
    ensures var cell := Join(StableSort(names, ByText()), ",");
      CellShows(cell, names) && (|names| == 1 ==> cell == names[0])
  {
    var sorted := StableSort(names, ByText());
    ByTextOrders();
    StableSortSorted(names, ByText());
    if forall n :: n in names ==> ',' !in n {
      forall n | n in sorted ensures ',' !in n { assert n in multiset(sorted); }
      CutJoin(sorted, ',');
    }
    if |names| == 1 { assert names == [names[0]] && sorted[0] in multiset(names); }
  }

  lemma {:induction false} MountersAppend(xs: seq<Pod>, ys: seq<Pod>, c: Claim)
    ensures Mounters(xs + ys, c) == Mounters(xs, c) + Mounters(ys, c)
  {
    if ys == [] {
      assert xs + ys == xs;
    } else {
      var init, p := ys[..|ys| - 1], ys[|ys| - 1];
      MountersAppend(xs, init, c);
      assert xs + ys == (xs + init) + [p];
      MountersSnoc(xs + init, p, c);
    }
  }

  lemma MountersWithoutOne(pods: seq<Pod>, k: nat, c: Claim)
    requires k < |pods|
    ensures multiset(Mounters(pods, c)) ==
      multiset(Mounters(pods[..k] + pods[k + 1..], c)) + multiset(Mentions(pods[k], c, |pods[k].volumes|))
  {
    assert pods == pods[..k] + [pods[k]] + pods[k + 1..];
    MountersAppend(pods[..k] + [pods[k]], pods[k + 1..], c);
    MountersSnoc(pods[..k], pods[k], c);
    MountersAppend(pods[..k], pods[k + 1..], c);
  }

  lemma {:induction false} MountersOfMultiset(xs: seq<Pod>, ys: seq<Pod>, c: Claim)
    requires multiset(xs) == multiset(ys)
    ensures multiset(Mounters(xs, c)) == multiset(Mounters(ys, c))
    decreases |xs|
  {
    if xs == [] {
      assert |multiset(ys)| == |ys|;
    } else {
      var k := MatchFirst(xs, ys);
      MountersOfMultiset(xs[1..], ys[..k] + ys[k + 1..], c);
      MountersWithoutOne(ys, k, c);
      MountersFirst(xs, c);
    }
  }

  lemma MountersFirst(pods: seq<Pod>, c: Claim)
    requires pods != []
    ensures multiset(Mounters(pods, c)) ==
      multiset(Mounters(pods[1..], c)) + multiset(Mentions(pods[0], c, |pods[0].volumes|))
  {
    var first := [pods[0]];
    assert pods == first + pods[1..];
    MountersAppend(first, pods[1..], c);
    assert [] + first == first;
    MountersSnoc([], pods[0], c);
  }

  lemma ForeignPodMentionsNothing(p: Pod, c: Claim, n: nat)
    requires p.ns != c.ns
    ensures Mentions(p, c, n) == []
  {
  }

  /** Pods outside the claim's namespace can be dropped. */
  lemma {:induction false} MountersInNamespace(pods: seq<Pod>, keep: Pod -> bool, c: Claim)
    requires forall p :: p in pods && p.ns == c.ns ==> keep(p)
    ensures Mounters(Filter(pods, keep), c) == Mounters(pods, c)
  {
    if pods != [] {
      var init, p := pods[..|pods| - 1], pods[|pods| - 1];
      assert forall q :: q in init ==> q in pods;
      MountersInNamespace(init, keep, c);
      MountersFilterSnoc(init, p, keep, c);
      assert pods == init + [p];
    }
  }

  lemma MountersFilterSnoc(pods: seq<Pod>, p: Pod, keep: Pod -> bool, c: Claim)
    requires p.ns == c.ns ==> keep(p)
    requires Mounters(Filter(pods, keep), c) == Mounters(pods, c)
    ensures Mounters(Filter(pods + [p], keep), c) == Mounters(pods + [p], c)
  {
    var kept, longer := Filter(pods, keep), Filter(pods + [p], keep);
    FilterOneMore(pods, p, keep);
    MountersSnoc(pods, p, c);
    if keep(p) {
      assert longer == kept + [p];
      MountersSnoc(kept, p, c);
    } else {
      assert longer == kept;
      ForeignPodMentionsNothing(p, c, |p.volumes|);
    }
  }

  lemma SameCell(colour: bool, xs: seq<string>, ys: seq<string>)
    requires multiset(xs) == multiset(ys)
    ensures PodCell(colour)(xs) == PodCell(colour)(ys)
  {
    ByTextOrders();
    assert |multiset(xs)| == |xs| && |multiset(ys)| == |ys|;
    SortOfMultiset(xs, ys, ByText());
  }

  // ---- which pods are listed --------------------------------------------------------------------------

  /** The scope of the pod list: the user's, all namespaces when the rows are in too many,
      otherwise the rows' own, sorted. */
  ghost predicate Narrowing(scope: seq<string>, namespaces: set<string>, names: seq<string>) {
    if scope != [] then names == scope
    else if |namespaces| > MAX_NAMESPACE_FANOUT then names == []
    else Sorted(names, ByText()) && Distinct(names) && NameSet(names) == namespaces
  }

  /** Without a scope of the user's, no more than the rows' own namespaces are asked for, as long
      as these are at most 16. */
  lemma NarrowingAsksForTheRows(scope: seq<string>, namespaces: set<string>, names: seq<string>)
    requires Narrowing(scope, namespaces, names)
    ensures scope != [] ==> names == scope
    ensures scope == [] && |namespaces| <= 16 ==>
      (forall n :: n in names <==> n in namespaces) && |names| == |namespaces|
    ensures scope == [] && |namespaces| > 16 ==> names == []
  {
    if scope == [] && |namespaces| <= 16 {
      forall n ensures n in names <==> n in namespaces { assert n in NameSet(names) <==> n in names; }
      DistinctSize(names);
    }
  }

  lemma {:induction false} DistinctSize(names: seq<string>)
    requires Distinct(names)
    ensures |NameSet(names)| == |names|
  {
    if names != [] {
      var init, last := names[..|names| - 1], names[|names| - 1];
      DistinctSize(init);
      assert last !in NameSet(init) && NameSet(names) == NameSet(init) + {last};
    }
  }

  /** slices.Sorted(maps.Keys(m)): whatever order the keys come out in. */
  method SortedKeys(keys: set<string>) returns (names: seq<string>)
    ensures Sorted(names, ByText()) && Distinct(names) && NameSet(names) == keys
  {
    ByTextOrders();
    var left, found := keys, [];
    while left != {}
      invariant left <= keys && Distinct(found) && NameSet(found) == keys - left
      decreases |left|
    {
      var k :| k in left;
      assert k !in NameSet(found) && NameSet(found + [k]) == NameSet(found) + {k};
      found, left := found + [k], left - {k};
    }
    names := StableSort(found, ByText());
    StableSortSorted(found, ByText());
    DistinctMultiset(found, names);
  }

  lemma DistinctMultiset(xs: seq<string>, ys: seq<string>)
    requires Distinct(xs) && multiset(xs) == multiset(ys)
    ensures Distinct(ys) && NameSet(ys) == NameSet(xs)
  {
    forall n ensures n in xs <==> n in ys { assert n in multiset(xs) <==> n in multiset(ys); }
    forall i, j | 0 <= i < j < |ys| ensures ys[i] != ys[j] {
      DistinctOnce(xs, ys[j]);
      OnceMeansApart(ys, i, j);
    }
  }

  lemma OnceMeansApart(ys: seq<string>, i: nat, j: nat)
    requires i < j < |ys| && multiset(ys)[ys[j]] <= 1
    ensures ys[i] != ys[j]
  {
    assert ys == ys[..j] + [ys[j]] + ys[j + 1..];
    assert ys[i] in multiset(ys[..j]) by { assert ys[i] == ys[..j][i]; }
  }

  method NamespacesToAsk(scope: seq<string>, namespaces: set<string>) returns (names: seq<string>)
    ensures Narrowing(scope, namespaces, names)
  {
    if scope != [] { return scope; }
    if |namespaces| > MAX_NAMESPACE_FANOUT { return []; }
    names := SortedKeys(namespaces);
  }

  /** Every row's namespace lies in the user's scope, and every name is one. */
  predicate Rows(scope: seq<string>, namespaces: set<string>) {
    && "" !in scope && Distinct(scope) && "" !in namespaces
    && (scope != [] ==> forall ns :: ns in namespaces ==> ns in scope)
  }

  function NamespaceOf(): Pod -> string { (p: Pod) => p.ns }

  /** Whichever branch ran, a row's POD cell is the one the whole cluster's pods give. */
  lemma NarrowingKeepsTheCell(e: Env<Pod>, rank: Rank, opts: ListOptions, snapshot: seq<Pod>,
      scope: seq<string>, namespaces: set<string>, names: seq<string>, c: Claim, colour: bool)
    requires RunsOut(e.page, rank) && Honest(e, rank, opts, snapshot) && e.nsOf == NamespaceOf()
    requires Rows(scope, namespaces) && c.ns in namespaces && Narrowing(scope, namespaces, names)
    ensures ScopedOutcome(e, rank, names, opts).Ok? && ListIn(e.page, rank, "", opts).Ok?
    ensures PodCell(colour)(Mounters(ScopedOutcome(e, rank, names, opts).items, c)) ==
      PodCell(colour)(Mounters(ListIn(e.page, rank, "", opts).items, c))
  {
    assert "" !in names && Distinct(names) && (names != [] ==> c.ns in names) by {
      assert c.ns in NameSet(names) <==> c.ns in names;
      assert "" in NameSet(names) <==> "" in names;
    }
    ScopedListsTheScope(e, rank, names, opts, snapshot);
    var narrow, wide := ScopedOutcome(e, rank, names, opts).items, ListIn(e.page, rank, "", opts).items;
    MountersOfMultiset(narrow, InScope(e, snapshot, names), c);
    MountersOfMultiset(wide, snapshot, c);
    if names != [] { MountersInNamespace(snapshot, InNames(e, NameSet(names)), c); }
    SameCell(colour, Mounters(narrow, c), Mounters(wide, c));
  }

  function NamespacesOf(claims: seq<Claim>): set<string> { set c | c in claims :: c.ns }

  /** Each claim's cell, from the pods given. */
  ghost predicate CellsFrom(column: seq<string>, claims: seq<Claim>, pods: seq<Pod>, cell: seq<string> -> string) {
    |column| == |claims| && forall i :: 0 <= i < |claims| ==> column[i] == cell(Mounters(pods, claims[i]))
  }

  /** What any of the three branches lists gives the cells the snapshot gives. */
  lemma NarrowedColumn(e: Env<Pod>, rank: Rank, opts: ListOptions, snapshot: seq<Pod>, scope: seq<string>,
      claims: seq<Claim>, names: seq<string>, column: seq<string>, colour: bool)
    requires RunsOut(e.page, rank) && Honest(e, rank, opts, snapshot) && e.nsOf == NamespaceOf()
    requires Rows(scope, NamespacesOf(claims)) && claims != [] && Narrowing(scope, NamespacesOf(claims), names)
    ensures var out := ScopedOutcome(e, rank, names, opts);
      out.Ok? && (CellsFrom(column, claims, out.items, PodCell(colour)) ==>
                    CellsFrom(column, claims, snapshot, PodCell(colour)))
  {
    forall i | 0 <= i < |claims|
      ensures var out := ScopedOutcome(e, rank, names, opts);
        out.Ok? && PodCell(colour)(Mounters(out.items, claims[i])) == PodCell(colour)(Mounters(snapshot, claims[i]))
    {
      var c, wide := claims[i], ListIn(e.page, rank, "", opts);
      NarrowingKeepsTheCell(e, rank, opts, snapshot, scope, NamespacesOf(claims), names, c, colour);
      MountersOfMultiset(wide.items, snapshot, c);
      SameCell(colour, Mounters(wide.items, c), Mounters(snapshot, c));
    }
    assert ScopedOutcome(e, rank, names, opts).Ok? by { assert 0 < |claims|; }
  }

  method Column(claims: seq<Claim>, pods: seq<Pod>, cell: seq<string> -> string) returns (column: seq<string>)
    ensures CellsFrom(column, claims, pods, cell)
  {
    var mounts := IndexMounts(pods);
    column := [];
    for i := 0 to |claims|
      invariant |column| == i
      invariant forall k :: 0 <= k < i ==> column[k] == cell(Mounters(pods, claims[k]))
    {
      column := column + [cell(At(mounts, claims[i]))];
    }
  }

  method RowNamespaces(claims: seq<Claim>) returns (namespaces: set<string>)
    ensures namespaces == NamespacesOf(claims)
  {
    namespaces := {};
    for i := 0 to |claims|
      invariant namespaces == NamespacesOf(claims[..i])
    {
      assert claims[..i + 1] == claims[..i] + [claims[i]];
      namespaces := namespaces + {claims[i].ns};
    }
    assert claims[..|claims|] == claims;
  }

  datatype PodCells = PodCells(column: seq<string>) | ListFailed(error: string)

  /** The cells come from what the narrowed list returned, or are its error. */
  ghost predicate ColumnOf(cells: PodCells, claims: seq<Claim>, pods: Outcome<Pod>, colour: bool) {
    match pods
    case Err(error) => cells == ListFailed(error)
    case Ok(items) => cells.PodCells? && CellsFrom(cells.column, claims, items, PodCell(colour))
  }

  /** pvcresize.go:79-90, 106, 116-128: the POD column of the rows' claims. No pod is listed
      when there is no row. */
  method PodColumn(e: Env<Pod>, claims: seq<Claim>, scope: seq<string>, opts: ListOptions, colour: bool,
      pick: (Task<Pod>, nat) -> seq<nat>, ghost rank: Rank, ghost snapshot: seq<Pod>)
    returns (cells: PodCells)
    requires RunsOut(e.page, rank) && e.nsOf == NamespaceOf() && Rows(scope, NamespacesOf(claims))
    requires forall t, slots :: CanMove(e, t, slots) ==> Step(e, t, slots, pick(t, slots)).Some?
    ensures claims == [] ==> cells == PodCells([])
    ensures claims != [] ==> exists names ::
      && Narrowing(scope, NamespacesOf(claims), names)
      && ColumnOf(cells, claims, ScopedOutcome(e, rank, names, opts), colour)
    ensures Honest(e, rank, opts, snapshot) ==>
      cells.PodCells? && CellsFrom(cells.column, claims, snapshot, PodCell(colour))
    ensures Honest(e, rank, opts, snapshot) ==> ColumnShows(cells, claims, snapshot)
  {
    if claims == [] { return PodCells([]); }
    var namespaces := RowNamespaces(claims);
    var names := NamespacesToAsk(scope, namespaces);
    var pods := ListScoped(e, names, opts, pick, rank);
    if pods.Err? {
      cells := ListFailed(pods.error);
    } else {
      var column := Column(claims, pods.items, PodCell(colour));
      cells := PodCells(column);
    }
    assert ColumnOf(cells, claims, ScopedOutcome(e, rank, names, opts), colour);
    if Honest(e, rank, opts, snapshot) {
      var column := if cells.PodCells? then cells.column else [];
      NarrowedColumn(e, rank, opts, snapshot, scope, claims, names, column, colour);
      ColumnOfCells(column, claims, snapshot, colour);
    }
  }

  /** Every row shows the pods that mount its claim. */
  ghost predicate ColumnShows(cells: PodCells, claims: seq<Claim>, pods: seq<Pod>) {
    && cells.PodCells? && |cells.column| == |claims|
    && forall i :: 0 <= i < |claims| ==> CellShows(cells.column[i], Mounters(pods, claims[i]))
  }

  lemma ColumnOfCells(column: seq<string>, claims: seq<Claim>, pods: seq<Pod>, colour: bool)
    requires CellsFrom(column, claims, pods, PodCell(colour))
    ensures ColumnShows(PodCells(column), claims, pods)
  {
    forall i | 0 <= i < |claims| ensures CellShows(column[i], Mounters(pods, claims[i])) {
      PodCellShows(colour, Mounters(pods, claims[i]));
    }
  }
}
