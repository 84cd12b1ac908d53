/** internal/view/qos.go: the derived QoS class and the totals shown beside it. */
module Qos {
  import opened Sequences

  datatype Resource = Cpu | Memory | Other(name: string)
  const CPU_MEM := [Cpu, Memory]

  type Quantities = map<Resource, int>

  datatype Container = Container(requests: Quantities, limits: Quantities, sidecar: bool)
  datatype Class = Guaranteed | Burstable | BestEffort
  datatype Pod = Pod(status: Option<Class>, init: seq<Container>, containers: seq<Container>)

  // ---- the class ----------------------------------------------------------------------------------

  predicate SetsAny(c: Container) {
    exists r :: r in CPU_MEM && (r in c.requests || r in c.limits)
  }

  predicate FullyPinned(c: Container) {
    forall r :: r in CPU_MEM ==> r in c.requests && r in c.limits && c.requests[r] == c.limits[r]
  }

  /** The class of a pod whose status has none: over init and app containers alike. */
  function Derived(p: Pod): Class {
    var all := p.init + p.containers;
    if forall c :: c in all ==> !SetsAny(c) then BestEffort
    else if forall c :: c in all ==> FullyPinned(c) then Guaranteed
    else Burstable
  }

  lemma TwoResources(c: Container)
    ensures SetsAny(c) <==> Cpu in c.requests || Cpu in c.limits || Memory in c.requests || Memory in c.limits
    ensures FullyPinned(c) <==>
      && Cpu in c.requests && Cpu in c.limits && c.requests[Cpu] == c.limits[Cpu]
      && Memory in c.requests && Memory in c.limits && c.requests[Memory] == c.limits[Memory]
  {
    assert CPU_MEM[0] == Cpu && CPU_MEM[1] == Memory;
  }

  /** What the derived class says of the containers, init and app alike. */
  lemma DerivedMeaning(p: Pod)
    ensures Derived(p) == BestEffort <==> forall c :: c in p.init || c in p.containers ==>
      Cpu !in c.requests && Cpu !in c.limits && Memory !in c.requests && Memory !in c.limits
    ensures Derived(p) == Guaranteed <==>
      && Derived(p) != BestEffort
      && forall c :: c in p.init || c in p.containers ==>
           && Cpu in c.requests && Cpu in c.limits && c.requests[Cpu] == c.limits[Cpu]
           && Memory in c.requests && Memory in c.limits && c.requests[Memory] == c.limits[Memory]
  {
    forall c { TwoResources(c); }
    assert forall c :: c in p.init + p.containers <==> c in p.init || c in p.containers;
  }

  /** qos.go:94-108, for one container. */
  method Inspect(c: Container) returns (any: bool, pinned: bool)
    ensures any == SetsAny(c) && pinned == FullyPinned(c)
  {
    TwoResources(c);
    any, pinned := false, true;
    for i := 0 to |CPU_MEM|
      invariant any == exists k :: 0 <= k < i && (CPU_MEM[k] in c.requests || CPU_MEM[k] in c.limits)
      invariant pinned == forall k :: 0 <= k < i ==>
        CPU_MEM[k] in c.requests && CPU_MEM[k] in c.limits && c.requests[CPU_MEM[k]] == c.limits[CPU_MEM[k]]
    {
      var name := CPU_MEM[i];
      any := any || name in c.requests || name in c.limits;
      if name !in c.requests || name !in c.limits || c.requests[name] != c.limits[name] {
        pinned := false;
      }
    }
    assert CPU_MEM[0] == Cpu && CPU_MEM[1] == Memory;
  }

  /** qos.go:88-118. */
  method QosClass(p: Pod) returns (result: Class)
    ensures result == match p.status case Some(s) => s case None => Derived(p)
  {
    if p.status.Some? { return p.status.value; }
    var guaranteed, anySet := true, false;
    var all := p.init + p.containers;
    for i := 0 to |all|
      invariant anySet == exists k :: 0 <= k < i && SetsAny(all[k])
      invariant guaranteed == forall k :: 0 <= k < i ==> FullyPinned(all[k])
    {
      var any, pinned := Inspect(all[i]);
      anySet := anySet || any;
      guaranteed := guaranteed && pinned;
    }
    result := if !anySet then BestEffort else if guaranteed then Guaranteed else Burstable;
  }

  // ---- the totals --------------------------------------------------------------------------------

  function Plus(a: Option<int>, b: Option<int>): Option<int> {
    match (a, b)
    case (Some(x), Some(y)) => Some(x + y)
    case (None, _) => b
    case (_, None) => a
  }

  function Get(q: Quantities, r: Resource): Option<int> { if r in q then Some(q[r]) else None }

  /** The sum of what the lists say about one resource, None when none of them says anything. */
  function Total(qs: seq<Quantities>, r: Resource): Option<int> {
    if qs == [] then None else Plus(Total(qs[..|qs| - 1], r), Get(qs[|qs| - 1], r))
  }

  lemma TotalSnoc(qs: seq<Quantities>, q: Quantities, r: Resource)
    ensures Total(qs + [q], r) == Plus(Total(qs, r), Get(q, r))
  {
    assert (qs + [q])[..|qs|] == qs;
  }

  /** `dst` holds exactly the totals of the lists, for cpu and memory and nothing else. */
  ghost predicate Holds(dst: Quantities, qs: seq<Quantities>) {
    forall r :: Get(dst, r) == if r in CPU_MEM then Total(qs, r) else None
  }

  /** qos.go:144-157. */
  method AddQuantities(dst: Quantities, src: Quantities, ghost qs: seq<Quantities>) returns (sum: Quantities)
    requires Holds(dst, qs)
    ensures Holds(sum, qs + [src])
    ensures forall r :: r in src && (r == Cpu || r == Memory) ==>
      r in sum && sum[r] == (if r in dst then dst[r] else 0) + src[r]
    ensures forall r :: r !in src || (r != Cpu && r != Memory) ==>
      (r in sum <==> r in dst) && (r in sum ==> sum[r] == dst[r])
  {
    sum := dst;
    for i := 0 to |CPU_MEM|
      invariant forall k :: 0 <= k < i ==> Get(sum, CPU_MEM[k]) == Plus(Get(dst, CPU_MEM[k]), Get(src, CPU_MEM[k]))
      invariant forall r :: r !in CPU_MEM[..i] ==> Get(sum, r) == Get(dst, r)
    {
      var name := CPU_MEM[i];
      assert name !in CPU_MEM[..i];
      if name !in src { continue; }
      if name in sum {
        sum := sum[name := sum[name] + src[name]];
        continue;
      }
      sum := sum[name := src[name]];
    }
    forall r ensures Get(sum, r) == if r in CPU_MEM then Total(qs + [src], r) else None {
      TotalSnoc(qs, src, r);
    }
    forall r ensures Get(sum, r) == if r == Cpu || r == Memory then Plus(Get(dst, r), Get(src, r)) else Get(dst, r) {
      assert CPU_MEM[0] == Cpu && CPU_MEM[1] == Memory;
      if r == Cpu { assert Get(sum, CPU_MEM[0]) == Plus(Get(dst, CPU_MEM[0]), Get(src, CPU_MEM[0])); }
      if r == Memory { assert Get(sum, CPU_MEM[1]) == Plus(Get(dst, CPU_MEM[1]), Get(src, CPU_MEM[1])); }
    }
    forall r ensures (r in sum <==> Get(sum, r).Some?) && (r in dst <==> Get(dst, r).Some?) {}
  }

  function IsSidecar(): Container -> bool { (c: Container) => c.sidecar }

  /** What runs once the pod is up: app containers and native sidecars. */
  function Steady(p: Pod): seq<Container> { p.containers + Filter(p.init, IsSidecar()) }

  function Requests(): Container -> Quantities { (c: Container) => c.requests }
  function Limits(): Container -> Quantities { (c: Container) => c.limits }

  method AddContainer(req: Quantities, lim: Quantities, c: Container, ghost cs: seq<Container>)
    returns (req': Quantities, lim': Quantities)
    requires Added(req, lim, cs)
    ensures Added(req', lim', cs + [c])
  {
    req' := AddQuantities(req, c.requests, Map(Requests(), cs));
    lim' := AddQuantities(lim, c.limits, Map(Limits(), cs));
    MapAppend(Requests(), cs, [c]);
    MapAppend(Limits(), cs, [c]);
  }

  /** What the pass has added up so far. */
  ghost predicate Added(req: Quantities, lim: Quantities, cs: seq<Container>) {
    Holds(req, Map(Requests(), cs)) && Holds(lim, Map(Limits(), cs))
  }

  method AddApps(containers: seq<Container>) returns (req: Quantities, lim: Quantities)
    ensures Added(req, lim, containers)
  {
    req, lim := map[], map[];
    for i := 0 to |containers|
      invariant Added(req, lim, containers[..i])
    {
      assert containers[..i + 1] == containers[..i] + [containers[i]];
      req, lim := AddContainer(req, lim, containers[i], containers[..i]);
    }
    assert containers[..|containers|] == containers;
  }

  function SidecarsIn(init: seq<Container>, i: nat): seq<Container>
    requires i <= |init|
  {
    Filter(init[..i], IsSidecar())
  }

  lemma OneMoreInit(apps: seq<Container>, init: seq<Container>, i: nat)
    requires i < |init|
    ensures apps + SidecarsIn(init, i + 1) ==
      apps + SidecarsIn(init, i) + (if init[i].sidecar then [init[i]] else [])
  {
    FilterSnoc(init, i, IsSidecar());
  }

  /** qos.go:124-140. */
  method PodResources(p: Pod) returns (req: Quantities, lim: Quantities)
    ensures Added(req, lim, Steady(p))
  {
    req, lim := AddApps(p.containers);
    assert p.containers + SidecarsIn(p.init, 0) == p.containers;
    for i := 0 to |p.init|
      invariant Added(req, lim, p.containers + SidecarsIn(p.init, i))
    {
      ghost var sofar := p.containers + SidecarsIn(p.init, i);
      OneMoreInit(p.containers, p.init, i);
      if p.init[i].sidecar {
        req, lim := AddContainer(req, lim, p.init[i], sofar);
      } else {
        assert sofar + [] == sofar;
      }
    }
    assert p.init[..|p.init|] == p.init;
  }

  // ---- the totals are sums -----------------------------------------------------------------------------

  /** The integer sum of what the lists have of `r`. */
  function Sum(qs: seq<Quantities>, r: Resource): int {
    if qs == [] then 0
    else
      var q := qs[|qs| - 1];
      Sum(qs[..|qs| - 1], r) + if r in q then q[r] else 0
  }

  ghost predicate SetBy(qs: seq<Quantities>, r: Resource) { exists q :: q in qs && r in q }

  /** A total is the sum, and there is one exactly when some list has the resource. */
  lemma {:induction false} TotalIsSum(qs: seq<Quantities>, r: Resource)
    ensures Total(qs, r).Some? <==> SetBy(qs, r)
    ensures Sum(qs, r) == if Total(qs, r).Some? then Total(qs, r).value else 0
  {
    if qs != [] {
      var init, q := qs[..|qs| - 1], qs[|qs| - 1];
      assert qs == init + [q];
      TotalIsSum(init, r);
      assert SetBy(qs, r) <==> SetBy(init, r) || r in q;
    }
  }

  lemma {:induction false} SumAppend(xs: seq<Quantities>, ys: seq<Quantities>, r: Resource)
    ensures Sum(xs + ys, r) == Sum(xs, r) + Sum(ys, r)
  {
    if ys == [] {
      assert xs + ys == xs;
    } else {
      var init, y := ys[..|ys| - 1], ys[|ys| - 1];
      assert (xs + ys)[..|xs + ys| - 1] == xs + init;
      SumAppend(xs, init, r);
    }
  }

  lemma SetByContainers(cs: seq<Container>, f: Container -> Quantities, r: Resource)
    ensures SetBy(Map(f, cs), r) <==> exists c :: c in cs && r in f(c)
  {
    var qs := Map(f, cs);
    if q :| q in qs && r in q {
      var i :| 0 <= i < |qs| && qs[i] == q;
      assert cs[i] in cs && r in f(cs[i]);
    }
    if c :| c in cs && r in f(c) {
      var i :| 0 <= i < |cs| && cs[i] == c;
      assert qs[i] in qs;
    }
  }

  /** `held` has the sum over app containers and sidecars of what `f` says of `r`, and has it
      exactly when one of them says something. */
  ghost predicate HoldsSum(held: Quantities, p: Pod, f: Container -> Quantities, r: Resource) {
    && (r in held <==>
          (exists c :: c in p.containers && r in f(c)) || exists c :: c in p.init && c.sidecar && r in f(c))
    && (r in held ==> held[r] == Sum(Map(f, p.containers), r) + Sum(Map(f, Filter(p.init, IsSidecar())), r))
  }

  lemma SteadyHoldsSum(held: Quantities, p: Pod, f: Container -> Quantities, r: Resource)
    requires Get(held, r) == Total(Map(f, Steady(p)), r)
    ensures HoldsSum(held, p, f, r)
  {
    var apps, sidecars := p.containers, Filter(p.init, IsSidecar());
    TotalIsSum(Map(f, Steady(p)), r);
    MapAppend(f, apps, sidecars);
    SumAppend(Map(f, apps), Map(f, sidecars), r);
    SetByContainers(Steady(p), f, r);
    forall c ensures c in Steady(p) <==> c in apps || (c in p.init && c.sidecar) { InSteady(p, c); }
  }

  lemma InSteady(p: Pod, c: Container)
    ensures c in Steady(p) <==> c in p.containers || (c in p.init && c.sidecar)
  {
    if c in p.init && c.sidecar {
      var i :| 0 <= i < |p.init| && p.init[i] == c;
      assert IsSidecar()(p.init[i]);
    }
  }

  /** A pod's totals are integer sums, for cpu and memory, and there is nothing else in them. */
  lemma PodTotalsAreSums(p: Pod, req: Quantities, lim: Quantities, r: Resource)
    requires Added(req, lim, Steady(p))
    ensures r == Cpu || r == Memory ==> HoldsSum(req, p, Requests(), r) && HoldsSum(lim, p, Limits(), r)
    ensures r != Cpu && r != Memory ==> r !in req && r !in lim
  {
    assert CPU_MEM[0] == Cpu && CPU_MEM[1] == Memory;
    assert Get(req, r) == if r in CPU_MEM then Total(Map(Requests(), Steady(p)), r) else None;
    assert Get(lim, r) == if r in CPU_MEM then Total(Map(Limits(), Steady(p)), r) else None;
    if r == Cpu || r == Memory {
      SteadyHoldsSum(req, p, Requests(), r);
      SteadyHoldsSum(lim, p, Limits(), r);
    }
  }

  // ---- what the class says about the totals ------------------------------------------------------------

  lemma {:induction false} PinnedTotals(cs: seq<Container>, r: Resource)
    requires r in CPU_MEM
    requires forall c :: c in cs ==> FullyPinned(c)
    ensures Total(Map(Requests(), cs), r) == Total(Map(Limits(), cs), r)
    ensures cs != [] ==> Total(Map(Requests(), cs), r).Some?
  {
    if cs != [] {
      var init, last := cs[..|cs| - 1], cs[|cs| - 1];
      assert cs == init + [last];
      PinnedTotals(init, r);
      assert FullyPinned(last);
      MapAppend(Requests(), init, [last]);
      MapAppend(Limits(), init, [last]);
      TotalSnoc(Map(Requests(), init), last.requests, r);
      TotalSnoc(Map(Limits(), init), last.limits, r);
    }
  }

  lemma {:induction false} UnsetTotals(cs: seq<Container>, r: Resource)
    requires r in CPU_MEM
    requires forall c :: c in cs ==> !SetsAny(c)
    ensures Total(Map(Requests(), cs), r).None? && Total(Map(Limits(), cs), r).None?
  {
    if cs != [] {
      var init, last := cs[..|cs| - 1], cs[|cs| - 1];
      assert cs == init + [last];
      UnsetTotals(init, r);
      assert !SetsAny(last);
      MapAppend(Requests(), init, [last]);
      MapAppend(Limits(), init, [last]);
      TotalSnoc(Map(Requests(), init), last.requests, r);
      TotalSnoc(Map(Limits(), init), last.limits, r);
    }
  }

  /** For a derived class, Guaranteed pods show equal totals, and BestEffort pods none. */
  lemma ClassConstrainsTotals(p: Pod, req: Quantities, lim: Quantities)
    requires Added(req, lim, Steady(p))
    ensures Derived(p) == Guaranteed ==> req == lim
    ensures Derived(p) == Guaranteed && p.containers != [] ==> Cpu in req && Memory in req
    ensures Derived(p) == BestEffort ==> req == map[] && lim == map[]
  {
    var cs := Steady(p);
    assert forall c :: c in cs ==> c in p.init + p.containers;
    assert p.containers != [] ==> cs != [];
    if Derived(p) == Guaranteed { PinnedQuantities(cs, req, lim); }
    if Derived(p) == BestEffort { UnsetQuantities(cs, req, lim); }
  }

  lemma PinnedQuantities(cs: seq<Container>, req: Quantities, lim: Quantities)
    requires Added(req, lim, cs) && forall c :: c in cs ==> FullyPinned(c)
    ensures req == lim
    ensures cs != [] ==> Cpu in req && Memory in req
  {
    assert CPU_MEM[0] == Cpu && CPU_MEM[1] == Memory;
    forall r | r in CPU_MEM ensures Get(req, r) == Get(lim, r) && (cs != [] ==> Get(req, r).Some?) {
      PinnedTotals(cs, r);
    }
    SameQuantities(req, lim);
    assert cs != [] ==> Get(req, Cpu).Some? && Get(req, Memory).Some?;
  }

  lemma UnsetQuantities(cs: seq<Container>, req: Quantities, lim: Quantities)
    requires Added(req, lim, cs) && forall c :: c in cs ==> !SetsAny(c)
    ensures req == map[] && lim == map[]
  {
    forall r | r in CPU_MEM ensures Get(req, r).None? && Get(lim, r).None? { UnsetTotals(cs, r); }
    SameQuantities(req, map[]);
    SameQuantities(lim, map[]);
  }

  lemma SameQuantities(a: Quantities, b: Quantities)
    requires forall r :: Get(a, r) == Get(b, r)
    ensures a == b
  {
    forall r ensures (r in a <==> r in b) && (r in a && r in b ==> a[r] == b[r]) {
      assert Get(a, r) == Get(b, r);
    }
  }

  // ---- order ----------------------------------------------------------------------------------------------

  lemma PlusRearranged(a: Option<int>, b: Option<int>, c: Option<int>)
    ensures Plus(Plus(a, b), c) == Plus(Plus(a, c), b)
  {
  }

  /** Taking one list out of the middle and adding it last changes no total. */
  lemma {:induction false} TotalMoveToEnd(qs: seq<Quantities>, k: nat, r: Resource)
    requires k < |qs|
    ensures Total(qs, r) == Plus(Total(qs[..k] + qs[k + 1..], r), Get(qs[k], r))
  {
    var init, last := qs[..|qs| - 1], qs[|qs| - 1];
    if k == |qs| - 1 {
      assert qs[..k] + qs[k + 1..] == init;
    } else {
      TotalMoveToEnd(init, k, r);
      WithoutOneLast(qs, k);
      TotalSnoc(init[..k] + init[k + 1..], last, r);
      PlusRearranged(Total(init[..k] + init[k + 1..], r), Get(qs[k], r), Get(last, r));
    }
  }

  /** The totals do not depend on the order of the containers. */
  lemma {:induction false} TotalsIgnoreOrder(qs: seq<Quantities>, others: seq<Quantities>, r: Resource)
    requires multiset(qs) == multiset(others)
    ensures Total(qs, r) == Total(others, r)
    decreases |qs|
  {
    if qs == [] {
      assert |multiset(others)| == |others|;
    } else {
      var last := qs[|qs| - 1];
      assert last in multiset(others);
      var k :| 0 <= k < |others| && others[k] == last;
      WithoutOne(qs, |qs| - 1);
      WithoutOne(others, k);
      assert qs[..|qs| - 1] + qs[|qs| - 1 + 1..] == qs[..|qs| - 1];
      TotalsIgnoreOrder(qs[..|qs| - 1], others[..k] + others[k + 1..], r);
      TotalMoveToEnd(others, k, r);
    }
  }

  /** Pods whose containers are listed in another order show the same totals. */
  lemma PodTotalsIgnoreOrder(p: Pod, q: Pod, req: Quantities, lim: Quantities, req': Quantities, lim': Quantities)
    requires multiset(p.containers) == multiset(q.containers) && multiset(p.init) == multiset(q.init)
    requires Added(req, lim, Steady(p)) && Added(req', lim', Steady(q))
    ensures req == req' && lim == lim'
  {
    FilterSameMultiset(p.init, q.init, IsSidecar());
    assert multiset(Steady(p)) == multiset(Steady(q));
    MapOfMultiset(Requests(), Steady(p), Steady(q));
    MapOfMultiset(Limits(), Steady(p), Steady(q));
    forall r ensures Get(req, r) == Get(req', r) && Get(lim, r) == Get(lim', r) {
      TotalsIgnoreOrder(Map(Requests(), Steady(p)), Map(Requests(), Steady(q)), r);
      TotalsIgnoreOrder(Map(Limits(), Steady(p)), Map(Limits(), Steady(q)), r);
    }
    SameQuantities(req, req');
    SameQuantities(lim, lim');
  }
}
