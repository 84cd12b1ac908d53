/**
 * internal/view/netpol.go: a set of NetworkPolicies abstracted to one verdict per pod and
 * direction, judged against the Kubernetes documentation, "Network Policies", section "The
 * two sorts of pod isolation".
 */
module NetworkPolicies {
  import opened Sequences

  // ---- the API objects --------------------------------------------------------------------------

  datatype Direction = Ingress | Egress
  datatype Family = V4 | V6
  datatype Endpoint = Endpoint(family: Family, address: nat, identity: string)
  datatype IpBlock = IpBlock(cidr: string, except: seq<string>)
  datatype Peer = Peer(block: Option<IpBlock>, selectors: string)
  datatype Rule = Rule(peers: seq<Peer>, ports: seq<string>)
  datatype PolicyType = IngressType | EgressType | OtherType(text: string)
  datatype Policy = Policy(ns: string, name: string, podSelector: string,
                           policyTypes: seq<PolicyType>, ingress: seq<Rule>, egress: seq<Rule>)
  {
    function Rules(dir: Direction): seq<Rule> { if dir == Ingress then ingress else egress }
  }
  datatype Phase = Pending | Running | Succeeded | Failed
  datatype Pod = Pod(ns: string, name: string, labels: map<string, string>, hostNetwork: bool, phase: Phase)

  /** What is left to Kubernetes: label selectors, peers, CIDR membership and ports. */
  datatype Cluster = Cluster(
    validSelector: string -> bool,
    selects: (string, map<string, string>) -> bool,
    isPeer: (string, Endpoint) -> bool,
    inBlock: (string, Endpoint) -> bool,
    isPort: (string, int) -> bool)

  const ALL_V4 := "0.0.0.0/0"
  const ALL_V6 := "::/0"

  /** The two unrestricted blocks hold every address of their family. */
  ghost predicate Sane(c: Cluster) {
    && (forall e: Endpoint :: e.family == V4 ==> c.inBlock(ALL_V4, e))
    && (forall e: Endpoint :: e.family == V6 ==> c.inBlock(ALL_V6, e))
  }

  // ---- what the documentation says -----------------------------------------------------------------

  predicate Governs(p: Policy, dir: Direction) {
    match dir
    case Ingress => p.policyTypes == [] || IngressType in p.policyTypes
    case Egress => if p.policyTypes == [] then p.egress != [] else EgressType in p.policyTypes
  }

  predicate Applies(c: Cluster, p: Policy, pod: Pod, dir: Direction) {
    p.ns == pod.ns && Governs(p, dir) && c.selects(p.podSelector, pod.labels)
  }

  predicate PeerAdmits(c: Cluster, peer: Peer, e: Endpoint) {
    match peer.block
    case Some(b) => c.inBlock(b.cidr, e) && forall x :: x in b.except ==> !c.inBlock(x, e)
    case None => c.isPeer(peer.selectors, e)
  }

  predicate RuleAdmits(c: Cluster, r: Rule, e: Endpoint, port: int) {
    && (r.peers == [] || exists peer :: peer in r.peers && PeerAdmits(c, peer, e))
    && (r.ports == [] || exists q :: q in r.ports && c.isPort(q, port))
  }

  ghost predicate Isolated(c: Cluster, policies: seq<Policy>, pod: Pod, dir: Direction) {
    exists p :: p in policies && Applies(c, p, pod, dir)
  }

  ghost predicate PolicyAdmits(c: Cluster, p: Policy, dir: Direction, e: Endpoint, port: int) {
    exists r :: r in p.Rules(dir) && RuleAdmits(c, r, e, port)
  }

  /** A pod that is not isolated accepts anything; an isolated one what some rule of some
      policy applying to it lists. */
  ghost predicate Admitted(c: Cluster, policies: seq<Policy>, pod: Pod, dir: Direction, e: Endpoint, port: int) {
    || !Isolated(c, policies, pod, dir)
    || exists p :: p in policies && Applies(c, p, pod, dir) && PolicyAdmits(c, p, dir, e, port)
  }

  // ---- the code --------------------------------------------------------------------------------------

  datatype Openness = Openness(deny: bool, allowAll: bool)
  datatype Compiled = Compiled(ns: string, name: string, selector: string,
                               ingress: Option<Openness>, egress: Option<Openness>)
  {
    function For(dir: Direction): Option<Openness> { if dir == Ingress then ingress else egress }
  }

  /** netpol.go:124-137. */
  method PolicyTypes(p: Policy) returns (ingress: bool, egress: bool)
    ensures ingress == Governs(p, Ingress) && egress == Governs(p, Egress)
  {
    if |p.policyTypes| == 0 { return true, |p.egress| > 0; }
    ingress, egress := false, false;
    for i := 0 to |p.policyTypes|
      invariant ingress == (IngressType in p.policyTypes[..i])
      invariant egress == (EgressType in p.policyTypes[..i])
    {
      match p.policyTypes[i] {
        case IngressType => ingress := true;
        case EgressType => egress := true;
        case OtherType(_) =>
      }
    }
    assert p.policyTypes[..|p.policyTypes|] == p.policyTypes;
  }

  predicate Unrestricted(peer: Peer) {
    && peer.block.Some? && peer.block.value.except == []
    && (peer.block.value.cidr == ALL_V4 || peer.block.value.cidr == ALL_V6)
  }

  /** The rules recognised as letting every peer through on every port. */
  predicate Unconditional(r: Rule) {
    r.ports == [] && (r.peers == [] || exists peer :: peer in r.peers && Unrestricted(peer))
  }

  /** netpol.go:142-155. */
  method AllowsAnyPeer(r: Rule) returns (any: bool)
    ensures any == Unconditional(r)
  {
    if |r.ports| > 0 { return false; }
    if |r.peers| == 0 { return true; }
    for i := 0 to |r.peers|
      invariant forall k :: 0 <= k < i ==> !Unrestricted(r.peers[k])
    {
      if Unrestricted(r.peers[i]) { return true; }
    }
    any := false;
  }

  /** They are: no port, and no peer or one that is 0.0.0.0/0 or ::/0 without exceptions. */
  lemma UnconditionalRules(r: Rule)
    ensures Unconditional(r) <==>
      && r.ports == []
      && (r.peers == [] || exists peer :: peer in r.peers && Everywhere(peer.block))
  {
  }

  predicate Everywhere(block: Option<IpBlock>) {
    block == Some(IpBlock("0.0.0.0/0", [])) || block == Some(IpBlock("::/0", []))
  }

  predicate SomeUnconditional(rules: seq<Rule>) { exists r :: r in rules && Unconditional(r) }

  function OpennessOf(p: Policy, dir: Direction): Option<Openness> {
    if Governs(p, dir) then Some(Openness(p.Rules(dir) == [], SomeUnconditional(p.Rules(dir)))) else None
  }

  function Compile(): Policy -> Compiled {
    (p: Policy) => Compiled(p.ns, p.name, p.podSelector, OpennessOf(p, Ingress), OpennessOf(p, Egress))
  }

  method CompileRules(rules: seq<Rule>) returns (o: Openness)
    ensures o == Openness(rules == [], SomeUnconditional(rules))
  {
    o := Openness(|rules| == 0, false);
    for i := 0 to |rules|
      invariant o == Openness(rules == [], SomeUnconditional(rules[..i]))
    {
      var any := AllowsAnyPeer(rules[i]);
      assert rules[..i + 1] == rules[..i] + [rules[i]];
      assert forall r :: r in rules[..i + 1] <==> r in rules[..i] || r == rules[i];
      o := o.(allowAll := o.allowAll || any);
    }
    assert rules[..|rules|] == rules;
  }

  /** netpol.go:99-119; None when the pod selector is malformed. */
  method CompilePolicy(c: Cluster, p: Policy) returns (out: Option<Compiled>)
    ensures out == if c.validSelector(p.podSelector) then Some(Compile()(p)) else None
  {
    if !c.validSelector(p.podSelector) { return None; }
    var in_, eg: Option<Openness> := None, None;
    var ingress, egress := PolicyTypes(p);
    if ingress {
      var o := CompileRules(p.ingress);
      in_ := Some(o);
    }
    if egress {
      var o := CompileRules(p.egress);
      eg := Some(o);
    }
    out := Some(Compiled(p.ns, p.name, p.podSelector, in_, eg));
  }

  datatype Verdict = Open | AllowAll | Restricted | Deny

  predicate Selecting(c: Cluster, q: Compiled, labels: map<string, string>, dir: Direction) {
    q.For(dir).Some? && c.selects(q.selector, labels)
  }

  predicate AllowsAll(q: Compiled, dir: Direction) { q.For(dir).Some? && q.For(dir).value.allowAll }
  predicate Denies(q: Compiled, dir: Direction) { q.For(dir).Some? && q.For(dir).value.deny }

  /** The verdict of a set of policies on a pod of their namespace. */
  function VerdictOf(c: Cluster, qs: seq<Compiled>, labels: map<string, string>, dir: Direction): Verdict {
    if !exists q :: q in qs && Selecting(c, q, labels, dir) then Open
    else if exists q :: q in qs && Selecting(c, q, labels, dir) && AllowsAll(q, dir) then AllowAll
    else if forall q :: q in qs && Selecting(c, q, labels, dir) ==> Denies(q, dir) then Deny
    else Restricted
  }

  /** The names of the selecting policies, in order. */
  function NamesOf(c: Cluster, qs: seq<Compiled>, labels: map<string, string>, dir: Direction): seq<string> {
    if qs == [] then []
    else
      var last := qs[|qs| - 1];
      NamesOf(c, qs[..|qs| - 1], labels, dir) + if Selecting(c, last, labels, dir) then [last.name] else []
  }

  ghost predicate AllDeny(c: Cluster, qs: seq<Compiled>, labels: map<string, string>, dir: Direction) {
    forall q :: q in qs && Selecting(c, q, labels, dir) ==> Denies(q, dir)
  }

  ghost predicate AnyAllowsAll(c: Cluster, qs: seq<Compiled>, labels: map<string, string>, dir: Direction) {
    exists q :: q in qs && Selecting(c, q, labels, dir) && AllowsAll(q, dir)
  }

  lemma {:induction false} OnePolicyMore(c: Cluster, qs: seq<Compiled>, q: Compiled, labels: map<string, string>,
      dir: Direction)
    ensures NamesOf(c, qs + [q], labels, dir) ==
      NamesOf(c, qs, labels, dir) + if Selecting(c, q, labels, dir) then [q.name] else []
    ensures AllDeny(c, qs + [q], labels, dir)
      == (AllDeny(c, qs, labels, dir) && (Selecting(c, q, labels, dir) ==> Denies(q, dir)))
    ensures AnyAllowsAll(c, qs + [q], labels, dir)
      == (AnyAllowsAll(c, qs, labels, dir) || (Selecting(c, q, labels, dir) && AllowsAll(q, dir)))
  {
    assert (qs + [q])[..|qs|] == qs;
    assert forall x :: x in qs + [q] <==> x in qs || x == q;
  }

  lemma {:induction false} NamesMeaning(c: Cluster, qs: seq<Compiled>, labels: map<string, string>, dir: Direction)
    ensures forall n :: n in NamesOf(c, qs, labels, dir) <==>
      exists q :: q in qs && Selecting(c, q, labels, dir) && q.name == n
    ensures NamesOf(c, qs, labels, dir) == [] <==> !exists q :: q in qs && Selecting(c, q, labels, dir)
  {
    if qs != [] {
      var init := qs[..|qs| - 1];
      NamesMeaning(c, init, labels, dir);
      assert qs == init + [qs[|qs| - 1]];
    }
  }

  function SelectingIn(c: Cluster, labels: map<string, string>, dir: Direction): Compiled -> bool {
    (q: Compiled) => Selecting(c, q, labels, dir)
  }

  function NameOf(): Compiled -> string { (q: Compiled) => q.name }

  /** The names are those of the selecting policies, one each, in the order of the policies. */
  lemma {:induction false} NamesInOrder(c: Cluster, qs: seq<Compiled>, labels: map<string, string>, dir: Direction)
    ensures NamesOf(c, qs, labels, dir) == Map(NameOf(), Filter(qs, SelectingIn(c, labels, dir)))
  {
    if qs != [] {
      var init, q := qs[..|qs| - 1], qs[|qs| - 1];
      assert qs == init + [q];
      NamesInOrder(c, init, labels, dir);
      NameOneMore(c, init, q, labels, dir);
    }
  }

  lemma NameOneMore(c: Cluster, qs: seq<Compiled>, q: Compiled, labels: map<string, string>, dir: Direction)
    requires NamesOf(c, qs, labels, dir) == Map(NameOf(), Filter(qs, SelectingIn(c, labels, dir)))
    ensures NamesOf(c, qs + [q], labels, dir) == Map(NameOf(), Filter(qs + [q], SelectingIn(c, labels, dir)))
  {
    var keep := SelectingIn(c, labels, dir);
    assert (qs + [q])[..|qs|] == qs;
    FilterOneMore(qs, q, keep);
    if keep(q) { MapSnoc(NameOf(), Filter(qs, keep), q); }
  }

  lemma {:induction false} VerdictByFlags(c: Cluster, qs: seq<Compiled>, labels: map<string, string>, dir: Direction)
    ensures VerdictOf(c, qs, labels, dir) ==
      if NamesOf(c, qs, labels, dir) == [] then Open
      else if AnyAllowsAll(c, qs, labels, dir) then AllowAll
      else if AllDeny(c, qs, labels, dir) then Deny
      else Restricted
  {
    NamesMeaning(c, qs, labels, dir);
  }

  /** netpol.go:159-181. */
  method PodCoverage(c: Cluster, qs: seq<Compiled>, labels: map<string, string>, dir: Direction)
    returns (verdict: Verdict, names: seq<string>)
    ensures verdict == VerdictOf(c, qs, labels, dir)
    ensures names == NamesOf(c, qs, labels, dir)
  {
    var allDeny, allowAll := true, false;
    names := [];
    for i := 0 to |qs|
      invariant names == NamesOf(c, qs[..i], labels, dir)
      invariant allDeny == AllDeny(c, qs[..i], labels, dir)
      invariant allowAll == AnyAllowsAll(c, qs[..i], labels, dir)
    {
      OnePolicyMore(c, qs[..i], qs[i], labels, dir);
      assert qs[..i + 1] == qs[..i] + [qs[i]];
      var r := qs[i].For(dir);
      if r.Some? && c.selects(qs[i].selector, labels) {
        names := names + [qs[i].name];
        allDeny := allDeny && r.value.deny;
        allowAll := allowAll || r.value.allowAll;
      }
    }
    assert qs[..|qs|] == qs;
    VerdictByFlags(c, qs, labels, dir);
    verdict := if |names| == 0 then Open else if allowAll then AllowAll else if allDeny then Deny else Restricted;
  }

  // ---- soundness ---------------------------------------------------------------------------------------

  function InNamespace(ns: string): Policy -> bool { (p: Policy) => p.ns == ns }

  /** The verdict printed for a pod: its own namespace's policies, compiled. */
  function Coverage(c: Cluster, policies: seq<Policy>, pod: Pod, dir: Direction): Verdict {
    VerdictOf(c, LocalPolicies(policies, pod.ns), pod.labels, dir)
  }

  function LocalPolicies(policies: seq<Policy>, ns: string): seq<Compiled> {
    Map(Compile(), Filter(policies, InNamespace(ns)))
  }

  lemma {:induction false} LocalPolicy(policies: seq<Policy>, ns: string, q: Compiled)
    ensures q in LocalPolicies(policies, ns) <==> exists p :: p in policies && p.ns == ns && q == Compile()(p)
  {
    var local := Filter(policies, InNamespace(ns));
    var qs := Map(Compile(), local);
    if q in qs {
      var j :| 0 <= j < |qs| && qs[j] == q;
      assert local[j] in policies;
    }
    if p :| p in policies && p.ns == ns && q == Compile()(p) {
      var i :| 0 <= i < |policies| && policies[i] == p;
      assert policies[i] in local;
      var j :| 0 <= j < |local| && local[j] == p;
      assert qs[j] == q;
    }
  }

  /** The policies that apply to a pod are, compiled, the ones of its namespace selecting it. */
  lemma {:induction false} ApplyingSelecting(c: Cluster, policies: seq<Policy>, pod: Pod, dir: Direction)
    ensures var qs := LocalPolicies(policies, pod.ns);
      && (forall p :: p in policies && Applies(c, p, pod, dir) ==> CompiledApplies(c, qs, p, pod, dir))
      && (forall q :: q in qs && Selecting(c, q, pod.labels, dir) ==>
            exists p :: p in policies && Applies(c, p, pod, dir) && q == Compile()(p))
  {
    var qs := LocalPolicies(policies, pod.ns);
    forall p | p in policies && Applies(c, p, pod, dir) ensures CompiledApplies(c, qs, p, pod, dir) {
      LocalPolicy(policies, pod.ns, Compile()(p));
    }
    forall q | q in qs && Selecting(c, q, pod.labels, dir)
      ensures exists p :: p in policies && Applies(c, p, pod, dir) && q == Compile()(p)
    {
      LocalPolicy(policies, pod.ns, q);
      var p :| p in policies && p.ns == pod.ns && q == Compile()(p);
      assert Applies(c, p, pod, dir);
    }
  }

  lemma {:induction false} CoverageIsOpen(c: Cluster, policies: seq<Policy>, pod: Pod, dir: Direction)
    ensures Coverage(c, policies, pod, dir) == Open <==> !Isolated(c, policies, pod, dir)
  {
    ApplyingSelecting(c, policies, pod, dir);
  }

  lemma {:induction false} CoverageIsAllowAll(c: Cluster, policies: seq<Policy>, pod: Pod, dir: Direction)
    ensures Coverage(c, policies, pod, dir) == AllowAll <==>
      exists p :: p in policies && Applies(c, p, pod, dir) && SomeUnconditional(p.Rules(dir))
  {
    ApplyingSelecting(c, policies, pod, dir);
  }

  lemma {:induction false} DenyMeansNoRules(c: Cluster, policies: seq<Policy>, pod: Pod, dir: Direction)
    requires Coverage(c, policies, pod, dir) == Deny
    ensures forall p :: p in policies && Applies(c, p, pod, dir) ==> p.Rules(dir) == []
  {
    ApplyingSelecting(c, policies, pod, dir);
  }

  lemma {:induction false} NoRulesMeansDeny(c: Cluster, policies: seq<Policy>, pod: Pod, dir: Direction)
    requires Isolated(c, policies, pod, dir)
    requires forall p :: p in policies && Applies(c, p, pod, dir) ==> p.Rules(dir) == []
    ensures Coverage(c, policies, pod, dir) == Deny
  {
    var qs := LocalPolicies(policies, pod.ns);
    ApplyingSelecting(c, policies, pod, dir);
    forall q | q in qs && Selecting(c, q, pod.labels, dir) ensures Denies(q, dir) && !AllowsAll(q, dir) {
      var p :| p in policies && Applies(c, p, pod, dir) && q == Compile()(p);
      assert CompiledApplies(c, qs, p, pod, dir);
    }
    CoverageIsOpen(c, policies, pod, dir);
  }

  lemma {:induction false} CoverageIsDeny(c: Cluster, policies: seq<Policy>, pod: Pod, dir: Direction)
    ensures Coverage(c, policies, pod, dir) == Deny <==>
      && Isolated(c, policies, pod, dir)
      && forall p :: p in policies && Applies(c, p, pod, dir) ==> p.Rules(dir) == []
  {
    CoverageIsOpen(c, policies, pod, dir);
    if Coverage(c, policies, pod, dir) == Deny {
      DenyMeansNoRules(c, policies, pod, dir);
    } else if
      && Isolated(c, policies, pod, dir)
      && forall p :: p in policies && Applies(c, p, pod, dir) ==> p.Rules(dir) == []
    {
      NoRulesMeansDeny(c, policies, pod, dir);
    }
  }

  /** The verdict in terms of the policies themselves. */
  lemma {:induction false} CoverageMeaning(c: Cluster, policies: seq<Policy>, pod: Pod, dir: Direction)
    ensures var v := Coverage(c, policies, pod, dir);
      && (v == Open <==> !Isolated(c, policies, pod, dir))
      && (v == AllowAll <==> exists p :: p in policies && Applies(c, p, pod, dir) && SomeUnconditional(p.Rules(dir)))
      && (v == Deny <==> Isolated(c, policies, pod, dir)
                         && forall p :: p in policies && Applies(c, p, pod, dir) ==> p.Rules(dir) == [])
  {
    CoverageIsOpen(c, policies, pod, dir);
    CoverageIsAllowAll(c, policies, pod, dir);
    CoverageIsDeny(c, policies, pod, dir);
  }

  ghost predicate CompiledApplies(c: Cluster, qs: seq<Compiled>, p: Policy, pod: Pod, dir: Direction) {
    var q := Compile()(p);
    && q in qs && Selecting(c, q, pod.labels, dir)
    && AllowsAll(q, dir) == SomeUnconditional(p.Rules(dir)) && Denies(q, dir) == (p.Rules(dir) == [])
  }

  /** The names printed for a pod are those of the policies applying to it. */
  lemma NamesOfApplying(c: Cluster, policies: seq<Policy>, pod: Pod, dir: Direction, n: string)
    ensures n in NamesOf(c, LocalPolicies(policies, pod.ns), pod.labels, dir) <==>
      exists p :: p in policies && Applies(c, p, pod, dir) && p.name == n
  {
    var qs := LocalPolicies(policies, pod.ns);
    NamesMeaning(c, qs, pod.labels, dir);
    ApplyingSelecting(c, policies, pod, dir);
    if p :| p in policies && Applies(c, p, pod, dir) && p.name == n {
      assert CompiledApplies(c, qs, p, pod, dir);
      assert Compile()(p).name == n;
    }
  }

  /** OPEN exactly when the pod is not isolated. */
  lemma OpenIsNotIsolated(c: Cluster, policies: seq<Policy>, pod: Pod, dir: Direction)
    ensures Coverage(c, policies, pod, dir) == Open <==> !Isolated(c, policies, pod, dir)
    ensures Coverage(c, policies, pod, dir) == Open ==> forall e, port :: Admitted(c, policies, pod, dir, e, port)
  {
    CoverageMeaning(c, policies, pod, dir);
  }

  /** DENY: nothing gets through. */
  lemma DenyAdmitsNothing(c: Cluster, policies: seq<Policy>, pod: Pod, dir: Direction)
    requires Coverage(c, policies, pod, dir) == Deny
    ensures forall e, port :: !Admitted(c, policies, pod, dir, e, port)
  {
    CoverageMeaning(c, policies, pod, dir);
  }

  /** ALLOW-ALL: every peer of some address family gets through on every port. */
  lemma AllowAllAdmitsAFamily(c: Cluster, policies: seq<Policy>, pod: Pod, dir: Direction) returns (family: Family)
    requires Sane(c) && Coverage(c, policies, pod, dir) == AllowAll
    ensures forall e: Endpoint, port :: e.family == family ==> Admitted(c, policies, pod, dir, e, port)
  {
    CoverageMeaning(c, policies, pod, dir);
    var p :| p in policies && Applies(c, p, pod, dir) && SomeUnconditional(p.Rules(dir));
    var r :| r in p.Rules(dir) && Unconditional(r);
    family := V4;
    if r.peers != [] {
      var peer :| peer in r.peers && Unrestricted(peer);
      family := if peer.block.value.cidr == ALL_V4 then V4 else V6;
      assert forall e: Endpoint :: e.family == family ==> PeerAdmits(c, peer, e);
    }
    forall e: Endpoint, port | e.family == family ensures Admitted(c, policies, pod, dir, e, port) {
      assert RuleAdmits(c, r, e, port);
      assert PolicyAdmits(c, p, dir, e, port);
    }
  }

  /** RESTRICTED: isolated, some rule is there, and none of the rules is unconditional. */
  lemma RestrictedMeaning(c: Cluster, policies: seq<Policy>, pod: Pod, dir: Direction)
    ensures Coverage(c, policies, pod, dir) == Restricted <==>
      && Isolated(c, policies, pod, dir)
      && (exists p :: p in policies && Applies(c, p, pod, dir) && p.Rules(dir) != [])
      && (forall p, r :: p in policies && Applies(c, p, pod, dir) && r in p.Rules(dir) ==> !Unconditional(r))
  {
    CoverageMeaning(c, policies, pod, dir);
  }

  /** Only which policies there are matters, not their order or repetition. */
  lemma CoverageIgnoresOrder(c: Cluster, policies: seq<Policy>, others: seq<Policy>, pod: Pod, dir: Direction)
    requires forall p :: p in policies <==> p in others
    ensures Coverage(c, policies, pod, dir) == Coverage(c, others, pod, dir)
  {
    CoverageMeaning(c, policies, pod, dir);
    CoverageMeaning(c, others, pod, dir);
  }

  /** Nothing in the policies applying to the pod is about this endpoint and port in particular:
      no port entry holds the port, and what admits the endpoint is an unrestricted block. */
  ghost predicate Unnamed(c: Cluster, policies: seq<Policy>, pod: Pod, dir: Direction, e: Endpoint, port: int) {
    forall p, r :: p in policies && Applies(c, p, pod, dir) && r in p.Rules(dir) ==>
      && (forall q :: q in r.ports ==> !c.isPort(q, port))
      && (forall peer :: peer in r.peers && PeerAdmits(c, peer, e) ==> Unrestricted(peer))
  }

  /** What admits an unnamed endpoint makes the pod OPEN or ALLOW-ALL. */
  lemma UnnamedIsAdmittedUnconditionally(c: Cluster, policies: seq<Policy>, pod: Pod, dir: Direction, e: Endpoint,
      port: int)
    requires Unnamed(c, policies, pod, dir, e, port) && Admitted(c, policies, pod, dir, e, port)
    ensures Coverage(c, policies, pod, dir) == Open || Coverage(c, policies, pod, dir) == AllowAll
  {
    CoverageMeaning(c, policies, pod, dir);
    if Isolated(c, policies, pod, dir) {
      var p :| p in policies && Applies(c, p, pod, dir) && PolicyAdmits(c, p, dir, e, port);
      var r :| r in p.Rules(dir) && RuleAdmits(c, r, e, port);
      assert r.ports == [];
      assert Unconditional(r);
    }
  }

  /** How far ALLOW-ALL is complete: where the policies leave one endpoint of each family
      unnamed, the verdict is OPEN or ALLOW-ALL exactly when one of the two is admitted. */
  lemma UnnamedEndpointsDecide(c: Cluster, policies: seq<Policy>, pod: Pod, dir: Direction, v4: Endpoint,
      v6: Endpoint, port: int)
    requires Sane(c) && v4.family == V4 && v6.family == V6
    requires Unnamed(c, policies, pod, dir, v4, port) && Unnamed(c, policies, pod, dir, v6, port)
    ensures Coverage(c, policies, pod, dir) == Open || Coverage(c, policies, pod, dir) == AllowAll
      <==> Admitted(c, policies, pod, dir, v4, port) || Admitted(c, policies, pod, dir, v6, port)
  {
    OpenIsNotIsolated(c, policies, pod, dir);
    if Coverage(c, policies, pod, dir) == AllowAll {
      var family := AllowAllAdmitsAFamily(c, policies, pod, dir);
      assert family == V4 || family == V6;
    }
    if Admitted(c, policies, pod, dir, v4, port) { UnnamedIsAdmittedUnconditionally(c, policies, pod, dir, v4, port); }
    if Admitted(c, policies, pod, dir, v6, port) { UnnamedIsAdmittedUnconditionally(c, policies, pod, dir, v6, port); }
  }

  /** Without that it is not complete: two half-blocks that hold every IPv4 address between
      them admit every IPv4 peer and read as RESTRICTED. */
  lemma HalvesAreRestricted(c: Cluster, pod: Pod)
    requires c.selects("", pod.labels)
    requires forall e: Endpoint :: e.family == V4 ==> c.inBlock("0.0.0.0/1", e) || c.inBlock("128.0.0.0/1", e)
    ensures var low, high := Peer(Some(IpBlock("0.0.0.0/1", [])), ""), Peer(Some(IpBlock("128.0.0.0/1", [])), "");
      var halves := Rule([low, high], []);
      var p := Policy(pod.ns, "halves", "", [], [halves], []);
      && Coverage(c, [p], pod, Ingress) == Restricted
      && forall e: Endpoint, port :: e.family == V4 ==> Admitted(c, [p], pod, Ingress, e, port)
  {
    var low, high := Peer(Some(IpBlock("0.0.0.0/1", [])), ""), Peer(Some(IpBlock("128.0.0.0/1", [])), "");
    var halves := Rule([low, high], []);
    var p := Policy(pod.ns, "halves", "", [], [halves], []);
    assert p in [p] && Applies(c, p, pod, Ingress) && halves in p.Rules(Ingress);
    assert low in halves.peers && high in halves.peers;
    CoverageMeaning(c, [p], pod, Ingress);
    forall e: Endpoint, port | e.family == V4 ensures Admitted(c, [p], pod, Ingress, e, port) {
      assert PeerAdmits(c, low, e) || PeerAdmits(c, high, e);
      assert RuleAdmits(c, halves, e, port);
      assert PolicyAdmits(c, p, Ingress, e, port);
    }
  }

  // ---- the namespace rollup ---------------------------------------------------------------------------

  predicate Eligible(p: Pod) { !p.hostNetwork && p.phase != Succeeded && p.phase != Failed }

  datatype Tally = Tally(pods: nat, open: nat, allowAll: nat, deny: nat)

  const EMPTY := Tally(0, 0, 0, 0)

  datatype Rollup = NoPods | AllOpen | SomeAllowAll | Partial(covered: nat, pods: nat) | DefaultDeny | Mixed

  /** netpol.go:220-230. */
  function Add(t: Tally, v: Verdict): Tally {
    Tally(t.pods + 1, t.open + if v == Open then 1 else 0,
          t.allowAll + if v == AllowAll then 1 else 0, t.deny + if v == Deny then 1 else 0)
  }

  /** netpol.go:234-249. */
  function RollupOf(t: Tally): Rollup
    requires t.open <= t.pods
  {
    if t.pods == 0 then NoPods
    else if t.open == t.pods then AllOpen
    else if t.allowAll > 0 then SomeAllowAll
    else if t.open > 0 then Partial(t.pods - t.open, t.pods)
    else if t.deny == t.pods then DefaultDeny
    else Mixed
  }

  function TallyOf(vs: seq<Verdict>): Tally {
    if vs == [] then EMPTY else Add(TallyOf(vs[..|vs| - 1]), vs[|vs| - 1])
  }

  lemma {:induction false} TallyCounts(vs: seq<Verdict>)
    ensures var t := TallyOf(vs);
      && t.pods == |vs| && t.open == multiset(vs)[Open]
      && t.allowAll == multiset(vs)[AllowAll] && t.deny == multiset(vs)[Deny]
      && t.open + t.allowAll + t.deny + multiset(vs)[Restricted] == t.pods
  {
    if vs != [] {
      TallyCounts(vs[..|vs| - 1]);
      assert vs == vs[..|vs| - 1] + [vs[|vs| - 1]];
    }
  }

  lemma {:induction false} CountAll(vs: seq<Verdict>, v: Verdict)
    ensures multiset(vs)[v] <= |vs|
    ensures multiset(vs)[v] == |vs| <==> forall i :: 0 <= i < |vs| ==> vs[i] == v
    ensures multiset(vs)[v] == 0 <==> forall i :: 0 <= i < |vs| ==> vs[i] != v
  {
    if vs != [] {
      assert vs == [vs[0]] + vs[1..];
      CountAll(vs[1..], v);
      assert forall i :: 1 <= i < |vs| ==> vs[i] == vs[1..][i - 1];
    }
  }

  /** The rollup word, read off the verdicts of the pods. */
  lemma RollupMeaning(vs: seq<Verdict>)
    ensures TallyOf(vs).open <= TallyOf(vs).pods
    ensures var r := RollupOf(TallyOf(vs));
      && (r == NoPods <==> vs == [])
      && (r == AllOpen <==> vs != [] && forall i :: 0 <= i < |vs| ==> vs[i] == Open)
      && (r == SomeAllowAll <==> AllowAll in vs)
      && (r == DefaultDeny <==> vs != [] && forall i :: 0 <= i < |vs| ==> vs[i] == Deny)
      && (r.Partial? <==> Open in vs && AllowAll !in vs && exists i :: 0 <= i < |vs| && vs[i] != Open)
      && (r.Partial? ==> r.pods == |vs| && r.covered == |vs| - multiset(vs)[Open] && 0 < r.covered < r.pods)
      && (r == Mixed <==> Restricted in vs && Open !in vs && AllowAll !in vs)
  {
    TallyCounts(vs);
    CountAll(vs, Open);
    CountAll(vs, AllowAll);
    CountAll(vs, Deny);
    CountAll(vs, Restricted);
  }

  function VerdictsBy(f: Pod -> Verdict, pods: seq<Pod>, ns: string): seq<Verdict> {
    if pods == [] then []
    else
      var p := pods[|pods| - 1];
      VerdictsBy(f, pods[..|pods| - 1], ns) + if p.ns == ns && Eligible(p) then [f(p)] else []
  }

  /** The verdicts of a namespace's eligible pods, in list order. */
  function VerdictsIn(c: Cluster, policies: seq<Policy>, pods: seq<Pod>, ns: string, dir: Direction): seq<Verdict> {
    VerdictsBy(CoverageIn(c, policies, dir), pods, ns)
  }

  /** Pods that NetworkPolicy can isolate: neither finished nor on the node's own network. */
  function Isolable(ns: string): Pod -> bool {
    (p: Pod) => p.ns == ns && !p.hostNetwork && p.phase != Succeeded && p.phase != Failed
  }

  function CoverageIn(c: Cluster, policies: seq<Policy>, dir: Direction): Pod -> Verdict {
    (p: Pod) => Coverage(c, policies, p, dir)
  }

  /** They are those of its pods that can be isolated, one each. */
  lemma {:induction false} VerdictsOfPods(f: Pod -> Verdict, pods: seq<Pod>, ns: string)
    ensures VerdictsBy(f, pods, ns) == Map(f, Filter(pods, Isolable(ns)))
  {
    if pods != [] {
      var init, p := pods[..|pods| - 1], pods[|pods| - 1];
      assert pods == init + [p];
      VerdictsOfPods(f, init, ns);
      VerdictsOfOneMore(f, init, p, ns);
    }
  }

  lemma VerdictsOfOneMore(f: Pod -> Verdict, pods: seq<Pod>, p: Pod, ns: string)
    requires VerdictsBy(f, pods, ns) == Map(f, Filter(pods, Isolable(ns)))
    ensures VerdictsBy(f, pods + [p], ns) == Map(f, Filter(pods + [p], Isolable(ns)))
  {
    VerdictsByOneMore(f, pods, p, ns);
    MapKeptOneMore(pods, p, Isolable(ns), f);
  }

  lemma VerdictsByOneMore(f: Pod -> Verdict, pods: seq<Pod>, p: Pod, ns: string)
    ensures VerdictsBy(f, pods + [p], ns) == VerdictsBy(f, pods, ns) + if Isolable(ns)(p) then [f(p)] else []
  {
    assert (pods + [p])[..|pods|] == pods;
  }

  lemma MapKeptOneMore(pods: seq<Pod>, p: Pod, keep: Pod -> bool, f: Pod -> Verdict)
    ensures Map(f, Filter(pods + [p], keep)) == Map(f, Filter(pods, keep)) + if keep(p) then [f(p)] else []
  {
    FilterOneMore(pods, p, keep);
    if keep(p) { MapSnoc(f, Filter(pods, keep), p); }
  }

  /** A namespace's row counts, for each direction, the verdicts of its pods that can be isolated. */
  lemma RowMeaning(c: Cluster, policies: seq<Policy>, pods: seq<Pod>, ns: string)
    ensures var row, isolable := RowOf(c, policies, pods, ns), Filter(pods, Isolable(ns));
      && row.ingress == TallyOf(Map(CoverageIn(c, policies, Ingress), isolable))
      && row.egress == TallyOf(Map(CoverageIn(c, policies, Egress), isolable))
      && row.ingress.pods == row.egress.pods == |isolable|
  {
    VerdictsOfPods(CoverageIn(c, policies, Ingress), pods, ns);
    VerdictsOfPods(CoverageIn(c, policies, Egress), pods, ns);
    TallyCounts(VerdictsIn(c, policies, pods, ns, Ingress));
    TallyCounts(VerdictsIn(c, policies, pods, ns, Egress));
  }

  datatype NsRow = NsRow(ingress: Tally, egress: Tally)

  /** netpol.go:251-272: one row per namespace that has a pod or a policy. `byNs` holds the
      compiled policies by namespace. */
  method NetpolNamespaces(c: Cluster, ghost policies: seq<Policy>, byNs: map<string, seq<Compiled>>, pods: seq<Pod>)
    returns (rows: map<string, NsRow>)
    requires forall ns :: ns in byNs <==> HasPolicy(policies, ns)
    requires forall ns :: ns in byNs ==> byNs[ns] == LocalPolicies(policies, ns)
    ensures forall ns :: ns in rows <==> HasPolicy(policies, ns) || HasPod(pods, ns)
    ensures RowsRight(c, policies, pods, rows)
  {
    rows := map ns | ns in byNs :: NsRow(EMPTY, EMPTY);
    for i := 0 to |pods|
      invariant forall ns :: ns in rows <==> ns in byNs || HasPod(pods[..i], ns)
      invariant RowsRight(c, policies, pods[..i], rows)
    {
      var p := pods[i];
      assert pods[..i + 1] == pods[..i] + [p];
      OnePodMore(pods[..i], p);
      var row := EMPTY_ROW;
      if p.ns in rows {
        row := rows[p.ns];
      } else {
        NoPodsNoVerdicts(c, policies, pods[..i], p.ns);
      }
      row := CountPod(c, policies, byNs, row, p);
      RowReplaced(c, policies, pods[..i], p, rows, row);
      rows := rows[p.ns := row];
    }
    assert pods[..|pods|] == pods;
  }

  ghost predicate HasPolicy(policies: seq<Policy>, ns: string) { exists p :: p in policies && p.ns == ns }
  ghost predicate HasPod(pods: seq<Pod>, ns: string) { exists p :: p in pods && p.ns == ns }

  lemma OnePodMore(pods: seq<Pod>, p: Pod)
    ensures forall ns :: HasPod(pods + [p], ns) <==> HasPod(pods, ns) || p.ns == ns
  {
    assert forall q :: q in pods + [p] <==> q in pods || q == p;
    assert p in pods + [p];
  }

  const EMPTY_ROW := NsRow(EMPTY, EMPTY)

  ghost predicate RowsRight(c: Cluster, policies: seq<Policy>, pods: seq<Pod>, rows: map<string, NsRow>) {
    forall ns :: ns in rows ==> rows[ns] == RowOf(c, policies, pods, ns)
  }

  lemma RowReplaced(c: Cluster, policies: seq<Policy>, pods: seq<Pod>, p: Pod, rows: map<string, NsRow>, row: NsRow)
    requires RowsRight(c, policies, pods, rows) && row == NextRow(c, policies, RowOf(c, policies, pods, p.ns), p, p.ns)
    ensures RowsRight(c, policies, pods + [p], rows[p.ns := row])
  {
    RowsAfter(c, policies, pods, p);
  }

  /** netpol.go:264-271, for the pod's own row. */
  method CountPod(c: Cluster, ghost policies: seq<Policy>, byNs: map<string, seq<Compiled>>, row: NsRow, p: Pod)
    returns (next: NsRow)
    requires p.ns in byNs ==> byNs[p.ns] == LocalPolicies(policies, p.ns)
    requires p.ns !in byNs ==> !HasPolicy(policies, p.ns)
    ensures next == NextRow(c, policies, row, p, p.ns)
  {
    if !Eligible(p) { return row; }
    var qs := if p.ns in byNs then byNs[p.ns] else [];
    if p.ns !in byNs { NoPolicies(policies, p.ns); }
    var in_, _ := PodCoverage(c, qs, p.labels, Ingress);
    var eg, _ := PodCoverage(c, qs, p.labels, Egress);
    next := NsRow(Add(row.ingress, in_), Add(row.egress, eg));
  }

  /** What a namespace's row has to hold. */
  function RowOf(c: Cluster, policies: seq<Policy>, pods: seq<Pod>, ns: string): NsRow {
    NsRow(TallyOf(VerdictsIn(c, policies, pods, ns, Ingress)), TallyOf(VerdictsIn(c, policies, pods, ns, Egress)))
  }

  function NextRow(c: Cluster, policies: seq<Policy>, row: NsRow, p: Pod, ns: string): NsRow {
    if p.ns == ns && Eligible(p) then
      NsRow(Add(row.ingress, Coverage(c, policies, p, Ingress)), Add(row.egress, Coverage(c, policies, p, Egress)))
    else row
  }

  lemma {:induction false} RowsAfter(c: Cluster, policies: seq<Policy>, pods: seq<Pod>, p: Pod)
    ensures forall ns :: RowOf(c, policies, pods + [p], ns) == NextRow(c, policies, RowOf(c, policies, pods, ns), p, ns)
  {
    forall ns ensures RowOf(c, policies, pods + [p], ns) == NextRow(c, policies, RowOf(c, policies, pods, ns), p, ns) {
      assert (pods + [p])[..|pods|] == pods;
      Extend(VerdictsIn(c, policies, pods, ns, Ingress), Coverage(c, policies, p, Ingress));
      Extend(VerdictsIn(c, policies, pods, ns, Egress), Coverage(c, policies, p, Egress));
    }
  }

  lemma Extend(vs: seq<Verdict>, v: Verdict)
    ensures TallyOf(vs + [v]) == Add(TallyOf(vs), v) && vs + [] == vs
  {
    assert (vs + [v])[..|vs|] == vs;
  }

  lemma {:induction false} NoPodsNoVerdicts(c: Cluster, policies: seq<Policy>, pods: seq<Pod>, ns: string)
    requires !HasPod(pods, ns)
    ensures VerdictsIn(c, policies, pods, ns, Ingress) == [] && VerdictsIn(c, policies, pods, ns, Egress) == []
  {
    if pods != [] {
      var init, p := pods[..|pods| - 1], pods[|pods| - 1];
      assert pods == init + [p];
      OnePodMore(init, p);
      NoPodsNoVerdicts(c, policies, init, ns);
    }
  }

  lemma {:induction false} NoPolicies(policies: seq<Policy>, ns: string)
    requires forall p :: p in policies ==> p.ns != ns
    ensures Filter(policies, InNamespace(ns)) == []
  {
    if policies != [] {
      assert policies[0] in policies;
      NoPolicies(policies[1..], ns);
    }
  }

  lemma {:induction false} VerdictInNamespace(c: Cluster, policies: seq<Policy>, pods: seq<Pod>, pod: Pod,
      dir: Direction)
    requires pod in pods && Eligible(pod)
    ensures Coverage(c, policies, pod, dir) in VerdictsIn(c, policies, pods, pod.ns, dir)
  {
    if pods[|pods| - 1] != pod {
      assert pods == pods[..|pods| - 1] + [pods[|pods| - 1]];
      VerdictInNamespace(c, policies, pods[..|pods| - 1], pod, dir);
    }
  }

  /** A namespace reported DEFAULT-DENY has no eligible pod any connection reaches, and one
      reported OPEN has no eligible pod that is isolated. */
  lemma RollupIsSound(c: Cluster, policies: seq<Policy>, pods: seq<Pod>, ns: string, dir: Direction, pod: Pod)
    requires pod in pods && pod.ns == ns && Eligible(pod)
    ensures var t := TallyOf(VerdictsIn(c, policies, pods, ns, dir));
      && t.open <= t.pods
      && (RollupOf(t) == DefaultDeny ==> forall e, port :: !Admitted(c, policies, pod, dir, e, port))
      && (RollupOf(t) == AllOpen ==> !Isolated(c, policies, pod, dir))
      && (RollupOf(t) == Mixed ==> Isolated(c, policies, pod, dir))
  {
    var vs := VerdictsIn(c, policies, pods, ns, dir);
    RollupMeaning(vs);
    VerdictInNamespace(c, policies, pods, pod, dir);
    OpenIsNotIsolated(c, policies, pod, dir);
    if Coverage(c, policies, pod, dir) == Deny { DenyAdmitsNothing(c, policies, pod, dir); }
  }
}
