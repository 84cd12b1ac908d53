/**
 * internal/view/unusedconfig.go: the index of every ConfigMap and Secret something refers to.
 */
module References {
  import opened Sequences

  // ---- the objects -------------------------------------------------------------------------------

  datatype Kind = ConfigMap | Secret

  /** A projected volume source, an envFrom entry or an env valueFrom. */
  datatype Source = Source(configMap: Option<string>, secret: Option<string>)
  datatype Volume = Volume(configMap: Option<string>, secret: Option<string>, csiSecret: Option<string>,
                           projected: Option<seq<Source>>)
  datatype Container = Container(envFrom: seq<Source>, env: seq<Option<Source>>,
                                 command: seq<string>, args: seq<string>)
  datatype PodSpec = PodSpec(volumes: seq<Volume>, pullSecrets: seq<string>,
                             init: seq<Container>, containers: seq<Container>, ephemeral: seq<Container>)
  datatype ServiceAccount = ServiceAccount(ns: string, secrets: seq<string>, pullSecrets: seq<string>)
  datatype IngressTls = IngressTls(ns: string, secrets: seq<string>)
  datatype Workload = Workload(ns: string, spec: PodSpec)

  datatype Ref = Ref(kind: Kind, ns: string, name: string)
  datatype Cite = Cite(ns: string, token: string)

  // ---- what refers to what -------------------------------------------------------------------------

  function Union<T, R>(xs: seq<T>, f: T -> set<R>): set<R> {
    if xs == [] then {} else Union(xs[..|xs| - 1], f) + f(xs[|xs| - 1])
  }

  lemma {:induction false} UnionMember<T, R>(xs: seq<T>, f: T -> set<R>, r: R)
    ensures r in Union(xs, f) <==> exists i :: 0 <= i < |xs| && r in f(xs[i])
  {
    if xs != [] {
      UnionMember(xs[..|xs| - 1], f, r);
    }
  }

  lemma UnionSnoc<T, R>(xs: seq<T>, i: nat, f: T -> set<R>)
    requires i < |xs|
    ensures Union(xs[..i + 1], f) == Union(xs[..i], f) + f(xs[i])
  {
    assert xs[..i + 1][..i] == xs[..i];
  }

  function One(kind: Kind, ns: string, name: string): set<Ref> {
    if name == "" then {} else {Ref(kind, ns, name)}
  }

  function Opt(kind: Kind, ns: string, name: Option<string>): set<Ref> {
    match name case Some(n) => One(kind, ns, n) case None => {}
  }

  function SourceRefs(ns: string): Source -> set<Ref> {
    (s: Source) => Opt(ConfigMap, ns, s.configMap) + Opt(Secret, ns, s.secret)
  }

  function EnvRefs(ns: string): Option<Source> -> set<Ref> {
    (s: Option<Source>) => if s.Some? then SourceRefs(ns)(s.value) else {}
  }

  function SecretRefs(ns: string): string -> set<Ref> { (n: string) => One(Secret, ns, n) }

  function VolumeRefs(ns: string): Volume -> set<Ref> {
    (v: Volume) => Opt(ConfigMap, ns, v.configMap) + Opt(Secret, ns, v.secret) + Opt(Secret, ns, v.csiSecret)
      + (if v.projected.Some? then Union(v.projected.value, SourceRefs(ns)) else {})
  }

  function ContainerRefs(ns: string): Container -> set<Ref> {
    (c: Container) => Union(c.envFrom, SourceRefs(ns)) + Union(c.env, EnvRefs(ns))
  }

  /** view.go:85-99: init, then app, then ephemeral. */
  function SpecContainers(s: PodSpec): seq<Container> { s.init + s.containers + s.ephemeral }

  function SpecRefs(): Workload -> set<Ref> {
    (w: Workload) => Union(w.spec.volumes, VolumeRefs(w.ns)) + Union(w.spec.pullSecrets, SecretRefs(w.ns))
      + Union(SpecContainers(w.spec), ContainerRefs(w.ns))
  }

  function AccountRefs(): ServiceAccount -> set<Ref> {
    (a: ServiceAccount) => Union(a.secrets, SecretRefs(a.ns)) + Union(a.pullSecrets, SecretRefs(a.ns))
  }

  function IngressRefs(): IngressTls -> set<Ref> { (g: IngressTls) => Union(g.secrets, SecretRefs(g.ns)) }

  // ---- tokens of a command line ----------------------------------------------------------------------

  predicate NameChar(c: char) { c == '-' || c == '.' || 'a' <= c <= 'z' || '0' <= c <= '9' }

  /** The characters an object's name can hold, by their codes. */
  lemma NameCharacters(c: char)
    ensures NameChar(c) <==>
      0x61 <= c as int <= 0x7A || 0x30 <= c as int <= 0x39 || c as int == 0x2D || c as int == 0x2E
  {
    assert 'a' as int == 0x61 && 'z' as int == 0x7A && '0' as int == 0x30 && '9' as int == 0x39;
    assert '-' as int == 0x2D && '.' as int == 0x2E;
  }

  /** s[a..b] is a maximal run of name characters. */
  predicate RunAt(s: string, a: int, b: int) {
    && 0 <= a < b <= |s| && (forall k :: a <= k < b ==> NameChar(s[k]))
    && (a == 0 || !NameChar(s[a - 1])) && (b == |s| || !NameChar(s[b]))
  }

  ghost predicate IsToken(s: string, t: string) { exists a, b :: RunAt(s, a, b) && s[a..b] == t }

  function RunEnd(s: string, i: nat): (e: nat)
    requires i <= |s|
    ensures i <= e <= |s|
    ensures forall k :: i <= k < e ==> NameChar(s[k])
    ensures e < |s| ==> !NameChar(s[e])
    decreases |s| - i
  {
    if i < |s| && NameChar(s[i]) then RunEnd(s, i + 1) else i
  }

  /** `strings.FieldsFuncSeq(arg, notNameRune)`. */
  function FieldsFrom(s: string, i: nat): set<string>
    requires i <= |s|
    decreases |s| - i
  {
    if i == |s| then {}
    else if !NameChar(s[i]) then FieldsFrom(s, i + 1)
    else {s[i..RunEnd(s, i)]} + FieldsFrom(s, RunEnd(s, i))
  }

  function Fields(): string -> set<string> { (s: string) => FieldsFrom(s, 0) }

  ghost predicate TokenFrom(s: string, i: int, t: string) { exists a, b :: i <= a && RunAt(s, a, b) && s[a..b] == t }

  lemma {:induction false} FieldsAreTokens(s: string, i: nat, t: string)
    requires i <= |s|
    requires i == 0 || i == |s| || !NameChar(s[i - 1]) || !NameChar(s[i])
    ensures t in FieldsFrom(s, i) <==> TokenFrom(s, i, t)
    decreases |s| - i
  {
    if i < |s| {
      if !NameChar(s[i]) {
        FieldsAreTokens(s, i + 1, t);
      } else {
        var e := RunEnd(s, i);
        FieldsAreTokens(s, e, t);
        assert RunAt(s, i, e);
        if a, b :| i <= a && RunAt(s, a, b) && s[a..b] == t {
          assert a < e ==> a == i;
          assert a == i ==> b == e;
        }
      }
    }
  }

  function TokensOf(c: Container): set<string> { Union(c.command, Fields()) + Union(c.args, Fields()) }

  function CitesIn(ns: string): Container -> set<Cite> { (c: Container) => set t | t in TokensOf(c) :: Cite(ns, t) }

  function SpecCites(): Workload -> set<Cite> { (w: Workload) => Union(SpecContainers(w.spec), CitesIn(w.ns)) }

  // ---- the index ----------------------------------------------------------------------------------------

  function KindText(k: Kind): string { match k case ConfigMap => "cm" case Secret => "secret" }
  function RefKey(r: Ref): string { KindText(r.kind) + "|" + r.ns + "/" + r.name }
  function CiteKey(c: Cite): string { c.ns + "|" + c.token }

  /** The namespaces Kubernetes admits hold neither separator. */
  predicate CleanNs(ns: string) { '/' !in ns && '|' !in ns }

  lemma SplitOnce(sep: char, a: string, b: string, c: string, d: string)
    requires sep !in a && sep !in c && a + [sep] + b == c + [sep] + d
    ensures a == c && b == d
  {
    var s, t := a + [sep] + b, c + [sep] + d;
    assert s[|a|] == sep && t[|c|] == sep;
    assert forall i :: 0 <= i < |a| ==> s[i] == a[i] && a[i] != sep;
    assert forall i :: 0 <= i < |c| ==> t[i] == c[i] && c[i] != sep;
    assert |a| == |c|;
    assert s[..|a|] == a && t[..|c|] == c && s[|a| + 1..] == b && t[|c| + 1..] == d;
  }

  /** No two references share a key, and no two cited tokens do. */
  lemma KeysNeverCollide(r: Ref, q: Ref, c: Cite, d: Cite)
    ensures CleanNs(r.ns) && CleanNs(q.ns) && RefKey(r) == RefKey(q) ==> r == q
    ensures CleanNs(c.ns) && CleanNs(d.ns) && CiteKey(c) == CiteKey(d) ==> c == d
  {
    if CleanNs(r.ns) && CleanNs(q.ns) && RefKey(r) == RefKey(q) {
      var x, y := r.ns + "/" + r.name, q.ns + "/" + q.name;
      assert RefKey(r) == KindText(r.kind) + ['|'] + x && RefKey(q) == KindText(q.kind) + ['|'] + y;
      SplitOnce('|', KindText(r.kind), x, KindText(q.kind), y);
      SplitOnce('/', r.ns, r.name, q.ns, q.name);
    }
    if CleanNs(c.ns) && CleanNs(d.ns) && CiteKey(c) == CiteKey(d) {
      SplitOnce('|', c.ns, c.token, d.ns, d.token);
    }
  }

  ghost function CitesOf(ns: string, tokens: set<string>): set<Cite> { set t | t in tokens :: Cite(ns, t) }

  lemma TokensKeyed(ns: string, tokens: set<string>)
    ensures (set t | t in tokens :: ns + "|" + t) == set c | c in CitesOf(ns, tokens) :: CiteKey(c)
  {
    forall t | t in tokens ensures ns + "|" + t in set c | c in CitesOf(ns, tokens) :: CiteKey(c) {
      assert Cite(ns, t) in CitesOf(ns, tokens) && CiteKey(Cite(ns, t)) == ns + "|" + t;
    }
  }

  class RefSet {
    var seen: set<string>
    var args: set<string>
    ghost var refs: set<Ref>
    ghost var cites: set<Cite>

    /** The keys are those of the references added. */
    ghost predicate Valid()
      reads this
    {
      seen == (set r | r in refs :: RefKey(r)) && args == (set c | c in cites :: CiteKey(c))
    }

    constructor ()
      ensures Valid() && refs == {} && cites == {}
    {
      seen, args, refs, cites := {}, {}, {}, {};
    }

    /** unusedconfig.go:159-163. */
    method Add(kind: Kind, ns: string, name: string)
      requires Valid()
      modifies this
      ensures Valid() && refs == old(refs) + One(kind, ns, name) && cites == old(cites)
    {
      if name != "" {
        seen := seen + {KindText(kind) + "|" + ns + "/" + name};
        assert KindText(kind) + "|" + ns + "/" + name == RefKey(Ref(kind, ns, name));
        refs := refs + {Ref(kind, ns, name)};
      }
    }

    method AddOpt(kind: Kind, ns: string, name: Option<string>)
      requires Valid()
      modifies this
      ensures Valid() && refs == old(refs) + Opt(kind, ns, name) && cites == old(cites)
    {
      if name.Some? { Add(kind, ns, name.value); }
    }

    method AddSources(ns: string, sources: seq<Source>)
      requires Valid()
      modifies this
      ensures Valid() && refs == old(refs) + Union(sources, SourceRefs(ns)) && cites == old(cites)
    {
      for i := 0 to |sources|
        invariant Valid() && refs == old(refs) + Union(sources[..i], SourceRefs(ns)) && cites == old(cites)
      {
        UnionSnoc(sources, i, SourceRefs(ns));
        AddOpt(ConfigMap, ns, sources[i].configMap);
        AddOpt(Secret, ns, sources[i].secret);
      }
      assert sources[..|sources|] == sources;
    }

    method AddSecrets(ns: string, names: seq<string>)
      requires Valid()
      modifies this
      ensures Valid() && refs == old(refs) + Union(names, SecretRefs(ns)) && cites == old(cites)
    {
      for i := 0 to |names|
        invariant Valid() && refs == old(refs) + Union(names[..i], SecretRefs(ns)) && cites == old(cites)
      {
        UnionSnoc(names, i, SecretRefs(ns));
        Add(Secret, ns, names[i]);
      }
      assert names[..|names|] == names;
    }

    /** unusedconfig.go:212-235. */
    method AddVolume(ns: string, v: Volume)
      requires Valid()
      modifies this
      ensures Valid() && refs == old(refs) + VolumeRefs(ns)(v) && cites == old(cites)
    {
      AddOpt(ConfigMap, ns, v.configMap);
      AddOpt(Secret, ns, v.secret);
      AddOpt(Secret, ns, v.csiSecret);
      if v.projected.None? { return; }
      AddSources(ns, v.projected.value);
    }

    /** unusedconfig.go:237-259. */
    method AddContainer(ns: string, c: Container)
      requires Valid()
      modifies this
      ensures Valid() && refs == old(refs) + ContainerRefs(ns)(c) && cites == old(cites)
    {
      AddSources(ns, c.envFrom);
      ghost var before := refs;
      for i := 0 to |c.env|
        invariant Valid() && refs == before + Union(c.env[..i], EnvRefs(ns)) && cites == old(cites)
      {
        UnionSnoc(c.env, i, EnvRefs(ns));
        var from := c.env[i];
        if from.Some? {
          AddOpt(ConfigMap, ns, from.value.configMap);
          AddOpt(Secret, ns, from.value.secret);
        }
      }
      assert c.env[..|c.env|] == c.env;
    }

    /** unusedconfig.go:202-210. */
    method AddArgs(ns: string, c: Container)
      requires Valid()
      modifies this
      ensures Valid() && cites == old(cites) + CitesIn(ns)(c) && refs == old(refs)
    {
      AddTokens(ns, c.command);
      AddTokens(ns, c.args);
    }

    method AddTokens(ns: string, list: seq<string>)
      requires Valid()
      modifies this
      ensures Valid() && cites == old(cites) + CitesOf(ns, Union(list, Fields())) && refs == old(refs)
    {
      for i := 0 to |list|
        invariant Valid() && refs == old(refs)
        invariant cites == old(cites) + CitesOf(ns, Union(list[..i], Fields()))
      {
        UnionSnoc(list, i, Fields());
        var tokens := Fields()(list[i]);
        args := args + (set t | t in tokens :: ns + "|" + t);
        TokensKeyed(ns, tokens);
        cites := cites + CitesOf(ns, tokens);
      }
      assert list[..|list|] == list;
    }

    /** unusedconfig.go:172-183. */
    method AddPodSpec(w: Workload)
      requires Valid()
      modifies this
      ensures Valid() && refs == old(refs) + SpecRefs()(w) && cites == old(cites) + SpecCites()(w)
    {
      AddVolumes(w.ns, w.spec.volumes);
      AddSecrets(w.ns, w.spec.pullSecrets);
      AddContainers(w.ns, SpecContainers(w.spec));
    }

    method AddVolumes(ns: string, volumes: seq<Volume>)
      requires Valid()
      modifies this
      ensures Valid() && refs == old(refs) + Union(volumes, VolumeRefs(ns)) && cites == old(cites)
    {
      for i := 0 to |volumes|
        invariant Valid() && refs == old(refs) + Union(volumes[..i], VolumeRefs(ns)) && cites == old(cites)
      {
        UnionSnoc(volumes, i, VolumeRefs(ns));
        AddVolume(ns, volumes[i]);
      }
      assert volumes[..|volumes|] == volumes;
    }

    method AddContainers(ns: string, cs: seq<Container>)
      requires Valid()
      modifies this
      ensures Valid()
      ensures refs == old(refs) + Union(cs, ContainerRefs(ns)) && cites == old(cites) + Union(cs, CitesIn(ns))
    {
      for i := 0 to |cs|
        invariant Valid() && refs == old(refs) + Union(cs[..i], ContainerRefs(ns))
        invariant cites == old(cites) + Union(cs[..i], CitesIn(ns))
      {
        UnionSnoc(cs, i, ContainerRefs(ns));
        UnionSnoc(cs, i, CitesIn(ns));
        AddContainer(ns, cs[i]);
        AddArgs(ns, cs[i]);
      }
      assert cs[..|cs|] == cs;
    }

    /** unusedconfig.go:165-167. */
    predicate Has(kind: Kind, ns: string, name: string)
      reads this
    {
      KindText(kind) + "|" + ns + "/" + name in seen || ns + "|" + name in args
    }
  }

  ghost predicate CleanIndex(refs: set<Ref>, cites: set<Cite>) {
    (forall r :: r in refs ==> CleanNs(r.ns)) && (forall c :: c in cites ==> CleanNs(c.ns))
  }

  /** A lookup finds exactly what was added: the string keys lose nothing. */
  lemma HasMeaning(used: RefSet, kind: Kind, ns: string, name: string)
    requires used.Valid() && CleanNs(ns) && CleanIndex(used.refs, used.cites)
    ensures used.Has(kind, ns, name) <==> Ref(kind, ns, name) in used.refs || Cite(ns, name) in used.cites
  {
    var r, c := Ref(kind, ns, name), Cite(ns, name);
    assert RefKey(r) == KindText(kind) + "|" + ns + "/" + name;
    if RefKey(r) in used.seen {
      var q :| q in used.refs && RefKey(q) == RefKey(r);
      KeysNeverCollide(q, r, c, c);
    }
    if CiteKey(c) in used.args {
      var d :| d in used.cites && CiteKey(d) == CiteKey(c);
      KeysNeverCollide(r, r, d, c);
    }
  }

  /** unusedconfig.go:61-85: workloads are pods and pod templates alike. */
  method Collect(workloads: seq<Workload>, accounts: seq<ServiceAccount>, ingresses: seq<IngressTls>)
    returns (used: RefSet)
    ensures fresh(used) && used.Valid()
    ensures used.refs == Union(workloads, SpecRefs()) + Union(accounts, AccountRefs()) + Union(ingresses, IngressRefs())
    ensures used.cites == Union(workloads, SpecCites())
  {
    used := new RefSet();
    for i := 0 to |workloads|
      invariant used.Valid()
      invariant used.refs == Union(workloads[..i], SpecRefs()) && used.cites == Union(workloads[..i], SpecCites())
    {
      UnionSnoc(workloads, i, SpecRefs());
      UnionSnoc(workloads, i, SpecCites());
      used.AddPodSpec(workloads[i]);
    }
    assert workloads[..|workloads|] == workloads;
    ghost var fromSpecs, cites := used.refs, used.cites;
    for i := 0 to |accounts|
      invariant used.Valid() && used.refs == fromSpecs + Union(accounts[..i], AccountRefs()) && used.cites == cites
    {
      UnionSnoc(accounts, i, AccountRefs());
      used.AddSecrets(accounts[i].ns, accounts[i].secrets);
      used.AddSecrets(accounts[i].ns, accounts[i].pullSecrets);
    }
    assert accounts[..|accounts|] == accounts;
    ghost var fromAccounts := used.refs;
    for i := 0 to |ingresses|
      invariant used.Valid() && used.refs == fromAccounts + Union(ingresses[..i], IngressRefs()) && used.cites == cites
    {
      UnionSnoc(ingresses, i, IngressRefs());
      used.AddSecrets(ingresses[i].ns, ingresses[i].secrets);
    }
    assert ingresses[..|ingresses|] == ingresses;
  }

  // ---- the naive scan -----------------------------------------------------------------------------------

  predicate SourceNames(s: Source, kind: Kind, name: string) {
    match kind case ConfigMap => s.configMap == Some(name) case Secret => s.secret == Some(name)
  }

  predicate AnySourceNames(ss: seq<Source>, kind: Kind, name: string) {
    exists s :: s in ss && SourceNames(s, kind, name)
  }

  predicate VolumeNames(v: Volume, kind: Kind, name: string) {
    || (kind == ConfigMap && v.configMap == Some(name))
    || (kind == Secret && (v.secret == Some(name) || v.csiSecret == Some(name)))
    || (v.projected.Some? && AnySourceNames(v.projected.value, kind, name))
  }

  predicate ContainerNames(c: Container, kind: Kind, name: string) {
    || AnySourceNames(c.envFrom, kind, name)
    || exists s :: s in c.env && s.Some? && SourceNames(s.value, kind, name)
  }

  predicate SpecNames(spec: PodSpec, kind: Kind, name: string) {
    || (exists v :: v in spec.volumes && VolumeNames(v, kind, name))
    || (kind == Secret && name in spec.pullSecrets)
    || (exists c :: c in spec.init && ContainerNames(c, kind, name))
    || (exists c :: c in spec.containers && ContainerNames(c, kind, name))
    || (exists c :: c in spec.ephemeral && ContainerNames(c, kind, name))
  }

  /** The name is a whole token of some argument of a container's command line. */
  ghost predicate ContainerCites(c: Container, name: string) {
    exists arg :: (arg in c.command || arg in c.args) && IsToken(arg, name)
  }

  ghost predicate SpecCitesToken(spec: PodSpec, name: string) {
    || (exists c :: c in spec.init && ContainerCites(c, name))
    || (exists c :: c in spec.containers && ContainerCites(c, name))
    || (exists c :: c in spec.ephemeral && ContainerCites(c, name))
  }

  lemma {:induction false} UnionOver<T, R>(xs: seq<T>, f: T -> set<R>, r: R)
    ensures r in Union(xs, f) <==> exists x :: x in xs && r in f(x)
  {
    UnionMember(xs, f, r);
    if x :| x in xs && r in f(x) {
      var i :| 0 <= i < |xs| && xs[i] == x;
    }
  }

  lemma {:induction false} UnionSubset<T, R>(xs: seq<T>, ys: seq<T>, f: T -> set<R>)
    requires forall i :: 0 <= i < |xs| ==> xs[i] in ys
    ensures Union(xs, f) <= Union(ys, f)
  {
    forall r | r in Union(xs, f) ensures r in Union(ys, f) {
      UnionMember(xs, f, r);
      var i :| 0 <= i < |xs| && r in f(xs[i]);
      UnionOver(ys, f, r);
    }
  }

  /** Only what there is matters to the index, not the order it was added in. */
  lemma {:induction false} UnionIgnoresOrder<T, R>(xs: seq<T>, ys: seq<T>, f: T -> set<R>)
    requires forall i :: 0 <= i < |xs| ==> xs[i] in ys
    requires forall i :: 0 <= i < |ys| ==> ys[i] in xs
    ensures Union(xs, f) == Union(ys, f)
  {
    UnionSubset(xs, ys, f);
    UnionSubset(ys, xs, f);
  }

  lemma SourcesMeaning(ns: string, ss: seq<Source>, r: Ref)
    requires r.name != ""
    ensures r in Union(ss, SourceRefs(ns)) <==> r.ns == ns && AnySourceNames(ss, r.kind, r.name)
  {
    UnionOver(ss, SourceRefs(ns), r);
  }

  lemma VolumeMeaning(ns: string, v: Volume, r: Ref)
    requires r.name != ""
    ensures r in VolumeRefs(ns)(v) <==> r.ns == ns && VolumeNames(v, r.kind, r.name)
  {
    if v.projected.Some? { SourcesMeaning(ns, v.projected.value, r); }
  }

  lemma ContainerMeaning(ns: string, c: Container, r: Ref)
    requires r.name != ""
    ensures r in ContainerRefs(ns)(c) <==> r.ns == ns && ContainerNames(c, r.kind, r.name)
  {
    SourcesMeaning(ns, c.envFrom, r);
    UnionOver(c.env, EnvRefs(ns), r);
  }

  lemma ContainersOfSpec(spec: PodSpec, c: Container)
    ensures c in SpecContainers(spec) <==> c in spec.init || c in spec.containers || c in spec.ephemeral
  {
  }

  lemma SpecMeaning(w: Workload, r: Ref)
    requires r.name != ""
    ensures r in SpecRefs()(w) <==> r.ns == w.ns && SpecNames(w.spec, r.kind, r.name)
  {
    UnionOver(w.spec.volumes, VolumeRefs(w.ns), r);
    UnionOver(w.spec.pullSecrets, SecretRefs(w.ns), r);
    UnionOver(SpecContainers(w.spec), ContainerRefs(w.ns), r);
    forall c { ContainersOfSpec(w.spec, c); }
    forall v | v in w.spec.volumes
      ensures r in VolumeRefs(w.ns)(v) <==> r.ns == w.ns && VolumeNames(v, r.kind, r.name)
    {
      VolumeMeaning(w.ns, v, r);
    }
    forall c | c in SpecContainers(w.spec)
      ensures r in ContainerRefs(w.ns)(c) <==> r.ns == w.ns && ContainerNames(c, r.kind, r.name)
    {
      ContainerMeaning(w.ns, c, r);
    }
  }

  lemma CiteMeaning(ns: string, c: Container, name: string)
    ensures Cite(ns, name) in CitesIn(ns)(c) <==> ContainerCites(c, name)
  {
    UnionOver(c.command, Fields(), name);
    UnionOver(c.args, Fields(), name);
    forall arg: string ensures name in Fields()(arg) <==> IsToken(arg, name) {
      FieldsAreTokens(arg, 0, name);
      if a, b :| RunAt(arg, a, b) && arg[a..b] == name { assert TokenFrom(arg, 0, name); }
    }
  }

  lemma SpecCitesMeaning(w: Workload, ns: string, name: string)
    ensures Cite(ns, name) in SpecCites()(w) <==> ns == w.ns && SpecCitesToken(w.spec, name)
  {
    UnionOver(SpecContainers(w.spec), CitesIn(w.ns), Cite(ns, name));
    forall c { ContainersOfSpec(w.spec, c); }
    forall c | c in SpecContainers(w.spec) ensures Cite(w.ns, name) in CitesIn(w.ns)(c) <==> ContainerCites(c, name) {
      CiteMeaning(w.ns, c, name);
    }
  }

  predicate NamedByAccount(a: ServiceAccount, kind: Kind, ns: string, name: string) {
    kind == Secret && a.ns == ns && (name in a.secrets || name in a.pullSecrets)
  }

  predicate NamedByIngress(g: IngressTls, kind: Kind, ns: string, name: string) {
    kind == Secret && g.ns == ns && name in g.secrets
  }

  /** What looking at every object in turn says: it is named, or cited, in its namespace. */
  ghost predicate InUse(workloads: seq<Workload>, accounts: seq<ServiceAccount>, ingresses: seq<IngressTls>,
                        kind: Kind, ns: string, name: string) {
    || (exists w :: w in workloads && w.ns == ns && SpecNames(w.spec, kind, name))
    || (exists a :: a in accounts && NamedByAccount(a, kind, ns, name))
    || (exists g :: g in ingresses && NamedByIngress(g, kind, ns, name))
    || (exists w :: w in workloads && w.ns == ns && SpecCitesToken(w.spec, name))
  }

  lemma ReferencesMeaning(workloads: seq<Workload>, accounts: seq<ServiceAccount>, ingresses: seq<IngressTls>, r: Ref)
    requires r.name != ""
    ensures r in Union(workloads, SpecRefs()) <==>
      exists w :: w in workloads && w.ns == r.ns && SpecNames(w.spec, r.kind, r.name)
    ensures r in Union(accounts, AccountRefs()) <==>
      exists a :: a in accounts && NamedByAccount(a, r.kind, r.ns, r.name)
    ensures r in Union(ingresses, IngressRefs()) <==>
      exists g :: g in ingresses && NamedByIngress(g, r.kind, r.ns, r.name)
  {
    UnionOver(workloads, SpecRefs(), r);
    UnionOver(accounts, AccountRefs(), r);
    UnionOver(ingresses, IngressRefs(), r);
    forall w | w in workloads ensures r in SpecRefs()(w) <==> r.ns == w.ns && SpecNames(w.spec, r.kind, r.name) {
      SpecMeaning(w, r);
    }
    forall a | a in accounts ensures r in AccountRefs()(a) <==> NamedByAccount(a, r.kind, r.ns, r.name) {
      UnionOver(a.secrets, SecretRefs(a.ns), r);
      UnionOver(a.pullSecrets, SecretRefs(a.ns), r);
    }
    forall g | g in ingresses ensures r in IngressRefs()(g) <==> NamedByIngress(g, r.kind, r.ns, r.name) {
      UnionOver(g.secrets, SecretRefs(g.ns), r);
    }
  }

  lemma CitesMeaning(workloads: seq<Workload>, ns: string, name: string)
    ensures Cite(ns, name) in Union(workloads, SpecCites()) <==>
      exists w :: w in workloads && w.ns == ns && SpecCitesToken(w.spec, name)
  {
    UnionOver(workloads, SpecCites(), Cite(ns, name));
    forall w | w in workloads ensures Cite(ns, name) in SpecCites()(w) <==> ns == w.ns && SpecCitesToken(w.spec, name) {
      SpecCitesMeaning(w, ns, name);
    }
  }

  /** The index answers like the naive scan, for every object name. */
  lemma IndexIsNaiveScan(used: RefSet, workloads: seq<Workload>, accounts: seq<ServiceAccount>,
      ingresses: seq<IngressTls>,
                         kind: Kind, ns: string, name: string)
    requires used.Valid() && CleanNs(ns) && name != "" && CleanIndex(used.refs, used.cites)
    requires used.refs ==
      Union(workloads, SpecRefs()) + Union(accounts, AccountRefs()) + Union(ingresses, IngressRefs())
    requires used.cites == Union(workloads, SpecCites())
    ensures used.Has(kind, ns, name) <==> InUse(workloads, accounts, ingresses, kind, ns, name)
  {
    HasMeaning(used, kind, ns, name);
    ReferencesMeaning(workloads, accounts, ingresses, Ref(kind, ns, name));
    CitesMeaning(workloads, ns, name);
  }

  /** The index is clean when the objects' namespaces are. */
  lemma CleanObjectsCleanIndex(workloads: seq<Workload>, accounts: seq<ServiceAccount>, ingresses: seq<IngressTls>)
    requires forall w :: w in workloads ==> CleanNs(w.ns)
    requires forall a :: a in accounts ==> CleanNs(a.ns)
    requires forall g :: g in ingresses ==> CleanNs(g.ns)
    ensures CleanIndex(Union(workloads, SpecRefs()) + Union(accounts, AccountRefs()) + Union(ingresses, IngressRefs()),
                       Union(workloads, SpecCites()))
  {
    var refs := Union(workloads, SpecRefs()) + Union(accounts, AccountRefs()) + Union(ingresses, IngressRefs());
    forall r | r in refs ensures CleanNs(r.ns) && r.name != "" {
      NoEmptyNames(workloads, accounts, ingresses, r);
      ReferencesMeaning(workloads, accounts, ingresses, r);
    }
    forall c | c in Union(workloads, SpecCites()) ensures CleanNs(c.ns) {
      assert c == Cite(c.ns, c.token);
      CitesMeaning(workloads, c.ns, c.token);
    }
  }

  /** An empty reference is never recorded. */
  lemma NoEmptyNames(workloads: seq<Workload>, accounts: seq<ServiceAccount>, ingresses: seq<IngressTls>, r: Ref)
    requires r in Union(workloads, SpecRefs()) + Union(accounts, AccountRefs()) + Union(ingresses, IngressRefs())
    ensures r.name != ""
  {
    UnionOver(workloads, SpecRefs(), r);
    UnionOver(accounts, AccountRefs(), r);
    UnionOver(ingresses, IngressRefs(), r);
    forall w | w in workloads && r in SpecRefs()(w) ensures r.name != "" { SpecNoEmptyName(w, r); }
    forall a | a in accounts && r in AccountRefs()(a) ensures r.name != "" {
      UnionOver(a.secrets, SecretRefs(a.ns), r);
      UnionOver(a.pullSecrets, SecretRefs(a.ns), r);
    }
    forall g | g in ingresses && r in IngressRefs()(g) ensures r.name != "" {
      UnionOver(g.secrets, SecretRefs(g.ns), r);
    }
  }

  lemma SpecNoEmptyName(w: Workload, r: Ref)
    requires r in SpecRefs()(w)
    ensures r.name != ""
  {
    UnionOver(w.spec.volumes, VolumeRefs(w.ns), r);
    UnionOver(w.spec.pullSecrets, SecretRefs(w.ns), r);
    UnionOver(SpecContainers(w.spec), ContainerRefs(w.ns), r);
    forall v | v in w.spec.volumes && r in VolumeRefs(w.ns)(v) ensures r.name != "" {
      VolumeNoEmptyName(w.ns, v, r);
    }
    forall c | c in SpecContainers(w.spec) && r in ContainerRefs(w.ns)(c) ensures r.name != "" {
      ContainerNoEmptyName(w.ns, c, r);
    }
  }

  lemma VolumeNoEmptyName(ns: string, v: Volume, r: Ref)
    requires r in VolumeRefs(ns)(v)
    ensures r.name != ""
  {
    if v.projected.Some? { UnionOver(v.projected.value, SourceRefs(ns), r); }
  }

  lemma ContainerNoEmptyName(ns: string, c: Container, r: Ref)
    requires r in ContainerRefs(ns)(c)
    ensures r.name != ""
  {
    UnionOver(c.envFrom, SourceRefs(ns), r);
    UnionOver(c.env, EnvRefs(ns), r);
  }
}
