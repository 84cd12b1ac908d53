/**
 * internal/view/pvcunused.go: which StatefulSet slot an unmounted claim belongs to, by the
 * naming contract "<template>-<set>-<ordinal>".
 */
module StatefulClaims {
  import opened Sequences
  import opened Text

  datatype StatefulSet = StatefulSet(ns: string, name: string, replicas: Option<int>, templates: seq<string>)

  datatype Slot = Slot(replicas: int, beyondScale: bool)

  /** A set and one of its claim templates. */
  datatype Owner = Owner(ns: string, owner: string, replicas: int, tmpl: string)

  function ReplicasOrOne(r: Option<int>): int { match r case Some(n) => n case None => 1 }

  /** The claim names of an owner start with this. */
  function Stem(o: Owner): string { o.tmpl + "-" + o.owner + "-" }

  function Key(ns: string, name: string): string { ns + "/" + name }

  function OwnersOfSet(s: StatefulSet, n: nat): seq<Owner>
    requires n <= |s.templates|
  {
    if n == 0 then [] else OwnersOfSet(s, n - 1) + [Owner(s.ns, s.name, ReplicasOrOne(s.replicas), s.templates[n - 1])]
  }

  /** Every set with every one of its templates, in list order. */
  function Owners(sets: seq<StatefulSet>): seq<Owner> {
    if sets == [] then []
    else
      var s := sets[|sets| - 1];
      Owners(sets[..|sets| - 1]) + OwnersOfSet(s, |s.templates|)
  }

  /** The index: a later owner with the same key replaces an earlier one. */
  function Index(owners: seq<Owner>): map<string, Slot> {
    if owners == [] then map[]
    else
      var o := owners[|owners| - 1];
      Index(owners[..|owners| - 1])[Key(o.ns, Stem(o)) := Slot(o.replicas, false)]
  }

  lemma IndexSnoc(owners: seq<Owner>, o: Owner)
    ensures Index(owners + [o]) == Index(owners)[Key(o.ns, Stem(o)) := Slot(o.replicas, false)]
  {
    assert (owners + [o])[..|owners|] == owners;
  }

  /** pvcunused.go:128-134, the templates of one set. */
  method IndexSet(s: StatefulSet, before: map<string, Slot>, ghost owners: seq<Owner>) returns (out: map<string, Slot>)
    requires before == Index(owners)
    ensures out == Index(owners + OwnersOfSet(s, |s.templates|))
  {
    out := before;
    assert owners + [] == owners;
    for j := 0 to |s.templates|
      invariant out == Index(owners + OwnersOfSet(s, j))
    {
      ghost var o := Owner(s.ns, s.name, ReplicasOrOne(s.replicas), s.templates[j]);
      IndexSnoc(owners + OwnersOfSet(s, j), o);
      assert owners + OwnersOfSet(s, j + 1) == owners + OwnersOfSet(s, j) + [o];
      var key := s.ns + "/" + s.templates[j] + "-" + s.name + "-";
      assert key == Key(o.ns, Stem(o));
      out := out[key := Slot(ReplicasOrOne(s.replicas), false)];
    }
  }

  /** pvcunused.go:126-136. */
  method StatefulSetClaims(sets: seq<StatefulSet>) returns (out: map<string, Slot>)
    ensures out == Index(Owners(sets))
  {
    out := map[];
    for i := 0 to |sets|
      invariant out == Index(Owners(sets[..i]))
    {
      assert sets[..i + 1][..i] == sets[..i];
      out := IndexSet(sets[i], out, Owners(sets[..i]));
    }
    assert sets[..|sets|] == sets;
  }

  ghost predicate IsLastDash(s: string, d: Option<nat>) {
    match d
    case None => '-' !in s
    case Some(i) => i < |s| && s[i] == '-' && '-' !in s[i + 1..]
  }

  /** The position of the last dash. */
  function LastDash(s: string): (d: Option<nat>)
    ensures IsLastDash(s, d)
  {
    if s == "" then None
    else if s[|s| - 1] == '-' then Some(|s| - 1)
    else
      LastDashStep(s, LastDash(s[..|s| - 1]));
      LastDash(s[..|s| - 1])
  }

  lemma LastDashStep(s: string, d: Option<nat>)
    requires s != "" && s[|s| - 1] != '-' && IsLastDash(s[..|s| - 1], d)
    ensures IsLastDash(s, d)
  {
    var init := s[..|s| - 1];
    assert s == init + [s[|s| - 1]];
    if d.Some? { assert s[d.value + 1..] == init[d.value + 1..] + [s[|s| - 1]]; }
  }

  /** pvcunused.go:144-159. */
  function MatchClaim(key: string, owners: map<string, Slot>): Option<Slot> {
    MatchCut(key, LastDash(key), owners)
  }

  function MatchCut(key: string, cut: Option<nat>, owners: map<string, Slot>): Option<Slot>
    requires cut.Some? ==> cut.value < |key|
  {
    match cut
    case None => None
    case Some(d) => Lookup(key[..d] + "-", key[d + 1..], owners)
  }

  function Lookup(prefix: string, rest: string, owners: map<string, Slot>): Option<Slot> {
    if prefix !in owners then None
    else match Atoi(rest)
      case None => None
      case Some(ordinal) => Some(owners[prefix].(beyondScale := ordinal >= owners[prefix].replicas))
  }

  // ---- the naive reading ------------------------------------------------------------------------

  predicate HasPrefix(s: string, p: string) { |p| <= |s| && s[..|p|] == p }

  /** The slot of claim ns/name in this owner: its stem, then an integer without a dash. */
  function SlotIn(o: Owner, ns: string, name: string): Option<Slot> {
    if o.ns != ns || !HasPrefix(name, Stem(o)) || '-' in name[|Stem(o)|..] then None
    else match Atoi(name[|Stem(o)|..])
      case None => None
      case Some(k) => Some(Slot(o.replicas, k >= o.replicas))
  }

  /** Trying every set and template, the last one that fits winning. */
  function ScanOwners(owners: seq<Owner>, ns: string, name: string): Option<Slot> {
    if owners == [] then None
    else match SlotIn(owners[|owners| - 1], ns, name)
      case Some(slot) => Some(slot)
      case None => ScanOwners(owners[..|owners| - 1], ns, name)
  }

  predicate NoSlash(s: string) { '/' !in s }

  lemma KeySplits(a: string, b: string, ns: string, name: string)
    requires NoSlash(a) && NoSlash(ns)
    ensures HasPrefix(Key(ns, name), Key(a, b)) <==> a == ns && HasPrefix(name, b)
  {
    var long, short := Key(ns, name), Key(a, b);
    if HasPrefix(long, short) {
      assert short[|a|] == '/' && long[|a|] == '/';
      assert forall i :: 0 <= i < |short| ==> long[i] == short[i];
      assert forall i :: 0 <= i < |ns| ==> long[i] == ns[i];
      assert forall i :: 0 <= i < |a| ==> short[i] == a[i];
      assert forall i :: 0 <= i < |ns| ==> ns[i] != '/';
      assert forall i :: 0 <= i < |a| ==> a[i] != '/';
      assert short[|a|] == '/' && long[|ns|] == '/';
      assert |a| == |ns|;
      assert a == short[..|a|] == long[..|a|] == ns;
      assert b == short[|a| + 1..] && name == long[|a| + 1..];
      assert long[..|short|][|a| + 1..] == name[..|b|];
    }
  }

  /** Cutting at the last dash finds the owner's key exactly when the claim is its stem and a
      dash-free rest. */
  lemma CutFindsStem(o: Owner, ns: string, name: string)
    requires NoSlash(o.ns) && NoSlash(ns)
    ensures var key, short := Key(ns, name), Key(o.ns, Stem(o));
      var fits := o.ns == ns && HasPrefix(name, Stem(o)) && '-' !in name[|Stem(o)|..];
      && (fits ==> LastDash(key) == Some(|short| - 1) && key[|short|..] == name[|Stem(o)|..])
      && (LastDash(key).Some? ==> (key[..LastDash(key).value] + "-" == short <==> fits))
  {
    var key, short := Key(ns, name), Key(o.ns, Stem(o));
    KeySplits(o.ns, Stem(o), ns, name);
    var d := LastDash(key);
    assert short[|short| - 1] == '-';
    if HasPrefix(key, short) {
      assert key[|short| - 1] == key[..|short|][|short| - 1] == '-';
      assert key[|short|..] == name[|Stem(o)|..];
      if d.value > |short| - 1 {
        assert key[|short|..][d.value - |short|] == '-';
      }
    }
    if d.Some? && key[..d.value] + "-" == short {
      assert key[..d.value + 1] == key[..d.value] + [key[d.value]] == short;
    }
  }

  /** Indexing one more prefix changes the lookups of that prefix only. */
  lemma CutAfterOwner(key: string, cut: Option<nat>, index: map<string, Slot>, prefix: string, n: int)
    requires cut.Some? ==> cut.value < |key|
    ensures MatchCut(key, cut, index[prefix := Slot(n, false)]) ==
      if cut.Some? && key[..cut.value] + "-" == prefix then
        match Atoi(key[cut.value + 1..]) case None => None case Some(k) => Some(Slot(n, k >= n))
      else MatchCut(key, cut, index)
  {
  }

  /** Indexing one more owner changes the lookup of the claims it fits, and no other. */
  lemma MatchAfterOwner(o: Owner, index: map<string, Slot>, ns: string, name: string)
    requires NoSlash(o.ns) && NoSlash(ns)
    ensures MatchClaim(Key(ns, name), index[Key(o.ns, Stem(o)) := Slot(o.replicas, false)])
      == if SlotIn(o, ns, name).Some? then SlotIn(o, ns, name) else MatchClaim(Key(ns, name), index)
  {
    var key, short := Key(ns, name), Key(o.ns, Stem(o));
    CutFindsStem(o, ns, name);
    CutAfterOwner(key, LastDash(key), index, short, o.replicas);
  }

  /** The index lookup is the naive scan. */
  lemma {:induction false} LookupIsScan(owners: seq<Owner>, ns: string, name: string)
    requires NoSlash(ns) && forall o :: o in owners ==> NoSlash(o.ns)
    ensures MatchClaim(Key(ns, name), Index(owners)) == ScanOwners(owners, ns, name)
  {
    if owners != [] {
      var o, before := owners[|owners| - 1], owners[..|owners| - 1];
      assert o in owners;
      LookupIsScan(before, ns, name);
      MatchAfterOwner(o, Index(before), ns, name);
    }
  }

  /** Claim ns/name is the owner's stem and the integer `k`, in the owner's namespace. */
  predicate Names(o: Owner, ns: string, name: string, k: int) {
    o.ns == ns && HasPrefix(name, Stem(o)) && Atoi(name[|Stem(o)|..]) == Some(k)
  }

  /** `slot` is the one claim ns/name has in `o`, by its ordinal `k`. */
  ghost predicate SlotOf(o: Owner, ns: string, name: string, k: int, slot: Slot) {
    Names(o, ns, name, k) && slot == Slot(o.replicas, k >= o.replicas)
  }

  /** A match always is some set's stem and an integer, in the same namespace. */
  lemma MatchMeansOwner(owners: seq<Owner>, ns: string, name: string)
    requires NoSlash(ns) && forall o :: o in owners ==> NoSlash(o.ns)
    requires MatchClaim(Key(ns, name), Index(owners)).Some?
    ensures var slot := MatchClaim(Key(ns, name), Index(owners)).value;
      exists o, k :: o in owners && SlotOf(o, ns, name, k, slot)
  {
    LookupIsScan(owners, ns, name);
    ScanMeansOwner(owners, ns, name);
  }

  lemma {:induction false} ScanMeansOwner(owners: seq<Owner>, ns: string, name: string)
    requires ScanOwners(owners, ns, name).Some?
    ensures exists o, k :: o in owners && SlotOf(o, ns, name, k, ScanOwners(owners, ns, name).value)
  {
    var init, o := owners[..|owners| - 1], owners[|owners| - 1];
    if SlotIn(o, ns, name).Some? {
      var k := Atoi(name[|Stem(o)|..]).value;
      assert o in owners && SlotOf(o, ns, name, k, SlotIn(o, ns, name).value);
    } else {
      ScanMeansOwner(init, ns, name);
      var p, k :| p in init && SlotOf(p, ns, name, k, ScanOwners(init, ns, name).value);
      assert p in owners;
    }
  }

  /** Sets of one namespace whose claim names begin alike have the same replica count. */
  ghost predicate StemsTellReplicas(owners: seq<Owner>) {
    forall i, j :: 0 <= i < j < |owners| && owners[i].ns == owners[j].ns && Stem(owners[i]) == Stem(owners[j]) ==>
      owners[i].replicas == owners[j].replicas
  }

  /** Claim `k` of owner `i` is found to be that owner's, beyond scale from its replicas on. */
  ghost predicate RoundTrips(owners: seq<Owner>, i: nat, k: nat)
    requires i < |owners|
  {
    var o := owners[i];
    MatchClaim(Key(o.ns, Stem(o) + Itoa(k)), Index(owners)) == Some(Slot(o.replicas, k >= o.replicas))
  }

  lemma StemCut(o: Owner, k: nat)
    ensures HasPrefix(Stem(o) + Itoa(k), Stem(o)) && (Stem(o) + Itoa(k))[|Stem(o)|..] == Itoa(k)
    ensures '-' !in Itoa(k)
  {
  }

  /** Two stems that both fit one dash-free rest are the same stem. */
  lemma SameStem(o: Owner, p: Owner, name: string)
    requires HasPrefix(name, Stem(o)) && '-' !in name[|Stem(o)|..]
    requires HasPrefix(name, Stem(p)) && '-' !in name[|Stem(p)|..]
    ensures Stem(o) == Stem(p)
  {
    assert name[|Stem(o)| - 1] == Stem(o)[|Stem(o)| - 1] == '-';
    assert name[|Stem(p)| - 1] == Stem(p)[|Stem(p)| - 1] == '-';
    assert forall i :: |Stem(o)| <= i < |name| ==> name[|Stem(o)|..][i - |Stem(o)|] == name[i];
    assert forall i :: |Stem(p)| <= i < |name| ==> name[|Stem(p)|..][i - |Stem(p)|] == name[i];
  }

  lemma {:induction false} ScanFindsOwner(owners: seq<Owner>, i: nat, k: nat)
    requires i < |owners| && StemsTellReplicas(owners) && k <= MAX_INT
    ensures ScanOwners(owners, owners[i].ns, Stem(owners[i]) + Itoa(k)) ==
      Some(Slot(owners[i].replicas, k >= owners[i].replicas))
  {
    var o, last := owners[i], owners[|owners| - 1];
    var name := Stem(o) + Itoa(k);
    StemCut(o, k);
    AtoiInvertsItoa(k);
    if i < |owners| - 1 {
      if last.ns == o.ns && HasPrefix(name, Stem(last)) && '-' !in name[|Stem(last)|..] { SameStem(o, last, name); }
      ScanFindsOwner(owners[..|owners| - 1], i, k);
    }
  }

  /** Naming a claim and looking it up gives back its set, and whether the ordinal is beyond
      the replica count, for every ordinal Atoi can hold, exactly when sets that share a stem
      share the replica count; distinct stems in particular. */
  lemma ClaimNamesRoundTrip(owners: seq<Owner>)
    requires forall o :: o in owners ==> NoSlash(o.ns)
    ensures (forall i: nat, k: nat :: i < |owners| && k <= MAX_INT ==> RoundTrips(owners, i, k)) <==>
      StemsTellReplicas(owners)
  {
    if StemsTellReplicas(owners) {
      forall i: nat, k: nat | i < |owners| && k <= MAX_INT ensures RoundTrips(owners, i, k) {
        assert owners[i] in owners;
        LookupIsScan(owners, owners[i].ns, Stem(owners[i]) + Itoa(k));
        ScanFindsOwner(owners, i, k);
      }
    } else {
      var i, j :| 0 <= i < j < |owners| && owners[i].ns == owners[j].ns && Stem(owners[i]) == Stem(owners[j])
        && owners[i].replicas != owners[j].replicas;
      assert !(RoundTrips(owners, i, 0) && RoundTrips(owners, j, 0));
    }
  }

  /** Where they do not, the later set answers for the earlier one's claims: set "c" with
      template "a-b" and 5 replicas hides set "b-c" with template "a" and 1. */
  lemma CollidingStems(k: nat)
    requires k <= MAX_INT
    ensures var owners := [Owner("ns", "b-c", 1, "a"), Owner("ns", "c", 5, "a-b")];
      MatchClaim(Key("ns", "a-b-c-" + Itoa(k)), Index(owners)) == Some(Slot(5, k >= 5))
  {
    var first, second := Owner("ns", "b-c", 1, "a"), Owner("ns", "c", 5, "a-b");
    var owners := [first, second];
    assert Stem(second) == "a-b-c-";
    StemCut(second, k);
    AtoiInvertsItoa(k);
    assert forall o :: o in owners ==> NoSlash(o.ns);
    LookupIsScan(owners, "ns", "a-b-c-" + Itoa(k));
    assert owners[1] == second;
  }

  // ---- in terms of the sets --------------------------------------------------------------------------

  lemma {:induction false} OwnersOfOneSet(s: StatefulSet, n: nat, o: Owner)
    requires n <= |s.templates|
    ensures o in OwnersOfSet(s, n) <==> exists t :: t in s.templates[..n] && OwnerOf(o, s, t)
  {
    if n > 0 {
      OwnersOfOneSet(s, n - 1, o);
      var t := s.templates[n - 1];
      assert s.templates[..n] == s.templates[..n - 1] + [t];
      assert OwnerOf(o, s, t) <==> o == Owner(s.ns, s.name, ReplicasOrOne(s.replicas), t);
      assert t in s.templates[..n];
    }
  }

  /** The owner is template `t` of set `s`. */
  ghost predicate OwnerOf(o: Owner, s: StatefulSet, t: string) {
    && t in s.templates && o.ns == s.ns && o.owner == s.name && o.tmpl == t
    && o.replicas == if s.replicas.Some? then s.replicas.value else 1
  }

  lemma {:induction false} OwnersMeaning(sets: seq<StatefulSet>, o: Owner)
    ensures o in Owners(sets) <==> exists s, t :: s in sets && OwnerOf(o, s, t)
  {
    if sets != [] {
      var before, last := sets[..|sets| - 1], sets[|sets| - 1];
      OwnersMeaning(before, o);
      OwnersOfOneSet(last, |last.templates|, o);
      assert sets == before + [last];
      assert last.templates[..|last.templates|] == last.templates;
    }
  }

  /** How many replicas a set has: one, when it does not say. */
  ghost predicate Replicas(s: StatefulSet, n: int) {
    n == if s.replicas.Some? then s.replicas.value else 1
  }

  ghost predicate SharePrefix(s: StatefulSet, t: string, s': StatefulSet, t': string) {
    && t in s.templates && t' in s'.templates && s.ns == s'.ns
    && t + "-" + s.name + "-" == t' + "-" + s'.name + "-"
  }

  /** Sets of one namespace whose claim names begin alike have the same replica count. */
  ghost predicate PrefixesTellReplicas(sets: seq<StatefulSet>) {
    forall s, t, s', t' :: s in sets && s' in sets && SharePrefix(s, t, s', t') ==> SameReplicas(s, s')
  }

  ghost predicate SameReplicas(s: StatefulSet, s': StatefulSet) {
    forall n, n' :: Replicas(s, n) && Replicas(s', n') ==> n == n'
  }

  lemma PrefixesToStems(sets: seq<StatefulSet>)
    requires PrefixesTellReplicas(sets)
    ensures StemsTellReplicas(Owners(sets))
  {
    var owners := Owners(sets);
    forall i, j | 0 <= i < j < |owners| && owners[i].ns == owners[j].ns && Stem(owners[i]) == Stem(owners[j])
      ensures owners[i].replicas == owners[j].replicas
    {
      OwnersMeaning(sets, owners[i]);
      OwnersMeaning(sets, owners[j]);
      var s, t :| s in sets && OwnerOf(owners[i], s, t);
      var s', t' :| s' in sets && OwnerOf(owners[j], s', t');
      assert SharePrefix(s, t, s', t') && Replicas(s, owners[i].replicas) && Replicas(s', owners[j].replicas);
    }
  }

  lemma StemsToPrefixes(sets: seq<StatefulSet>)
    requires StemsTellReplicas(Owners(sets))
    ensures PrefixesTellReplicas(sets)
  {
    forall s, t, s', t' | s in sets && s' in sets && SharePrefix(s, t, s', t') ensures SameReplicas(s, s') {
      var i := OwnerAt(sets, s, t);
      var j := OwnerAt(sets, s', t');
      assert Stem(Owners(sets)[i]) == Stem(Owners(sets)[j]);
    }
  }

  lemma OwnerAt(sets: seq<StatefulSet>, s: StatefulSet, t: string) returns (i: nat)
    requires s in sets && t in s.templates
    ensures i < |Owners(sets)| && OwnerOf(Owners(sets)[i], s, t)
  {
    var o := Owner(s.ns, s.name, if s.replicas.Some? then s.replicas.value else 1, t);
    assert OwnerOf(o, s, t);
    OwnersMeaning(sets, o);
    i :| 0 <= i < |Owners(sets)| && Owners(sets)[i] == o;
  }

  /** Claim "t-s-k" is found to be a claim of set `s`. */
  ghost predicate FindsSet(sets: seq<StatefulSet>, s: StatefulSet, t: string, k: nat) {
    forall n :: Replicas(s, n) ==>
      MatchClaim(s.ns + "/" + t + "-" + s.name + "-" + Itoa(k), Index(Owners(sets))) == Some(Slot(n, k >= n))
  }

  ghost predicate FindsAll(sets: seq<StatefulSet>) {
    forall s, t, k: nat :: s in sets && t in s.templates && k <= MAX_INT ==> FindsSet(sets, s, t, k)
  }

  lemma KeyText(ns: string, t: string, name: string, k: string)
    ensures ns + "/" + t + "-" + name + "-" + k == ns + "/" + (t + "-" + name + "-" + k)
  {
    var a := ns + "/";
    Associate(a, t, "-");
    Associate(a, t + "-", name);
    Associate(a, t + "-" + name, "-");
    Associate(a, t + "-" + name + "-", k);
  }

  lemma FindsSetAtStem(sets: seq<StatefulSet>, s: StatefulSet, t: string, i: nat, k: nat)
    requires i < |Owners(sets)| && OwnerOf(Owners(sets)[i], s, t)
    ensures FindsSet(sets, s, t, k) <==> RoundTrips(Owners(sets), i, k)
  {
    KeyText(s.ns, t, s.name, Itoa(k));
    assert Replicas(s, Owners(sets)[i].replicas);
  }

  /** The claims of all sets lead back to their sets exactly when sets that share a prefix share
      the replica count. */
  lemma ClaimsLeadToTheirSets(sets: seq<StatefulSet>)
    requires forall s :: s in sets ==> NoSlash(s.ns)
    ensures FindsAll(sets) <==> PrefixesTellReplicas(sets)
  {
    var owners := Owners(sets);
    CleanOwners(sets);
    ClaimNamesRoundTrip(owners);
    if PrefixesTellReplicas(sets) {
      PrefixesToStems(sets);
      forall s, t, k: nat | s in sets && t in s.templates && k <= MAX_INT ensures FindsSet(sets, s, t, k) {
        var i := OwnerAt(sets, s, t);
        FindsSetAtStem(sets, s, t, i, k);
      }
    }
    if FindsAll(sets) {
      forall i: nat, k: nat | i < |owners| && k <= MAX_INT ensures RoundTrips(owners, i, k) {
        OwnersMeaning(sets, owners[i]);
        var s, t :| s in sets && OwnerOf(owners[i], s, t);
        assert FindsSet(sets, s, t, k);
        FindsSetAtStem(sets, s, t, i, k);
      }
      StemsToPrefixes(sets);
    }
  }

  /** Claim ns/name is template `t` of set `s` with ordinal `k`. */
  ghost predicate ClaimOf(s: StatefulSet, t: string, k: int, ns: string, name: string) {
    && t in s.templates && s.ns == ns
    && exists rest :: name == t + "-" + s.name + "-" + rest && Atoi(rest) == Some(k) && '-' !in rest
  }

  lemma ClaimHasSlot(o: Owner, s: StatefulSet, t: string, k: int, ns: string, name: string)
    requires OwnerOf(o, s, t) && ClaimOf(s, t, k, ns, name)
    ensures SlotIn(o, ns, name) == Some(Slot(o.replicas, k >= o.replicas))
  {
    var stem := t + "-" + s.name + "-";
    var rest :| name == stem + rest && Atoi(rest) == Some(k) && '-' !in rest;
    assert name[..|stem|] == stem && name[|stem|..] == rest;
  }

  lemma ClaimOfOwner(o: Owner, s: StatefulSet, t: string, ns: string, name: string)
    requires OwnerOf(o, s, t)
    ensures match SlotIn(o, ns, name)
      case Some(slot) => exists k :: ClaimOf(s, t, k, ns, name) && slot == Slot(o.replicas, k >= o.replicas)
      case None => forall k :: !ClaimOf(s, t, k, ns, name)
  {
    var stem := t + "-" + s.name + "-";
    if SlotIn(o, ns, name).Some? {
      var rest := name[|stem|..];
      assert name == stem + rest;
      assert ClaimOf(s, t, Atoi(rest).value, ns, name);
    }
    forall k | ClaimOf(s, t, k, ns, name) ensures SlotIn(o, ns, name).Some? { ClaimHasSlot(o, s, t, k, ns, name); }
  }

  ghost predicate SlotOfSet(s: StatefulSet, t: string, k: int, n: int, ns: string, name: string, slot: Slot) {
    ClaimOf(s, t, k, ns, name) && Replicas(s, n) && slot == Slot(n, k >= n)
  }

  lemma ScanMeansSet(sets: seq<StatefulSet>, ns: string, name: string)
    requires ScanOwners(Owners(sets), ns, name).Some?
    ensures var slot := ScanOwners(Owners(sets), ns, name).value;
      exists s, t, k, n :: s in sets && SlotOfSet(s, t, k, n, ns, name, slot)
  {
    ScanMeaning(Owners(sets), ns, name);
    var o :| o in Owners(sets) && SlotIn(o, ns, name) == ScanOwners(Owners(sets), ns, name);
    OwnersMeaning(sets, o);
    var s, t :| s in sets && OwnerOf(o, s, t);
    ClaimOfOwner(o, s, t, ns, name);
    var k :| ClaimOf(s, t, k, ns, name) && SlotIn(o, ns, name).value == Slot(o.replicas, k >= o.replicas);
    assert SlotOfSet(s, t, k, o.replicas, ns, name, SlotIn(o, ns, name).value);
  }

  lemma ScanFindsSet(sets: seq<StatefulSet>, s: StatefulSet, t: string, k: int, ns: string, name: string)
    requires s in sets && ClaimOf(s, t, k, ns, name)
    ensures ScanOwners(Owners(sets), ns, name).Some?
  {
    var o := Owner(s.ns, s.name, if s.replicas.Some? then s.replicas.value else 1, t);
    assert OwnerOf(o, s, t);
    OwnersMeaning(sets, o);
    ClaimHasSlot(o, s, t, k, ns, name);
    ScanMeaning(Owners(sets), ns, name);
  }

  lemma CleanOwners(sets: seq<StatefulSet>)
    requires forall s :: s in sets ==> NoSlash(s.ns)
    ensures forall o :: o in Owners(sets) ==> NoSlash(o.ns)
  {
    forall o | o in Owners(sets) ensures NoSlash(o.ns) { OwnersMeaning(sets, o); }
  }

  /** Every match comes from a set and a template of it, and there is one exactly when the claim
      is named after some set. */
  lemma MatchMeansSet(sets: seq<StatefulSet>, ns: string, name: string)
    requires NoSlash(ns) && forall s :: s in sets ==> NoSlash(s.ns)
    ensures match MatchClaim(ns + "/" + name, Index(Owners(sets)))
      case Some(slot) => exists s, t, k, n :: s in sets && SlotOfSet(s, t, k, n, ns, name, slot)
      case None => forall s, t, k :: s in sets ==> !ClaimOf(s, t, k, ns, name)
  {
    CleanOwners(sets);
    LookupIsScan(Owners(sets), ns, name);
    if ScanOwners(Owners(sets), ns, name).Some? { ScanMeansSet(sets, ns, name); }
    forall s, t, k | s in sets && ClaimOf(s, t, k, ns, name) ensures ScanOwners(Owners(sets), ns, name).Some? {
      ScanFindsSet(sets, s, t, k, ns, name);
    }
  }

  // ---- the verdict ---------------------------------------------------------------------------------

  datatype ClaimPhase = Lost | Pending | Bound
  datatype ClaimVerdict = LostClaim | Unbound | Orphan | ScaledDown | Reserved

  /** pvcunused.go:89-105. */
  function PvcVerdict(phase: ClaimPhase, ns: string, name: string, owners: map<string, Slot>): ClaimVerdict {
    match phase
    case Lost => LostClaim
    case Pending => Unbound
    case Bound =>
      match MatchClaim(Key(ns, name), owners)
      case None => Orphan
      case Some(slot) => if slot.beyondScale then ScaledDown else Reserved
  }

  /** A bound claim is an orphan exactly when no set's template could name it; for an owned
      one the ordinal decides. */
  lemma VerdictOfOwnedClaim(owners: seq<Owner>, ns: string, name: string)
    requires NoSlash(ns) && forall o :: o in owners ==> NoSlash(o.ns)
    ensures var v := PvcVerdict(Bound, ns, name, Index(owners));
      && (v == Orphan <==> forall o :: o in owners ==> SlotIn(o, ns, name).None?)
      && (v == ScaledDown ==> exists o :: o in owners && SlotIn(o, ns, name) == Some(Slot(o.replicas, true)))
      && (v == Reserved ==> exists o :: o in owners && SlotIn(o, ns, name) == Some(Slot(o.replicas, false)))
  {
    LookupIsScan(owners, ns, name);
    ScanMeaning(owners, ns, name);
  }

  /** The verdict of a claim, by its phase and the sets there are. */
  lemma VerdictMeaning(sets: seq<StatefulSet>, phase: ClaimPhase, ns: string, name: string)
    requires NoSlash(ns) && forall s :: s in sets ==> NoSlash(s.ns)
    ensures var v := PvcVerdict(phase, ns, name, Index(Owners(sets)));
      && (v == LostClaim <==> phase == Lost)
      && (v == Unbound <==> phase == Pending)
      && (v == Orphan <==> phase == Bound && forall s, t, k :: s in sets ==> !ClaimOf(s, t, k, ns, name))
      && (v == ScaledDown ==> exists s, t, k, n :: s in sets && ClaimOf(s, t, k, ns, name) && Replicas(s, n) && k >= n)
      && (v == Reserved ==> exists s, t, k, n :: s in sets && ClaimOf(s, t, k, ns, name) && Replicas(s, n) && k < n)
  {
    MatchMeansSet(sets, ns, name);
    assert Key(ns, name) == ns + "/" + name;
  }

  lemma {:induction false} ScanMeaning(owners: seq<Owner>, ns: string, name: string)
    ensures var r := ScanOwners(owners, ns, name);
      && (r.None? <==> forall o :: o in owners ==> SlotIn(o, ns, name).None?)
      && (r.Some? ==> exists o :: o in owners && SlotIn(o, ns, name) == r && r.value.replicas == o.replicas)
  {
    if owners != [] {
      var init, o := owners[..|owners| - 1], owners[|owners| - 1];
      ScanMeaning(init, ns, name);
      assert owners == init + [o];
    }
  }
}
