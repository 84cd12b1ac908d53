/** internal/kube/scope.go: what `-n` means, and the glob suggested for a regexp. */
module Scopes {
  import opened Sequences
  import opened Sorting
  import opened Text
  import Glob

  // ---- asGlob -------------------------------------------------------------------------------

  function TrimPrefix(s: string, c: char): string {
    if s != "" && s[0] == c then s[1..] else s
  }

  function TrimSuffix(s: string, c: char): string {
    if s != "" && s[|s| - 1] == c then s[..|s| - 1] else s
  }

  /** `strings.ReplaceAll` for a two-character `old`: leftmost, not overlapping. */
  function ReplaceAll(s: string, a: char, b: char, sub: string): string {
    if |s| < 2 then s
    else if s[0] == a && s[1] == b then sub + ReplaceAll(s[2..], a, b, sub)
    else [s[0]] + ReplaceAll(s[1..], a, b, sub)
  }

  /** scope.go:133-139. */
  function AsGlob(pattern: string): string {
    ReplaceAll(ReplaceAll(TrimSuffix(TrimPrefix(pattern, '^'), '$'), '.', '*', "*"), '.', '+', "?*")
  }

  /** The regexps the hint is about: literal characters, ".*" and ".+". */
  datatype Atom = Char(c: char) | DotStar | DotPlus

  const METACHARACTERS := "\\.+*?()|[]{}^$"

  predicate Plain(atoms: seq<Atom>) {
    forall a :: a in atoms && a.Char? ==> a.c !in METACHARACTERS
  }

  function AtomText(a: Atom): string {
    match a case Char(c) => [c] case DotStar => ".*" case DotPlus => ".+"
  }

  function Source(atoms: seq<Atom>): string {
    if atoms == [] then "" else AtomText(atoms[0]) + Source(atoms[1..])
  }

  function Pattern(open: bool, atoms: seq<Atom>, close: bool): string { Anchored(open, Source(atoms), close) }

  function Anchored(open: bool, body: string, close: bool): string {
    var tail := if close then body + "$" else body;
    if open then "^" + tail else tail
  }

  /** The fully anchored regexp: a dot is any character but a line break. */
  ghost predicate RegexpAccepts(atoms: seq<Atom>, name: string)
    decreases |atoms|, 0
  {
    if atoms == [] then name == ""
    else match atoms[0]
      case Char(c) => name != "" && name[0] == c && RegexpAccepts(atoms[1..], name[1..])
      case DotStar => exists k: nat :: LineThen(atoms[1..], name, k)
      case DotPlus => exists k: nat :: 0 < k && LineThen(atoms[1..], name, k)
  }

  /** A run of `k` characters without a line break, and the rest of the atoms on what follows. */
  ghost predicate LineThen(atoms: seq<Atom>, name: string, k: nat)
    decreases |atoms|, 1
  {
    k <= |name| && '\n' !in name[..k] && RegexpAccepts(atoms, name[k..])
  }

  function GlobText(a: Atom): string {
    match a case Char(c) => [c] case DotStar => "*" case DotPlus => "?*"
  }

  /** With `stars` done, ".*" has been rewritten; with `pluses` too, ".+" as well. */
  function Rewritten(atoms: seq<Atom>, pluses: bool): string {
    if atoms == [] then ""
    else (if atoms[0].DotPlus? && !pluses then ".+" else GlobText(atoms[0])) + Rewritten(atoms[1..], pluses)
  }

  lemma {:induction false} StarsRewritten(atoms: seq<Atom>)
    requires Plain(atoms)
    ensures ReplaceAll(Source(atoms), '.', '*', "*") == Rewritten(atoms, false)
  {
    if atoms != [] {
      StarsRewritten(atoms[1..]);
      var s, rest := Source(atoms), Source(atoms[1..]);
      match atoms[0]
      case Char(c) =>
        assert s[1..] == rest;
        if |s| < 2 { assert rest == ""; }
      case DotStar =>
        assert s[2..] == rest;
      case DotPlus =>
        assert s[1..] == "+" + rest && (s[1..])[1..] == rest;
        if |s[1..]| < 2 { assert rest == ""; }
    }
  }

  lemma {:induction false} PlusesRewritten(atoms: seq<Atom>)
    requires Plain(atoms)
    ensures ReplaceAll(Rewritten(atoms, false), '.', '+', "?*") == Rewritten(atoms, true)
  {
    if atoms != [] {
      PlusesRewritten(atoms[1..]);
      var s, rest := Rewritten(atoms, false), Rewritten(atoms[1..], false);
      if atoms[0].DotPlus? {
        assert s[2..] == rest;
      } else {
        assert s[1..] == rest;
        if |s| < 2 { assert rest == ""; }
      }
    }
  }

  lemma {:induction false} SourceEnds(atoms: seq<Atom>)
    requires Plain(atoms)
    ensures Source(atoms) != "" ==> Source(atoms)[0] != '^' && Source(atoms)[|Source(atoms)| - 1] != '$'
  {
    if atoms != [] {
      SourceEnds(atoms[1..]);
      assert atoms[0] in atoms;
    }
  }

  lemma TrimsAnchors(open: bool, body: string, close: bool)
    requires body != "" ==> body[0] != '^' && body[|body| - 1] != '$'
    ensures TrimSuffix(TrimPrefix(Anchored(open, body, close), '^'), '$') == body
  {
    var tail := if close then body + "$" else body;
    if open { assert ("^" + tail)[1..] == tail; }
    assert tail == "" || tail[0] != '^';
    assert TrimPrefix(Anchored(open, body, close), '^') == tail;
    if close { assert (body + "$")[..|body|] == body; }
  }

  lemma AnchorsTrimmed(open: bool, atoms: seq<Atom>, close: bool)
    requires Plain(atoms)
    ensures TrimSuffix(TrimPrefix(Pattern(open, atoms, close), '^'), '$') == Source(atoms)
  {
    SourceEnds(atoms);
    TrimsAnchors(open, Source(atoms), close);
  }

  lemma AsGlobRewrites(open: bool, atoms: seq<Atom>, close: bool)
    requires Plain(atoms)
    ensures AsGlob(Pattern(open, atoms, close)) == Rewritten(atoms, true)
  {
    AnchorsTrimmed(open, atoms, close);
    StarsRewritten(atoms);
    PlusesRewritten(atoms);
  }

  lemma {:induction false} RewrittenAccepts(atoms: seq<Atom>, name: string)
    requires Plain(atoms) && '/' !in name && '\n' !in name
    ensures Glob.Match(Rewritten(atoms, true), name) == Some(RegexpAccepts(atoms, name))
    decreases |atoms|
  {
    if atoms != [] {
      var rest := Rewritten(atoms[1..], true);
      forall k | 0 <= k <= |name|
        ensures Glob.Match(rest, name[k..]) == Some(RegexpAccepts(atoms[1..], name[k..]))
      {
        RewrittenAccepts(atoms[1..], name[k..]);
      }
      assert Glob.Match(rest, name[|name|..]).Some?;
      FirstAtomAccepts(atoms, name, Glob.Parse(rest).value);
    }
  }

  lemma FirstAtomAccepts(atoms: seq<Atom>, name: string, ts: seq<Glob.Term>)
    requires atoms != [] && Plain(atoms) && '/' !in name && '\n' !in name
    requires Glob.Parse(Rewritten(atoms[1..], true)) == Some(ts)
    requires name != "" ==> Glob.Accepts(ts, name[1..]) == RegexpAccepts(atoms[1..], name[1..])
    requires forall k: nat :: Glob.RunThen(ts, name, k) <==> LineThen(atoms[1..], name, k)
    ensures Glob.Match(Rewritten(atoms, true), name) == Some(RegexpAccepts(atoms, name))
  {
    var rest := Rewritten(atoms[1..], true);
    match atoms[0]
    case Char(c) =>
      assert atoms[0] in atoms;
      Glob.Literals(c, rest);
    case DotStar =>
      Glob.Wildcards(rest);
      StarTerm(ts, name);
    case DotPlus =>
      Glob.Wildcards(rest);
      PlusTerms(ts, name);
  }

  lemma StarTerm(ts: seq<Glob.Term>, name: string)
    ensures Glob.Accepts([Glob.Star] + ts, name) <==> exists k :: Glob.RunThen(ts, name, k)
  {
    Glob.StarAcceptsRuns([Glob.Star] + ts, name);
    assert ([Glob.Star] + ts)[1..] == ts;
  }

  lemma PlusTerms(ts: seq<Glob.Term>, name: string)
    ensures Glob.Accepts([Glob.AnyOne] + ([Glob.Star] + ts), name) <==>
      exists k: nat :: 0 < k && Glob.RunThen(ts, name, k)
  {
    var us := [Glob.AnyOne] + ([Glob.Star] + ts);
    Glob.OneThenStar(us, name);
    assert us[2..] == ts;
  }

  /** The glob the hint suggests selects the names the regexp meant. */
  lemma AsGlobPreservesMeaning(open: bool, atoms: seq<Atom>, close: bool, name: string)
    requires Plain(atoms) && '/' !in name && '\n' !in name
    ensures Glob.Match(AsGlob(Pattern(open, atoms, close)), name) == Some(RegexpAccepts(atoms, name))
  {
    AsGlobRewrites(open, atoms, close);
    RewrittenAccepts(atoms, name);
  }

  ghost predicate Agree(atoms: seq<Atom>, name: string) {
    Plain(atoms) ==> Glob.Match(AsGlob(Pattern(false, atoms, false)), name) == Some(RegexpAccepts(atoms, name))
  }

  /** Among slash-free names only one holding a line break tells the two apart. */
  lemma GlobAndRegexpAgreeExactly(name: string)
    requires '/' !in name
    ensures (forall atoms :: Agree(atoms, name)) <==> '\n' !in name
  {
    if '\n' !in name {
      forall atoms ensures Agree(atoms, name) {
        if Plain(atoms) { AsGlobPreservesMeaning(false, atoms, false, name); }
      }
    } else {
      var atoms := [DotStar];
      AsGlobRewrites(false, atoms, false);
      assert atoms[1..] == [];
      assert Rewritten(atoms, true) == "*";
      assert "*" + "" == "*";
      Glob.Wildcards("");
      Glob.StarAcceptsRuns([Glob.Star], name);
      assert name[|name|..] == "" && name[..|name|] == name;
      assert Glob.RunThen([Glob.Star][1..], name, |name|);
      forall k | 0 <= k <= |name| && RegexpAccepts(atoms[1..], name[k..]) ensures '\n' in name[..k] {
        assert k == |name|;
      }
      assert !RegexpAccepts(atoms, name);
      assert Glob.Match("*", name) == Some(true) by {
        var none: seq<Glob.Term> := [];
        assert [Glob.Star] + none == [Glob.Star];
      }
      assert !Agree(atoms, name);
    }
  }

  // ---- ResolveScope ----------------------------------------------------------------------------

  predicate HasAt(s: string, sub: string, i: nat) { i + |sub| <= |s| && s[i..i + |sub|] == sub }

  predicate Contains(s: string, sub: string) {
    exists i :: 0 <= i <= |s| && HasAt(s, sub, i)
  }

  predicate Regexpish(pattern: string) {
    || Contains(pattern, ".*") || Contains(pattern, ".+")
    || (pattern != "" && pattern[0] == '^') || (pattern != "" && pattern[|pattern| - 1] == '$')
  }

  /** scope.go:119-125: the glob to suggest, if the value reads like a regexp. */
  function Hint(pattern: string): Option<string> {
    if Regexpish(pattern) then Some(AsGlob(pattern)) else None
  }

  /** A hint is given exactly for ".*", ".+", a leading "^" or a trailing "$". */
  lemma HintMeaning(p: string)
    ensures Hint(p).Some? <==>
      || (exists i :: 0 <= i < |p| - 1 && p[i] == '.' && p[i + 1] in "*+")
      || (p != "" && (p[0] == '^' || p[|p| - 1] == '$'))
    ensures Hint(p).Some? ==> Hint(p).value == AsGlob(p)
  {
    forall i: nat { DotAt(p, i); }
    if i: nat :| i < |p| - 1 && p[i] == '.' && p[i + 1] in "*+" {
      assert HasAt(p, ".*", i) || HasAt(p, ".+", i);
    }
    if i: nat :| i <= |p| && (HasAt(p, ".*", i) || HasAt(p, ".+", i)) {
      assert i < |p| - 1 && p[i] == '.' && p[i + 1] in "*+";
    }
  }

  lemma DotAt(p: string, i: nat)
    ensures HasAt(p, ".*", i) || HasAt(p, ".+", i) <==> i + 1 < |p| && p[i] == '.' && p[i + 1] in "*+"
  {
    if i + 2 <= |p| { assert p[i..i + 2] == [p[i], p[i + 1]]; }
  }

  /** What is looked up as a name is what, read as a glob, matches that name only. */
  lemma LiteralsMatchThemselves(value: string, name: string)
    requires !IsPattern(value) && '\\' !in value
    ensures Glob.Match(value, name) == Some(value == name)
  {
    Glob.PlainNameMatchesItself(value, name);
  }

  predicate IsPattern(value: string) { exists c :: c in value && c in "*?[" }

  datatype Lookup = Found | Missing | LookupFailed(error: string)
  datatype Names = Names(names: seq<string>) | NamesFailed(error: string)
  datatype ScopeError =
    | NamespaceNotFound(name: string, hint: Option<string>)
    | CannotVerify(name: string, error: string)
    | InvalidPattern(pattern: string)
    | CannotExpand(pattern: string, error: string)
    | NothingMatches(pattern: string, hint: Option<string>)

  /** internal/kube/flags.go:26-67, the fields a scope comes from. */
  class Flags {
    var allNamespaces: bool
    var namespace: string
    var namespaces: seq<string>

    constructor (all: bool, ns: string)
      ensures allNamespaces == all && namespace == ns && namespaces == []
    {
      allNamespaces, namespace, namespaces := all, ns, [];
    }

    /** Empty means every namespace. */
    function Scope(): seq<string>
      reads this
    {
      if allNamespaces then []
      else if namespaces != [] then namespaces
      else if namespace != "" then [namespace] else []
    }
  }

  function Matching(pattern: string): string -> bool { n => Glob.Matches(pattern, n) }

  /** scope.go:87-94 and 103-114: sort the cluster's namespaces, then delete the others. */
  method Expand(pattern: string, cluster: seq<string>) returns (matched: seq<string>)
    ensures matched == StableSort(Filter(cluster, Matching(pattern)), ByText())
  {
    var names := StableSort(cluster, ByText());
    matched := Filter(names, Matching(pattern));
    ByTextOrders();
    FilterCommutesWithSort(cluster, Matching(pattern), ByText());
  }

  /** scope.go:67-100. `get` looks one namespace up; `cluster` is the answer to listing them. */
  method ResolveScope(f: Flags, get: string -> Lookup, cluster: Names) returns (error: Option<ScopeError>)
    modifies f`namespaces
    ensures error.Some? ==> f.namespaces == old(f.namespaces)
    ensures f.allNamespaces || f.namespace == "" ==> error.None? && f.namespaces == old(f.namespaces)
    ensures f.allNamespaces || (f.namespace == "" && f.namespaces == []) ==> f.Scope() == []
    ensures !f.allNamespaces && f.namespace != "" && !IsPattern(f.namespace) ==>
      match get(f.namespace)
      case Found => error.None? && f.namespaces == [f.namespace] && f.Scope() == [f.namespace]
      case Missing => error == Some(NamespaceNotFound(f.namespace, Hint(f.namespace)))
      case LookupFailed(e) => error == Some(CannotVerify(f.namespace, e))
    ensures !f.allNamespaces && f.namespace != "" && IsPattern(f.namespace) ==>
      if Glob.Parse(f.namespace).None? then error == Some(InvalidPattern(f.namespace))
      else if cluster.NamesFailed? then error == Some(CannotExpand(f.namespace, cluster.error))
      else
        var matched := StableSort(Filter(cluster.names, Matching(f.namespace)), ByText());
        if matched == [] then error == Some(NothingMatches(f.namespace, Hint(f.namespace)))
        else error.None? && f.namespaces == matched && f.Scope() == matched
  {
    if f.allNamespaces || f.namespace == "" { return None; }
    if !IsPattern(f.namespace) {
      match get(f.namespace)
      case Missing => return Some(NamespaceNotFound(f.namespace, Hint(f.namespace)));
      case LookupFailed(e) => return Some(CannotVerify(f.namespace, e));
      case Found =>
        f.namespaces := [f.namespace];
        return None;
    }
    if Glob.Match(f.namespace, "").None? { return Some(InvalidPattern(f.namespace)); }
    if cluster.NamesFailed? { return Some(CannotExpand(f.namespace, cluster.error)); }
    var matched := Expand(f.namespace, cluster.names);
    if matched == [] { return Some(NothingMatches(f.namespace, Hint(f.namespace))); }
    f.namespaces := matched;
    error := None;
  }

  /** The scope a glob resolves to: exactly the matching namespaces, in order, each once. */
  lemma {:induction false} ExpandedScope(cluster: seq<string>, p: string -> bool, n: string)
    requires Distinct(cluster)
    ensures var scope := StableSort(Filter(cluster, p), ByText());
      && Sorted(scope, ByText())
      && multiset(scope)[n] == if n in cluster && p(n) then 1 else 0
  {
    ByTextOrders();
    StableSortSorted(Filter(cluster, p), ByText());
    FilterCount(cluster, p, n);
    DistinctOnce(cluster, n);
    assert n in cluster <==> n in multiset(cluster);
  }
}
