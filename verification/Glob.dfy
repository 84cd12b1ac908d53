/** `path.Match` as its documentation defines it: a pattern is a sequence of terms. */
module Glob {
  import opened Sequences

  datatype Term = Star | AnyOne | OneOf(negated: bool, ranges: seq<(char, char)>) | Literal(c: char)

  // ---- syntax ------------------------------------------------------------------------------

  /** One class endpoint. Something, at least the closing bracket, has to follow it. */
  function ParseEndpoint(p: string): (r: Option<(char, string)>)
    ensures r.Some? ==> 0 < |r.value.1| < |p|
  {
    if p == "" || p[0] == '-' || p[0] == ']' then None
    else
      var q := if p[0] == '\\' then p[1..] else p;
      if |q| < 2 then None else Some((q[0], q[1..]))
  }

  function ParseRanges(p: string, sofar: seq<(char, char)>): (r: Option<(seq<(char, char)>, string)>)
    ensures r.Some? ==> |r.value.1| < |p|
    decreases |p|
  {
    if p != "" && p[0] == ']' && sofar != [] then Some((sofar, p[1..]))
    else match ParseEndpoint(p)
      case None => None
      case Some((lo, q)) =>
        if q[0] == '-' then
          match ParseEndpoint(q[1..])
          case None => None
          case Some((hi, q')) => ParseRanges(q', sofar + [(lo, hi)])
        else ParseRanges(q, sofar + [(lo, lo)])
  }

  function ParseClass(p: string): (r: Option<(Term, string)>)
    ensures r.Some? ==> |r.value.1| < |p|
  {
    var negated := p != "" && p[0] == '^';
    match ParseRanges(if negated then p[1..] else p, [])
    case None => None
    case Some((ranges, q)) => Some((OneOf(negated, ranges), q))
  }

  /** The terms of a pattern, or None for `ErrBadPattern`. */
  function Parse(p: string): Option<seq<Term>>
    decreases |p|
  {
    if p == "" then Some([])
    else if p[0] == '[' then
      match ParseClass(p[1..])
      case None => None
      case Some((t, q)) => Prepend(t, Parse(q))
    else if p[0] == '\\' then
      if |p| == 1 then None else Prepend(Literal(p[1]), Parse(p[2..]))
    else
      Prepend(if p[0] == '*' then Star else if p[0] == '?' then AnyOne else Literal(p[0]), Parse(p[1..]))
  }

  function Prepend(t: Term, ts: Option<seq<Term>>): Option<seq<Term>> {
    match ts case None => None case Some(rest) => Some([t] + rest)
  }

  // ---- meaning -----------------------------------------------------------------------------

  predicate AcceptsOne(t: Term, c: char) {
    match t
    case Star => false
    case AnyOne => c != '/'
    case OneOf(negated, ranges) =>
      (exists r :: r in ranges && r.0 <= c <= r.1) != negated
    case Literal(d) => c == d
  }

  predicate Accepts(ts: seq<Term>, name: string)
    decreases |ts| + |name|
  {
    if ts == [] then name == ""
    else if ts[0] == Star then
      Accepts(ts[1..], name) || (name != "" && name[0] != '/' && Accepts(ts, name[1..]))
    else name != "" && AcceptsOne(ts[0], name[0]) && Accepts(ts[1..], name[1..])
  }

  /** `path.Match`: None is a malformed pattern. */
  function Match(pattern: string, name: string): Option<bool> {
    match Parse(pattern)
    case None => None
    case Some(ts) => Some(Accepts(ts, name))
  }

  /** A run of `k` characters without a slash, and the rest of the terms on what follows. */
  ghost predicate RunThen(ts: seq<Term>, name: string, k: nat) {
    k <= |name| && '/' !in name[..k] && Accepts(ts, name[k..])
  }

  lemma RunLonger(ts: seq<Term>, name: string, k: nat)
    requires name != ""
    ensures RunThen(ts, name, k + 1) <==> name[0] != '/' && RunThen(ts, name[1..], k)
  {
    if k < |name| {
      assert name[..k + 1] == [name[0]] + name[1..][..k];
      assert name[k + 1..] == name[1..][k..];
    }
  }

  lemma NoRun(ts: seq<Term>, name: string)
    ensures RunThen(ts, name, 0) <==> Accepts(ts, name)
  {
    assert name[0..] == name;
  }

  /** A star stands for any run without a slash. */
  lemma {:induction false} StarAcceptsRuns(ts: seq<Term>, name: string)
    requires ts != [] && ts[0] == Star
    ensures Accepts(ts, name) <==> exists k :: RunThen(ts[1..], name, k)
  {
    NoRun(ts[1..], name);
    if name != "" {
      StarAcceptsRuns(ts, name[1..]);
      if k: nat :| RunThen(ts[1..], name[1..], k) { RunLonger(ts[1..], name, k); }
      if k: nat :| 0 < k && RunThen(ts[1..], name, k) { RunLonger(ts[1..], name, k - 1); }
    }
  }

  lemma Literals(c: char, q: string)
    requires c !in "*?[\\"
    ensures Parse([c] + q) == Prepend(Literal(c), Parse(q))
  {
    assert ([c] + q)[1..] == q;
  }

  lemma Wildcards(q: string)
    ensures Parse("*" + q) == Prepend(Star, Parse(q))
    ensures Parse("?*" + q) == Prepend(AnyOne, Prepend(Star, Parse(q)))
  {
    assert ("*" + q)[1..] == q;
    assert ("?*" + q)[1..] == "*" + q;
  }

  /** "?*" stands for any non-empty run without a slash. */
  lemma OneThenStar(ts: seq<Term>, name: string)
    requires |ts| >= 2 && ts[0] == AnyOne && ts[1] == Star
    ensures Accepts(ts, name) <==> exists k: nat :: 0 < k && RunThen(ts[2..], name, k)
  {
    if name != "" {
      StarAcceptsRuns(ts[1..], name[1..]);
      assert ts[1..][1..] == ts[2..];
      if k: nat :| RunThen(ts[2..], name[1..], k) { RunLonger(ts[2..], name, k); }
      if k: nat :| 0 < k && RunThen(ts[2..], name, k) { RunLonger(ts[2..], name, k - 1); }
    }
  }

  /** A question mark stands for one character but the slash, an escaped character for itself. */
  lemma OneCharacter(c: char, name: string)
    ensures Match("?", name) == Some(|name| == 1 && name[0] != '/')
    ensures Match(['\\', c], name) == Some(name == [c])
  {
    assert "?"[1..] == "" && ['\\', c][2..] == [];
    assert Parse("") == Some([]);
    if name != "" { assert name == [name[0]] + name[1..]; }
    OneTerm(AnyOne, name);
    OneTerm(Literal(c), name);
    assert [AnyOne] + [] == [AnyOne] && [Literal(c)] + [] == [Literal(c)];
    assert Parse("?") == Prepend(AnyOne, Parse(""));
    assert Parse(['\\', c]) == Prepend(Literal(c), Parse(""));
  }

  lemma OneTerm(t: Term, name: string)
    requires t != Star
    ensures Accepts([t], name) <==> |name| == 1 && AcceptsOne(t, name[0])
  {
    assert [t][1..] == [];
  }

  /** A range stands for one of its characters; negated, for one of the others. */
  lemma CharacterRange(lo: char, hi: char, name: string)
    requires lo !in "-]\\^" && hi !in "-]\\"
    ensures Match(['[', lo, '-', hi, ']'], name) == Some(|name| == 1 && lo <= name[0] <= hi)
    ensures Match(['[', '^', lo, '-', hi, ']'], name) == Some(|name| == 1 && !(lo <= name[0] <= hi))
  {
    var p := [lo, '-', hi, ']'];
    RangeParsed(lo, hi);
    assert ['[', lo, '-', hi, ']'][1..] == p && ['[', '^', lo, '-', hi, ']'][1..] == ['^'] + p && (['^'] + p)[1..] == p;
    assert Parse("") == Some([]);
    var plain, negated := OneOf(false, [(lo, hi)]), OneOf(true, [(lo, hi)]);
    assert ParseClass(p) == Some((plain, ""));
    assert ParseClass(['^'] + p) == Some((negated, ""));
    assert [plain] + [] == [plain] && [negated] + [] == [negated];
    OneTerm(plain, name);
    OneTerm(negated, name);
    if |name| == 1 {
      RangeHolds(false, lo, hi, name[0]);
      RangeHolds(true, lo, hi, name[0]);
    }
  }

  lemma RangeHolds(negated: bool, lo: char, hi: char, c: char)
    ensures AcceptsOne(OneOf(negated, [(lo, hi)]), c) <==> (lo <= c <= hi) != negated
  {
    assert (lo, hi) in [(lo, hi)];
  }

  lemma RangeParsed(lo: char, hi: char)
    requires lo !in "-]\\" && hi !in "-]\\"
    ensures ParseRanges([lo, '-', hi, ']'], []) == Some(([(lo, hi)], ""))
  {
    var p := [lo, '-', hi, ']'];
    assert p[1..] == ['-', hi, ']'] && p[1..][1..] == [hi, ']'] && [hi, ']'][1..] == "]" && "]"[1..] == "";
    assert ParseEndpoint(p) == Some((lo, p[1..]));
    assert ParseEndpoint([hi, ']']) == Some((hi, "]"));
    assert [] + [(lo, hi)] == [(lo, hi)];
  }

  /** The table's and the dispatcher's use: a malformed pattern matches nothing. */
  predicate Matches(pattern: string, name: string) { Match(pattern, name) == Some(true) }

  /** A name without metacharacters matches itself and nothing else. */
  lemma {:induction false} PlainNameMatchesItself(pattern: string, name: string)
    requires forall c :: c in pattern ==> c !in "*?[\\"
    ensures Match(pattern, name) == Some(pattern == name)
  {
    if pattern != "" {
      assert pattern == [pattern[0]] + pattern[1..];
      Literals(pattern[0], pattern[1..]);
      if name != "" {
        PlainNameMatchesItself(pattern[1..], name[1..]);
        assert name == [name[0]] + name[1..];
      } else {
        PlainNameMatchesItself(pattern[1..], "");
      }
    }
  }
}
