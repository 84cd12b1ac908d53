/**
 * internal/cli/cli.go:362-382: kubectl-style flags anywhere among the positional arguments,
 * built as a loop over a `flag` parser that stops at the first positional.
 */
module FlagArgs {
  import opened Sequences

  datatype Kind = Switch | Valued

  /** The registered flags, and which values their types accept. */
  datatype Definitions = Definitions(kinds: map<string, Kind>, accepts: (string, string) -> bool)

  datatype FlagError =
    | BadSyntax(arg: string) | Undefined(name: string) | HelpRequested
    | NeedsArgument(name: string) | InvalidValue(name: string, value: string)

  type Assignment = (string, string)

  /** A token the flag parser does not take for a flag or the terminator. */
  predicate Plain(s: string) { |s| < 2 || s[0] != '-' }

  // ---- the flag package ----------------------------------------------------------------------

  /** One call of parseOne: `used` are the tokens of the flag it set. */
  datatype One =
    | NoFlag(rest: seq<string>, terminated: bool)
    | Flag(assignment: Assignment, used: seq<string>, rest: seq<string>)
    | Bad(error: FlagError)

  function IndexOfEquals(s: string, i: nat): (k: nat)
    requires i <= |s|
    ensures i <= k <= |s|
    decreases |s| - i
  {
    if i == |s| || s[i] == '=' then i else IndexOfEquals(s, i + 1)
  }

  /** What parseOne may take off the arguments: a plain token nothing, "--" itself, a flag one
      token, or two when the second is its value. */
  ghost predicate Consumes(args: seq<string>, one: One) {
    if args == [] || Plain(args[0]) then one == NoFlag(args, false)
    else if args[0] == "--" then one == NoFlag(args[1..], true)
    else
      && !one.NoFlag?
      && (one.Flag? ==> args == one.used + one.rest && 1 <= |one.used| <= 2)
      && (one.Flag? && |one.used| == 2 ==> one.assignment.1 == one.used[1])
  }

  /** `FlagSet.parseOne`. */
  function ParseOne(d: Definitions, args: seq<string>): (one: One)
    ensures Consumes(args, one)
  {
    if args == [] || Plain(args[0]) then NoFlag(args, false)
    else if args[0] == "--" then NoFlag(args[1..], true)
    else
      var s, rest := args[0], args[1..];
      assert args == [s] + rest;
      var name := if s[1] == '-' then s[2..] else s[1..];
      if name == "" || name[0] == '-' || name[0] == '=' then Bad(BadSyntax(s))
      else
        var k := IndexOfEquals(name, 1);
        if k < |name| then SetFlag(d, s, name[..k], Some(name[k + 1..]), rest)
        else SetFlag(d, s, name, None, rest)
  }

  function SetFlag(d: Definitions, token: string, name: string, value: Option<string>, rest: seq<string>): (one: One)
    ensures !one.NoFlag?
    ensures one.Flag? ==> [token] + rest == one.used + one.rest && 1 <= |one.used| <= 2
    ensures one.Flag? && |one.used| == 2 ==> one.assignment.1 == one.used[1]
  {
    if name !in d.kinds then Bad(if name == "help" || name == "h" then HelpRequested else Undefined(name))
    else if d.kinds[name].Switch? then Assign(d, name, if value.Some? then value.value else "true", [token], rest)
    else if value.Some? then Assign(d, name, value.value, [token], rest)
    else if rest == [] then Bad(NeedsArgument(name))
    else
      assert [token] + rest == [token, rest[0]] + rest[1..];
      Assign(d, name, rest[0], [token, rest[0]], rest[1..])
  }

  function Assign(d: Definitions, name: string, value: string, used: seq<string>, rest: seq<string>): One {
    if d.accepts(name, value) then Flag((name, value), used, rest) else Bad(InvalidValue(name, value))
  }

  /** A name a flag can be given by. */
  predicate FlagName(name: string) {
    name != "" && name[0] != '-' && '=' !in name
  }

  lemma {:induction false} NoEquals(name: string, tail: string, i: nat)
    requires '=' !in name && i <= |name| && (tail == "" || tail[0] == '=')
    ensures IndexOfEquals(name + tail, i) == |name|
    decreases |name| - i
  {
    if i < |name| { NoEquals(name, tail, i + 1); }
  }

  /** One dash or two make no difference. */
  lemma DashesAlike(d: Definitions, name: string, tail: string, rest: seq<string>)
    requires FlagName(name) && (tail == "" || tail[0] == '=')
    ensures forall dashes :: dashes == "-" || dashes == "--" ==>
      ParseOne(d, [dashes + (name + tail)] + rest) ==
        SetFlag(d, dashes + (name + tail), name, if tail == "" then None else Some(tail[1..]), rest)
  {
    OneDash(d, name, tail, rest);
    TwoDashes(d, name, tail, rest);
  }

  lemma NameAndTail(name: string, tail: string)
    requires FlagName(name) && (tail == "" || tail[0] == '=')
    ensures var body := name + tail;
      && body != "" && body[0] != '-' && body[0] != '=' && IndexOfEquals(body, 1) == |name|
      && body[..|name|] == name && (tail != "" ==> body[|name| + 1..] == tail[1..]) && (tail == "" ==> body == name)
  {
    NoEquals(name, tail, 1);
    assert name[0] in name && (tail == "" ==> name + tail == name);
  }

  lemma OneDash(d: Definitions, name: string, tail: string, rest: seq<string>)
    requires FlagName(name) && (tail == "" || tail[0] == '=')
    ensures ParseOne(d, ["-" + (name + tail)] + rest) ==
      SetFlag(d, "-" + (name + tail), name, if tail == "" then None else Some(tail[1..]), rest)
  {
    var s := "-" + (name + tail);
    NameAndTail(name, tail);
    assert s[1] == name[0] && s[1..] == name + tail && ([s] + rest)[1..] == rest;
  }

  lemma TwoDashes(d: Definitions, name: string, tail: string, rest: seq<string>)
    requires FlagName(name) && (tail == "" || tail[0] == '=')
    ensures ParseOne(d, ["--" + (name + tail)] + rest) ==
      SetFlag(d, "--" + (name + tail), name, if tail == "" then None else Some(tail[1..]), rest)
  {
    var s := "--" + (name + tail);
    NameAndTail(name, tail);
    assert |s| > 2 && s[1] == '-' && s[2..] == name + tail && ([s] + rest)[1..] == rest;
  }

  /** "--name=value" sets the value after the sign, the switch included; "--name" takes the next
      argument, or sets a switch to true. */
  lemma FlagForms(d: Definitions, name: string, value: string, rest: seq<string>)
    requires FlagName(name) && name in d.kinds && d.accepts(name, value) && d.accepts(name, "true")
    ensures forall dashes :: dashes == "-" || dashes == "--" ==>
      var signed := dashes + (name + ("=" + value));
      ParseOne(d, [signed] + rest) == Flag((name, value), [signed], rest)
    ensures forall dashes :: dashes == "-" || dashes == "--" ==>
      var bare := dashes + (name + "");
      ParseOne(d, [bare] + ([value] + rest)) ==
        if d.kinds[name] == Switch then Flag((name, "true"), [bare], [value] + rest)
        else Flag((name, value), [bare, value], rest)
  {
    DashesAlike(d, name, "=" + value, rest);
    DashesAlike(d, name, "", [value] + rest);
    assert ("=" + value)[1..] == value;
    assert ([value] + rest)[0] == value && ([value] + rest)[1..] == rest;
  }

  /** What goes wrong: an unknown flag, a flag without its value, a value its type rejects. */
  lemma FlagErrors(d: Definitions, name: string, value: string)
    requires FlagName(name)
    ensures name !in d.kinds && name != "help" && name != "h" ==>
      ParseOne(d, ["--" + (name + "")]) == Bad(Undefined(name))
    ensures name in d.kinds && d.kinds[name] == Valued ==> ParseOne(d, ["--" + (name + "")]) == Bad(NeedsArgument(name))
    ensures name in d.kinds && !d.accepts(name, value) ==>
      ParseOne(d, ["--" + (name + ("=" + value))]) == Bad(InvalidValue(name, value))
  {
    DashesAlike(d, name, "=" + value, []);
    DashesAlike(d, name, "", []);
    assert ("=" + value)[1..] == value;
    assert ["--" + (name + "")] + [] == ["--" + (name + "")];
    assert ["--" + (name + ("=" + value))] + [] == ["--" + (name + ("=" + value))];
  }

  lemma OneFlagInContext(d: Definitions, args: seq<string>, more: seq<string>)
    requires ParseOne(d, args).Flag?
    ensures var one := ParseOne(d, args); ParseOne(d, one.used + more) == Flag(one.assignment, one.used, more)
  {
    var one := ParseOne(d, args);
    var other := one.used + more;
    assert args[0] == one.used[0] == other[0];
    if |one.used| == 1 {
      assert other[1..] == more;
    } else {
      assert other[1..] == [one.used[1]] + more && other[1..][1..] == more;
      assert args[1..] == [one.used[1]] + one.rest && args[1..][1..] == one.rest;
      assert one.used == [args[0], args[1]];
    }
  }

  /** The loop is the same for any flag parser that takes tokens off the front like this and
      decides on nothing but the tokens it takes. */
  type FlagParser = seq<string> -> One

  ghost predicate TakesAt(one: FlagParser, args: seq<string>) { Consumes(args, one(args)) }

  ghost predicate FrontOnly(one: FlagParser, args: seq<string>, more: seq<string>) {
    one(args).Flag? ==> one(one(args).used + more) == Flag(one(args).assignment, one(args).used, more)
  }

  ghost predicate TakesTokens(one: FlagParser) {
    (forall args :: TakesAt(one, args)) && (forall args, more :: FrontOnly(one, args, more))
  }

  /** The flag package's own. */
  function OneOf(d: Definitions): (one: FlagParser)
    ensures TakesTokens(one)
    ensures forall args :: one(args) == ParseOne(d, args)
  {
    var one := args => ParseOne(d, args);
    assert forall args, more :: FrontOnly(one, args, more) by {
      forall args, more ensures FrontOnly(one, args, more) {
        if ParseOne(d, args).Flag? { OneFlagInContext(d, args, more); }
      }
    }
    one
  }

  /** What one `Parse` does: the flags it sets and their tokens, what it leaves, and whether
      "--" ended it. */
  datatype Parsed =
    | Stopped(values: seq<Assignment>, used: seq<string>, rest: seq<string>, terminated: bool)
    | Broken(values: seq<Assignment>, error: FlagError)

  function Terminator(terminated: bool): seq<string> { if terminated then ["--"] else [] }

  function Parse(one: FlagParser, args: seq<string>): (p: Parsed)
    requires TakesTokens(one)
    ensures p.Stopped? ==> args == p.used + (Terminator(p.terminated) + p.rest)
    ensures p.Stopped? && !p.terminated && p.rest != [] ==> Plain(p.rest[0])
    decreases |args|
  {
    assert TakesAt(one, args);
    match one(args)
    case NoFlag(rest, terminated) => Stopped([], [], rest, terminated)
    case Bad(error) => Broken([], error)
    case Flag(a, used, rest) => AfterFlag(a, used, Parse(one, rest))
  }

  function AfterFlag(a: Assignment, used: seq<string>, p: Parsed): Parsed {
    match p
    case Stopped(more, tokens, rest, t) => Stopped([a] + more, used + tokens, rest, t)
    case Broken(more, error) => Broken([a] + more, error)
  }

  // ---- the loop --------------------------------------------------------------------------------

  datatype Result =
    | Split(values: seq<Assignment>, positionals: seq<string>)
    | Failed(error: FlagError)

  function Before(values: seq<Assignment>, pos: seq<string>, r: Result): Result {
    match r
    case Split(a, p) => Split(values + a, pos + p)
    case Failed(e) => Failed(e)
  }

  /** The last argument a Parse consumed is "--", which the loop reads as the terminator. */
  predicate LooksTerminated(args: seq<string>, rest: seq<string>)
    requires |rest| <= |args|
  {
    |rest| < |args| && args[|args| - |rest| - 1] == "--"
  }

  function Interspersed(one: FlagParser, args: seq<string>): Result
    requires TakesTokens(one)
    decreases |args|
  {
    match Parse(one, args)
    case Broken(_, error) => Failed(error)
    case Stopped(a, _, rest, _) =>
      if rest == [] then Split(a, [])
      else if LooksTerminated(args, rest) then Split(a, rest)
      else Before(a, [rest[0]], Interspersed(one, rest[1..]))
  }

  /** A `flag.FlagSet`: parsing sets flags and remembers what is left. */
  class FlagSet {
    const one: FlagParser
    var values: seq<Assignment>
    var args: seq<string>

    constructor (d: Definitions)
      ensures one == OneOf(d) && values == [] && args == []
    {
      one, values, args := OneOf(d), [], [];
    }

    method ParseArgs(arguments: seq<string>) returns (error: Option<FlagError>)
      requires TakesTokens(one)
      modifies this
      ensures values == old(values) + Parse(one, arguments).values
      ensures match Parse(one, arguments)
        case Stopped(_, _, rest, _) => error.None? && args == rest
        case Broken(_, e) => error == Some(e)
    {
      args := arguments;
      ghost var sofar, tokens := [], [];
      while true
        invariant values == old(values) + sofar
        invariant Parse(one, arguments) == AfterFlags(sofar, tokens, Parse(one, args))
        decreases |args|
      {
        assert TakesAt(one, args);
        match one(args)
        case NoFlag(rest, _) =>
          args := rest;
          return None;
        case Bad(e) => return Some(e);
        case Flag(a, used, rest) =>
          AfterOneMore(sofar, tokens, a, used, Parse(one, rest));
          assert values + [a] == old(values) + (sofar + [a]);
          sofar, tokens := sofar + [a], tokens + used;
          values, args := values + [a], rest;
      }
    }
  }

  ghost function AfterFlags(before: seq<Assignment>, tokens: seq<string>, p: Parsed): Parsed {
    match p
    case Stopped(more, used, rest, t) => Stopped(before + more, tokens + used, rest, t)
    case Broken(more, error) => Broken(before + more, error)
  }

  lemma AfterOneMore(before: seq<Assignment>, tokens: seq<string>, a: Assignment, used: seq<string>, p: Parsed)
    ensures AfterFlags(before, tokens, AfterFlag(a, used, p)) == AfterFlags(before + [a], tokens + used, p)
  {
    assert before + ([a] + p.values) == before + [a] + p.values;
    if p.Stopped? { assert tokens + (used + p.used) == tokens + used + p.used; }
  }

  /** What the loop has done when it comes to `args`: set the flags in `sofar`, put aside `pos`. */
  ghost predicate SoFar(one: FlagParser, arguments: seq<string>, sofar: seq<Assignment>, pos: seq<string>,
      args: seq<string>)
    requires TakesTokens(one)
  {
    Interspersed(one, arguments) == Before(sofar, pos, Interspersed(one, args))
  }

  lemma OneMoreRound(one: FlagParser, arguments: seq<string>, sofar: seq<Assignment>, pos: seq<string>,
      args: seq<string>)
    requires TakesTokens(one) && SoFar(one, arguments, sofar, pos, args)
    requires var p := Parse(one, args); p.Stopped? && p.rest != [] && !LooksTerminated(args, p.rest)
    ensures var p := Parse(one, args);
      SoFar(one, arguments, sofar + p.values, pos + [p.rest[0]], p.rest[1..])
  {
    var p := Parse(one, args);
    BeforeTwice(sofar, pos, p.values, [p.rest[0]], Interspersed(one, p.rest[1..]));
  }

  /** cli.go:366-382. */
  method ParseInterspersed(fs: FlagSet, arguments: seq<string>) returns (pos: seq<string>, error: Option<FlagError>)
    requires TakesTokens(fs.one)
    modifies fs
    ensures match Interspersed(fs.one, arguments)
      case Split(a, p) => error.None? && pos == p && fs.values == old(fs.values) + a
      case Failed(e) => error == Some(e) && pos == []
  {
    pos := [];
    var args := arguments;
    ghost var sofar := [];
    while true
      invariant fs.values == old(fs.values) + sofar
      invariant SoFar(fs.one, arguments, sofar, pos, args)
      decreases |args|
    {
      ghost var p := Parse(fs.one, args);
      Associate(old(fs.values), sofar, p.values);
      error := fs.ParseArgs(args);
      if error.Some? { return [], error; }
      var rest := fs.args;
      if |rest| == 0 {
        return pos, None;
      }
      var consumed := |args| - |rest|;
      if consumed > 0 && args[consumed - 1] == "--" {
        return pos + rest, None;
      }
      OneMoreRound(fs.one, arguments, sofar, pos, args);
      sofar := sofar + p.values;
      pos := pos + [rest[0]];
      args := rest[1..];
    }
  }

  lemma BeforeTwice(a: seq<Assignment>, p: seq<string>, b: seq<Assignment>, q: seq<string>, r: Result)
    ensures Before(a, p, Before(b, q, r)) == Before(a + b, p + q, r)
  {
    if r.Split? {
      assert a + (b + r.values) == a + b + r.values;
      assert p + (q + r.positionals) == p + q + r.positionals;
    }
  }

  // ---- what the loop is for ------------------------------------------------------------------------

  /** One pass over the arguments, with no second look at what was consumed. */
  function Scan(one: FlagParser, args: seq<string>): Result
    requires TakesTokens(one)
    decreases |args|
  {
    assert TakesAt(one, args);
    if args == [] then Split([], [])
    else match one(args)
      case Bad(error) => Failed(error)
      case Flag(a, _, rest) => Before([a], [], Scan(one, rest))
      case NoFlag(rest, terminated) =>
        if terminated then Split([], rest) else Before([], [args[0]], Scan(one, args[1..]))
  }

  predicate AllPlain(args: seq<string>) { forall i :: 0 <= i < |args| ==> Plain(args[i]) }

  lemma BeforeInjective(a: seq<Assignment>, p: seq<string>, r: Result, s: Result)
    requires Before(a, p, r) == Before(a, p, s)
    ensures r == s
  {
    if r.Split? {
      assert (a + r.values)[|a|..] == r.values && (a + s.values)[|a|..] == s.values;
      assert (p + r.positionals)[|p|..] == r.positionals && (p + s.positionals)[|p|..] == s.positionals;
    }
  }

  lemma {:induction false} ScanVerbatim(one: FlagParser, args: seq<string>)
    requires TakesTokens(one)
    ensures Scan(one, args) == Split([], args) <==> AllPlain(args)
    decreases |args|
  {
    assert TakesAt(one, args);
    if args != [] {
      match one(args)
      case NoFlag(rest, terminated) =>
        if terminated {
          assert |rest| < |args| && !Plain(args[0]);
        } else {
          var tail := args[1..];
          ScanVerbatim(one, tail);
          assert args == [args[0]] + tail;
          if Scan(one, args) == Split([], args) {
            BeforeInjective([], [args[0]], Scan(one, tail), Split([], tail));
          }
        }
      case Flag(a, _, rest) =>
        if Scan(one, rest).Split? { assert Scan(one, args).values[0] == a; }
      case Bad(_) =>
    }
  }

  /** Scan, one Parse at a time. */
  lemma {:induction false} ScanByParse(one: FlagParser, args: seq<string>)
    requires TakesTokens(one)
    ensures Scan(one, args) == match Parse(one, args)
      case Broken(_, error) => Failed(error)
      case Stopped(a, _, rest, terminated) =>
        if rest == [] then Split(a, [])
        else if terminated then Split(a, rest)
        else Before(a, [rest[0]], Scan(one, rest[1..]))
    decreases |args|
  {
    assert TakesAt(one, args);
    if args != [] {
      match one(args)
      case NoFlag(rest, terminated) =>
      case Bad(_) =>
      case Flag(a, _, rest) =>
        ScanByParse(one, rest);
        var p := Parse(one, rest);
        if p.Stopped? && p.rest != [] && !p.terminated {
          BeforeTwice([a], [], p.values, [p.rest[0]], Scan(one, p.rest[1..]));
          assert [] + [p.rest[0]] == [p.rest[0]];
        }
    }
  }

  /** A value that is literally "--" stands right before a positional, and something that is
      no plain token follows: the loop stops there, the scan goes on. */
  predicate Misread(one: FlagParser, args: seq<string>)
    requires TakesTokens(one)
    decreases |args|
  {
    match Parse(one, args)
    case Broken(_, _) => false
    case Stopped(_, _, rest, terminated) =>
      if rest == [] || terminated then false
      else if LooksTerminated(args, rest) then !AllPlain(rest[1..])
      else Misread(one, rest[1..])
  }

  /** The loop means the one-pass scan exactly when no such value misleads it. */
  lemma {:induction false} InterspersedIsScan(one: FlagParser, args: seq<string>)
    requires TakesTokens(one)
    ensures Interspersed(one, args) == Scan(one, args) <==> !Misread(one, args)
    decreases |args|
  {
    ScanByParse(one, args);
    var p := Parse(one, args);
    if p.Stopped? && p.rest != [] && !p.terminated {
      var tail := p.rest[1..];
      if LooksTerminated(args, p.rest) {
        ScanVerbatim(one, tail);
        assert p.rest == [p.rest[0]] + tail && p.values + [] == p.values;
        assert Before(p.values, [p.rest[0]], Split([], tail)) == Split(p.values, p.rest);
        if Interspersed(one, args) == Scan(one, args) {
          BeforeInjective(p.values, [p.rest[0]], Scan(one, tail), Split([], tail));
        }
      } else {
        InterspersedIsScan(one, tail);
        if Interspersed(one, args) == Scan(one, args) {
          BeforeInjective(p.values, [p.rest[0]], Interspersed(one, tail), Scan(one, tail));
        }
      }
    }
  }

  /** The flags one pass over the arguments sets, up to an error if there is one. */
  function Given(one: FlagParser, args: seq<string>): seq<Assignment>
    requires TakesTokens(one)
    decreases |args|
  {
    assert TakesAt(one, args);
    if args == [] then []
    else match one(args)
      case Bad(_) => []
      case Flag(a, _, rest) => [a] + Given(one, rest)
      case NoFlag(_, terminated) => if terminated then [] else Given(one, args[1..])
  }

  lemma {:induction false} GivenIsScanned(one: FlagParser, args: seq<string>)
    requires TakesTokens(one) && Scan(one, args).Split?
    ensures Given(one, args) == Scan(one, args).values
    decreases |args|
  {
    assert TakesAt(one, args);
    if args != [] {
      match one(args)
      case Bad(_) =>
      case Flag(_, _, rest) => GivenIsScanned(one, rest);
      case NoFlag(_, terminated) => if !terminated { GivenIsScanned(one, args[1..]); }
    }
  }

  /** What one Parse sets is given, and so is what a later one sets. */
  lemma {:induction false} GivenByParse(one: FlagParser, args: seq<string>)
    requires TakesTokens(one)
    ensures var p := Parse(one, args);
      && (forall v :: v in p.values ==> v in Given(one, args))
      && (p.Stopped? && !p.terminated && p.rest != [] ==>
            forall v :: v in Given(one, p.rest[1..]) ==> v in Given(one, args))
    decreases |args|
  {
    assert TakesAt(one, args);
    if args != [] && one(args).Flag? { GivenByParse(one, one(args).rest); }
  }

  /** No flag is given "--" as its value. */
  ghost predicate NoDashValue(one: FlagParser, args: seq<string>)
    requires TakesTokens(one)
  {
    forall v :: v in Given(one, args) ==> v.1 != "--"
  }

  /** Arguments that give no flag the value "--" are never misread. */
  lemma {:induction false} NoDashValueNoMisreading(one: FlagParser, args: seq<string>)
    requires TakesTokens(one) && NoDashValue(one, args)
    ensures !Misread(one, args)
    decreases |args|
  {
    var p := Parse(one, args);
    GivenByParse(one, args);
    if p.Stopped? && p.rest != [] && !p.terminated {
      if p.used != [] && p.used[|p.used| - 1] == "--" { LastConsumedIsValue(one, args); }
      assert args == p.used + p.rest;
      if !LooksTerminated(args, p.rest) { NoDashValueNoMisreading(one, p.rest[1..]); }
    }
  }

  /** So the loop keeps its promise on them: it is the single pass. */
  lemma NoDashValueMeansScan(one: FlagParser, args: seq<string>)
    requires TakesTokens(one) && NoDashValue(one, args)
    ensures Interspersed(one, args) == Scan(one, args)
  {
    NoDashValueNoMisreading(one, args);
    InterspersedIsScan(one, args);
  }

  lemma {:induction false} LastConsumedIsValue(one: FlagParser, args: seq<string>)
    requires TakesTokens(one) && Parse(one, args).Stopped?
    requires var used := Parse(one, args).used; used != [] && used[|used| - 1] == "--"
    ensures exists v :: v in Parse(one, args).values && v.1 == "--"
    decreases |args|
  {
    assert TakesAt(one, args);
    if one(args).Flag? {
      var a, rest := one(args).assignment, one(args).rest;
      var p := Parse(one, rest);
      assert Parse(one, args) == AfterFlag(a, one(args).used, p);
      if p.used != [] {
        LastConsumedIsValue(one, rest);
        var v :| v in p.values && v.1 == "--";
        assert v in [a] + p.values;
      } else {
        assert one(args).used + [] == one(args).used;
        assert one(args).used[0] == args[0] != "--";
        assert a in [a] + p.values;
      }
    }
  }

  const MISREAD := ["--sort", "--", "web", "-w"]

  /** How a flag package that knows --sort and -w takes the tokens of MISREAD. */
  ghost predicate ReadsMisread(one: FlagParser) {
    && TakesTokens(one)
    && one(MISREAD) == Flag(("sort", "--"), MISREAD[..2], ["web", "-w"])
    && one(["-w"]) == Flag(("w", "true"), ["-w"], [])
  }

  lemma MisreadParse(one: FlagParser)
    requires ReadsMisread(one)
    ensures Parse(one, MISREAD) == Stopped([("sort", "--")], MISREAD[..2], ["web", "-w"], false)
  {
    assert TakesAt(one, ["web", "-w"]);
    assert Parse(one, ["web", "-w"]) == Stopped([], [], ["web", "-w"], false);
    assert MISREAD[..2] + [] == MISREAD[..2];
  }

  lemma MisreadScan(one: FlagParser)
    requires ReadsMisread(one)
    ensures Scan(one, MISREAD) == Split([("sort", "--"), ("w", "true")], ["web"])
  {
    assert TakesAt(one, ["web", "-w"]) && ["web", "-w"][1..] == ["-w"];
    assert Scan(one, []) == Split([], []);
    assert Scan(one, ["-w"]) == Split([("w", "true")], []);
    assert Scan(one, ["web", "-w"]) == Split([("w", "true")], ["web"]);
  }

  /** A caller's input that is misread: the value "--" of --sort hides the -w after "web". */
  lemma MisreadExample(one: FlagParser)
    requires ReadsMisread(one)
    ensures Interspersed(one, MISREAD) == Split([("sort", "--")], ["web", "-w"])
    ensures Scan(one, MISREAD) == Split([("sort", "--"), ("w", "true")], ["web"])
    ensures Misread(one, MISREAD)
  {
    MisreadParse(one);
    MisreadScan(one);
    assert LooksTerminated(MISREAD, ["web", "-w"]);
    assert ["web", "-w"][1..] == ["-w"] && !Plain("-w");
    assert !AllPlain(["-w"]) by { assert !Plain(["-w"][0]); }
  }

  /** A command that has a valued --sort and a switch -w. */
  predicate HasSortAndW(d: Definitions) {
    && "sort" in d.kinds && d.kinds["sort"].Valued? && d.accepts("sort", "--")
    && "w" in d.kinds && d.kinds["w"].Switch? && d.accepts("w", "true")
  }

  lemma MisreadTokens(d: Definitions)
    requires HasSortAndW(d)
    ensures ParseOne(d, MISREAD) == Flag(("sort", "--"), MISREAD[..2], ["web", "-w"])
    ensures ParseOne(d, ["-w"]) == Flag(("w", "true"), ["-w"], [])
  {
    assert IndexOfEquals("sort", 2) == 4 && IndexOfEquals("w", 1) == 1;
    assert MISREAD[0][2..] == "sort" && MISREAD[1..][1..] == MISREAD[2..];
    assert MISREAD[..2] == [MISREAD[0], MISREAD[1]];
    assert "-w"[1..] == "w" && ["-w"][1..] == [];
  }

  /** Every such command misreads it: -w is returned as a name where one pass sets it. */
  lemma CommandMisreads(d: Definitions)
    requires HasSortAndW(d)
    ensures Interspersed(OneOf(d), MISREAD) == Split([("sort", "--")], ["web", "-w"])
    ensures Scan(OneOf(d), MISREAD) == Split([("sort", "--"), ("w", "true")], ["web"])
  {
    MisreadTokens(d);
    MisreadExample(OneOf(d));
  }

  // ---- order does not matter ----------------------------------------------------------------------

  /** The tokens the loop consumed as flags and their values. */
  function FlagTokens(one: FlagParser, args: seq<string>): seq<string>
    requires TakesTokens(one)
    decreases |args|
  {
    match Parse(one, args)
    case Broken(_, _) => []
    case Stopped(_, used, rest, _) =>
      if rest == [] || LooksTerminated(args, rest) then used else used + FlagTokens(one, rest[1..])
  }

  lemma AfterFlagsTwice(a: seq<Assignment>, s: seq<string>, b: seq<Assignment>, t: seq<string>, p: Parsed)
    ensures AfterFlags(a, s, AfterFlags(b, t, p)) == AfterFlags(a + b, s + t, p)
  {
    assert a + (b + p.values) == a + b + p.values;
    if p.Stopped? { assert s + (t + p.used) == s + t + p.used; }
  }

  /** The tokens of flags set the same flags in front of anything. */
  lemma {:induction false} FlagsInContext(one: FlagParser, args: seq<string>, more: seq<string>)
    requires TakesTokens(one) && Parse(one, args).Stopped?
    ensures var p := Parse(one, args); Parse(one, p.used + more) == AfterFlags(p.values, p.used, Parse(one, more))
    decreases |args|
  {
    assert TakesAt(one, args);
    var r := Parse(one, more);
    if one(args).NoFlag? {
      assert [] + more == more;
      assert AfterFlags([], [], r) == r by {
        assert [] + r.values == r.values;
        if r.Stopped? { assert [] + r.used == r.used; }
      }
    } else {
      var a, used := one(args).assignment, one(args).used;
      var p := Parse(one, one(args).rest);
      assert Parse(one, args) == AfterFlag(a, used, p);
      FlagsInContext(one, one(args).rest, more);
      FlagInFront(one, args, p.used + more);
      Associate(used, p.used, more);
      AfterFlagFlags(a, used, p.values, p.used, r);
    }
  }

  lemma FlagInFront(one: FlagParser, args: seq<string>, more: seq<string>)
    requires TakesTokens(one) && one(args).Flag?
    ensures Parse(one, one(args).used + more) == AfterFlag(one(args).assignment, one(args).used, Parse(one, more))
  {
    assert FrontOnly(one, args, more) && TakesAt(one, args) && TakesAt(one, one(args).used + more);
  }

  lemma AfterFlagFlags(a: Assignment, used: seq<string>, more: seq<Assignment>, tokens: seq<string>, p: Parsed)
    ensures AfterFlag(a, used, AfterFlags(more, tokens, p)) == AfterFlags([a] + more, used + tokens, p)
  {
    assert [a] + (more + p.values) == [a] + more + p.values;
    if p.Stopped? { assert used + (tokens + p.used) == used + tokens + p.used; }
  }

  /** One round of the loop that goes on. */
  lemma RoundOfTokens(one: FlagParser, args: seq<string>)
    requires TakesTokens(one) && Interspersed(one, args).Split?
    requires Parse(one, args).rest != [] && !LooksTerminated(args, Parse(one, args).rest)
    ensures var p := Parse(one, args); var tail := p.rest[1..];
      && Interspersed(one, tail).Split? && |tail| < |args|
      && Interspersed(one, args).values == p.values + Interspersed(one, tail).values
      && FlagTokens(one, args) == p.used + FlagTokens(one, tail)
  {
  }

  lemma TokensThenTokens(one: FlagParser, args: seq<string>, values: seq<Assignment>, tokens: seq<string>,
      more: seq<string>)
    requires TakesTokens(one) && Parse(one, args).Stopped?
    requires Parse(one, tokens + more) == AfterFlags(values, tokens, Parse(one, more))
    ensures var p := Parse(one, args);
      Parse(one, p.used + tokens + more) == AfterFlags(p.values + values, p.used + tokens, Parse(one, more))
  {
    var p := Parse(one, args);
    FlagsInContext(one, args, tokens + more);
    Associate(p.used, tokens, more);
    AfterFlagsTwice(p.values, p.used, values, tokens, Parse(one, more));
  }

  lemma {:induction false} FlagTokensParse(one: FlagParser, args: seq<string>, more: seq<string>)
    requires TakesTokens(one) && Interspersed(one, args).Split?
    ensures Parse(one, FlagTokens(one, args) + more)
      == AfterFlags(Interspersed(one, args).values, FlagTokens(one, args), Parse(one, more))
    decreases |args|
  {
    var p := Parse(one, args);
    if p.rest == [] || LooksTerminated(args, p.rest) {
      FlagsInContext(one, args, more);
    } else {
      var tail := p.rest[1..];
      RoundOfTokens(one, args);
      FlagTokensParse(one, tail, more);
      TokensThenTokens(one, args, Interspersed(one, tail).values, FlagTokens(one, tail), more);
    }
  }

  lemma ParseTerminator(one: FlagParser, after: seq<string>)
    requires TakesTokens(one)
    ensures Parse(one, ["--"] + after) == Stopped([], [], after, true)
  {
    var args := ["--"] + after;
    assert TakesAt(one, args) && args[1..] == after;
  }

  /** After flags and a real terminator, anything comes back as it is. */
  lemma TerminatorIsFinal(one: FlagParser, flags: seq<string>, values: seq<Assignment>, after: seq<string>)
    requires TakesTokens(one)
    requires Parse(one, flags + (["--"] + after)) == AfterFlags(values, flags, Parse(one, ["--"] + after))
    ensures var args := flags + ["--"] + after;
      Parse(one, args) == Stopped(values, flags, after, true) && Interspersed(one, args) == Split(values, after)
  {
    var args := flags + ["--"] + after;
    ParseTerminator(one, after);
    Associate(flags, ["--"], after);
    assert values + [] == values && flags + [] == flags;
  }

  /** Putting the flags first, then "--", then the positionals, changes nothing: the loop and
      a single Parse both read that as the same assignments and the same positionals. */
  lemma OrderDoesNotMatter(one: FlagParser, args: seq<string>)
    requires TakesTokens(one) && Interspersed(one, args).Split?
    ensures var r := Interspersed(one, args);
      var sorted := FlagTokens(one, args) + ["--"] + r.positionals;
      && Parse(one, sorted) == Stopped(r.values, FlagTokens(one, args), r.positionals, true)
      && Interspersed(one, sorted) == r
  {
    var r := Interspersed(one, args);
    FlagTokensParse(one, args, ["--"] + r.positionals);
    TerminatorIsFinal(one, FlagTokens(one, args), r.values, r.positionals);
  }

  /** The loop reads the arguments to their end: it comes upon no "--", real or mistaken, that
      stops it. */
  predicate EndsOpen(one: FlagParser, args: seq<string>)
    requires TakesTokens(one)
    decreases |args|
  {
    match Parse(one, args)
    case Broken(_, _) => false
    case Stopped(_, _, rest, terminated) =>
      !terminated && (rest == [] || (!LooksTerminated(args, rest) && EndsOpen(one, rest[1..])))
  }

  /** A Parse that stops before the end stops at the same place when more follows. */
  lemma ParseStopsEarly(one: FlagParser, args: seq<string>, more: seq<string>)
    requires TakesTokens(one)
    requires var p := Parse(one, args); p.Stopped? && (p.terminated || p.rest != [])
    ensures var p := Parse(one, args);
      Parse(one, args + more) == Stopped(p.values, p.used, p.rest + more, p.terminated)
  {
    var p := Parse(one, args);
    var tail := Terminator(p.terminated) + (p.rest + more);
    assert args + more == p.used + tail;
    FlagsInContext(one, args, tail);
    if p.terminated {
      ParseTerminator(one, p.rest + more);
    } else {
      assert tail == p.rest + more && tail[0] == p.rest[0];
      assert TakesAt(one, tail);
    }
    assert p.values + [] == p.values && p.used + [] == p.used;
  }

  lemma BeforeSplit(values: seq<Assignment>, pos: string, r: Result, more: seq<string>)
    requires r.Split?
    ensures Before(values, [pos], Split(r.values, r.positionals + more)) ==
      Split(values + r.values, [pos] + r.positionals + more)
  {
    assert [pos] + (r.positionals + more) == [pos] + r.positionals + more;
  }

  lemma StopsWhereItStopped(one: FlagParser, args: seq<string>, more: seq<string>)
    requires TakesTokens(one) && more != []
    requires var p := Parse(one, args);
      p.Stopped? && (p.terminated || (p.rest != [] && LooksTerminated(args, p.rest)))
    ensures Interspersed(one, args + more) == Split(Parse(one, args).values, Parse(one, args).rest + more)
  {
    var p := Parse(one, args);
    ParseStopsEarly(one, args, more);
    var k := |args| - |p.rest| - 1;
    if p.terminated { assert args[k] == (p.used + (["--"] + p.rest))[|p.used|]; }
    assert (args + more)[k] == args[k] == "--";
  }

  lemma GoesOnWhereItWentOn(one: FlagParser, args: seq<string>, more: seq<string>)
    requires TakesTokens(one)
    requires var p := Parse(one, args);
      p.Stopped? && !p.terminated && p.rest != [] && !LooksTerminated(args, p.rest)
    ensures var p := Parse(one, args);
      Interspersed(one, args + more) == Before(p.values, [p.rest[0]], Interspersed(one, p.rest[1..] + more))
  {
    var p := Parse(one, args);
    ParseStopsEarly(one, args, more);
    assert (p.rest + more)[1..] == p.rest[1..] + more;
    var k := |args| - |p.rest| - 1;
    if k >= 0 { assert (args + more)[k] == args[k]; }
  }

  /** "--" and anything behind arguments the loop accepts: after arguments it read to their end
      the "--" goes and the rest comes back verbatim; after a terminator the "--" is kept too. */
  lemma {:induction false} AfterTerminatorVerbatim(one: FlagParser, args: seq<string>, after: seq<string>)
    requires TakesTokens(one) && Interspersed(one, args).Split?
    ensures var r := Interspersed(one, args);
      Interspersed(one, args + (["--"] + after)) ==
        Split(r.values, r.positionals + if EndsOpen(one, args) then after else ["--"] + after)
    decreases |args|
  {
    var p, more := Parse(one, args), ["--"] + after;
    var kept := if EndsOpen(one, args) then after else more;
    if p.terminated || (p.rest != [] && LooksTerminated(args, p.rest)) {
      StopsWhereItStopped(one, args, more);
    } else if p.rest == [] {
      assert p.used == args && [] + after == after;
      FlagsInContext(one, args, more);
      Associate(args, ["--"], after);
      TerminatorIsFinal(one, args, p.values, after);
    } else {
      var r := Interspersed(one, p.rest[1..]);
      GoesOnWhereItWentOn(one, args, more);
      AfterTerminatorVerbatim(one, p.rest[1..], after);
      BeforeSplit(p.values, p.rest[0], r, kept);
    }
  }
}
