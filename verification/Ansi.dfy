/**
 * internal/kube/color.go: SGR escape sequences, the text that is left without them, and
 * the one-pass width scanner. A string is a sequence of code points, so a rune count is a
 * length.
 */
module Ansi {

  const ESCAPE: char := '\U{1B}'
  const RESET := "\U{1B}[0m"
  const BOLD := "\U{1B}[1m"
  const RED := "\U{1B}[31m"
  const GREEN := "\U{1B}[32m"
  const YELLOW := "\U{1B}[33m"
  const GRAY := "\U{1B}[90m"

  predicate Parameter(c: char) { c == ';' || '0' <= c <= '9' }

  // ---- meaning -----------------------------------------------------------------------

  /** `m` is in the language of the regexp  ESC [ [0-9;]* m. */
  ghost predicate IsSgr(m: string) {
    && |m| >= 3 && m[0] == ESCAPE && m[1] == '[' && m[|m| - 1] == 'm'
    && forall k :: 2 <= k < |m| - 1 ==> Parameter(m[k])
  }

  /** The language written out, by character codes: ESC, "[", digits and semicolons, "m". */
  lemma SgrLanguage(m: string)
    ensures IsSgr(m) <==> exists params: string :: m == "\U{1B}[" + params + "m" && SgrParameters(params)
  {
    if IsSgr(m) {
      var params := m[2..|m| - 1];
      assert m == "\U{1B}[" + params + "m" && SgrParameters(params);
    }
    if params: string :| m == "\U{1B}[" + params + "m" && SgrParameters(params) {
      forall k | 2 <= k < |m| - 1 ensures Parameter(m[k]) {
        assert m[k] == params[k - 2] && params[k - 2] in params;
      }
    }
  }

  predicate SgrParameters(params: string) {
    forall c :: c in params ==> c as int == 0x3B || 0x30 <= c as int <= 0x39
  }

  ghost predicate MatchAt(s: string, a: int, b: int) {
    0 <= a < b <= |s| && IsSgr(s[a..b])
  }

  /** Position `p` lies inside some substring the regexp matches. */
  ghost predicate Covered(s: string, p: int) {
    exists a, b :: MatchAt(s, a, b) && a <= p < b
  }

  /** The characters from position `i` on that no match covers. */
  ghost function VisibleFrom(s: string, i: nat): string
    requires i <= |s|
    decreases |s| - i
  {
    if i == |s| then ""
    else (if Covered(s, i) then "" else [s[i]]) + VisibleFrom(s, i + 1)
  }

  ghost function Visible(s: string): string { VisibleFrom(s, 0) }

  // ---- the leftmost, longest replacement ------------------------------------------------

  /** The first position at or after `j` that holds no parameter character. */
  function ParametersEnd(s: string, j: nat): (e: nat)
    requires j <= |s|
    ensures j <= e <= |s|
    decreases |s| - j
  {
    if j < |s| && Parameter(s[j]) then ParametersEnd(s, j + 1) else j
  }

  lemma {:induction false} ParametersEndIs(s: string, j: nat)
    requires j <= |s|
    ensures forall k :: j <= k < ParametersEnd(s, j) ==> Parameter(s[k])
    ensures ParametersEnd(s, j) < |s| ==> !Parameter(s[ParametersEnd(s, j)])
    decreases |s| - j
  {
    if j < |s| && Parameter(s[j]) { ParametersEndIs(s, j + 1); }
  }

  /** The length of the sequence `s` begins with, or 0. */
  function MatchLength(s: string): (n: nat)
    ensures n <= |s|
  {
    if |s| >= 2 && s[0] == ESCAPE && s[1] == '[' then
      var e := ParametersEnd(s, 2);
      if e < |s| && s[e] == 'm' then e + 1 else 0
    else 0
  }

  lemma MatchLengthIsSgr(s: string)
    ensures MatchLength(s) > 0 ==> IsSgr(s[..MatchLength(s)])
  {
    if |s| >= 2 { ParametersEndIs(s, 2); }
  }

  function Strip(s: string): (t: string)
    ensures |t| <= |s|
  {
    if s == "" then ""
    else if MatchLength(s) > 0 then Strip(s[MatchLength(s)..])
    else [s[0]] + Strip(s[1..])
  }

  function Width(s: string): nat { |Strip(s)| }

  /** A match cannot be extended or cut short: its end is the first 'm' after parameters. */
  lemma MatchIsUnique(s: string, n: nat)
    requires n <= |s| && IsSgr(s[..n])
    ensures MatchLength(s) == n
  {
    var m := s[..n];
    assert s[0] == m[0] && s[1] == m[1] && s[n - 1] == m[n - 1];
    ParametersEndIs(s, 2);
    assert forall k :: 0 <= k < n ==> m[k] == s[k];
  }

  lemma TailSlice(s: string, a: nat, b: nat)
    requires a <= b <= |s|
    ensures s[a..][..b - a] == s[a..b]
  {
  }

  /** Two matches that overlap are the same match. */
  lemma MatchesDisjoint(s: string, a: int, b: int, c: int, d: int)
    requires MatchAt(s, a, b) && MatchAt(s, c, d) && a <= c < b
    ensures a == c && b == d
  {
    assert s[c] == s[c..d][0] == ESCAPE;
    assert s[c] == s[a..b][c - a];
    if a < c {
      assert false;
    }
    TailSlice(s, a, b);
    TailSlice(s, c, d);
    MatchIsUnique(s[a..], b - a);
    MatchIsUnique(s[a..], d - a);
  }

  /** No match starts before `i` and ends after it. */
  ghost predicate Boundary(s: string, i: int) {
    forall a, b :: MatchAt(s, a, b) ==> !(a < i < b)
  }

  lemma {:induction false} SkipCovered(s: string, i: nat, j: nat)
    requires i <= j <= |s|
    requires forall p :: i <= p < j ==> Covered(s, p)
    ensures VisibleFrom(s, i) == VisibleFrom(s, j)
    decreases j - i
  {
    if i < j { SkipCovered(s, i + 1, j); }
  }

  lemma BoundaryAfterMatch(s: string, i: nat, j: nat)
    requires Boundary(s, i) && MatchAt(s, i, j)
    ensures Boundary(s, j)
  {
    forall a, b | MatchAt(s, a, b) ensures !(a < j < b) {
      if i <= a < j { MatchesDisjoint(s, i, j, a, b); }
    }
  }

  lemma MatchedHere(s: string, i: nat)
    requires i < |s| && Boundary(s, i) && MatchLength(s[i..]) > 0
    ensures var j := i + MatchLength(s[i..]);
      j <= |s| && MatchAt(s, i, j) && Boundary(s, j) && VisibleFrom(s, i) == VisibleFrom(s, j)
  {
    var j := i + MatchLength(s[i..]);
    MatchLengthIsSgr(s[i..]);
    TailSlice(s, i, j);
    BoundaryAfterMatch(s, i, j);
    forall p | i <= p < j ensures Covered(s, p) { assert MatchAt(s, i, j); }
    SkipCovered(s, i, j);
  }

  lemma PlainHere(s: string, i: nat)
    requires i < |s| && Boundary(s, i) && MatchLength(s[i..]) == 0
    ensures !Covered(s, i) && Boundary(s, i + 1)
  {
    forall a, b | MatchAt(s, a, b) ensures a != i {
      if a == i {
        assert s[i..][..b - i] == s[a..b];
        MatchIsUnique(s[i..], b - i);
      }
    }
  }

  /** One step of the replacement, seen from position `i`. */
  lemma StripStep(s: string, i: nat)
    requires i < |s|
    ensures var n := MatchLength(s[i..]);
      if n > 0 then Strip(s[i..]) == Strip(s[i + n..]) else Strip(s[i..]) == [s[i]] + Strip(s[i + 1..])
  {
    var n := MatchLength(s[i..]);
    assert s[i..][n..] == s[i + n..] && s[i..][1..] == s[i + 1..];
  }

  /** Both forms take the same step to the next boundary. */
  lemma StripFromNext(s: string, i: nat) returns (j: nat)
    requires i < |s| && Boundary(s, i)
    ensures i < j <= |s| && Boundary(s, j)
    ensures Strip(s[j..]) == VisibleFrom(s, j) ==> Strip(s[i..]) == VisibleFrom(s, i)
  {
    StripStep(s, i);
    if MatchLength(s[i..]) > 0 {
      MatchedHere(s, i);
      j := i + MatchLength(s[i..]);
    } else {
      PlainHere(s, i);
      j := i + 1;
    }
  }

  lemma {:induction false} StripFrom(s: string, i: nat)
    requires i <= |s| && Boundary(s, i)
    ensures Strip(s[i..]) == VisibleFrom(s, i)
    decreases |s| - i
  {
    if i < |s| {
      var j := StripFromNext(s, i);
      StripFrom(s, j);
    }
  }

  /** Replacing leftmost matches one after the other leaves exactly the uncovered text. */
  lemma StripIsVisible(s: string)
    ensures Strip(s) == Visible(s)
  {
    assert Boundary(s, 0);
    StripFrom(s, 0);
    assert s[0..] == s;
  }

  lemma {:induction false} StripPlain(s: string)
    requires ESCAPE !in s
    ensures Strip(s) == s
  {
    if s != "" { StripPlain(s[1..]); }
  }

  /** color.go:67-72. The escape-free fast path returns its input. */
  method StripAnsi(s: string) returns (t: string)
    ensures t == Visible(s)
  {
    StripIsVisible(s);
    if ESCAPE !in s {
      StripPlain(s);
      return s;
    }
    return Strip(s);
  }

  /** How many visible characters are left from position `i` on. */
  ghost function Left(s: string, i: nat): nat
    requires i <= |s|
  {
    |Strip(s[i..])|
  }

  lemma LeftAtEnds(s: string)
    ensures Left(s, 0) == |Visible(s)| && Left(s, |s|) == 0
  {
    StripIsVisible(s);
    assert s[0..] == s;
  }

  lemma PassPlain(s: string, i: nat)
    requires i < |s| && !(s[i] == ESCAPE && i + 1 < |s| && s[i + 1] == '[')
    ensures Left(s, i) == 1 + Left(s, i + 1)
  {
    StripStep(s, i);
  }

  lemma MatchLengthHere(s: string, i: nat, j: nat)
    requires i + 2 <= j <= |s| && s[i] == ESCAPE && s[i + 1] == '['
    requires forall k :: i + 2 <= k < j ==> Parameter(s[k])
    requires j < |s| ==> !Parameter(s[j])
    ensures MatchLength(s[i..]) == if j < |s| && s[j] == 'm' then j + 1 - i else 0
  {
    var e := ParametersEnd(s[i..], 2);
    ParametersEndIs(s[i..], 2);
    assert forall k :: i <= k < |s| ==> s[i..][k - i] == s[k];
    assert e == j - i;
  }

  lemma PassSequence(s: string, i: nat, j: nat)
    requires i + 2 <= j <= |s| && s[i] == ESCAPE && s[i + 1] == '['
    requires forall k :: i + 2 <= k < j ==> Parameter(s[k])
    requires j < |s| ==> !Parameter(s[j])
    ensures if j < |s| && s[j] == 'm' then Left(s, i) == Left(s, j + 1) else Left(s, i) == 1 + Left(s, i + 1)
  {
    MatchLengthHere(s, i, j);
    StripStep(s, i);
  }

  method ScanParameters(s: string, i: nat) returns (j: nat)
    requires i <= |s|
    ensures i <= j <= |s|
    ensures forall k :: i <= k < j ==> Parameter(s[k])
    ensures j < |s| ==> !Parameter(s[j])
  {
    j := i;
    while j < |s| && (s[j] == ';' || '0' <= s[j] <= '9')
      invariant i <= j <= |s|
      invariant forall k :: i <= k < j ==> Parameter(s[k])
    {
      j := j + 1;
    }
  }

  /** color.go:81-107. */
  method VisibleWidth(s: string) returns (n: nat)
    ensures n == |Visible(s)|
  {
    LeftAtEnds(s);
    if ESCAPE !in s {
      StripIsVisible(s);
      StripPlain(s);
      return |s|;
    }
    n := 0;
    var i := 0;
    while i < |s|
      invariant 0 <= i <= |s|
      invariant n + Left(s, i) == |Visible(s)|
    {
      if s[i] == ESCAPE && i + 1 < |s| && s[i + 1] == '[' {
        var j := ScanParameters(s, i + 2);
        PassSequence(s, i, j);
        if j < |s| && s[j] == 'm' {
          i := j + 1;
          continue;
        }
      } else {
        PassPlain(s, i);
      }
      i := i + 1;
      n := n + 1;
    }
  }

  // ---- gluing text ---------------------------------------------------------------------

  /** No sequence can run across a position that holds `c`. */
  predicate Breaks(c: char) { c != '[' && c != 'm' && !Parameter(c) }

  lemma {:induction false} ParametersEndAppend(a: string, b: string, j: nat)
    requires j <= |a| && (b == "" || !Parameter(b[0]))
    ensures ParametersEnd(a + b, j) == ParametersEnd(a, j)
    decreases |a| - j
  {
    if j < |a| && Parameter(a[j]) { ParametersEndAppend(a, b, j + 1); }
  }

  lemma MatchLengthAppend(a: string, b: string)
    requires a != "" && (b == "" || Breaks(b[0]))
    ensures MatchLength(a + b) == MatchLength(a)
  {
    if |a| >= 2 {
      ParametersEndAppend(a, b, 2);
    }
  }

  lemma {:induction false} StripAppend(a: string, b: string)
    requires b == "" || Breaks(b[0])
    ensures Strip(a + b) == Strip(a) + Strip(b)
  {
    if a == "" {
      assert a + b == b;
    } else {
      MatchLengthAppend(a, b);
      var n := if MatchLength(a) > 0 then MatchLength(a) else 1;
      AppendTail(a, b, n);
      StripAppend(a[n..], b);
      StripFirst(a);
      StripFirst(a + b);
    }
  }

  lemma AppendTail(a: string, b: string, n: nat)
    requires n <= |a|
    ensures (a + b)[n..] == a[n..] + b
  {
  }

  lemma StripFirst(s: string)
    requires s != ""
    ensures var n := MatchLength(s);
      Strip(s) == if n > 0 then Strip(s[n..]) else [s[0]] + Strip(s[1..])
  {
  }

  lemma StripSgrPrefix(m: string, s: string)
    requires IsSgr(m)
    ensures Strip(m + s) == Strip(s)
  {
    assert (m + s)[..|m|] == m;
    MatchIsUnique(m + s, |m|);
    assert (m + s)[|m|..] == s;
  }

  // ---- Painter ---------------------------------------------------------------------------

  /** color.go:31-36. */
  function Paint(enabled: bool, code: string, s: string): string {
    if !enabled || s == "" then s else code + s + RESET
  }

  /** Painted text is the code, the text and a reset; nothing is painted when colour is off. */
  lemma PaintFrames(enabled: bool, code: string, s: string)
    ensures !enabled || s == "" ==> Paint(enabled, code, s) == s
    ensures enabled && s != "" ==>
      var p, n := Paint(enabled, code, s), |code|;
      |p| == n + |s| + 4 && p[..n] == code && p[n..n + |s|] == s && p[n + |s|..] == "\U{1B}[0m"
  {
  }

  /** Colour never changes what is visible, whatever broken escapes the text carries. */
  lemma PaintIsInvisible(enabled: bool, code: string, s: string)
    requires IsSgr(code)
    ensures Visible(Paint(enabled, code, s)) == Visible(s)
    ensures Strip(Paint(enabled, code, s)) == Strip(s)
  {
    StripIsVisible(s);
    StripIsVisible(Paint(enabled, code, s));
    assert RESET + "" == RESET;
    StripSgrPrefix(RESET, "");
    StripAppend(s, RESET);
    assert code + s + RESET == code + (s + RESET);
    StripSgrPrefix(code, s + RESET);
  }

  // ---- stripping twice -------------------------------------------------------------------

  ghost predicate BeginsSequence(t: string) { exists n :: 0 < n <= |t| && IsSgr(t[..n]) }

  /** The uncovered characters from the uncovered position `i` on begin with a sequence, which
      the covered ones in between kept apart. */
  ghost predicate Assembles(s: string, i: nat) {
    i < |s| && !Covered(s, i) && BeginsSequence(VisibleFrom(s, i))
  }

  lemma BeginsWhenMatched(t: string)
    ensures BeginsSequence(t) <==> MatchLength(t) > 0
  {
    MatchLengthIsSgr(t);
    if n :| 0 < n <= |t| && IsSgr(t[..n]) { MatchIsUnique(t, n); }
  }

  /** One more character in front of a text. */
  lemma StripCons(c: char, t: string)
    ensures MatchLength([c] + t) == 0 ==> Strip([c] + t) == [c] + Strip(t)
    ensures MatchLength([c] + t) > 0 ==> |Strip([c] + t)| < 1 + |t|
  {
    StripFirst([c] + t);
    assert ([c] + t)[1..] == t;
  }

  lemma VisibleStep(s: string, i: nat)
    requires i < |s|
    ensures VisibleFrom(s, i) == if Covered(s, i) then VisibleFrom(s, i + 1) else [s[i]] + VisibleFrom(s, i + 1)
  {
  }

  lemma {:induction false} StripTwiceShrinks(s: string, i: nat, j: nat)
    requires i <= j && Assembles(s, j)
    ensures |Strip(VisibleFrom(s, i))| < |VisibleFrom(s, i)|
    decreases j - i
  {
    VisibleStep(s, i);
    if i == j {
      BeginsWhenMatched(VisibleFrom(s, i));
    } else {
      StripTwiceShrinks(s, i + 1, j);
    }
    StripCons(s[i], VisibleFrom(s, i + 1));
  }

  lemma StripTwiceStaysStep(s: string, i: nat)
    requires i < |s| && !Assembles(s, i) && Strip(VisibleFrom(s, i + 1)) == VisibleFrom(s, i + 1)
    ensures Strip(VisibleFrom(s, i)) == VisibleFrom(s, i)
  {
    VisibleStep(s, i);
    if !Covered(s, i) {
      BeginsWhenMatched(VisibleFrom(s, i));
      StripCons(s[i], VisibleFrom(s, i + 1));
    }
  }

  lemma {:induction false} StripTwiceStays(s: string, i: nat)
    requires i <= |s| && forall j :: i <= j ==> !Assembles(s, j)
    ensures Strip(VisibleFrom(s, i)) == VisibleFrom(s, i)
    decreases |s| - i
  {
    if i < |s| {
      StripTwiceStays(s, i + 1);
      StripTwiceStaysStep(s, i);
    }
  }

  /** Stripping a second time changes nothing exactly when the uncovered characters nowhere
      join up to a sequence. */
  lemma StripTwiceExactly(s: string)
    ensures Strip(Strip(s)) == Strip(s) <==> forall i :: !Assembles(s, i)
  {
    StripIsVisible(s);
    if i :| Assembles(s, i) {
      StripTwiceShrinks(s, 0, i);
    } else {
      StripTwiceStays(s, 0);
    }
  }

  /** In particular when every escape character belongs to a sequence, as in painted text. */
  lemma WellFormedStripsToPlain(s: string)
    requires forall p :: 0 <= p < |s| && s[p] == ESCAPE ==> Covered(s, p)
    ensures ESCAPE !in Strip(s) && Strip(Strip(s)) == Strip(s)
  {
    StripIsVisible(s);
    NoEscapeVisible(s, 0);
    StripPlain(Strip(s));
  }

  lemma {:induction false} NoEscapeVisible(s: string, i: nat)
    requires i <= |s| && forall p :: 0 <= p < |s| && s[p] == ESCAPE ==> Covered(s, p)
    ensures ESCAPE !in VisibleFrom(s, i)
    decreases |s| - i
  {
    if i < |s| { NoEscapeVisible(s, i + 1); }
  }

  /** It can happen: removing the inner sequence here leaves a new one behind, which a second
      pass would remove. */
  lemma StripLeavesSequencesItCreates()
    ensures var s := "\U{1B}[\U{1B}[0mm"; Strip(s) == "\U{1B}[m" && Strip(Strip(s)) == ""
  {
    var s := "\U{1B}[\U{1B}[0mm";
    assert MatchLength(s) == 0;
    assert s[1..][1..] == "\U{1B}[0m" + "m";
    assert MatchLength(s[1..]) == 0;
    assert s[1..][0] == '[';
    StripSgrPrefix("\U{1B}[0m", "m");
    assert MatchLength("m") == 0;
    assert Strip("m") == "m" + Strip("m"[1..]);
    assert Strip(s) == "\U{1B}[m";
    assert "\U{1B}[m" + "" == "\U{1B}[m";
    StripSgrPrefix("\U{1B}[m", "");
  }
}
