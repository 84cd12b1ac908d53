/** Strings as sequences of code points: order, case, decimal numbers, joining. */
module Text {
  import opened Sequences
  import opened Sorting

  /** `cmp.Compare` on strings: code-point order, which is byte order for valid UTF-8. */
  predicate AtMost(a: string, b: string) {
    a == "" || (b != "" && (a[0] < b[0] || (a[0] == b[0] && AtMost(a[1..], b[1..]))))
  }

  lemma {:induction false} AtMostTotal(a: string, b: string)
    ensures AtMost(a, b) || AtMost(b, a)
    ensures AtMost(a, b) && AtMost(b, a) ==> a == b
  {
    if a != "" && b != "" {
      AtMostTotal(a[1..], b[1..]);
      if a[0] == b[0] && a[1..] == b[1..] { assert a == [a[0]] + a[1..] == b; }
    }
  }

  lemma {:induction false} AtMostTransitive(a: string, b: string, c: string)
    requires AtMost(a, b) && AtMost(b, c)
    ensures AtMost(a, c)
  {
    if a != "" && a[0] == b[0] == c[0] { AtMostTransitive(a[1..], b[1..], c[1..]); }
  }

  /** What `AtMost` means: a prefix, or smaller at the first place where the two differ. */
  ghost predicate Precedes(a: string, b: string, k: nat) {
    && k <= |a| && k <= |b| && a[..k] == b[..k]
    && (k == |a| || (k < |b| && a[k] < b[k]))
  }

  lemma {:induction false} AtMostMeaning(a: string, b: string)
    ensures AtMost(a, b) <==> exists k :: Precedes(a, b, k)
  {
    if a == "" {
      assert Precedes(a, b, 0);
    } else if b != "" {
      AtMostMeaning(a[1..], b[1..]);
      if a[0] == b[0] {
        forall k: nat { PrecedesTail(a, b, k); }
        if k: nat :| Precedes(a[1..], b[1..], k) { assert Precedes(a, b, k + 1); }
        if k: nat :| Precedes(a, b, k) && k > 0 { assert Precedes(a[1..], b[1..], k - 1); }
      } else if a[0] < b[0] {
        assert Precedes(a, b, 0);
      } else {
        forall k: nat | Precedes(a, b, k) ensures k == 0 { PrecedesHead(a, b, k); }
      }
    }
  }

  lemma PrecedesHead(a: string, b: string, k: nat)
    requires Precedes(a, b, k)
    ensures k > 0 ==> a[0] == b[0]
  {
    if k > 0 { assert a[..k][0] == b[..k][0]; }
  }

  lemma PrecedesTail(a: string, b: string, k: nat)
    requires a != "" && b != "" && a[0] == b[0]
    ensures Precedes(a, b, k + 1) <==> Precedes(a[1..], b[1..], k)
  {
    if k + 1 <= |a| && k + 1 <= |b| {
      assert a[..k + 1] == [a[0]] + a[1..][..k] && b[..k + 1] == [b[0]] + b[1..][..k];
    }
  }

  function ByText(): (string, string) -> bool { (a, b) => AtMost(a, b) }

  lemma ByTextOrders()
    ensures TotalPreorder(ByText())
    ensures forall a, b :: Tied(ByText(), a, b) ==> a == b
  {
    forall a, b ensures AtMost(a, b) || AtMost(b, a) { AtMostTotal(a, b); }
    forall a, b | Tied(ByText(), a, b) ensures a == b { AtMostTotal(a, b); }
    forall a, b, c | AtMost(a, b) && AtMost(b, c) ensures AtMost(a, c) { AtMostTransitive(a, b, c); }
  }

  /** ASCII lower case, the folding the column names need. */
  function LowerChar(c: char): char {
    if 'A' <= c <= 'Z' then c + ' ' else c
  }

  function Lower(s: string): string { Map(c => LowerChar(c), s) }

  /** The same letter, in either case, or the same character. */
  predicate SameLetter(c: char, d: char) {
    || c == d
    || ('a' <= d <= 'z' && d as int == c as int + 32)
    || ('a' <= c <= 'z' && c as int == d as int + 32)
  }

  lemma LowerCharFolds(c: char, d: char)
    ensures LowerChar(c) == LowerChar(d) <==> SameLetter(c, d)
  {
  }

  /** Lower case tells texts apart exactly up to the case of their letters. */
  lemma LowerFolds(s: string, t: string)
    ensures Lower(s) == Lower(t) <==> |s| == |t| && forall i :: 0 <= i < |s| ==> SameLetter(s[i], t[i])
  {
    assert |Lower(s)| == |s| && |Lower(t)| == |t|;
    if |s| == |t| && forall i :: 0 <= i < |s| ==> SameLetter(s[i], t[i]) {
      forall i | 0 <= i < |s| ensures Lower(s)[i] == Lower(t)[i] { LowerCharFolds(s[i], t[i]); }
    }
    if Lower(s) == Lower(t) {
      forall i | 0 <= i < |s| ensures SameLetter(s[i], t[i]) {
        assert Lower(s)[i] == Lower(t)[i];
        LowerCharFolds(s[i], t[i]);
      }
    }
  }

  function Join(parts: seq<string>, sep: string): string {
    if parts == [] then ""
    else if |parts| == 1 then parts[0]
    else parts[0] + sep + Join(parts[1..], sep)
  }

  /** The pieces between the separators. */
  function Cut(s: string, c: char): (parts: seq<string>)
    ensures parts != []
  {
    if s == "" then [""]
    else
      var rest := Cut(s[1..], c);
      if s[0] == c then [""] + rest else [[s[0]] + rest[0]] + rest[1..]
  }

  lemma {:induction false} CutPiece(s: string, c: char, rest: string)
    requires c !in s
    ensures Cut(s + [c] + rest, c) == [s] + Cut(rest, c)
    ensures Cut(s, c) == [s]
  {
    var text := s + [c] + rest;
    if s == "" {
      assert text == [c] + rest && text[1..] == rest;
    } else {
      assert text[1..] == s[1..] + [c] + rest && text[0] == s[0];
      CutPiece(s[1..], c, rest);
      assert [s[0]] + s[1..] == s;
    }
  }

  /** Joined texts are got back by cutting, when none of them holds the separator. */
  lemma {:induction false} CutJoin(parts: seq<string>, c: char)
    requires parts != [] && forall s :: s in parts ==> c !in s
    ensures Cut(Join(parts, [c]), c) == parts
  {
    assert parts[0] in parts;
    if |parts| == 1 {
      CutPiece(parts[0], c, "");
    } else {
      CutPiece(parts[0], c, Join(parts[1..], [c]));
      CutJoin(parts[1..], c);
    }
  }

  // ---- decimal numbers -------------------------------------------------------------------

  predicate IsDigit(c: char) { '0' <= c <= '9' }

  function Digit(d: nat): char requires d < 10 { '0' + d as char }

  function Itoa(n: nat): (s: string)
    ensures s != "" && forall c :: c in s ==> IsDigit(c)
  {
    if n < 10 then [Digit(n)] else Itoa(n / 10) + [Digit(n % 10)]
  }

  function DigitsValue(s: string): nat
    requires forall c :: c in s ==> IsDigit(c)
  {
    if s == "" then 0
    else
      assert IsDigit(s[|s| - 1]);
      10 * DigitsValue(s[..|s| - 1]) + (s[|s| - 1] - '0') as nat
  }

  lemma {:induction false} ItoaValue(n: nat)
    ensures DigitsValue(Itoa(n)) == n
  {
    var s := Itoa(n);
    if n >= 10 {
      ItoaValue(n / 10);
      assert s[..|s| - 1] == Itoa(n / 10);
    } else {
      assert s[..0] == "";
    }
  }

  /** A digit counts for its place. */
  lemma {:induction false} DigitsPositional(a: string, b: string)
    requires forall c :: c in a || c in b ==> IsDigit(c)
    ensures forall c :: c in a + b ==> IsDigit(c)
    ensures DigitsValue(a + b) == DigitsValue(a) * Pow10(|b|) + DigitsValue(b)
  {
    if b == "" {
      assert a + b == a;
    } else {
      var init, d := b[..|b| - 1], b[|b| - 1];
      assert d in b && IsDigit(d);
      assert (a + b)[..|a + b| - 1] == a + init && (a + b)[|a + b| - 1] == d;
      DigitsPositional(a, init);
      Regroup(DigitsValue(a), Pow10(|init|), DigitsValue(init), (d - '0') as nat);
    }
  }

  lemma Regroup(a: nat, p: nat, b: nat, d: nat)
    ensures 10 * (a * p + b) + d == a * (10 * p) + (10 * b + d)
  {
    assert 10 * (a * p) == a * (10 * p);
  }

  const MAX_INT := 0x7FFF_FFFF_FFFF_FFFF

  /** `strconv.Atoi` on a 64-bit platform: an optional sign, digits, and the int64 range. */
  function Atoi(s: string): (r: Option<int>)
    ensures r.Some? ==> -MAX_INT - 1 <= r.value <= MAX_INT
  {
    var digits := if s != "" && (s[0] == '-' || s[0] == '+') then s[1..] else s;
    if digits == "" || exists c :: c in digits && !IsDigit(c) then None
    else
      var v: int := DigitsValue(digits);
      if s[0] == '-' then (if v <= MAX_INT + 1 then Some(-v) else None)
      else if v <= MAX_INT then Some(v) else None
  }

  ghost predicate SignedDigits(s: string, sign: string, digits: string) {
    && s == sign + digits && (sign == "" || sign == "+" || sign == "-")
    && digits != "" && forall c :: c in digits ==> IsDigit(c)
  }

  /** What is read: digits with at most one sign, as far as the type reaches. */
  lemma AtoiForms(digits: string)
    requires digits != "" && forall c :: c in digits ==> IsDigit(c)
    ensures var v: int := DigitsValue(digits);
      && Atoi(digits) == Atoi("+" + digits) == (if v <= MAX_INT then Some(v) else None)
      && Atoi("-" + digits) == (if v <= MAX_INT + 1 then Some(-v) else None)
  {
    assert digits[0] in digits && digits[0] != '-' && digits[0] != '+';
    SignCut('+', digits);
    SignCut('-', digits);
  }

  lemma SignCut(c: char, digits: string)
    ensures ([c] + digits)[0] == c && ([c] + digits)[1..] == digits
  {
  }

  /** ... and nothing else. */
  lemma AtoiReadsSignedDigits(s: string)
    requires Atoi(s).Some?
    ensures exists sign, digits :: SignedDigits(s, sign, digits)
  {
    if s[0] == '-' || s[0] == '+' {
      assert s == [s[0]] + s[1..];
      assert SignedDigits(s, [s[0]], s[1..]);
    } else {
      assert s == "" + s;
      assert SignedDigits(s, "", s);
    }
  }

  lemma AtoiInvertsItoa(n: nat)
    ensures Atoi(Itoa(n)) == if n <= MAX_INT then Some(n) else None
  {
    ItoaValue(n);
    assert Itoa(n)[0] in Itoa(n);
  }

  function Pow10(n: nat): (p: nat)
    ensures p > 0
  {
    if n == 0 then 1 else 10 * Pow10(n - 1)
  }

  lemma DivideTwice(n: nat, p: nat)
    requires p > 0
    ensures (n / 10) / p == n / (10 * p)
  {
    var q := (n / 10) / p;
    var r := (n / 10) % p;
    assert n / 10 == q * p + r && 0 <= r < p;
    assert n == 10 * (n / 10) + n % 10;
    Quotient(n, 10 * p, q, 10 * r + n % 10);
  }

  lemma Scale(x: int, y: int, d: nat)
    ensures x < y ==> y * d >= x * d + d
  {
    if x < y {
      var m := y - x - 1;
      assert y * d == (x + 1 + m) * d == x * d + d + m * d;
      assert m * d >= 0;
    }
  }

  lemma Quotient(n: nat, d: nat, q: nat, r: nat)
    requires d > 0 && n == q * d + r && r < d
    ensures n / d == q
  {
    var k := n / d;
    assert n == k * d + n % d && 0 <= n % d < d;
    Scale(k, q, d);
    Scale(q, k, d);
  }

  /** Each character is the decimal digit of its place, and the first is not a zero. */
  lemma {:induction false} ItoaDigits(n: nat, i: nat)
    requires i < |Itoa(n)|
    ensures Itoa(n)[i] == Digit(n / Pow10(|Itoa(n)| - 1 - i) % 10)
    ensures n > 0 ==> Itoa(n)[0] != '0'
    decreases n
  {
    var s := Itoa(n);
    if n >= 10 {
      if i < |s| - 1 {
        ItoaDigits(n / 10, i);
        DivideTwice(n, Pow10(|s| - 2 - i));
      } else {
        ItoaDigits(n / 10, 0);
      }
    }
  }
}
