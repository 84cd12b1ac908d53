/** Stable sorting by a total preorder: what `slices.SortStableFunc` documents. */
module Sorting {
  import opened Sequences

  ghost predicate TotalPreorder<T(!new)>(le: (T, T) -> bool) {
    && (forall x, y :: le(x, y) || le(y, x))
    && (forall x, y, z :: le(x, y) && le(y, z) ==> le(x, z))
  }

  predicate Tied<T>(le: (T, T) -> bool, x: T, y: T) { le(x, y) && le(y, x) }

  /** Every element is at most every later one. */
  ghost predicate Sorted<T>(xs: seq<T>, le: (T, T) -> bool) {
    forall i, j :: 0 <= i < j < |xs| ==> le(xs[i], xs[j])
  }

  /** The elements tied with `x`, in order of appearance. */
  ghost function Class<T>(xs: seq<T>, le: (T, T) -> bool, x: T): seq<T> {
    if xs == [] then []
    else if Tied(le, x, xs[0]) then [xs[0]] + Class(xs[1..], le, x)
    else Class(xs[1..], le, x)
  }

  /** `ys` is a stable sort of `xs`: in order, with every tie left as it was. */
  ghost predicate StableSortOf<T(!new)>(xs: seq<T>, ys: seq<T>, le: (T, T) -> bool) {
    Sorted(ys, le) && forall x :: Class(xs, le, x) == Class(ys, le, x)
  }

  function Insert<T>(x: T, ys: seq<T>, le: (T, T) -> bool): (r: seq<T>)
    ensures |r| == |ys| + 1
    ensures multiset(r) == multiset{x} + multiset(ys)
  {
    if ys == [] then [x]
    else if le(x, ys[0]) then [x] + ys
    else
      assert ys == [ys[0]] + ys[1..];
      [ys[0]] + Insert(x, ys[1..], le)
  }

  function StableSort<T>(xs: seq<T>, le: (T, T) -> bool): (ys: seq<T>)
    ensures |ys| == |xs|
    ensures multiset(ys) == multiset(xs)
  {
    if xs == [] then []
    else
      assert xs == [xs[0]] + xs[1..];
      Insert(xs[0], StableSort(xs[1..], le), le)
  }

  lemma {:induction false} ClassMember<T>(xs: seq<T>, le: (T, T) -> bool, x: T, y: T)
    ensures y in Class(xs, le, x) <==> y in xs && Tied(le, x, y)
  {
    if xs != [] { ClassMember(xs[1..], le, x, y); }
  }

  lemma {:induction false} InsertSorted<T(!new)>(x: T, ys: seq<T>, le: (T, T) -> bool)
    requires TotalPreorder(le) && Sorted(ys, le)
    ensures Sorted(Insert(x, ys, le), le)
  {
    if ys != [] && !le(x, ys[0]) {
      InsertSorted(x, ys[1..], le);
      var rest := Insert(x, ys[1..], le);
      forall j | 0 <= j < |rest| ensures le(ys[0], rest[j]) {
        assert rest[j] in multiset(rest);
      }
    }
  }

  lemma {:induction false} InsertClass<T(!new)>(x: T, ys: seq<T>, le: (T, T) -> bool, z: T)
    requires TotalPreorder(le)
    ensures Class(Insert(x, ys, le), le, z) == Class([x] + ys, le, z)
  {
    assert ([x] + ys)[1..] == ys;
    if ys != [] && !le(x, ys[0]) {
      var rest := Insert(x, ys[1..], le);
      InsertClass(x, ys[1..], le, z);
      assert ([x] + ys[1..])[1..] == ys[1..];
      assert ([ys[0]] + rest)[1..] == rest;
    }
  }

  lemma {:induction false} StableSortSorted<T(!new)>(xs: seq<T>, le: (T, T) -> bool)
    requires TotalPreorder(le)
    ensures Sorted(StableSort(xs, le), le)
  {
    if xs != [] {
      StableSortSorted(xs[1..], le);
      InsertSorted(xs[0], StableSort(xs[1..], le), le);
    }
  }

  lemma {:induction false} StableSortClass<T(!new)>(xs: seq<T>, le: (T, T) -> bool, z: T)
    requires TotalPreorder(le)
    ensures Class(StableSort(xs, le), le, z) == Class(xs, le, z)
  {
    if xs != [] {
      var rest := StableSort(xs[1..], le);
      StableSortClass(xs[1..], le, z);
      InsertClass(xs[0], rest, le, z);
      assert ([xs[0]] + rest)[1..] == rest;
    }
  }

  /** StableSort meets the definition ... */
  lemma StableSortIsStable<T(!new)>(xs: seq<T>, le: (T, T) -> bool)
    requires TotalPreorder(le)
    ensures StableSortOf(xs, StableSort(xs, le), le)
  {
    StableSortSorted(xs, le);
    forall z { StableSortClass(xs, le, z); }
  }

  lemma HeadsAgree<T(!new)>(xs: seq<T>, ys: seq<T>, le: (T, T) -> bool)
    requires TotalPreorder(le) && Sorted(xs, le) && Sorted(ys, le)
    requires xs != [] && ys != []
    requires Class(xs, le, xs[0]) == Class(ys, le, xs[0]) && Class(xs, le, ys[0]) == Class(ys, le, ys[0])
    ensures xs[0] == ys[0]
  {
    var x, y := xs[0], ys[0];
    assert Tied(le, x, x) && Tied(le, y, y);
    ClassMember(xs, le, x, x);
    ClassMember(ys, le, x, x);
    ClassMember(ys, le, y, y);
    ClassMember(xs, le, y, y);
    assert le(x, y) by { var j :| 0 <= j < |xs| && xs[j] == y; }
    assert le(y, x) by { var j :| 0 <= j < |ys| && ys[j] == x; }
    assert Class(xs, le, x)[0] == x && Class(ys, le, x)[0] == y;
  }

  /** ... and nothing else does: the order and the ties pin down the whole result. */
  lemma {:induction false} StableSortUnique<T(!new)>(xs: seq<T>, ys: seq<T>, le: (T, T) -> bool)
    requires TotalPreorder(le) && Sorted(xs, le) && Sorted(ys, le)
    requires forall z :: Class(xs, le, z) == Class(ys, le, z)
    ensures xs == ys
  {
    if xs == [] || ys == [] {
      if xs != [] { assert Tied(le, xs[0], xs[0]); ClassMember(xs, le, xs[0], xs[0]); }
      if ys != [] { assert Tied(le, ys[0], ys[0]); ClassMember(ys, le, ys[0], ys[0]); }
    } else {
      HeadsAgree(xs, ys, le);
      forall z ensures Class(xs[1..], le, z) == Class(ys[1..], le, z) {
        assert Class(xs, le, z) == Class(ys, le, z);
        if Tied(le, z, xs[0]) {
          assert Class(xs[1..], le, z) == Class(xs, le, z)[1..];
          assert Class(ys[1..], le, z) == Class(ys, le, z)[1..];
        }
      }
      StableSortUnique(xs[1..], ys[1..], le);
    }
  }

  /** The one stable sort of `xs` is the one computed. */
  lemma StableSortCharacterised<T(!new)>(xs: seq<T>, ys: seq<T>, le: (T, T) -> bool)
    requires TotalPreorder(le)
    ensures StableSortOf(xs, ys, le) <==> ys == StableSort(xs, le)
  {
    StableSortIsStable(xs, le);
    if StableSortOf(xs, ys, le) {
      StableSortUnique(ys, StableSort(xs, le), le);
    }
  }

  // ---- decorate, sort, undecorate ------------------------------------------------

  /** Sorting by an extracted key and projecting agrees with sorting the projections,
      as long as the two comparisons agree on the elements at hand. */
  lemma {:induction false} SortCommutesWithMap<A, B>(f: A -> B, xs: seq<A>, leA: (A, A) -> bool, leB: (B, B) -> bool)
    requires forall x, y :: x in xs && y in xs ==> leA(x, y) == leB(f(x), f(y))
    ensures StableSort(Map(f, xs), leB) == Map(f, StableSort(xs, leA))
  {
    if xs != [] {
      SortCommutesWithMap(f, xs[1..], leA, leB);
      var rest := StableSort(xs[1..], leA);
      forall y | y in rest ensures y in xs {
        assert y in multiset(rest);
      }
      InsertCommutesWithMap(f, xs[0], rest, leA, leB);
    }
  }

  lemma {:induction false} InsertCommutesWithMap<A, B>(f: A -> B, x: A, ys: seq<A>, leA: (A, A) -> bool,
      leB: (B, B) -> bool)
    requires forall y :: y in ys ==> leA(x, y) == leB(f(x), f(y))
    ensures Insert(f(x), Map(f, ys), leB) == Map(f, Insert(x, ys, leA))
  {
    if ys != [] && !leA(x, ys[0]) {
      InsertCommutesWithMap(f, x, ys[1..], leA, leB);
    }
  }

  // ---- two passes are one lexicographic pass ----------------------------------------

  function Lex<T>(first: (T, T) -> bool, second: (T, T) -> bool): (T, T) -> bool {
    (x, y) => first(x, y) && (first(y, x) ==> second(x, y))
  }

  lemma LexTotal<T(!new)>(first: (T, T) -> bool, second: (T, T) -> bool)
    requires TotalPreorder(first) && TotalPreorder(second)
    ensures TotalPreorder(Lex(first, second))
  {
  }

  lemma {:induction false} ClassesSortedLex<T(!new)>(ys: seq<T>, first: (T, T) -> bool, second: (T, T) -> bool)
    requires TotalPreorder(first) && Sorted(ys, first)
    requires forall x :: Sorted(Class(ys, first, x), second)
    ensures Sorted(ys, Lex(first, second))
  {
    if ys != [] {
      var h, t := ys[0], ys[1..];
      forall x ensures Sorted(Class(t, first, x), second) {
        assert Sorted(Class(ys, first, x), second);
        if Tied(first, x, h) {
          assert Class(ys, first, x)[1..] == Class(t, first, x);
        }
      }
      ClassesSortedLex(t, first, second);
      forall j | 0 <= j < |t| ensures Lex(first, second)(h, t[j]) {
        if first(t[j], h) {
          HeadBelowClass(ys, first, second, t[j]);
        }
      }
    }
  }

  lemma HeadBelowClass<T(!new)>(ys: seq<T>, first: (T, T) -> bool, second: (T, T) -> bool, y: T)
    requires TotalPreorder(first) && ys != [] && y in ys[1..] && Tied(first, ys[0], y)
    requires Sorted(Class(ys, first, ys[0]), second)
    ensures second(ys[0], y)
  {
    var h, t := ys[0], ys[1..];
    assert Class(ys, first, h) == [h] + Class(t, first, h);
    ClassMember(t, first, h, y);
    var k :| 0 <= k < |Class(t, first, h)| && Class(t, first, h)[k] == y;
    assert Class(ys, first, h)[0] == h && Class(ys, first, h)[k + 1] == y;
  }

  lemma {:induction false} ClassSorted<T>(xs: seq<T>, le: (T, T) -> bool, tie: (T, T) -> bool, x: T)
    requires Sorted(xs, le)
    ensures Sorted(Class(xs, tie, x), le)
  {
    if xs != [] {
      ClassSorted(xs[1..], le, tie, x);
      var t := Class(xs[1..], tie, x);
      forall j | 0 <= j < |t| ensures le(xs[0], t[j]) {
        ClassMember(xs[1..], tie, x, t[j]);
      }
    }
  }

  lemma {:induction false} LexClass<T>(xs: seq<T>, a: (T, T) -> bool, b: (T, T) -> bool, x: T)
    ensures Class(xs, Lex(a, b), x) == Class(Class(xs, a, x), b, x)
    ensures Class(Class(xs, a, x), b, x) == Class(Class(xs, b, x), a, x)
  {
    if xs != [] {
      LexClass(xs[1..], a, b, x);
    }
  }

  /** A stable sort by `second` followed by one by `first` is one sort by (first, second). */
  lemma TwoPassesAreLexicographic<T(!new)>(xs: seq<T>, first: (T, T) -> bool, second: (T, T) -> bool)
    requires TotalPreorder(first) && TotalPreorder(second)
    ensures StableSort(StableSort(xs, second), first) == StableSort(xs, Lex(first, second))
  {
    var mid := StableSort(xs, second);
    var out := StableSort(mid, first);
    StableSortSorted(xs, second);
    StableSortSorted(mid, first);
    LexTotal(first, second);
    forall x ensures Sorted(Class(out, first, x), second) {
      ClassSorted(mid, second, first, x);
      StableSortClass(mid, first, x);
    }
    ClassesSortedLex(out, first, second);
    forall x ensures Class(xs, Lex(first, second), x) == Class(out, Lex(first, second), x) {
      LexClass(xs, first, second, x);
      LexClass(mid, first, second, x);
      LexClass(out, first, second, x);
      StableSortClass(mid, first, x);
      StableSortClass(xs, second, x);
    }
    StableSortCharacterised(xs, out, Lex(first, second));
  }

  /** When ties are equalities, only the multiset matters. */
  lemma {:induction false} ClassCount<T>(xs: seq<T>, le: (T, T) -> bool, z: T)
    requires Tied(le, z, z) && forall y :: y in xs && Tied(le, z, y) ==> y == z
    ensures Class(xs, le, z) == seq(multiset(xs)[z], _ => z)
  {
    if xs != [] {
      assert xs == [xs[0]] + xs[1..];
      ClassCount(xs[1..], le, z);
    }
  }

  lemma SortOfMultiset<T(!new)>(xs: seq<T>, ys: seq<T>, le: (T, T) -> bool)
    requires TotalPreorder(le) && forall x, y :: Tied(le, x, y) ==> x == y
    requires multiset(xs) == multiset(ys)
    ensures StableSort(xs, le) == StableSort(ys, le)
  {
    var a, b := StableSort(xs, le), StableSort(ys, le);
    StableSortSorted(xs, le);
    StableSortSorted(ys, le);
    forall z ensures Class(a, le, z) == Class(b, le, z) {
      assert Tied(le, z, z);
      ClassCount(a, le, z);
      ClassCount(b, le, z);
    }
    StableSortUnique(a, b, le);
  }

  lemma {:induction false} FilterSorted<T>(xs: seq<T>, p: T -> bool, le: (T, T) -> bool)
    requires Sorted(xs, le)
    ensures Sorted(Filter(xs, p), le)
  {
    if xs != [] {
      FilterSorted(xs[1..], p, le);
      var t := Filter(xs[1..], p);
      forall j | 0 <= j < |t| ensures le(xs[0], t[j]) {
        assert t[j] in xs[1..];
      }
    }
  }

  lemma {:induction false} FilterClass<T>(xs: seq<T>, p: T -> bool, le: (T, T) -> bool, z: T)
    ensures Class(Filter(xs, p), le, z) == Filter(Class(xs, le, z), p)
  {
    if xs != [] { FilterClass(xs[1..], p, le, z); }
  }

  /** Dropping rows before or after a stable sort gives the same list. */
  lemma FilterCommutesWithSort<T(!new)>(xs: seq<T>, p: T -> bool, le: (T, T) -> bool)
    requires TotalPreorder(le)
    ensures Filter(StableSort(xs, le), p) == StableSort(Filter(xs, p), le)
  {
    var sorted := StableSort(xs, le);
    StableSortSorted(xs, le);
    FilterSorted(sorted, p, le);
    forall z ensures Class(Filter(xs, p), le, z) == Class(Filter(sorted, p), le, z) {
      FilterClass(xs, p, le, z);
      FilterClass(sorted, p, le, z);
      StableSortClass(xs, le, z);
    }
    StableSortCharacterised(Filter(xs, p), Filter(sorted, p), le);
  }
}
