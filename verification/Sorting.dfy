/**
 * `Array.prototype.sort` (section 23.1.3.30 of ECMA-262) as a stable sort by a
 * total preorder, and the proof that being sorted, stable and a permutation
 * leaves it no choice of result.
 */
module Sorting {
  import opened Sequences

  ghost predicate TotalPreorder<T(!new)>(le: (T, T) -> bool) {
    && (forall x, y :: le(x, y) || le(y, x))
    && (forall x, y, z :: le(x, y) && le(y, z) ==> le(x, z))
  }

  ghost predicate Sorted<T>(xs: seq<T>, le: (T, T) -> bool) {
    forall i, j :: 0 <= i < j < |xs| ==> le(xs[i], xs[j])
  }

  function Filter<T>(xs: seq<T>, p: T -> bool): (kept: seq<T>)
    ensures forall x | x in kept :: x in xs && p(x)
    ensures forall x | x in xs && p(x) :: x in kept
  {
    if xs == [] then []
    else if p(xs[0]) then [xs[0]] + Filter(xs[1..], p)
    else Filter(xs[1..], p)
  }

  /** Before the first element it may stand before. */
  function Insert<T>(x: T, xs: seq<T>, le: (T, T) -> bool): (r: seq<T>)
    ensures multiset(r) == multiset{x} + multiset(xs)
  {
    if xs == [] || le(x, xs[0]) then [x] + xs
    else
      assert xs == [xs[0]] + xs[1..];
      [xs[0]] + Insert(x, xs[1..], le)
  }

  function Sort<T>(xs: seq<T>, le: (T, T) -> bool): (r: seq<T>)
    ensures multiset(r) == multiset(xs)
  {
    if xs == [] then []
    else
      assert xs == [xs[0]] + xs[1..];
      Insert(xs[0], Sort(xs[1..], le), le)
  }

  lemma InMultiset<T>(x: T, xs: seq<T>, ys: seq<T>)
    requires multiset(xs) == multiset(ys) && x in xs
    ensures x in ys
  {
    assert x in multiset(xs);
  }

  lemma {:induction false} InsertSorted<T(!new)>(x: T, xs: seq<T>, le: (T, T) -> bool)
    requires TotalPreorder(le) && Sorted(xs, le)
    ensures Sorted(Insert(x, xs, le), le)
  {
    if xs != [] && !le(x, xs[0]) {
      InsertSorted(x, xs[1..], le);
      var rest := Insert(x, xs[1..], le);
      forall y | y in rest ensures le(xs[0], y) {
        assert y in multiset(rest);
        assert y == x || y in xs[1..];
      }
    }
  }

  lemma {:induction false} SortIsSorted<T(!new)>(xs: seq<T>, le: (T, T) -> bool)
    requires TotalPreorder(le)
    ensures Sorted(Sort(xs, le), le)
  {
    if xs != [] {
      SortIsSorted(xs[1..], le);
      InsertSorted(xs[0], Sort(xs[1..], le), le);
    }
  }

  /** All elements picked by `p` are tied with each other. */
  ghost predicate TieClass<T(!new)>(p: T -> bool, le: (T, T) -> bool) {
    forall x, y :: p(x) && p(y) ==> le(x, y)
  }

  lemma {:induction false} InsertStable<T(!new)>(x: T, xs: seq<T>, le: (T, T) -> bool, p: T -> bool)
    requires TieClass(p, le)
    ensures Filter(Insert(x, xs, le), p) == (if p(x) then [x] else []) + Filter(xs, p)
  {
    if xs == [] || le(x, xs[0]) {
      assert ([x] + xs)[1..] == xs;
    } else {
      InsertStable(x, xs[1..], le, p);
      var rest := Insert(x, xs[1..], le);
      assert ([xs[0]] + rest)[1..] == rest;
    }
  }

  /** Tied elements keep their order. */
  lemma {:induction false} SortIsStable<T(!new)>(xs: seq<T>, le: (T, T) -> bool, p: T -> bool)
    requires TieClass(p, le)
    ensures Filter(Sort(xs, le), p) == Filter(xs, p)
  {
    if xs != [] {
      SortIsStable(xs[1..], le, p);
      InsertStable(xs[0], Sort(xs[1..], le), le, p);
    }
  }

  /** Same elements, and tied elements in the same order. */
  ghost predicate SameUpToTies<T(!new)>(xs: seq<T>, ys: seq<T>, le: (T, T) -> bool) {
    && multiset(xs) == multiset(ys)
    && forall p: T -> bool :: TieClass(p, le) ==> Filter(xs, p) == Filter(ys, p)
  }

  lemma SortKeepsTies<T(!new)>(xs: seq<T>, le: (T, T) -> bool)
    ensures SameUpToTies(Sort(xs, le), xs, le)
  {
    forall p: T -> bool | TieClass(p, le) ensures Filter(Sort(xs, le), p) == Filter(xs, p) {
      SortIsStable(xs, le, p);
    }
  }

  lemma FirstElements<T(!new)>(xs: seq<T>, ys: seq<T>, le: (T, T) -> bool)
    requires TotalPreorder(le) && Sorted(xs, le) && Sorted(ys, le)
    requires xs != [] && ys != [] && SameUpToTies(xs, ys, le)
    ensures xs[0] == ys[0]
  {
    var a, b := xs[0], ys[0];
    InMultiset(a, xs, ys);
    InMultiset(b, ys, xs);
    assert le(a, a) && le(b, b);
    assert le(b, a) && le(a, b);
    var p := x => le(a, x) && le(x, a);
    assert TieClass(p, le);
    assert Filter(xs, p)[0] == a && Filter(ys, p)[0] == b;
  }

  lemma TailsSameUpToTies<T(!new)>(xs: seq<T>, ys: seq<T>, le: (T, T) -> bool)
    requires xs != [] && ys != [] && xs[0] == ys[0] && SameUpToTies(xs, ys, le)
    ensures SameUpToTies(xs[1..], ys[1..], le)
  {
    assert xs == [xs[0]] + xs[1..] && ys == [ys[0]] + ys[1..];
    assert multiset(xs[1..]) == multiset(xs) - multiset{xs[0]};
    assert multiset(ys[1..]) == multiset(ys) - multiset{ys[0]};
    forall p: T -> bool | TieClass(p, le) ensures Filter(xs[1..], p) == Filter(ys[1..], p) {
      assert Filter(xs, p) == Filter(ys, p);
      if p(xs[0]) {
        assert Filter(xs[1..], p) == Filter(xs, p)[1..] && Filter(ys[1..], p) == Filter(ys, p)[1..];
      }
    }
  }

  /** There is one stable sort: two sorted lists equal up to ties are equal. */
  lemma {:induction false} StableSortUnique<T(!new)>(xs: seq<T>, ys: seq<T>, le: (T, T) -> bool)
    requires TotalPreorder(le) && Sorted(xs, le) && Sorted(ys, le)
    requires SameUpToTies(xs, ys, le)
    ensures xs == ys
  {
    if xs == [] {
      assert multiset(ys) == multiset{};
      assert |multiset(ys)| == |ys|;
    } else {
      assert |multiset(ys)| == |ys| && |multiset(xs)| == |xs|;
      FirstElements(xs, ys, le);
      TailsSameUpToTies(xs, ys, le);
      StableSortUnique(xs[1..], ys[1..], le);
      assert xs == [xs[0]] + xs[1..] && ys == [ys[0]] + ys[1..];
    }
  }

  // ---------------------------------------------------------------- filtering

  lemma {:induction false} FilterAppend<T>(s: seq<T>, t: seq<T>, p: T -> bool)
    ensures Filter(s + t, p) == Filter(s, p) + Filter(t, p)
  {
    hide Filter;
    if s == [] {
      assert s + t == t;
      FilterEmpty(p);
      assert [] + Filter(t, p) == Filter(t, p);
    } else {
      FilterAppend(s[1..], t, p);
      assert (s + t)[1..] == s[1..] + t;
      FilterFirst(s, p);
      FilterFirst(s + t, p);
      Associative(if p(s[0]) then [s[0]] else [], Filter(s[1..], p), Filter(t, p));
    }
  }

  lemma FilterEmpty<T>(p: T -> bool)
    ensures Filter([], p) == []
  {
  }

  lemma FilterFirst<T>(s: seq<T>, p: T -> bool)
    requires s != []
    ensures Filter(s, p) == (if p(s[0]) then [s[0]] else []) + Filter(s[1..], p)
  {
    assert [] + Filter(s[1..], p) == Filter(s[1..], p);
  }

  lemma FilterSnoc<T>(s: seq<T>, x: T, p: T -> bool)
    ensures Filter(s + [x], p) == Filter(s, p) + if p(x) then [x] else []
  {
    FilterAppend(s, [x], p);
    assert [x][1..] == [];
  }

  lemma FilterPair<T>(x: T, y: T, p: T -> bool)
    ensures Filter([x, y], p) == (if p(x) then [x] else []) + (if p(y) then [y] else [])
  {
    assert [x, y] == [x] + [y];
    FilterSnoc([x], y, p);
    assert [x][1..] == [];
  }

  lemma {:induction false} FilterCongruent<T>(s: seq<T>, p: T -> bool, q: T -> bool)
    requires forall x | x in s :: p(x) == q(x)
    ensures Filter(s, p) == Filter(s, q)
  {
    if s != [] { FilterCongruent(s[1..], p, q); }
  }

  lemma {:induction false} FilterNone<T>(s: seq<T>, p: T -> bool)
    requires forall x | x in s :: !p(x)
    ensures Filter(s, p) == []
  {
    if s != [] { FilterNone(s[1..], p); }
  }

  lemma {:induction false} FilterAll<T>(s: seq<T>, p: T -> bool)
    requires forall x | x in s :: p(x)
    ensures Filter(s, p) == s
  {
    if s != [] { FilterAll(s[1..], p); }
  }

  /**
   * Everything either predicate picks is what the one picks followed by what
   * the other does, exactly when nothing of the second stands before any of the
   * first.
   */
  lemma {:induction false} FilterSplitsIff<T>(s: seq<T>, p: T -> bool, q: T -> bool, either: T -> bool)
    requires forall x | x in s :: either(x) <==> p(x) || q(x)
    requires forall x | x in s :: !(p(x) && q(x))
    ensures Filter(s, p) + Filter(s, q) == Filter(s, either)
       <==> !exists i, j :: 0 <= i < j < |s| && q(s[i]) && p(s[j])
  {
    hide Filter;
    if s == [] {
      FilterEmpty(p);
      FilterEmpty(q);
      FilterEmpty(either);
    } else {
      var x, rest := s[0], s[1..];
      assert x in s;
      FilterSplitsIff(rest, p, q, either);
      InversionStep(s, p, q);
      FilterStep(s, p);
      FilterStep(s, q);
      FilterStep(s, either);
      SplitStep(x, Filter(rest, p), Filter(rest, q), Filter(rest, either));
      if Filter(rest, p) == [] {
        FilterNoneLeft(rest, p);
      } else {
        FilterHead(rest, p);
      }
    }
  }

  lemma FilterStep<T>(s: seq<T>, p: T -> bool)
    requires s != []
    ensures Filter(s, p) == if p(s[0]) then [s[0]] + Filter(s[1..], p) else Filter(s[1..], p)
  {
  }

  lemma FilterHead<T>(s: seq<T>, p: T -> bool)
    requires Filter(s, p) != []
    ensures Filter(s, p)[0] in s && p(Filter(s, p)[0])
  {
    assert Filter(s, p)[0] in Filter(s, p);
  }

  /** One more element, in front of the first part or of the second. */
  lemma SplitStep<T>(x: T, ps: seq<T>, qs: seq<T>, es: seq<T>)
    ensures ([x] + ps) + qs == [x] + es <==> ps + qs == es
    ensures ps == [] ==> (ps + ([x] + qs) == [x] + es <==> ps + qs == es)
    ensures ps != [] && ps[0] != x ==> ps + ([x] + qs) != [x] + es
  {
    Associative([x], ps, qs);
    assert ([x] + (ps + qs))[1..] == ps + qs && ([x] + es)[1..] == es;
    if ps == [] {
      assert ps + ([x] + qs) == [x] + qs && ps + qs == qs && ([x] + qs)[1..] == qs;
    } else if ps[0] != x {
      assert (ps + ([x] + qs))[0] == ps[0] && ([x] + es)[0] == x;
    }
  }

  lemma FilterNoneLeft<T>(s: seq<T>, p: T -> bool)
    requires Filter(s, p) == []
    ensures forall x | x in s :: !p(x)
  {
  }

  /** An inversion is one further on, or between the first element and one further on. */
  lemma InversionStep<T>(s: seq<T>, p: T -> bool, q: T -> bool)
    requires s != []
    ensures (exists i, j :: 0 <= i < j < |s| && q(s[i]) && p(s[j]))
       <==> || (exists i, j :: 0 <= i < j < |s[1..]| && q(s[1..][i]) && p(s[1..][j]))
            || (q(s[0]) && exists x :: x in s[1..] && p(x))
  {
    var rest := s[1..];
    if exists i, j :: 0 <= i < j < |s| && q(s[i]) && p(s[j]) {
      var i, j :| 0 <= i < j < |s| && q(s[i]) && p(s[j]);
      assert rest[j - 1] == s[j];
      if i > 0 { assert rest[i - 1] == s[i]; }
    }
    if exists i, j :: 0 <= i < j < |rest| && q(rest[i]) && p(rest[j]) {
      var i, j :| 0 <= i < j < |rest| && q(rest[i]) && p(rest[j]);
      assert s[i + 1] == rest[i] && s[j + 1] == rest[j];
    }
    if q(s[0]) && exists x :: x in rest && p(x) {
      var x :| x in rest && p(x);
      var j :| 0 <= j < |rest| && rest[j] == x;
      assert s[j + 1] == x;
    }
  }

  lemma {:induction false} FilterTwice<T>(xs: seq<T>, p: T -> bool, q: T -> bool)
    ensures Filter(Filter(xs, p), q) == Filter(Filter(xs, q), p)
  {
    if xs != [] {
      FilterTwice(xs[1..], p, q);
      assert ([xs[0]] + Filter(xs[1..], p))[1..] == Filter(xs[1..], p);
      assert ([xs[0]] + Filter(xs[1..], q))[1..] == Filter(xs[1..], q);
    }
  }

  lemma {:induction false} FilterSorted<T>(xs: seq<T>, p: T -> bool, le: (T, T) -> bool)
    requires Sorted(xs, le)
    ensures Sorted(Filter(xs, p), le)
  {
    if xs != [] {
      FilterSorted(xs[1..], p, le);
      forall x | x in xs[1..] ensures le(xs[0], x) {
        var k :| 0 <= k < |xs[1..]| && xs[1..][k] == x;
        assert x == xs[k + 1];
      }
    }
  }

  lemma {:induction false} FilterMultiset<T>(xs: seq<T>, p: T -> bool, x: T)
    ensures multiset(Filter(xs, p))[x] == if p(x) then multiset(xs)[x] else 0
  {
    if xs != [] {
      assert xs == [xs[0]] + xs[1..];
      FilterMultiset(xs[1..], p, x);
    }
  }

  /** Narrowing and ordering can be done either side of each other. */
  lemma FilterCommutesWithSort<T(!new)>(xs: seq<T>, p: T -> bool, le: (T, T) -> bool)
    requires TotalPreorder(le)
    ensures Filter(Sort(xs, le), p) == Sort(Filter(xs, p), le)
  {
    var l, r := Filter(Sort(xs, le), p), Sort(Filter(xs, p), le);
    SortIsSorted(xs, le);
    FilterSorted(Sort(xs, le), p, le);
    SortIsSorted(Filter(xs, p), le);
    forall x ensures multiset(l)[x] == multiset(r)[x] {
      FilterMultiset(Sort(xs, le), p, x);
      FilterMultiset(xs, p, x);
    }
    assert multiset(l) == multiset(r);
    forall q: T -> bool | TieClass(q, le) ensures Filter(l, q) == Filter(r, q) {
      FilterTwice(Sort(xs, le), p, q);
      SortIsStable(xs, le, q);
      FilterTwice(xs, p, q);
      SortIsStable(Filter(xs, p), le, q);
    }
    StableSortUnique(l, r, le);
  }

  /** When no two different elements of the list are tied, every arrangement of it sorts to the same list. */
  lemma SortIsCanonical<T(!new)>(xs: seq<T>, ys: seq<T>, le: (T, T) -> bool)
    requires TotalPreorder(le) && multiset(xs) == multiset(ys)
    requires forall x, y | x in xs && y in xs && le(x, y) && le(y, x) :: x == y
    ensures Sort(xs, le) == Sort(ys, le)
  {
    SortIsSorted(xs, le);
    SortIsSorted(ys, le);
    forall x | x in Sort(xs, le) ensures x in xs { InMultiset(x, Sort(xs, le), xs); }
    UntiedOrderIsUnique(Sort(xs, le), Sort(ys, le), le);
  }

  lemma {:induction false} UntiedOrderIsUnique<T(!new)>(xs: seq<T>, ys: seq<T>, le: (T, T) -> bool)
    requires TotalPreorder(le) && Sorted(xs, le) && Sorted(ys, le) && multiset(xs) == multiset(ys)
    requires forall x, y | x in xs && y in xs && le(x, y) && le(y, x) :: x == y
    ensures xs == ys
  {
    SameSize(xs, ys);
    if xs != [] {
      SameFirst(xs, ys, le);
      TailMultiset(xs);
      TailMultiset(ys);
      hide TotalPreorder;
      UntiedOrderIsUnique(xs[1..], ys[1..], le);
      assert xs == [xs[0]] + xs[1..] && ys == [ys[0]] + ys[1..];
    }
  }

  lemma SameSize<T>(xs: seq<T>, ys: seq<T>)
    requires multiset(xs) == multiset(ys)
    ensures |xs| == |ys|
  {
    assert |multiset(xs)| == |xs| && |multiset(ys)| == |ys|;
  }

  /** Each list's first element may stand before the other's. */
  lemma SameFirst<T(!new)>(xs: seq<T>, ys: seq<T>, le: (T, T) -> bool)
    requires TotalPreorder(le) && Sorted(xs, le) && Sorted(ys, le) && multiset(xs) == multiset(ys)
    requires forall x, y | x in xs && y in xs && le(x, y) && le(y, x) :: x == y
    requires xs != [] && ys != []
    ensures xs[0] == ys[0]
  {
    InMultiset(xs[0], xs, ys);
    InMultiset(ys[0], ys, xs);
    assert le(xs[0], xs[0]) && le(ys[0], ys[0]);
    var i :| 0 <= i < |xs| && xs[i] == ys[0];
    var k :| 0 <= k < |ys| && ys[k] == xs[0];
    assert le(xs[0], xs[i]) && le(ys[0], ys[k]);
  }
}
