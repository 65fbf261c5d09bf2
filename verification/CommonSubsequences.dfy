/**
 * Longest common subsequences, independently of any algorithm: what it means
 * for one list to be a subsequence of two others, and that the suffix
 * recurrence the diff engine tabulates computes the length of a longest one.
 */
module CommonSubsequences {
  import opened Numbers

  /** `c` can be obtained from `s` by deleting elements. */
  ghost predicate IsSubsequence<T>(c: seq<T>, s: seq<T>) {
    || c == []
    || (s != [] && c[0] == s[0] && IsSubsequence(c[1..], s[1..]))
    || (s != [] && IsSubsequence(c, s[1..]))
  }

  ghost predicate IsCommon<T>(c: seq<T>, a: seq<T>, b: seq<T>) {
    IsSubsequence(c, a) && IsSubsequence(c, b)
  }

  /** No common subsequence of `a` and `b` is longer than `n`, and one of length `n` exists. */
  ghost predicate IsLongestCommonLength<T(!new)>(n: nat, a: seq<T>, b: seq<T>) {
    && (exists c: seq<T> :: IsCommon(c, a, b) && |c| == n)
    && (forall c: seq<T> :: IsCommon(c, a, b) ==> |c| <= n)
  }

  /** The recurrence of the diff's table, on suffixes rather than indices. */
  function Lcs<T(==)>(a: seq<T>, b: seq<T>): nat
    decreases |a| + |b|
  {
    if a == [] || b == [] then 0
    else if a[0] == b[0] then Lcs(a[1..], b[1..]) + 1
    else Max(Lcs(a[1..], b), Lcs(a, b[1..]))
  }

  lemma {:induction false} SubsequenceTail<T>(c: seq<T>, s: seq<T>)
    requires c != [] && IsSubsequence(c, s)
    ensures IsSubsequence(c[1..], s)
    decreases |s|
  {
    if !(c[0] == s[0] && IsSubsequence(c[1..], s[1..])) {
      SubsequenceTail(c, s[1..]);
    }
  }

  /** Dropping the first element of both sides keeps all but one of the common elements. */
  lemma SubsequenceTails<T>(c: seq<T>, s: seq<T>)
    requires c != [] && IsSubsequence(c, s)
    ensures s != [] && IsSubsequence(c[1..], s[1..])
  {
    if !(c[0] == s[0] && IsSubsequence(c[1..], s[1..])) {
      SubsequenceTail(c, s[1..]);
    }
  }

  lemma {:induction false} SubsequenceRefl<T>(s: seq<T>)
    ensures IsSubsequence(s, s)
  {
    if s != [] { SubsequenceRefl(s[1..]); }
  }

  lemma {:induction false} SubsequenceLength<T>(c: seq<T>, s: seq<T>)
    requires IsSubsequence(c, s)
    ensures |c| <= |s|
    decreases |s|
  {
    if c != [] {
      SubsequenceTails(c, s);
      SubsequenceLength(c[1..], s[1..]);
    }
  }

  /** Subsequences of consecutive pieces join up. */
  lemma {:induction false} SubsequenceConcat<T>(c: seq<T>, s: seq<T>, d: seq<T>, t: seq<T>)
    requires IsSubsequence(c, s) && IsSubsequence(d, t)
    ensures IsSubsequence(c + d, s + t)
    decreases |s|
  {
    if s == [] {
      assert c == [] && c + d == d && s + t == t;
    } else {
      assert (s + t)[1..] == s[1..] + t;
      if c == [] || IsSubsequence(c, s[1..]) {
        SubsequenceConcat(c, s[1..], d, t);
      } else {
        SubsequenceConcat(c[1..], s[1..], d, t);
        assert (c + d)[1..] == c[1..] + d;
      }
    }
  }

  lemma {:induction false} SingletonSubsequence<T>(x: T, s: seq<T>)
    requires x in s
    ensures IsSubsequence([x], s)
  {
    if s[0] != x { SingletonSubsequence(x, s[1..]); }
  }

  lemma {:induction false} LcsBounds<T>(a: seq<T>, b: seq<T>, c: seq<T>)
    requires IsCommon(c, a, b)
    ensures |c| <= Lcs(a, b)
    decreases |a| + |b|
  {
    if c != [] {
      if a[0] == b[0] {
        SubsequenceTails(c, a);
        SubsequenceTails(c, b);
        LcsBounds(a[1..], b[1..], c[1..]);
      } else if c[0] != a[0] {
        LcsBounds(a[1..], b, c);
      } else {
        LcsBounds(a, b[1..], c);
      }
    }
  }

  lemma {:induction false} LcsAttained<T>(a: seq<T>, b: seq<T>) returns (c: seq<T>)
    ensures IsCommon(c, a, b) && |c| == Lcs(a, b)
    decreases |a| + |b|
  {
    if a == [] || b == [] {
      c := [];
    } else if a[0] == b[0] {
      var d := LcsAttained(a[1..], b[1..]);
      c := [a[0]] + d;
      assert c[1..] == d;
    } else if Lcs(a[1..], b) >= Lcs(a, b[1..]) {
      c := LcsAttained(a[1..], b);
    } else {
      c := LcsAttained(a, b[1..]);
    }
  }

  /** The recurrence is right: it is the length of a longest common subsequence, and only that is. */
  lemma LcsIsLongest<T(!new)>(a: seq<T>, b: seq<T>, n: nat)
    ensures IsLongestCommonLength(n, a, b) <==> n == Lcs(a, b)
  {
    var longest := LcsAttained(a, b);
    forall c: seq<T> | IsCommon(c, a, b) ensures |c| <= Lcs(a, b) { LcsBounds(a, b, c); }
    if IsLongestCommonLength(n, a, b) {
      var c :| IsCommon(c, a, b) && |c| == n;
      assert |longest| <= n;
    }
  }

  /** A shorter right-hand side has no more in common. */
  lemma LcsDropRight<T>(a: seq<T>, b: seq<T>)
    requires b != []
    ensures Lcs(a, b[1..]) <= Lcs(a, b)
  {
    var c := LcsAttained(a, b[1..]);
    LcsBounds(a, b, c);
  }

  lemma {:induction false} SubsequenceInit<T>(c: seq<T>, s: seq<T>, x: T)
    requires c != [] && IsSubsequence(c, s + [x])
    ensures IsSubsequence(c[..|c| - 1], s)
    decreases |s|
  {
    if s == [] {
      SubsequenceLength(c, s + [x]);
    } else if |c| > 1 {
      assert (s + [x])[1..] == s[1..] + [x];
      if IsSubsequence(c, s[1..] + [x]) {
        SubsequenceInit(c, s[1..], x);
      } else {
        SubsequenceInit(c[1..], s[1..], x);
        assert c[..|c| - 1][1..] == c[1..][..|c| - 2];
      }
    }
  }

  /** A common last element is worth exactly one. */
  lemma LcsSnoc<T>(a: seq<T>, b: seq<T>, x: T)
    ensures Lcs(a + [x], b + [x]) == Lcs(a, b) + 1
  {
    var c := LcsAttained(a + [x], b + [x]);
    if c != [] {
      SubsequenceInit(c, a, x);
      SubsequenceInit(c, b, x);
      LcsBounds(a, b, c[..|c| - 1]);
    }
    var d := LcsAttained(a, b);
    SubsequenceRefl([x]);
    SubsequenceConcat(d, a, [x], [x]);
    SubsequenceConcat(d, b, [x], [x]);
    LcsBounds(a + [x], b + [x], d + [x]);
  }

  /** Matching off common ends loses nothing. */
  lemma {:induction false} LcsTrim<T>(head: seq<T>, a: seq<T>, b: seq<T>, tail: seq<T>)
    ensures Lcs(head + a + tail, head + b + tail) == |head| + Lcs(a, b) + |tail|
    decreases |head| + |tail|
  {
    if tail != [] {
      var init, x := tail[..|tail| - 1], tail[|tail| - 1];
      LcsTrim(head, a, b, init);
      LcsSnoc(head + a + init, head + b + init, x);
      assert head + a + tail == head + a + init + [x];
      assert head + b + tail == head + b + init + [x];
    } else if head != [] {
      LcsTrim(head[1..], a, b, []);
      assert (head + a + [])[1..] == head[1..] + a + [];
      assert (head + b + [])[1..] == head[1..] + b + [];
    } else {
      assert head + a + tail == a && head + b + tail == b;
    }
  }
}
