/**
 * Hunks with context (apps/staff/lib/legal-drafts.ts): which rows of a line
 * diff stay on screen, and how the rest is counted away.
 */
module Hunks {
  import opened Sequences
  import opened Wrappers
  import opened EditScripts

  /** Rows displayed without a break, with the count of those left out since the hunk before. */
  datatype DiffHunk<R> = DiffHunk(skippedBefore: nat, rows: seq<R>)

  /** The first `n` rows as displayed: None where a row is elided. */
  function Display<R>(rows: seq<R>, keep: seq<bool>, n: nat): seq<Option<R>>
    requires n <= |rows| == |keep|
  {
    if n == 0 then []
    else Display(rows, keep, n - 1) + [if keep[n - 1] then Some(rows[n - 1]) else None]
  }

  function Elided<R>(n: nat): (s: seq<Option<R>>)
    ensures |s| == n
  {
    if n == 0 then [] else [None] + Elided(n - 1)
  }

  function Present<R>(rows: seq<R>): (s: seq<Option<R>>)
    ensures |s| == |rows|
  {
    if rows == [] then [] else [Some(rows[0])] + Present(rows[1..])
  }

  /** The hunks laid out again: elided rows, shown rows, in order. */
  function Shown<R>(hunks: seq<DiffHunk<R>>): seq<Option<R>> {
    if hunks == [] then []
    else Elided<R>(hunks[0].skippedBefore) + Present(hunks[0].rows) + Shown(hunks[1..])
  }

  /** Every hunk shows something, and every hunk after the first skips something. */
  ghost predicate Separated<R>(hunks: seq<DiffHunk<R>>, first: bool) {
    hunks == []
    || (hunks[0].rows != [] && (first || hunks[0].skippedBefore > 0) && Separated(hunks[1..], false))
  }

  /** The hunks, with `trailing` more elided rows, rebuild the display row by row. */
  ghost predicate Collapses<R>(hunks: seq<DiffHunk<R>>, trailing: nat, rows: seq<R>, keep: seq<bool>, n: nat)
    requires n <= |rows| == |keep|
  {
    Separated(hunks, true) && Shown(hunks) + Elided<R>(trailing) == Display(rows, keep, n)
  }

  lemma {:induction false} ElidedAppend<R>(n: nat, m: nat)
    ensures Elided<R>(n) + Elided<R>(m) == Elided<R>(n + m)
  {
    if n == 0 {
      assert Elided<R>(0) + Elided<R>(m) == Elided<R>(m);
    } else {
      ElidedAppend<R>(n - 1, m);
      Associative([None], Elided<R>(n - 1), Elided<R>(m));
    }
  }

  lemma {:induction false} PresentSnoc<R>(rows: seq<R>, row: R)
    ensures Present(rows + [row]) == Present(rows) + [Some(row)]
  {
    if rows == [] {
      assert [row][1..] == [] && [] + [row] == [row];
    } else {
      PresentSnoc(rows[1..], row);
      assert (rows + [row])[1..] == rows[1..] + [row];
      Associative([Some(rows[0])], Present(rows[1..]), [Some(row)]);
    }
  }

  lemma {:induction false} ShownSnoc<R>(hunks: seq<DiffHunk<R>>, hunk: DiffHunk<R>)
    ensures Shown(hunks + [hunk]) == Shown(hunks) + (Elided<R>(hunk.skippedBefore) + Present(hunk.rows))
  {
    if hunks == [] {
      assert [hunk][1..] == [] && [] + [hunk] == [hunk];
      var one := Elided<R>(hunk.skippedBefore) + Present(hunk.rows);
      assert one + [] == one && [] + one == one;
    } else {
      ShownSnoc(hunks[1..], hunk);
      assert (hunks + [hunk])[1..] == hunks[1..] + [hunk];
      Associative(Elided<R>(hunks[0].skippedBefore) + Present(hunks[0].rows), Shown(hunks[1..]),
                  Elided<R>(hunk.skippedBefore) + Present(hunk.rows));
    }
  }

  lemma {:induction false} SeparatedSnoc<R>(hunks: seq<DiffHunk<R>>, hunk: DiffHunk<R>, first: bool)
    ensures Separated(hunks + [hunk], first)
       <==> (Separated(hunks, first) && hunk.rows != [] && ((first && hunks == []) || hunk.skippedBefore > 0))
  {
    if hunks == [] {
      assert [hunk][1..] == [] && [] + [hunk] == [hunk];
    } else {
      SeparatedSnoc(hunks[1..], hunk, false);
      assert (hunks + [hunk])[1..] == hunks[1..] + [hunk];
    }
  }

  // ---------------------------------------------------------------- the loop's three steps

  lemma SkipStep<R>(hunks: seq<DiffHunk<R>>, skipped: nat, rows: seq<R>, keep: seq<bool>, n: nat)
    requires n < |rows| == |keep| && !keep[n] && Collapses(hunks, skipped, rows, keep, n)
    ensures Collapses(hunks, skipped + 1, rows, keep, n + 1)
  {
    ElidedAppend<R>(skipped, 1);
    assert Elided<R>(1) == [None] + Elided<R>(0) == [None];
    Associative(Shown(hunks), Elided<R>(skipped), [None]);
  }

  lemma OpenStep<R>(hunks: seq<DiffHunk<R>>, skipped: nat, rows: seq<R>, keep: seq<bool>, n: nat)
    requires n < |rows| == |keep| && keep[n] && Collapses(hunks, skipped, rows, keep, n)
    requires hunks == [] || skipped > 0
    ensures Collapses(hunks + [DiffHunk(skipped, [rows[n]])], 0, rows, keep, n + 1)
  {
    var hunk := DiffHunk(skipped, [rows[n]]);
    ShownSnoc(hunks, hunk);
    SeparatedSnoc(hunks, hunk, true);
    assert Present([rows[n]]) == [Some(rows[n])] + Present([rows[n]][1..]) == [Some(rows[n])];
    Associative(Shown(hunks), Elided<R>(skipped), [Some(rows[n])]);
    var shown := Shown(hunks + [hunk]);
    assert shown + [] == shown;
  }

  lemma GrowStep<R>(hunks: seq<DiffHunk<R>>, last: DiffHunk<R>, rows: seq<R>, keep: seq<bool>, n: nat)
    requires n < |rows| == |keep| && keep[n] && Collapses(hunks + [last], 0, rows, keep, n)
    ensures Collapses(hunks + [last.(rows := last.rows + [rows[n]])], 0, rows, keep, n + 1)
  {
    var grown := last.(rows := last.rows + [rows[n]]);
    ShownSnoc(hunks, last);
    ShownSnoc(hunks, grown);
    SeparatedSnoc(hunks, last, true);
    SeparatedSnoc(hunks, grown, true);
    PresentSnoc(last.rows, rows[n]);
    Associative(Elided<R>(last.skippedBefore), Present(last.rows), [Some(rows[n])]);
    Associative(Shown(hunks), Elided<R>(last.skippedBefore) + Present(last.rows), [Some(rows[n])]);
    var a, b := Shown(hunks + [last]), Shown(hunks + [grown]);
    assert a + [] == a && b + [] == b;
  }

  /** Rows not kept are counted, kept ones go to the hunk being grown. */
  method CollapseRows<R>(rows: seq<R>, keep: seq<bool>) returns (hunks: seq<DiffHunk<R>>, skipped: nat)
    requires |rows| == |keep|
    ensures Collapses(hunks, skipped, rows, keep, |rows|)
  {
    hunks, skipped := [], 0;
    var current := false;
    for index := 0 to |rows|
      invariant Collapses(hunks, skipped, rows, keep, index)
      invariant current ==> hunks != [] && skipped == 0
      invariant !current && hunks != [] ==> skipped > 0
    {
      hide *;
      if !keep[index] {
        SkipStep(hunks, skipped, rows, keep, index);
        skipped, current := skipped + 1, false;
      } else if !current {
        OpenStep(hunks, skipped, rows, keep, index);
        hunks, skipped, current := hunks + [DiffHunk(skipped, [rows[index]])], 0, true;
      } else {
        var init, last := hunks[..|hunks| - 1], hunks[|hunks| - 1];
        assert hunks == init + [last];
        GrowStep(init, last, rows, keep, index);
        hunks := init + [last.(rows := last.rows + [rows[index]])];
      }
    }
  }

  // ---------------------------------------------------------------- the specification is complete

  lemma {:induction false} ElidedIsNone<R>(n: nat, k: nat)
    requires k < n
    ensures Elided<R>(n)[k] == None
  {
    if k > 0 { ElidedIsNone<R>(n - 1, k - 1); }
  }

  lemma {:induction false} PresentIsSome<R>(rows: seq<R>, k: nat)
    requires k < |rows|
    ensures Present(rows)[k] == Some(rows[k])
  {
    if k > 0 { PresentIsSome(rows[1..], k - 1); }
  }

  lemma {:induction false} DisplayAt<R>(rows: seq<R>, keep: seq<bool>, n: nat, k: nat)
    requires k < n <= |rows| == |keep|
    ensures |Display(rows, keep, n)| == n
    ensures Display(rows, keep, n)[k] == if keep[k] then Some(rows[k]) else None
  {
    if n > 1 { DisplayAt(rows, keep, n - 1, if k < n - 1 then k else 0); }
  }

  /** Where the first hunk starts, its first row is shown; everything before it is elided. */
  lemma FirstShown<R>(hunks: seq<DiffHunk<R>>, first: bool, k: nat)
    requires hunks != [] && Separated(hunks, first) && k <= hunks[0].skippedBefore
    ensures |Shown(hunks)| > hunks[0].skippedBefore
    ensures Shown(hunks)[k] == if k < hunks[0].skippedBefore then None else Some(hunks[0].rows[0])
  {
    var n := hunks[0].skippedBefore;
    if k < n { ElidedIsNone<R>(n, k); }
    PresentIsSome(hunks[0].rows, 0);
  }

  /** There are no hunks exactly when nothing is kept. */
  lemma NoHunksIffNothingKept<R>(hunks: seq<DiffHunk<R>>, trailing: nat, rows: seq<R>, keep: seq<bool>)
    requires |rows| == |keep| && Collapses(hunks, trailing, rows, keep, |rows|)
    ensures hunks == [] <==> forall k :: 0 <= k < |keep| ==> !keep[k]
  {
    var display := Display(rows, keep, |rows|);
    forall k | 0 <= k < |rows|
      ensures |display| == |rows| && display[k] == if keep[k] then Some(rows[k]) else None
    {
      DisplayAt(rows, keep, |rows|, k);
    }
    if hunks == [] {
      assert Shown(hunks) + Elided<R>(trailing) == Elided<R>(trailing);
      forall k | 0 <= k < |keep| ensures !keep[k] { ElidedIsNone<R>(trailing, k); }
    } else {
      FirstShown(hunks, true, hunks[0].skippedBefore);
      assert display[hunks[0].skippedBefore].Some?;
      assert |rows| > 0;
    }
  }

  /** After a hunk ends there is nothing more, or an elided row. */
  lemma AfterHunk<R>(hunks: seq<DiffHunk<R>>, trailing: nat)
    requires Separated(hunks, false)
    ensures var rest := Shown(hunks) + Elided<R>(trailing); rest == [] || rest[0] == None
  {
    if hunks == [] {
      if trailing > 0 { ElidedIsNone<R>(trailing, 0); }
    } else {
      FirstShown(hunks, false, 0);
    }
  }

  lemma PresentHead<R>(x: seq<R>, s: seq<Option<R>>)
    ensures if x == [] then Present(x) + s == s else (Present(x) + s)[0] == Some(x[0])
  {
  }

  lemma {:induction false} PresentUnique<R>(x: seq<R>, y: seq<R>, s: seq<Option<R>>, t: seq<Option<R>>)
    requires Present(x) + s == Present(y) + t
    requires (s == [] || s[0] == None) && (t == [] || t[0] == None)
    ensures x == y && s == t
  {
    PresentHead(x, s);
    PresentHead(y, t);
    if x != [] && y != [] {
      var l, r := Present(x) + s, Present(y) + t;
      assert l[1..] == Present(x[1..]) + s && r[1..] == Present(y[1..]) + t;
      PresentUnique(x[1..], y[1..], s, t);
      assert x == [x[0]] + x[1..] && y == [y[0]] + y[1..];
    }
  }

  lemma ShownParts<R>(hunks: seq<DiffHunk<R>>, trailing: nat)
    requires hunks != []
    ensures Shown(hunks) + Elided<R>(trailing)
         == Elided<R>(hunks[0].skippedBefore) + (Present(hunks[0].rows) + (Shown(hunks[1..]) + Elided<R>(trailing)))
  {
  }

  /** Two ways of collapsing the same display are the same: the specification leaves no choice. */
  lemma {:induction false} HunksUnique<R>(h1: seq<DiffHunk<R>>, h2: seq<DiffHunk<R>>, t1: nat, t2: nat, first: bool)
    requires Separated(h1, first) && Separated(h2, first)
    requires Shown(h1) + Elided<R>(t1) == Shown(h2) + Elided<R>(t2)
    ensures h1 == h2 && t1 == t2
    decreases |h1| + |h2|
  {
    if h1 == [] && h2 == [] {
      assert Shown(h1) + Elided<R>(t1) == Elided<R>(t1) && Shown(h2) + Elided<R>(t2) == Elided<R>(t2);
    } else if h1 == [] {
      OneEmpty(h2, t2, t1, first);
    } else if h2 == [] {
      OneEmpty(h1, t1, t2, first);
    } else {
      var n1, n2 := h1[0].skippedBefore, h2[0].skippedBefore;
      var k := if n1 <= n2 then n1 else n2;
      FirstShown(h1, first, k);
      FirstShown(h2, first, k);
      assert (Shown(h1) + Elided<R>(t1))[k] == Shown(h1)[k] && (Shown(h2) + Elided<R>(t2))[k] == Shown(h2)[k];
      var r1, r2 := Shown(h1[1..]) + Elided<R>(t1), Shown(h2[1..]) + Elided<R>(t2);
      ShownParts(h1, t1);
      ShownParts(h2, t2);
      SamePrefix(Elided<R>(n1), Present(h1[0].rows) + r1, Present(h2[0].rows) + r2);
      AfterHunk(h1[1..], t1);
      AfterHunk(h2[1..], t2);
      PresentUnique(h1[0].rows, h2[0].rows, r1, r2);
      HunksUnique(h1[1..], h2[1..], t1, t2, false);
      assert h1 == [h1[0]] + h1[1..] && h2 == [h2[0]] + h2[1..];
    }
  }

  lemma SamePrefix<T>(p: seq<T>, x: seq<T>, y: seq<T>)
    requires p + x == p + y
    ensures x == y
  {
    assert x == (p + x)[|p|..] && y == (p + y)[|p|..];
  }

  lemma OneEmpty<R>(hunks: seq<DiffHunk<R>>, trailing: nat, n: nat, first: bool)
    requires hunks != [] && Separated(hunks, first)
    ensures Shown(hunks) + Elided<R>(trailing) != Shown<R>([]) + Elided<R>(n)
  {
    var k := hunks[0].skippedBefore;
    FirstShown(hunks, first, k);
    var l, r := Shown(hunks) + Elided<R>(trailing), Shown<R>([]) + Elided<R>(n);
    assert l[k].Some? && r == Elided<R>(n);
    forall i | 0 <= i < n ensures r[i] == None { ElidedIsNone<R>(n, i); }
  }
}
