/**
 * The edit-script core of the legal-document diff (apps/staff/lib/legal-drafts.ts):
 * trimming of common ends, the flat LCS table, and the forward walk over it.
 *
 * `LcsScript` and `DiffScript` are the specification, `LcsWalk` and
 * `DiffSequences` the loops the source runs.
 */
module EditScripts {
  import opened Sequences
  import opened Numbers
  import opened CommonSubsequences

  datatype DiffOp = Same | Added | Removed

  datatype DiffToken<T> = DiffToken(op: DiffOp, text: T)

  const MAX_DIFF_TOKENS: nat := 2500

  /** An element of the source's `Uint32Array`. */
  newtype uint32 = x: int | 0 <= x < 0x1_0000_0000

  // ---------------------------------------------------------------- reading a script

  /** What the script says the left-hand side was. */
  function BeforeSide<T>(tokens: seq<DiffToken<T>>): seq<T> {
    if tokens == [] then []
    else if tokens[0].op.Added? then BeforeSide(tokens[1..])
    else [tokens[0].text] + BeforeSide(tokens[1..])
  }

  /** What the script says the right-hand side became. */
  function AfterSide<T>(tokens: seq<DiffToken<T>>): seq<T> {
    if tokens == [] then []
    else if tokens[0].op.Removed? then AfterSide(tokens[1..])
    else [tokens[0].text] + AfterSide(tokens[1..])
  }

  /** What the script says survived. */
  function Survivors<T>(tokens: seq<DiffToken<T>>): seq<T> {
    if tokens == [] then []
    else if tokens[0].op.Same? then [tokens[0].text] + Survivors(tokens[1..])
    else Survivors(tokens[1..])
  }

  /** The script accounts for both texts, element by element and in order. */
  ghost predicate IsScript<T>(tokens: seq<DiffToken<T>>, before: seq<T>, after: seq<T>) {
    BeforeSide(tokens) == before && AfterSide(tokens) == after
  }

  /** An addition is never directly followed by a removal. */
  ghost predicate RemovalsFirst<T>(tokens: seq<DiffToken<T>>) {
    forall k, next :: 0 <= k < next < |tokens| && next == k + 1 && tokens[k].op.Added? ==> !tokens[next].op.Removed?
  }

  ghost predicate AllOp<T>(tokens: seq<DiffToken<T>>, op: DiffOp) {
    forall k :: 0 <= k < |tokens| ==> tokens[k].op == op
  }

  function Tag<T>(op: DiffOp, texts: seq<T>): (tokens: seq<DiffToken<T>>)
    ensures |tokens| == |texts| && AllOp(tokens, op)
  {
    if texts == [] then [] else [DiffToken(op, texts[0])] + Tag(op, texts[1..])
  }

  lemma {:induction false} TagSnoc<T>(op: DiffOp, texts: seq<T>, text: T)
    ensures Tag(op, texts + [text]) == Tag(op, texts) + [DiffToken(op, text)]
  {
    if texts != [] {
      TagSnoc(op, texts[1..], text);
      assert (texts + [text])[1..] == texts[1..] + [text];
    }
  }

  lemma {:induction false} TagSides<T>(op: DiffOp, texts: seq<T>)
    ensures BeforeSide(Tag(op, texts)) == (if op.Added? then [] else texts)
    ensures AfterSide(Tag(op, texts)) == (if op.Removed? then [] else texts)
    ensures Survivors(Tag(op, texts)) == (if op.Same? then texts else [])
  {
    if texts != [] {
      TagSides(op, texts[1..]);
      assert Tag(op, texts)[1..] == Tag(op, texts[1..]);
    }
  }

  lemma {:induction false} BeforeConcat<T>(s: seq<DiffToken<T>>, t: seq<DiffToken<T>>)
    ensures BeforeSide(s + t) == BeforeSide(s) + BeforeSide(t)
  {
    if s == [] {
      assert s + t == t;
    } else {
      assert (s + t)[1..] == s[1..] + t && (s + t)[0] == s[0];
      BeforeConcat(s[1..], t);
      Associative([s[0].text], BeforeSide(s[1..]), BeforeSide(t));
    }
  }

  lemma {:induction false} AfterConcat<T>(s: seq<DiffToken<T>>, t: seq<DiffToken<T>>)
    ensures AfterSide(s + t) == AfterSide(s) + AfterSide(t)
  {
    if s == [] {
      assert s + t == t;
    } else {
      assert (s + t)[1..] == s[1..] + t && (s + t)[0] == s[0];
      AfterConcat(s[1..], t);
      Associative([s[0].text], AfterSide(s[1..]), AfterSide(t));
    }
  }

  lemma {:induction false} SurvivorsConcat<T>(s: seq<DiffToken<T>>, t: seq<DiffToken<T>>)
    ensures Survivors(s + t) == Survivors(s) + Survivors(t)
  {
    if s == [] {
      assert s + t == t;
    } else {
      assert (s + t)[1..] == s[1..] + t && (s + t)[0] == s[0];
      SurvivorsConcat(s[1..], t);
      Associative([s[0].text], Survivors(s[1..]), Survivors(t));
    }
  }

  lemma SidesConcat<T>(s: seq<DiffToken<T>>, t: seq<DiffToken<T>>)
    ensures BeforeSide(s + t) == BeforeSide(s) + BeforeSide(t)
    ensures AfterSide(s + t) == AfterSide(s) + AfterSide(t)
    ensures Survivors(s + t) == Survivors(s) + Survivors(t)
  {
    BeforeConcat(s, t);
    AfterConcat(s, t);
    SurvivorsConcat(s, t);
  }

  lemma {:induction false} SurvivorsAreCommon<T>(tokens: seq<DiffToken<T>>)
    ensures IsCommon(Survivors(tokens), BeforeSide(tokens), AfterSide(tokens))
  {
    if tokens != [] {
      SurvivorsAreCommon(tokens[1..]);
      var c, a, b := Survivors(tokens[1..]), BeforeSide(tokens[1..]), AfterSide(tokens[1..]);
      var t := [tokens[0].text];
      assert (t + c)[1..] == c && (t + a)[1..] == a && (t + b)[1..] == b;
      assert IsCommon(c, t + a, b) && IsCommon(c, a, t + b) && IsCommon(t + c, t + a, t + b);
      assert [] + c == c && [] + a == a && [] + b == b;
    }
  }

  /** No script of the same two texts keeps more than a longest common subsequence. */
  lemma SurvivorsBounded<T>(tokens: seq<DiffToken<T>>)
    ensures |Survivors(tokens)| <= Lcs(BeforeSide(tokens), AfterSide(tokens))
  {
    SurvivorsAreCommon(tokens);
    LcsBounds(BeforeSide(tokens), AfterSide(tokens), Survivors(tokens));
  }

  // ---------------------------------------------------------------- the walk

  /** The script the forward walk emits: matches kept, ties to removal. */
  function LcsScript<T(==)>(before: seq<T>, after: seq<T>): seq<DiffToken<T>>
    decreases |before| + |after|
  {
    if before == [] then Tag(Added, after)
    else if after == [] then Tag(Removed, before)
    else if before[0] == after[0] then
      [DiffToken(Same, before[0])] + LcsScript(before[1..], after[1..])
    else if Lcs(before[1..], after) >= Lcs(before, after[1..]) then
      [DiffToken(Removed, before[0])] + LcsScript(before[1..], after)
    else
      [DiffToken(Added, after[0])] + LcsScript(before, after[1..])
  }

  lemma {:induction false} LcsScriptIsScript<T>(before: seq<T>, after: seq<T>)
    ensures IsScript(LcsScript(before, after), before, after)
    ensures |Survivors(LcsScript(before, after))| == Lcs(before, after)
    decreases |before| + |after|
  {
    if before == [] {
      TagSides(Added, after);
    } else if after == [] {
      TagSides(Removed, before);
    } else if before[0] == after[0] {
      LcsScriptIsScript(before[1..], after[1..]);
    } else if Lcs(before[1..], after) >= Lcs(before, after[1..]) {
      LcsScriptIsScript(before[1..], after);
    } else {
      LcsScriptIsScript(before, after[1..]);
    }
  }

  /** The order in which the walk would rather take its steps. */
  function Preference(op: DiffOp): nat {
    match op
    case Same => 0
    case Removed => 1
    case Added => 2
  }

  /** Up to where the scripts part, they agree; there the first one takes the better step. */
  ghost predicate Prefers<T>(s: seq<DiffToken<T>>, t: seq<DiffToken<T>>) {
    s == t || (s != [] && t != []
               && (Preference(s[0].op) < Preference(t[0].op) || (s[0] == t[0] && Prefers(s[1..], t[1..]))))
  }

  lemma {:induction false} OnlyTagged<T>(tokens: seq<DiffToken<T>>, op: DiffOp, texts: seq<T>)
    requires op != Same
    requires IsScript(tokens, if op.Removed? then texts else [], if op.Added? then texts else [])
    ensures tokens == Tag(op, texts)
  {
    if tokens != [] {
      OnlyTagged(tokens[1..], op, texts[1..]);
      assert tokens == [tokens[0]] + tokens[1..];
    }
  }

  /** Of all the scripts that keep as much as can be kept, the walk's is the one that always takes the better step. */
  lemma {:induction false} WalkIsFirstChoice<T>(before: seq<T>, after: seq<T>, tokens: seq<DiffToken<T>>)
    requires IsScript(tokens, before, after) && |Survivors(tokens)| == Lcs(before, after)
    ensures Prefers(LcsScript(before, after), tokens)
    decreases |before| + |after|
  {
    if before == [] {
      OnlyTagged(tokens, Added, after);
    } else if after == [] {
      OnlyTagged(tokens, Removed, before);
    } else {
      var rest, script := tokens[1..], LcsScript(before, after);
      assert tokens == [tokens[0]] + rest;
      match tokens[0].op {
        case Same =>
          assert BeforeSide(rest) == before[1..] && AfterSide(rest) == after[1..];
          WalkIsFirstChoice(before[1..], after[1..], rest);
          assert script[1..] == LcsScript(before[1..], after[1..]);
        case Removed =>
          assert BeforeSide(rest) == before[1..] && AfterSide(rest) == after;
          SurvivorsBounded(rest);
          if script[0].op.Removed? {
            assert script[1..] == LcsScript(before[1..], after);
            WalkIsFirstChoice(before[1..], after, rest);
          }
        case Added =>
          assert BeforeSide(rest) == before && AfterSide(rest) == after[1..];
          SurvivorsBounded(rest);
          if script[0].op.Added? {
            assert script[1..] == LcsScript(before, after[1..]);
            WalkIsFirstChoice(before, after[1..], rest);
          }
      }
    }
  }

  /** Ties to removal: once the walk adds, it goes on adding until the next match. */
  lemma AddingGoesOn<T>(before: seq<T>, after: seq<T>)
    requires before != [] && after != [] && before[0] != after[0]
    requires Lcs(before[1..], after) < Lcs(before, after[1..])
    ensures var next := LcsScript(before, after[1..]); next != [] && !next[0].op.Removed?
  {
    if after[1..] != [] && before[0] != after[1] {
      LcsDropRight(before[1..], after);
      assert Lcs(before[1..], after[1..]) < Lcs(before, after[1..][1..]);
    }
  }

  lemma {:induction false} LcsScriptRemovalsFirst<T>(before: seq<T>, after: seq<T>)
    ensures RemovalsFirst(LcsScript(before, after))
    decreases |before| + |after|
  {
    if before == [] || after == [] {
    } else if before[0] == after[0] {
      LcsScriptRemovalsFirst(before[1..], after[1..]);
    } else if Lcs(before[1..], after) >= Lcs(before, after[1..]) {
      LcsScriptRemovalsFirst(before[1..], after);
    } else {
      LcsScriptRemovalsFirst(before, after[1..]);
      AddingGoesOn(before, after);
    }
  }

  // ---------------------------------------------------------------- trimming

  /** How many leading elements match, `n` of them known to. */
  function CommonHead<T(==)>(a: seq<T>, b: seq<T>, n: nat): (head: nat)
    requires n <= |a| && n <= |b|
    ensures n <= head <= |a| && head <= |b|
    decreases |a| - n
  {
    if n < |a| && n < |b| && a[n] == b[n] then CommonHead(a, b, n + 1) else n
  }

  lemma {:induction false} CommonHeadMatches<T>(a: seq<T>, b: seq<T>, n: nat)
    requires n <= |a| && n <= |b| && a[..n] == b[..n]
    ensures var head := CommonHead(a, b, n);
            a[..head] == b[..head] && (head < |a| && head < |b| ==> a[head] != b[head])
    decreases |a| - n
  {
    if n < |a| && n < |b| && a[n] == b[n] {
      assert a[..n + 1] == a[..n] + [a[n]] && b[..n + 1] == b[..n] + [b[n]];
      CommonHeadMatches(a, b, n + 1);
    }
  }

  /** How many trailing elements match outside the first `head`, `n` of them known to. */
  function CommonTail<T(==)>(a: seq<T>, b: seq<T>, head: nat, n: nat): (tail: nat)
    requires head + n <= |a| && head + n <= |b|
    ensures n <= tail <= |a| - head && tail <= |b| - head
    decreases |a| - n
  {
    if n < |a| - head && n < |b| - head && a[|a| - 1 - n] == b[|b| - 1 - n] then
      CommonTail(a, b, head, n + 1)
    else n
  }

  lemma {:induction false} CommonTailMatches<T>(a: seq<T>, b: seq<T>, head: nat, n: nat)
    requires head + n <= |a| && head + n <= |b| && a[|a| - n..] == b[|b| - n..]
    ensures var tail := CommonTail(a, b, head, n);
            && a[|a| - tail..] == b[|b| - tail..]
            && (tail < |a| - head && tail < |b| - head ==> a[|a| - 1 - tail] != b[|b| - 1 - tail])
    decreases |a| - n
  {
    var i, k := |a| - 1 - n, |b| - 1 - n;
    if n < |a| - head && n < |b| - head && a[i] == b[k] {
      assert a[i..] == [a[i]] + a[i + 1..] && b[k..] == [b[k]] + b[k + 1..];
      CommonTailMatches(a, b, head, n + 1);
    }
  }

  /** Both texts with their common ends matched off. */
  datatype Ends<T> = Ends(head: seq<T>, before: seq<T>, after: seq<T>, tail: seq<T>)

  function Cut<T>(before: seq<T>, after: seq<T>, head: nat, tail: nat): Ends<T>
    requires head + tail <= |before| && head + tail <= |after|
  {
    Ends(before[..head], before[head..|before| - tail], after[head..|after| - tail], before[|before| - tail..])
  }

  function SplitEnds<T(==)>(before: seq<T>, after: seq<T>): Ends<T> {
    var head := CommonHead(before, after, 0);
    Cut(before, after, head, CommonTail(before, after, head, 0))
  }

  /** Trimming only matches equal elements... */
  lemma TrimParts<T>(before: seq<T>, after: seq<T>)
    ensures var t := SplitEnds(before, after);
            t.head + t.before + t.tail == before && t.head + t.after + t.tail == after
  {
    hide CommonHead, CommonTail;
    var head := CommonHead(before, after, 0);
    var tail := CommonTail(before, after, head, 0);
    CommonHeadMatches(before, after, 0);
    CommonTailMatches(before, after, head, 0);
    var t := SplitEnds(before, after);
    ThreeParts(before, head, |before| - tail);
    ThreeParts(after, head, |after| - tail);
  }

  /** ...and stops at the first and the last difference. */
  lemma TrimIsMaximal<T>(before: seq<T>, after: seq<T>)
    requires SplitEnds(before, after).before != [] && SplitEnds(before, after).after != []
    ensures var t := SplitEnds(before, after);
            t.before[0] != t.after[0] && t.before[|t.before| - 1] != t.after[|t.after| - 1]
  {
    var head := CommonHead(before, after, 0);
    CommonHeadMatches(before, after, 0);
    CommonTailMatches(before, after, head, 0);
  }

  lemma ThreeParts<T>(a: seq<T>, i: nat, k: nat)
    requires i <= k <= |a|
    ensures a[..i] + a[i..k] + a[k..] == a
  {
  }

  /** The guard of `diffSequences`: a middle too long for the table. */
  predicate TooLong<T(==)>(before: seq<T>, after: seq<T>) {
    |before| > MAX_DIFF_TOKENS || |after| > MAX_DIFF_TOKENS
  }

  predicate OverCap<T(==)>(before: seq<T>, after: seq<T>) {
    var t := SplitEnds(before, after);
    TooLong(t.before, t.after)
  }

  ghost predicate Disjoint<T>(a: seq<T>, b: seq<T>) {
    forall k :: 0 <= k < |a| ==> a[k] !in b
  }

  /** The table was used, or it was abandoned for middles that share no element. */
  ghost predicate NothingMissed<T>(before: seq<T>, after: seq<T>) {
    !OverCap(before, after) || Disjoint(SplitEnds(before, after).before, SplitEnds(before, after).after)
  }

  lemma DisjointIffNothingCommon<T>(a: seq<T>, b: seq<T>)
    ensures Disjoint(a, b) <==> Lcs(a, b) == 0
  {
    var c := LcsAttained(a, b);
    if c != [] {
      HeadOccurs(c, a);
      HeadOccurs(c, b);
    }
    forall k | 0 <= k < |a| && a[k] in b ensures Lcs(a, b) > 0 {
      SingletonSubsequence(a[k], a);
      SingletonSubsequence(a[k], b);
      LcsBounds(a, b, [a[k]]);
    }
  }

  lemma {:induction false} HeadOccurs<T>(c: seq<T>, s: seq<T>)
    requires c != [] && IsSubsequence(c, s)
    ensures c[0] in s
    decreases |s|
  {
    if c[0] != s[0] { HeadOccurs(c, s[1..]); }
  }

  /** The script of two trimmed texts. */
  function MiddleScript<T(==)>(before: seq<T>, after: seq<T>): seq<DiffToken<T>> {
    if TooLong(before, after) then Tag(Removed, before) + Tag(Added, after)
    else LcsScript(before, after)
  }

  function DiffScript<T(==)>(before: seq<T>, after: seq<T>): seq<DiffToken<T>> {
    var t := SplitEnds(before, after);
    Tag(Same, t.head) + MiddleScript(t.before, t.after) + Tag(Same, t.tail)
  }

  lemma MiddleSides<T>(before: seq<T>, after: seq<T>)
    ensures IsScript(MiddleScript(before, after), before, after)
    ensures |Survivors(MiddleScript(before, after))|
         == if TooLong(before, after) then 0 else Lcs(before, after)
  {
    if TooLong(before, after) {
      TagSides(Removed, before);
      TagSides(Added, after);
      SidesConcat(Tag(Removed, before), Tag(Added, after));
    } else {
      LcsScriptIsScript(before, after);
    }
  }

  lemma DiffSides<T>(before: seq<T>, after: seq<T>)
    ensures IsScript(DiffScript(before, after), before, after)
    ensures |Survivors(DiffScript(before, after))|
         == var t := SplitEnds(before, after);
            |t.head| + |t.tail| + if OverCap(before, after) then 0 else Lcs(t.before, t.after)
  {
    var t := SplitEnds(before, after);
    var middle := MiddleScript(t.before, t.after);
    TrimParts(before, after);
    MiddleSides(t.before, t.after);
    TagSides(Same, t.head);
    TagSides(Same, t.tail);
    SidesConcat(Tag(Same, t.head), middle);
    SidesConcat(Tag(Same, t.head) + middle, Tag(Same, t.tail));
  }

  lemma DiffKeepsLcs<T>(before: seq<T>, after: seq<T>)
    requires !OverCap(before, after)
    ensures |Survivors(DiffScript(before, after))| == Lcs(before, after)
  {
    var t := SplitEnds(before, after);
    DiffSides(before, after);
    TrimParts(before, after);
    LcsTrim(t.head, t.before, t.after, t.tail);
  }

  /** No text is lost or invented, over the cap too. */
  lemma DiffIsLossless<T>(before: seq<T>, after: seq<T>)
    ensures IsScript(DiffScript(before, after), before, after)
  {
    DiffSides(before, after);
  }

  /** Every maximal edit run is removals, then additions; over the cap too. */
  lemma DiffRemovalsFirst<T>(before: seq<T>, after: seq<T>)
    ensures RemovalsFirst(DiffScript(before, after))
  {
    var t := SplitEnds(before, after);
    LcsScriptRemovalsFirst(t.before, t.after);
    RemovalsThenAdditions(Tag(Removed, t.before), Tag(Added, t.after));
    RemovalsFirstPadded(Tag(Same, t.head), MiddleScript(t.before, t.after), Tag(Same, t.tail));
  }

  lemma RemovalsThenAdditions<T>(removed: seq<DiffToken<T>>, added: seq<DiffToken<T>>)
    requires AllOp(removed, Removed) && AllOp(added, Added)
    ensures RemovalsFirst(removed + added)
  {
  }

  lemma RemovalsFirstPadded<T>(head: seq<DiffToken<T>>, middle: seq<DiffToken<T>>, tail: seq<DiffToken<T>>)
    requires AllOp(head, Same) && RemovalsFirst(middle) && AllOp(tail, Same)
    ensures RemovalsFirst(head + middle + tail)
  {
  }

  /** The diff keeps as much as any diff could, exactly when nothing was missed. */
  lemma DiffIsOptimal<T(!new)>(before: seq<T>, after: seq<T>)
    ensures IsLongestCommonLength(|Survivors(DiffScript(before, after))|, before, after)
       <==> NothingMissed(before, after)
  {
    var t := SplitEnds(before, after);
    DiffSides(before, after);
    TrimParts(before, after);
    LcsTrim(t.head, t.before, t.after, t.tail);
    DisjointIffNothingCommon(t.before, t.after);
    LcsIsLongest(before, after, |Survivors(DiffScript(before, after))|);
  }

  /** Two texts that differ at both ends are all middle. */
  lemma NothingToTrim<T>(before: seq<T>, after: seq<T>)
    requires before != [] && after != []
    requires before[0] != after[0] && before[|before| - 1] != after[|after| - 1]
    ensures SplitEnds(before, after) == Ends([], before, after, [])
  {
  }

  /** The cap: 2500 on either side of what is left between the common ends, and that many are still diffed. */
  lemma CapIs<T>(before: seq<T>, after: seq<T>)
    ensures |before| <= 2500 && |after| <= 2500 ==> !OverCap(before, after)
    ensures before != [] && after != [] && before[0] != after[0] && before[|before| - 1] != after[|after| - 1] ==>
              (OverCap(before, after) <==> |before| > 2500 || |after| > 2500)
  {
    if before != [] && after != [] && before[0] != after[0] && before[|before| - 1] != after[|after| - 1] {
      NothingToTrim(before, after);
    }
  }

  /**
   * Past the cap matches are missed: `n` equal elements, enough to fill a
   * table, between ends that differ. Not one of them is kept.
   */
  lemma CapMissesMatches<T>(common: T, p: T, q: T, n: nat)
    requires n > MAX_DIFF_TOKENS && p != common && q != common && p != q
    ensures var before, after := [p] + seq(n, _ => common) + [p], [q] + seq(n, _ => common) + [q];
      && Lcs(before, after) >= n
      && Survivors(DiffScript(before, after)) == []
      && !NothingMissed(before, after)
  {
    var run := seq(n, _ => common);
    var before, after := [p] + run + [p], [q] + run + [q];
    hide CommonHead, CommonTail, IsSubsequence, Lcs;
    NothingToTrim(before, after);
    DiffSides(before, after);
    SubsequenceRefl(run);
    LcsMiddle([p], [q], run, [p], [q]);
    assert before[1] == common && after[1] == common;
  }

  lemma LcsMiddle<T>(a: seq<T>, b: seq<T>, common: seq<T>, a': seq<T>, b': seq<T>)
    ensures Lcs(a + common + a', b + common + b') >= |common|
  {
    hide IsSubsequence, Lcs;
    SubsequenceRefl(common);
    InTheMiddle(a, common, a');
    InTheMiddle(b, common, b');
    LcsBounds(a + common + a', b + common + b', common);
  }

  lemma InTheMiddle<T>(a: seq<T>, c: seq<T>, b: seq<T>)
    ensures IsSubsequence(c, a + c + b)
  {
    hide IsSubsequence;
    SubsequenceRefl(c);
    NothingIsSubsequence(a);
    NothingIsSubsequence(b);
    SubsequenceConcat([], a, c, c);
    SubsequenceConcat([] + c, a + c, [], b);
    assert [] + c == c && c + [] == c;
  }

  lemma NothingIsSubsequence<T>(s: seq<T>)
    ensures IsSubsequence([], s)
  {
  }

  /** Within an optimal script, no stretch without a match holds one text on both sides. */
  lemma OptimalBlocksDisjoint<T>(tokens: seq<DiffToken<T>>, i: nat, k: nat, x: T)
    requires |Survivors(tokens)| == Lcs(BeforeSide(tokens), AfterSide(tokens))
    requires i <= k <= |tokens|
    requires Survivors(tokens[i..k]) == []
    ensures !(x in BeforeSide(tokens[i..k]) && x in AfterSide(tokens[i..k]))
  {
    var l, m, r := tokens[..i], tokens[i..k], tokens[k..];
    if x in BeforeSide(m) && x in AfterSide(m) {
      assert tokens == l + m + r;
      SidesConcat(l, m);
      SidesConcat(l + m, r);
      SurvivorsAreCommon(l);
      SurvivorsAreCommon(r);
      SingletonSubsequence(x, BeforeSide(m));
      SingletonSubsequence(x, AfterSide(m));
      var c := Survivors(l) + [x];
      SubsequenceConcat(Survivors(l), BeforeSide(l), [x], BeforeSide(m));
      SubsequenceConcat(Survivors(l), AfterSide(l), [x], AfterSide(m));
      SubsequenceConcat(c, BeforeSide(l) + BeforeSide(m), Survivors(r), BeforeSide(r));
      SubsequenceConcat(c, AfterSide(l) + AfterSide(m), Survivors(r), AfterSide(r));
      LcsBounds(BeforeSide(tokens), AfterSide(tokens), c + Survivors(r));
      assert false;
    }
  }

  lemma {:induction false} SurvivorsOfEdits<T>(tokens: seq<DiffToken<T>>)
    requires forall k :: 0 <= k < |tokens| ==> tokens[k].op != Same
    ensures Survivors(tokens) == []
  {
    if tokens != [] { SurvivorsOfEdits(tokens[1..]); }
  }

  /** Below the cap, nothing removed in an edit block reappears among that block's additions. */
  lemma DiffBlocksDisjoint<T>(before: seq<T>, after: seq<T>, i: nat, k: nat, x: T)
    requires !OverCap(before, after)
    requires i <= k <= |DiffScript(before, after)|
    requires forall m :: i <= m < k ==> DiffScript(before, after)[m].op != Same
    ensures var block := DiffScript(before, after)[i..k]; !(x in BeforeSide(block) && x in AfterSide(block))
  {
    var tokens := DiffScript(before, after);
    DiffKeepsLcs(before, after);
    DiffIsLossless(before, after);
    SurvivorsOfEdits(tokens[i..k]);
    OptimalBlocksDisjoint(tokens, i, k, x);
  }

  /** Only equal texts give a script without edits. */
  lemma DiffAllSame<T>(before: seq<T>, after: seq<T>)
    ensures AllOp(DiffScript(before, after), Same) <==> before == after
  {
    if before == after {
      var t := SplitEnds(before, after);
      CommonHeadMatches(before, after, 0);
      assert t.before == [] && t.after == [] && t.tail == [];
      assert MiddleScript(t.before, t.after) == [];
      assert DiffScript(before, after) == Tag(Same, t.head);
    }
    if AllOp(DiffScript(before, after), Same) {
      DiffIsLossless(before, after);
      AllSameSides(DiffScript(before, after));
    }
  }

  lemma {:induction false} AllSameSides<T>(tokens: seq<DiffToken<T>>)
    requires AllOp(tokens, Same)
    ensures BeforeSide(tokens) == AfterSide(tokens)
  {
    if tokens != [] { AllSameSides(tokens[1..]); }
  }

  // ---------------------------------------------------------------- the loops

  /** The value cell `p` of the flat table must hold: row `p / columns`, column `p % columns`. */
  ghost function Cell<T>(before: seq<T>, after: seq<T>, p: nat): nat {
    var i, j := p / (|after| + 1), p % (|after| + 1);
    if i <= |before| then Lcs(before[i..], after[j..]) else 0
  }

  lemma MulMonotone(x: nat, y: nat, c: nat)
    ensures x <= y ==> x * c <= y * c
  {
  }

  lemma DivModUnique(columns: nat, i: nat, j: nat)
    requires j < columns
    ensures (i * columns + j) / columns == i && (i * columns + j) % columns == j
  {
    var p := i * columns + j;
    var q, r := p / columns, p % columns;
    assert p == q * columns + r && 0 <= r < columns;
    MulMonotone(i + 1, q, columns);
    MulMonotone(q + 1, i, columns);
  }

  lemma CellAt<T>(before: seq<T>, after: seq<T>, i: nat, j: nat, p: nat)
    requires i <= |before| && j <= |after| && p == i * (|after| + 1) + j
    ensures p < (|before| + 1) * (|after| + 1)
    ensures Cell(before, after, p) == Lcs(before[i..], after[j..])
  {
    MulMonotone(i, |before|, |after| + 1);
    DivModUnique(|after| + 1, i, j);
  }

  lemma LcsStep<T>(before: seq<T>, after: seq<T>, i: nat, j: nat)
    requires i < |before| && j < |after|
    ensures Lcs(before[i..], after[j..])
         == if before[i] == after[j] then Lcs(before[i + 1..], after[j + 1..]) + 1
            else Max(Lcs(before[i + 1..], after[j..]), Lcs(before[i..], after[j + 1..]))
  {
    assert before[i..][1..] == before[i + 1..] && after[j..][1..] == after[j + 1..];
  }

  lemma LcsAtMost<T>(before: seq<T>, after: seq<T>)
    ensures Lcs(before, after) <= |before|
  {
    var c := LcsAttained(before, after);
    SubsequenceLength(c, before);
  }

  /** A cell is computed from the one below, the one to the right, and the one between. */
  lemma CellStep<T>(before: seq<T>, after: seq<T>, i: nat, j: nat, p: nat, columns: nat)
    requires i < |before| && j < |after| && columns == |after| + 1 && p == i * columns + j
    ensures p + columns + 1 < (|before| + 1) * (|after| + 1)
    ensures Cell(before, after, p + columns + 1) < |before|
    ensures Cell(before, after, p)
         == if before[i] == after[j] then Cell(before, after, p + columns + 1) + 1
            else Max(Cell(before, after, p + columns), Cell(before, after, p + 1))
  {
    assert (i + 1) * columns == i * columns + columns;
    CellAt(before, after, i, j, p);
    CellAt(before, after, i, j + 1, p + 1);
    CellAt(before, after, i + 1, j, p + columns);
    CellAt(before, after, i + 1, j + 1, p + columns + 1);
    LcsAtMost(before[i + 1..], after[j + 1..]);
    LcsStep(before, after, i, j);
  }

  /** The last row and the last column hold zero. */
  lemma CellEdges<T>(before: seq<T>, after: seq<T>)
    ensures forall p :: |before| * (|after| + 1) <= p < (|before| + 1) * (|after| + 1) ==> Cell(before, after, p) == 0
    ensures |before| * (|after| + 1) + |after| + 1 == (|before| + 1) * (|after| + 1)
  {
    var last := |before| * (|after| + 1);
    assert last + |after| + 1 == (|before| + 1) * (|after| + 1);
    forall p | last <= p < (|before| + 1) * (|after| + 1) ensures Cell(before, after, p) == 0 {
      CellAt(before, after, |before|, p - last, p);
    }
  }

  /** Cells from `done` on are finished, the others still zero. */
  ghost predicate Filled<T>(before: seq<T>, after: seq<T>, lengths: seq<uint32>, done: nat) {
    && (forall p :: done <= p < |lengths| ==> lengths[p] as int == Cell(before, after, p))
    && (forall p :: 0 <= p < done && p < |lengths| ==> lengths[p] == 0)
  }

  /** The inner loop: one row, right to left. Its last cell stays zero. */
  method FillRow<T(==)>(before: seq<T>, after: seq<T>, lengths: array<uint32>, i: nat, columns: nat)
    requires |before| <= MAX_DIFF_TOKENS && i < |before| && columns == |after| + 1
    requires lengths.Length == (|before| + 1) * columns
    requires Filled(before, after, lengths[..], (i + 1) * columns)
    modifies lengths
    ensures Filled(before, after, lengths[..], i * columns)
  {
    var row := i * columns;
    CellAt(before, after, i, |after|, row + |after|);
    assert row + columns == (i + 1) * columns;
    ghost var done := row + |after|;
    var j := |after| - 1;
    while j >= 0
      invariant -1 <= j < |after|
      invariant done == row + j + 1 && 0 <= done < lengths.Length
      invariant forall p :: done <= p < lengths.Length ==> lengths[p] as int == Cell(before, after, p)
      invariant forall p :: 0 <= p < done ==> lengths[p] == 0
    {
      var at := row + j;
      CellStep(before, after, i, j, at, columns);
      if before[i] == after[j] {
        lengths[at] := lengths[at + columns + 1] + 1;
      } else if lengths[at + columns] >= lengths[at + 1] {
        lengths[at] := lengths[at + columns];
      } else {
        lengths[at] := lengths[at + 1];
      }
      done := at;
      j := j - 1;
    }
  }

  /** Fills the table from its last cell backwards, so every cell reads finished ones. */
  method LcsTable<T(==)>(before: seq<T>, after: seq<T>) returns (lengths: array<uint32>)
    requires |before| <= MAX_DIFF_TOKENS && |after| <= MAX_DIFF_TOKENS
    ensures fresh(lengths) && lengths.Length == (|before| + 1) * (|after| + 1)
    ensures Filled(before, after, lengths[..], 0)
  {
    var columns := |after| + 1;
    lengths := new uint32[(|before| + 1) * columns](_ => 0);
    CellEdges(before, after);
    var i := |before| - 1;
    while i >= 0
      invariant -1 <= i < |before|
      invariant (i + 1) * columns >= 0
      invariant Filled(before, after, lengths[..], (i + 1) * columns)
    {
      FillRow(before, after, lengths, i, columns);
      i := i - 1;
    }
  }

  /** Reads row `i`, column `j` of the finished table. */
  method Lookup<T>(before: seq<T>, after: seq<T>, lengths: seq<uint32>, i: nat, j: nat) returns (length: uint32)
    requires |lengths| == (|before| + 1) * (|after| + 1) && i <= |before| && j <= |after|
    requires Filled(before, after, lengths, 0)
    ensures length as int == Lcs(before[i..], after[j..])
  {
    CellAt(before, after, i, j, i * (|after| + 1) + j);
    length := lengths[i * (|after| + 1) + j];
  }

  /** What is emitted and what is left make up the script. */
  ghost predicate Walked<T>(tokens: seq<DiffToken<T>>, before: seq<T>, after: seq<T>, i: nat, j: nat)
    requires i <= |before| && j <= |after|
  {
    tokens + LcsScript(before[i..], after[j..]) == LcsScript(before, after)
  }

  lemma WalkStart<T>(before: seq<T>, after: seq<T>)
    ensures Walked([], before, after, 0, 0)
  {
    assert before[0..] == before && after[0..] == after;
  }

  /** The walk takes the specification's step. */
  lemma WalkStep<T>(tokens: seq<DiffToken<T>>, before: seq<T>, after: seq<T>, i: nat, j: nat)
    requires i < |before| && j < |after| && Walked(tokens, before, after, i, j)
    ensures if before[i] == after[j] then
              Walked(tokens + [DiffToken(Same, before[i])], before, after, i + 1, j + 1)
            else if Lcs(before[i + 1..], after[j..]) >= Lcs(before[i..], after[j + 1..]) then
              Walked(tokens + [DiffToken(Removed, before[i])], before, after, i + 1, j)
            else
              Walked(tokens + [DiffToken(Added, after[j])], before, after, i, j + 1)
  {
    var b, a := before[i..], after[j..];
    assert b[1..] == before[i + 1..] && a[1..] == after[j + 1..];
    Associative(tokens, [DiffToken(Same, b[0])], LcsScript(b[1..], a[1..]));
    Associative(tokens, [DiffToken(Removed, b[0])], LcsScript(b[1..], a));
    Associative(tokens, [DiffToken(Added, a[0])], LcsScript(b, a[1..]));
  }

  /** The walk proper, up to the end of the shorter side. */
  method WalkTable<T(==)>(before: seq<T>, after: seq<T>, lengths: seq<uint32>)
    returns (tokens: seq<DiffToken<T>>, i: nat, j: nat)
    requires |lengths| == (|before| + 1) * (|after| + 1)
    requires Filled(before, after, lengths, 0)
    ensures i <= |before| && j <= |after| && (i == |before| || j == |after|)
    ensures Walked(tokens, before, after, i, j)
  {
    hide *;
    tokens, i, j := [], 0, 0;
    WalkStart(before, after);
    while i < |before| && j < |after|
      invariant i <= |before| && j <= |after|
      invariant Walked(tokens, before, after, i, j)
    {
      WalkStep(tokens, before, after, i, j);
      var below := Lookup(before, after, lengths, i + 1, j);
      var right := Lookup(before, after, lengths, i, j + 1);
      if before[i] == after[j] {
        tokens := tokens + [DiffToken(Same, before[i])];
        i := i + 1;
        j := j + 1;
      } else if below >= right {
        tokens := tokens + [DiffToken(Removed, before[i])];
        i := i + 1;
      } else {
        tokens := tokens + [DiffToken(Added, after[j])];
        j := j + 1;
      }
    }
  }

  /** The loop `for (const text of texts) tokens.push({ op, text })`. */
  method PushAll<T(==)>(tokens: seq<DiffToken<T>>, op: DiffOp, texts: seq<T>) returns (pushed: seq<DiffToken<T>>)
    ensures pushed == tokens + Tag(op, texts)
  {
    pushed := tokens;
    for n := 0 to |texts|
      invariant pushed == tokens + Tag(op, texts[..n])
    {
      TagSnoc(op, texts[..n], texts[n]);
      assert texts[..n + 1] == texts[..n] + [texts[n]];
      pushed := pushed + [DiffToken(op, texts[n])];
    }
    assert texts[..|texts|] == texts;
  }

  method LcsWalk<T(==)>(before: seq<T>, after: seq<T>) returns (tokens: seq<DiffToken<T>>)
    requires |before| <= MAX_DIFF_TOKENS && |after| <= MAX_DIFF_TOKENS
    ensures tokens == LcsScript(before, after)
  {
    var lengths := LcsTable(before, after);
    hide *;
    var i, j;
    tokens, i, j := WalkTable(before, after, lengths[..]);
    WalkEnd(tokens, before, after, i, j);
    tokens := PushAll(tokens, Removed, before[i..]);
    tokens := PushAll(tokens, Added, after[j..]);
  }

  /** With one side used up, the drain loops push what is left of the script. */
  lemma WalkEnd<T>(tokens: seq<DiffToken<T>>, before: seq<T>, after: seq<T>, i: nat, j: nat)
    requires i <= |before| && j <= |after| && (i == |before| || j == |after|) && Walked(tokens, before, after, i, j)
    ensures tokens + Tag(Removed, before[i..]) + Tag(Added, after[j..]) == LcsScript(before, after)
  {
    var r, a := Tag(Removed, before[i..]), Tag(Added, after[j..]);
    if i == |before| {
      assert before[i..] == [] && r == [] && tokens + r == tokens;
    } else {
      assert after[j..] == [] && a == [] && tokens + r + a == tokens + r;
    }
  }

  /** The two trimming loops. */
  method MatchEnds<T(==)>(before: seq<T>, after: seq<T>) returns (t: Ends<T>)
    ensures t == SplitEnds(before, after)
  {
    var head: nat := 0;
    while head < |before| && head < |after| && before[head] == after[head]
      invariant head <= |before| && head <= |after|
      invariant CommonHead(before, after, head) == CommonHead(before, after, 0)
    {
      head := head + 1;
    }
    var tail: nat := 0;
    while tail < |before| - head && tail < |after| - head
          && before[|before| - 1 - tail] == after[|after| - 1 - tail]
      invariant tail <= |before| - head && tail <= |after| - head
      invariant CommonTail(before, after, head, tail) == CommonTail(before, after, head, 0)
    {
      tail := tail + 1;
    }
    t := Cut(before, after, head, tail);
  }

  /** The table, or past the cap a wholesale replacement. */
  method DiffMiddle<T(==)>(before: seq<T>, after: seq<T>) returns (tokens: seq<DiffToken<T>>)
    ensures tokens == MiddleScript(before, after)
  {
    if |before| > MAX_DIFF_TOKENS || |after| > MAX_DIFF_TOKENS {
      tokens := PushAll([], Removed, before);
      tokens := PushAll(tokens, Added, after);
    } else {
      tokens := LcsWalk(before, after);
    }
  }

  method DiffSequences<T(==)>(before: seq<T>, after: seq<T>) returns (tokens: seq<DiffToken<T>>)
    ensures tokens == DiffScript(before, after)
  {
    var t := MatchEnds(before, after);
    var middle := DiffMiddle(t.before, t.after);
    tokens := PushAll([], Same, t.head);
    tokens := PushAll(tokens + middle, Same, t.tail);
  }
}
