/**
 * One cell's diff, as hunks (apps/staff/lib/legal-drafts.ts): the line diff,
 * its rows and its hunks put together, and what that guarantees the reader.
 */
module CellDiffs {
  import opened Wrappers
  import opened Sequences
  import opened Text
  import opened CommonSubsequences
  import opened EditScripts
  import opened EditBlocks
  import opened WordDiffs
  import opened LineDiffs
  import opened Hunks

  /** The line-level script of a cell. */
  function LineScript(before: string, after: string): seq<Token> {
    DiffScript(SplitLines(before), SplitLines(after))
  }

  function Rows(before: string, after: string): seq<DiffRow> {
    PairRows(LineScript(before, after), 0, 0)
  }

  /** A row is kept when some changed row is itself or at most `context` rows away. */
  ghost predicate NearChange(rows: seq<DiffRow>, context: int, k: nat) {
    exists m :: 0 <= m < |rows| && rows[m].kind != SameRow && (m == k || -context <= m - k <= context)
  }

  ghost predicate Keeps(keep: seq<bool>, rows: seq<DiffRow>, context: int) {
    |keep| == |rows| && forall k :: 0 <= k < |rows| ==> (keep[k] <==> NearChange(rows, context, k))
  }

  /** The hunks and the unreported trailing skip lay out the rows, eliding exactly those far from any change. */
  ghost predicate HunksOf(hunks: seq<DiffHunk<DiffRow>>, trailing: nat, rows: seq<DiffRow>, context: int) {
    exists keep :: Keeps(keep, rows, context) && Collapses(hunks, trailing, rows, keep, |rows|)
  }

  function CountSame(rows: seq<DiffRow>): nat {
    if rows == [] then 0 else (if rows[0].kind == SameRow then 1 else 0) + CountSame(rows[1..])
  }

  // ---------------------------------------------------------------- the loops

  /** Some changed row among the first `upTo` is within reach of row `k`. */
  ghost predicate Reached(rows: seq<DiffRow>, context: int, upTo: nat, k: nat) {
    exists m :: 0 <= m < upTo && m < |rows| && rows[m].kind != SameRow && -context <= m - k <= context
  }

  /** The two nested loops that mark rows near a change. */
  method MarkKept(rows: seq<DiffRow>, context: int) returns (kept: seq<bool>)
    ensures Keeps(kept, rows, context)
  {
    var keep := new bool[|rows|](k requires 0 <= k < |rows| => rows[k].kind != SameRow);
    for index := 0 to |rows|
      invariant forall k :: 0 <= k < |rows| ==>
        (keep[k] <==> rows[k].kind != SameRow || Reached(rows, context, index, k))
    {
      if rows[index].kind != SameRow {
        MarkAround(keep, index, context);
      }
      forall k | 0 <= k < |rows|
        ensures Reached(rows, context, index + 1, k)
           <==> Reached(rows, context, index, k) || (rows[index].kind != SameRow && -context <= index - k <= context)
      {
        ReachedStep(rows, context, index, k);
      }
    }
    kept := keep[..];
    forall k | 0 <= k < |rows| ensures kept[k] <==> NearChange(rows, context, k) {
      assert kept[k] == keep[k];
    }
  }

  lemma ReachedStep(rows: seq<DiffRow>, context: int, index: nat, k: nat)
    requires index < |rows|
    ensures Reached(rows, context, index + 1, k)
       <==> Reached(rows, context, index, k) || (rows[index].kind != SameRow && -context <= index - k <= context)
  {
  }

  method MarkAround(keep: array<bool>, index: nat, context: int)
    requires index < keep.Length && keep[index]
    modifies keep
    ensures forall k :: 0 <= k < keep.Length ==> keep[k] == (old(keep[k]) || -context <= index - k <= context)
  {
    var offset := 1;
    while offset <= context
      invariant 1 <= offset && (offset <= context + 1 || offset == 1)
      invariant forall k :: 0 <= k < keep.Length ==> keep[k] == (old(keep[k]) || -offset < index - k < offset)
      decreases context - offset
    {
      if index - offset >= 0 { keep[index - offset] := true; }
      if index + offset < keep.Length { keep[index + offset] := true; }
      offset := offset + 1;
    }
  }

  method CountUnchanged(rows: seq<DiffRow>) returns (n: nat)
    ensures n == CountSame(rows)
  {
    n := 0;
    var k := |rows|;
    while k > 0
      invariant 0 <= k <= |rows| && n == CountSame(rows[k..])
    {
      k := k - 1;
      assert rows[k..][1..] == rows[k + 1..];
      if rows[k].kind == SameRow { n := n + 1; }
    }
    assert rows[0..] == rows;
  }

  /** `diffHunks`; `trailing` is the skip the source counts but does not report. */
  method ComputeHunks(before: string, after: string, context: int)
    returns (hunks: seq<DiffHunk<DiffRow>>, unchangedLines: nat, trailing: nat)
    ensures HunksOf(hunks, trailing, Rows(before, after), context)
    ensures unchangedLines == CountSame(Rows(before, after))
  {
    var ops := DiffSequences(SplitLines(before), SplitLines(after));
    var rows := PairChangedLines(ops);
    unchangedLines := CountUnchanged(rows);
    var keep := MarkKept(rows, context);
    hunks, trailing := CollapseRows(rows, keep);
  }

  // ---------------------------------------------------------------- what the rows say

  /** Both texts, line by line and numbered 1..n, can be read off the rows. */
  lemma RowsAccountForText(before: string, after: string)
    ensures Accounts(Rows(before, after), SplitLines(before), SplitLines(after), 0, 0)
  {
    hide PairRows, DiffScript, Accounts, SplitLines;
    RowsAccount(LineScript(before, after), 0, 0);
    DiffIsLossless(SplitLines(before), SplitLines(after));
  }

  lemma {:induction false} CountSameAppend(r: seq<DiffRow>, s: seq<DiffRow>)
    ensures CountSame(r + s) == CountSame(r) + CountSame(s)
  {
    if r == [] {
      assert r + s == s;
    } else {
      CountSameAppend(r[1..], s);
      assert (r + s)[1..] == r[1..] + s;
    }
  }

  ghost predicate AllKind(rows: seq<DiffRow>, kind: RowKind) {
    forall k :: 0 <= k < |rows| ==> rows[k].kind == kind
  }

  lemma {:induction false} BlockKinds(removed: seq<string>, added: seq<string>, b: nat, a: nat, from: nat, end: nat)
    ensures end <= |removed| && end <= |added| ==>
      var rows := PairedRows(removed, added, b, a, end); |rows| == end && AllKind(rows, ChangedRow)
    ensures from <= end <= |removed| ==>
      var rows := RemovedRows(removed, b, from, end); |rows| == end - from && AllKind(rows, RemovedRow)
    ensures from <= end <= |added| ==>
      var rows := AddedRows(added, a, from, end); |rows| == end - from && AllKind(rows, AddedRow)
    decreases end
  {
    hide WordDiff;
    if end > 0 { BlockKinds(removed, added, b, a, from, end - 1); }
  }

  /**
   * Reading down, a removed row is only followed by removed rows and an added
   * row only by added ones until the next unchanged line: each run of edits is
   * one block, its replacements first.
   */
  ghost predicate OneBlockPerRun(rows: seq<DiffRow>) {
    forall k, next :: 0 <= k < next < |rows| && next == k + 1 && rows[k].kind in {RemovedRow, AddedRow} ==>
      rows[next].kind == rows[k].kind || rows[next].kind == SameRow
  }

  ghost predicate NoSame(rows: seq<DiffRow>) {
    forall k :: 0 <= k < |rows| ==> rows[k].kind != SameRow
  }

  lemma PartsShape(x: seq<DiffRow>, y: seq<DiffRow>, z: seq<DiffRow>)
    requires AllKind(x, ChangedRow) && AllKind(y, RemovedRow) && AllKind(z, AddedRow) && (y == [] || z == [])
    ensures OneBlockPerRun(x + y + z) && NoSame(x + y + z)
  {
  }

  lemma BlockShape(removed: seq<string>, added: seq<string>, b: nat, a: nat)
    ensures OneBlockPerRun(BlockRows(removed, added, b, a)) && NoSame(BlockRows(removed, added, b, a))
  {
    hide *;
    var p := Paired(removed, added);
    BlockRowsParts(removed, added, b, a, p);
    BlockKinds(removed, added, b, a, 0, p);
    BlockKinds(removed, added, b, a, p, |removed|);
    BlockKinds(removed, added, b, a, p, |added|);
    PartsShape(PairedRows(removed, added, b, a, p), RemovedRows(removed, b, p, |removed|),
               AddedRows(added, a, p, |added|));
  }

  lemma ShapeAppend(r: seq<DiffRow>, s: seq<DiffRow>)
    requires OneBlockPerRun(r) && OneBlockPerRun(s) && (s == [] || s[0].kind == SameRow)
    ensures OneBlockPerRun(r + s)
  {
  }

  lemma ShapeCons(row: DiffRow, rows: seq<DiffRow>)
    requires OneBlockPerRun(rows) && row.kind == SameRow
    ensures OneBlockPerRun([row] + rows)
  {
  }

  lemma SameLineKind(text: string, b: nat, a: nat)
    ensures SameLine(text, b, a).kind == SameRow
  {
  }

  lemma StartsSame(ops: seq<Token>, b: nat, a: nat)
    requires ops == [] || ops[0].op == Same
    ensures PairRows(ops, b, a) == [] || PairRows(ops, b, a)[0].kind == SameRow
  {
    hide PairRows;
    if ops == [] { NoRows(b, a); } else { PairRowsStep(ops, b, a); }
  }

  lemma TailRemovalsFirst(ops: seq<Token>)
    requires ops != [] && RemovalsFirst(ops)
    ensures RemovalsFirst(ops[1..])
  {
  }

  lemma SameStepShape(ops: seq<Token>, b: nat, a: nat)
    requires ops != [] && ops[0].op == Same && OneBlockPerRun(PairRows(ops[1..], b + 1, a + 1))
    ensures OneBlockPerRun(PairRows(ops, b, a))
  {
    hide *;
    PairRowsStep(ops, b, a);
    SameLineKind(ops[0].text, b, a);
    ShapeCons(SameLine(ops[0].text, b, a), PairRows(ops[1..], b + 1, a + 1));
  }

  lemma BlockStepShape(ops: seq<Token>, b: nat, a: nat, block: Block<string>)
    requires ops != [] && ops[0].op != Same && block == FirstBlock(ops)
    requires block.rest == [] || block.rest[0].op == Same
    requires OneBlockPerRun(PairRows(block.rest, b + |block.removed|, a + |block.added|))
    ensures OneBlockPerRun(PairRows(ops, b, a))
  {
    hide *;
    PairRowsStep(ops, b, a);
    StartsSame(block.rest, b + |block.removed|, a + |block.added|);
    BlockShape(block.removed, block.added, b, a);
    ShapeAppend(BlockRows(block.removed, block.added, b, a),
                PairRows(block.rest, b + |block.removed|, a + |block.added|));
  }

  /** With removals first in the script, each run of edits is paired as one block. */
  lemma {:induction false} RowsShape(ops: seq<Token>, b: nat, a: nat)
    requires RemovalsFirst(ops)
    ensures OneBlockPerRun(PairRows(ops, b, a))
    decreases |ops|
  {
    hide RemovalsFirst, PairRows, FirstBlock;
    if ops == [] {
      NoRows(b, a);
    } else if ops[0].op == Same {
      TailRemovalsFirst(ops);
      RowsShape(ops[1..], b + 1, a + 1);
      SameStepShape(ops, b, a);
    } else {
      var block := FirstBlock(ops);
      BlockIsMaximal(ops);
      RowsShape(block.rest, b + |block.removed|, a + |block.added|);
      BlockStepShape(ops, b, a, block);
    }
  }

  lemma RowsPairWholeRuns(before: string, after: string)
    ensures OneBlockPerRun(Rows(before, after))
  {
    hide PairRows, DiffScript, SplitLines, OneBlockPerRun, RemovalsFirst;
    DiffRemovalsFirst(SplitLines(before), SplitLines(after));
    RowsShape(LineScript(before, after), 0, 0);
  }

  // ---------------------------------------------------------------- what a row shows

  /** A replaced line is diffed word by word; any other is one token, all of one kind. */
  ghost predicate TokensFit(row: DiffRow) {
    match row.kind
    case ChangedRow => row.tokens == WordDiff(BeforeText(row.tokens), AfterText(row.tokens))
    case SameRow => |row.tokens| == 1 && row.tokens[0].op == Same
    case RemovedRow => |row.tokens| == 1 && row.tokens[0].op == Removed
    case AddedRow => |row.tokens| == 1 && row.tokens[0].op == Added
  }

  ghost predicate AllFit(rows: seq<DiffRow>) {
    forall k :: 0 <= k < |rows| ==> TokensFit(rows[k])
  }

  lemma FitAppend(r: seq<DiffRow>, s: seq<DiffRow>)
    requires AllFit(r) && AllFit(s)
    ensures AllFit(r + s)
  {
    hide TokensFit;
  }

  lemma LinesFitTheirTokens(before: string, after: string, b: nat, a: nat)
    ensures TokensFit(ChangedLine(before, after, b, a)) && TokensFit(SameLine(before, b, a))
    ensures TokensFit(RemovedLine(before, b)) && TokensFit(AddedLine(after, a))
  {
    hide WordDiff, BeforeText, AfterText;
    WordDiffLossless(before, after);
  }

  lemma {:induction false} PartsFit(removed: seq<string>, added: seq<string>, b: nat, a: nat, from: nat, end: nat)
    ensures end <= |removed| && end <= |added| ==> AllFit(PairedRows(removed, added, b, a, end))
    ensures from <= end <= |removed| ==> AllFit(RemovedRows(removed, b, from, end))
    ensures from <= end <= |added| ==> AllFit(AddedRows(added, a, from, end))
    decreases end
  {
    hide TokensFit, ChangedLine, RemovedLine, AddedLine;
    if end > 0 {
      PartsFit(removed, added, b, a, from, end - 1);
      var r, s := if end <= |removed| then removed[end - 1] else "", if end <= |added| then added[end - 1] else "";
      LinesFitTheirTokens(r, s, b + end - 1, a + end - 1);
    }
  }

  lemma BlockFit(removed: seq<string>, added: seq<string>, b: nat, a: nat)
    ensures AllFit(BlockRows(removed, added, b, a))
  {
    hide *;
    var p := Paired(removed, added);
    BlockRowsParts(removed, added, b, a, p);
    PartsFit(removed, added, b, a, 0, p);
    PartsFit(removed, added, b, a, p, |removed|);
    PartsFit(removed, added, b, a, p, |added|);
    var x, y, z := PairedRows(removed, added, b, a, p), RemovedRows(removed, b, p, |removed|),
      AddedRows(added, a, p, |added|);
    FitAppend(x, y);
    FitAppend(x + y, z);
  }

  lemma OneFits(row: DiffRow)
    requires TokensFit(row)
    ensures AllFit([row])
  {
    hide TokensFit;
  }

  lemma {:induction false} RowsFit(ops: seq<Token>, b: nat, a: nat)
    ensures AllFit(PairRows(ops, b, a))
    decreases |ops|
  {
    hide PairRows, FirstBlock, AllFit, TokensFit, SameLine, BlockRows;
    if ops == [] {
      NoRows(b, a);
      assert AllFit([]) by { NoneFit(); }
    } else {
      PairRowsStep(ops, b, a);
      if ops[0].op == Same {
        RowsFit(ops[1..], b + 1, a + 1);
        LinesFitTheirTokens(ops[0].text, "", b, a);
        OneFits(SameLine(ops[0].text, b, a));
        FitAppend([SameLine(ops[0].text, b, a)], PairRows(ops[1..], b + 1, a + 1));
      } else {
        var block := FirstBlock(ops);
        RowsFit(block.rest, b + |block.removed|, a + |block.added|);
        BlockFit(block.removed, block.added, b, a);
        FitAppend(BlockRows(block.removed, block.added, b, a),
                  PairRows(block.rest, b + |block.removed|, a + |block.added|));
      }
    }
  }

  lemma NoneFit()
    ensures AllFit([])
  {
  }

  /**
   * The unmarked text is made of words and spaces the two texts share in order, of as many as any
   * unless some were missed.
   */
  ghost predicate KeepsCommonTokens(tokens: seq<Token>, before: string, after: string) {
    exists kept ::
      && KeptText(tokens) == Concat(kept)
      && IsCommon(kept, Tokenize(before), Tokenize(after))
      && (IsLongestCommonLength(|kept|, Tokenize(before), Tokenize(after))
          <==> NothingMissed(Tokenize(before), Tokenize(after)))
  }

  /**
   * A replaced line is shown word by word: its tokens take turns, what went
   * comes before what came, and what is unmarked is a common subsequence of the
   * two lines' words and spaces, a longest one exactly when nothing was missed.
   */
  lemma ReplacedLinesAreDiffedByWord(before: string, after: string, k: nat)
    requires k < |Rows(before, after)| && Rows(before, after)[k].kind == ChangedRow
    ensures var tokens := Rows(before, after)[k].tokens;
            Alternating(tokens) && RemovalsFirst(tokens)
              && KeepsCommonTokens(tokens, BeforeText(tokens), AfterText(tokens))
  {
    hide PairRows, LineScript, WordDiff, BeforeText, AfterText, Alternating, RemovalsFirst, KeepsCommonTokens;
    RowsFit(LineScript(before, after), 0, 0);
    var tokens := Rows(before, after)[k].tokens;
    assert TokensFit(Rows(before, after)[k]);
    var b, a := BeforeText(tokens), AfterText(tokens);
    WordDiffNormalForm(b, a);
    WordDiffIsCommon(b, a);
  }

  lemma WordDiffIsCommon(before: string, after: string)
    ensures KeepsCommonTokens(WordDiff(before, after), before, after)
  {
    hide WordDiff, DiffScript, KeptText, IsCommon, IsLongestCommonLength, NothingMissed, Tokenize, Concat;
    WordDiffKeepsMost(before, after);
  }

  /** Any other line is shown whole, as one token of its own kind. */
  lemma OtherLinesAreWhole(before: string, after: string, k: nat)
    requires k < |Rows(before, after)| && Rows(before, after)[k].kind != ChangedRow
    ensures var row := Rows(before, after)[k];
            && |row.tokens| == 1
            && (row.kind == SameRow <==> row.tokens[0].op == Same)
            && (row.kind == RemovedRow <==> row.tokens[0].op == Removed)
            && (row.kind == AddedRow <==> row.tokens[0].op == Added)
  {
    hide PairRows, LineScript;
    RowsFit(LineScript(before, after), 0, 0);
    assert TokensFit(Rows(before, after)[k]);
  }

  // ---------------------------------------------------------------- unchanged lines

  lemma {:induction false} NoSameCount(rows: seq<DiffRow>)
    ensures NoSame(rows) <==> CountSame(rows) == 0
  {
    if rows != [] { NoSameCount(rows[1..]); }
  }

  lemma SameStepCount(ops: seq<Token>, b: nat, a: nat)
    requires ops != [] && ops[0].op == Same
    ensures CountSame(PairRows(ops, b, a)) == 1 + CountSame(PairRows(ops[1..], b + 1, a + 1))
    ensures |Survivors(ops)| == 1 + |Survivors(ops[1..])|
  {
    hide PairRows, FirstBlock, BlockRows;
    PairRowsStep(ops, b, a);
    assert PairRows(ops, b, a)[1..] == PairRows(ops[1..], b + 1, a + 1);
  }

  lemma BlockStepCount(ops: seq<Token>, b: nat, a: nat, block: Block<string>)
    requires ops != [] && ops[0].op != Same && block == FirstBlock(ops)
    ensures CountSame(PairRows(ops, b, a)) == CountSame(PairRows(block.rest, b + |block.removed|, a + |block.added|))
    ensures Survivors(ops) == Survivors(block.rest)
  {
    hide *;
    PairRowsStep(ops, b, a);
    BlockSides(ops);
    BlockShape(block.removed, block.added, b, a);
    NoSameCount(BlockRows(block.removed, block.added, b, a));
    CountSameAppend(BlockRows(block.removed, block.added, b, a),
                    PairRows(block.rest, b + |block.removed|, a + |block.added|));
  }

  lemma {:induction false} CountIsSurvivors(ops: seq<Token>, b: nat, a: nat)
    ensures CountSame(PairRows(ops, b, a)) == |Survivors(ops)|
    decreases |ops|
  {
    hide PairRows, FirstBlock;
    if ops == [] {
      NoRows(b, a);
    } else if ops[0].op == Same {
      CountIsSurvivors(ops[1..], b + 1, a + 1);
      SameStepCount(ops, b, a);
    } else {
      var block := FirstBlock(ops);
      CountIsSurvivors(block.rest, b + |block.removed|, a + |block.added|);
      BlockStepCount(ops, b, a, block);
    }
  }

  /** The reported unchanged lines are as many as any alignment keeps, exactly when the diff was not cut short. */
  lemma UnchangedLinesAreLongest(before: string, after: string)
    ensures IsLongestCommonLength(CountSame(Rows(before, after)), SplitLines(before), SplitLines(after))
       <==> NothingMissed(SplitLines(before), SplitLines(after))
  {
    hide PairRows, DiffScript, CountSame, IsLongestCommonLength, NothingMissed, SplitLines;
    CountIsSurvivors(LineScript(before, after), 0, 0);
    DiffIsOptimal(SplitLines(before), SplitLines(after));
  }

  // ---------------------------------------------------------------- changed rows

  /** Every replaced line shows at least one word that went or came. */
  ghost predicate ChangesVisible(rows: seq<DiffRow>) {
    forall k :: 0 <= k < |rows| && rows[k].kind == ChangedRow ==> !AllOp(rows[k].tokens, Same)
  }

  ghost predicate PairsDiffer(removed: seq<string>, added: seq<string>) {
    forall k :: 0 <= k < |removed| && k < |added| ==> removed[k] != added[k]
  }

  /** Block by block, the n-th removal is never the n-th addition. */
  ghost predicate BlocksDiffer(ops: seq<Token>)
    decreases |ops|
  {
    if ops == [] then true
    else if ops[0].op == Same then BlocksDiffer(ops[1..])
    else PairsDiffer(FirstBlock(ops).removed, FirstBlock(ops).added) && BlocksDiffer(FirstBlock(ops).rest)
  }

  lemma VisibleAppend(r: seq<DiffRow>, s: seq<DiffRow>)
    ensures ChangesVisible(r + s) <==> ChangesVisible(r) && ChangesVisible(s)
  {
    if ChangesVisible(r + s) {
      forall k | 0 <= k < |r| ensures r[k] == (r + s)[k] {}
      forall k | 0 <= k < |s| ensures s[k] == (r + s)[|r| + k] {}
    }
  }

  lemma ChangedLineVisible(before: string, after: string, b: nat, a: nat)
    ensures ChangesVisible([ChangedLine(before, after, b, a)]) <==> before != after
  {
    var row := [ChangedLine(before, after, b, a)];
    WordDiffAllSame(before, after);
    assert row[0].tokens == WordDiff(before, after);
    if ChangesVisible(row) { assert !AllOp(row[0].tokens, Same); }
  }

  lemma {:induction false} PairedVisible(removed: seq<string>, added: seq<string>, b: nat, a: nat, n: nat)
    requires n <= |removed| && n <= |added|
    ensures ChangesVisible(PairedRows(removed, added, b, a, n)) <==> PairsDiffer(removed[..n], added[..n])
  {
    hide WordDiff, ChangesVisible, ChangedLine;
    if n == 0 {
      assert ChangesVisible([]) by { NoneVisible(); }
    } else {
      PairedVisible(removed, added, b, a, n - 1);
      ChangedLineVisible(removed[n - 1], added[n - 1], b + n - 1, a + n - 1);
      VisibleAppend(PairedRows(removed, added, b, a, n - 1),
                    [ChangedLine(removed[n - 1], added[n - 1], b + n - 1, a + n - 1)]);
      DifferSnoc(removed, added, n);
    }
  }

  lemma NoneVisible()
    ensures ChangesVisible([])
  {
  }

  lemma DifferSnoc(removed: seq<string>, added: seq<string>, n: nat)
    requires 0 < n <= |removed| && n <= |added|
    ensures PairsDiffer(removed[..n], added[..n])
       <==> PairsDiffer(removed[..n - 1], added[..n - 1]) && removed[n - 1] != added[n - 1]
  {
    var r, s := removed[..n], added[..n];
    var r', s' := removed[..n - 1], added[..n - 1];
    if PairsDiffer(r, s) {
      assert r[n - 1] != s[n - 1];
      forall k | 0 <= k < n - 1 ensures r'[k] != s'[k] { assert r[k] != s[k]; }
    }
    if PairsDiffer(r', s') && removed[n - 1] != added[n - 1] {
      forall k | 0 <= k < n ensures r[k] != s[k] {
        if k < n - 1 { assert r'[k] != s'[k]; }
      }
    }
  }

  lemma BlockVisible(removed: seq<string>, added: seq<string>, b: nat, a: nat)
    ensures ChangesVisible(BlockRows(removed, added, b, a)) <==> PairsDiffer(removed, added)
  {
    hide *;
    var p := Paired(removed, added);
    BlockRowsParts(removed, added, b, a, p);
    var x, y, z := PairedRows(removed, added, b, a, p), RemovedRows(removed, b, p, |removed|),
      AddedRows(added, a, p, |added|);
    PairedVisible(removed, added, b, a, p);
    BlockKinds(removed, added, b, a, p, |removed|);
    BlockKinds(removed, added, b, a, p, |added|);
    OthersVisible(y);
    OthersVisible(z);
    VisibleAppend(x, y);
    VisibleAppend(x + y, z);
    OnlyPairs(removed, added, p);
  }

  lemma OthersVisible(rows: seq<DiffRow>)
    requires AllKind(rows, RemovedRow) || AllKind(rows, AddedRow)
    ensures ChangesVisible(rows)
  {
  }

  lemma OnlyPairs(removed: seq<string>, added: seq<string>, p: nat)
    requires p <= |removed| && p <= |added| && (p == |removed| || p == |added|)
    ensures PairsDiffer(removed[..p], added[..p]) <==> PairsDiffer(removed, added)
  {
    if PairsDiffer(removed[..p], added[..p]) {
      forall k | 0 <= k < |removed| && k < |added| ensures removed[k] != added[k] {
        assert removed[..p][k] != added[..p][k];
      }
    }
    if PairsDiffer(removed, added) {
      forall k | 0 <= k < p ensures removed[..p][k] != added[..p][k] {
        assert removed[k] != added[k];
      }
    }
  }

  lemma {:induction false} RowsVisible(ops: seq<Token>, b: nat, a: nat)
    ensures ChangesVisible(PairRows(ops, b, a)) <==> BlocksDiffer(ops)
    decreases |ops|
  {
    hide PairRows, BlockRows, FirstBlock, ChangesVisible, PairsDiffer, SameLine;
    if ops == [] {
      NoRows(b, a);
      NoneVisible();
    } else {
      PairRowsStep(ops, b, a);
      if ops[0].op == Same {
        RowsVisible(ops[1..], b + 1, a + 1);
        SameLineVisible(ops[0].text, b, a);
        VisibleAppend([SameLine(ops[0].text, b, a)], PairRows(ops[1..], b + 1, a + 1));
      } else {
        var block := FirstBlock(ops);
        RowsVisible(block.rest, b + |block.removed|, a + |block.added|);
        BlockVisible(block.removed, block.added, b, a);
        VisibleAppend(BlockRows(block.removed, block.added, b, a),
                      PairRows(block.rest, b + |block.removed|, a + |block.added|));
      }
    }
  }

  lemma SameLineVisible(text: string, b: nat, a: nat)
    ensures ChangesVisible([SameLine(text, b, a)])
  {
  }

  /** Below the cap, every block's pairs differ: the block was aligned optimally. */
  lemma {:induction false} SuffixBlocksDiffer(x: seq<string>, y: seq<string>, p: nat)
    requires !OverCap(x, y) && p <= |DiffScript(x, y)|
    ensures BlocksDiffer(DiffScript(x, y)[p..])
    decreases |DiffScript(x, y)| - p
  {
    hide DiffScript, OverCap, FirstBlock, PairsDiffer;
    var ops := DiffScript(x, y);
    if p < |ops| {
      var tail := ops[p..];
      assert tail[0] == ops[p];
      if ops[p].op == Same {
        SuffixBlocksDiffer(x, y, p + 1);
        assert tail[1..] == ops[p + 1..];
      } else {
        var q := BlockBounds(ops, p);
        BlockPairsDiffer(x, y, p, q);
        SuffixBlocksDiffer(x, y, q);
      }
    }
  }

  /** Where the block starting at `p` ends. */
  lemma BlockBounds(ops: seq<Token>, p: nat) returns (q: nat)
    requires p < |ops| && ops[p].op != Same
    ensures p < q <= |ops| && FirstBlock(ops[p..]).rest == ops[q..]
    ensures BeforeSide(ops[p..q]) == FirstBlock(ops[p..]).removed && AfterSide(ops[p..q]) == FirstBlock(ops[p..]).added
    ensures forall m :: p <= m < q ==> ops[m].op != Same
  {
    hide *;
    var tail := ops[p..];
    var block := FirstBlock(tail);
    BlockParts(tail);
    var x, y := Tag(Removed, block.removed), Tag(Added, block.added);
    q := p + |x| + |y|;
    assert ops[p..q] == x + y && block.rest == ops[q..] by { SplitOff(ops, p, x + y, block.rest); }
    TagSides(Removed, block.removed);
    TagSides(Added, block.added);
    SidesConcat(x, y);
    assert block.removed + [] == block.removed && [] + block.added == block.added;
    EditsOnly(block.removed, block.added);
    forall m | p <= m < q ensures ops[m].op != Same {
      assert ops[m] == (x + y)[m - p];
    }
  }

  lemma EditsOnly(removed: seq<string>, added: seq<string>)
    ensures forall k :: 0 <= k < |removed| + |added| ==> (Tag(Removed, removed) + Tag(Added, added))[k].op != Same
  {
  }

  lemma SplitOff<T>(s: seq<T>, p: nat, x: seq<T>, y: seq<T>)
    requires p <= |s| && s[p..] == x + y
    ensures p + |x| <= |s| && s[p..p + |x|] == x && s[p + |x|..] == y
  {
    assert s[p..p + |x|] == s[p..][..|x|] && s[p + |x|..] == s[p..][|x|..];
  }

  lemma BlockPairsDiffer(x: seq<string>, y: seq<string>, p: nat, q: nat)
    requires !OverCap(x, y) && p <= q <= |DiffScript(x, y)|
    requires forall m :: p <= m < q ==> DiffScript(x, y)[m].op != Same
    ensures PairsDiffer(BeforeSide(DiffScript(x, y)[p..q]), AfterSide(DiffScript(x, y)[p..q]))
  {
    hide DiffScript, OverCap;
    var block := DiffScript(x, y)[p..q];
    var r, s := BeforeSide(block), AfterSide(block);
    forall k | 0 <= k < |r| && k < |s| ensures r[k] != s[k] {
      assert r[k] in r && s[k] in s;
      DiffBlocksDisjoint(x, y, p, q, r[k]);
    }
  }

  lemma {:induction false} SkipSames(head: seq<string>, ops: seq<Token>)
    ensures BlocksDiffer(Tag(Same, head) + ops) <==> BlocksDiffer(ops)
  {
    hide FirstBlock, PairsDiffer;
    if head == [] {
      assert Tag(Same, head) + ops == ops;
    } else {
      SkipSames(head[1..], ops);
      assert (Tag(Same, head) + ops)[1..] == Tag(Same, head[1..]) + ops;
    }
  }

  /** Past the cap there is one block, and it is the whole middle. */
  lemma OverCapBlocks(x: seq<string>, y: seq<string>)
    requires OverCap(x, y)
    ensures BlocksDiffer(DiffScript(x, y))
       <==> PairsDiffer(SplitEnds(x, y).before, SplitEnds(x, y).after)
  {
    hide BlocksDiffer, PairsDiffer, SplitEnds, CommonHead, CommonTail, FirstBlock;
    var t := SplitEnds(x, y);
    var edits := Tag(Removed, t.before) + Tag(Added, t.after);
    var ops := edits + Tag(Same, t.tail);
    assert DiffScript(x, y) == Tag(Same, t.head) + ops;
    SkipSames(t.head, ops);
    SingleBlock(t.before, t.after, Tag(Same, t.tail));
    BlocksDifferFirst(ops);
    assert Tag(Same, t.tail) + [] == Tag(Same, t.tail);
    SkipSames(t.tail, []);
    NoBlocks();
  }

  lemma NoBlocks()
    ensures BlocksDiffer([])
  {
  }

  lemma BlocksDifferFirst(ops: seq<Token>)
    requires ops != [] && ops[0].op != Same
    ensures BlocksDiffer(ops)
       <==> PairsDiffer(FirstBlock(ops).removed, FirstBlock(ops).added) && BlocksDiffer(FirstBlock(ops).rest)
  {
    hide PairsDiffer, FirstBlock;
  }

  lemma SingleBlock(removed: seq<string>, added: seq<string>, rest: seq<Token>)
    requires AllOp(rest, Same)
    ensures FirstBlock(Tag(Removed, removed) + Tag(Added, added) + rest) == Block(removed, added, rest)
  {
    hide Tag, AllOp;
    StartsOtherwise(added, rest);
    Associative(Tag(Removed, removed), Tag(Added, added), rest);
    RunOfTag(removed, Removed, Tag(Added, added) + rest);
    RunOfTag(added, Added, rest);
  }

  lemma StartsOtherwise(added: seq<string>, rest: seq<Token>)
    requires AllOp(rest, Same)
    ensures rest == [] || rest[0].op != Added
    ensures var ops := Tag(Added, added) + rest; ops == [] || ops[0].op != Removed
  {
  }

  /** What can be said of the rows for the texts themselves. */
  lemma ReplacedLinesShowAChange(before: string, after: string)
    ensures ChangesVisible(Rows(before, after))
       <==> PairsVisible(SplitLines(before), SplitLines(after))
  {
    hide PairRows, DiffScript, ChangesVisible, PairsDiffer, SplitLines, OverCap, SplitEnds;
    var x, y := SplitLines(before), SplitLines(after);
    RowsVisible(LineScript(before, after), 0, 0);
    if OverCap(x, y) {
      OverCapBlocks(x, y);
    } else {
      SuffixBlocksDiffer(x, y, 0);
      assert DiffScript(x, y)[0..] == DiffScript(x, y);
    }
  }

  /** Below the cap; past it, when no line of the middle stands at the same place on both sides. */
  ghost predicate PairsVisible(x: seq<string>, y: seq<string>) {
    !OverCap(x, y) || PairsDiffer(SplitEnds(x, y).before, SplitEnds(x, y).after)
  }

  lemma LinesOfJoined(lines: seq<string>)
    requires |lines| > 1 && forall k :: 0 <= k < |lines| ==> IsLine(lines[k])
    ensures SplitLines(JoinLines(lines)) == lines
  {
    SplitJoin(lines);
    assert JoinLines(lines) == lines[0] + "\n" + JoinLines(lines[1..]);
  }

  /** The lines of `CapHidesChanges`: `n` equal ones between two that differ from the other side's. */
  function Between(common: string, end: string, n: nat): (lines: seq<string>)
    ensures |lines| == n + 2 && lines[0] == lines[n + 1] == end && forall k :: 1 <= k <= n ==> lines[k] == common
  {
    [end] + seq(n, _ => common) + [end]
  }

  /**
   * Past the cap a line equal on both sides is shown as replaced, with nothing
   * in it marked: two texts whose first and last lines differ and whose other
   * lines, more than fill the table, are all the same.
   */
  lemma CapHidesChanges(common: string, p: string, q: string, n: nat)
    requires n > MAX_DIFF_TOKENS && p != common && q != common && p != q
    requires IsLine(common) && IsLine(p) && IsLine(q)
    ensures !ChangesVisible(Rows(JoinLines(Between(common, p, n)), JoinLines(Between(common, q, n))))
  {
    hide ChangesVisible, Rows, SplitLines, JoinLines, DiffScript, IsLine;
    var x, y := Between(common, p, n), Between(common, q, n);
    LinesOfJoined(x);
    LinesOfJoined(y);
    ReplacedLinesShowAChange(JoinLines(x), JoinLines(y));
    NothingToTrim(x, y);
    assert x[1] == y[1] == common;
  }

  // ---------------------------------------------------------------- hunks

  lemma AllSameRows(before: string, after: string)
    ensures (forall k :: 0 <= k < |Rows(before, after)| ==> Rows(before, after)[k].kind == SameRow) <==> before == after
  {
    hide PairRows, DiffScript, SplitLines;
    var ops, rows := LineScript(before, after), Rows(before, after);
    LinesDetermineText(before, after);
    DiffAllSame(SplitLines(before), SplitLines(after));
    RowKindsFollowOps(ops, 0, 0);
  }

  lemma {:induction false} RowKindsFollowOps(ops: seq<Token>, b: nat, a: nat)
    ensures AllKind(PairRows(ops, b, a), SameRow) <==> AllOp(ops, Same)
    decreases |ops|
  {
    hide PairRows, BlockRows, FirstBlock, SameLine;
    if ops == [] {
      NoRows(b, a);
    } else {
      PairRowsStep(ops, b, a);
      if ops[0].op == Same {
        var rest := PairRows(ops[1..], b + 1, a + 1);
        RowKindsFollowOps(ops[1..], b + 1, a + 1);
        SameLineKind(ops[0].text, b, a);
        AllKindCons(SameLine(ops[0].text, b, a), rest);
        AllOpCons(ops);
      } else {
        var block := FirstBlock(ops);
        BlockShape(block.removed, block.added, b, a);
        BlockNotEmpty(ops, b, a);
        assert PairRows(ops, b, a)[0] == BlockRows(block.removed, block.added, b, a)[0];
      }
    }
  }

  lemma AllKindCons(row: DiffRow, rows: seq<DiffRow>)
    requires row.kind == SameRow
    ensures AllKind([row] + rows, SameRow) <==> AllKind(rows, SameRow)
  {
    var all := [row] + rows;
    if AllKind(all, SameRow) {
      forall k | 0 <= k < |rows| ensures rows[k].kind == SameRow { assert rows[k] == all[k + 1]; }
    }
  }

  lemma AllOpCons(ops: seq<Token>)
    requires ops != [] && ops[0].op == Same
    ensures AllOp(ops, Same) <==> AllOp(ops[1..], Same)
  {
    if AllOp(ops[1..], Same) {
      forall k | 0 <= k < |ops| ensures ops[k].op == Same { if k > 0 { assert ops[k] == ops[1..][k - 1]; } }
    }
  }

  lemma BlockNotEmpty(ops: seq<Token>, b: nat, a: nat)
    requires ops != [] && ops[0].op != Same
    ensures var block := FirstBlock(ops); BlockRows(block.removed, block.added, b, a) != []
  {
    var block := FirstBlock(ops);
    var p := Paired(block.removed, block.added);
    assert block.removed != [] || block.added != [];
    BlockRowsParts(block.removed, block.added, b, a, p);
    BlockKinds(block.removed, block.added, b, a, 0, p);
    BlockKinds(block.removed, block.added, b, a, p, |block.removed|);
    BlockKinds(block.removed, block.added, b, a, p, |block.added|);
  }

  /**
   * Laid out again, the hunks show every row in its place, or leave a gap there
   * exactly when the row is no change and every change is more than `context`
   * rows above or below it.
   */
  lemma RowsAreLeftOutIff(rows: seq<DiffRow>, context: int, hunks: seq<DiffHunk<DiffRow>>, trailing: nat, k: nat)
    requires HunksOf(hunks, trailing, rows, context) && k < |rows|
    ensures var laid := Shown(hunks) + Elided<DiffRow>(trailing);
            && |laid| == |rows|
            && (laid[k] == None || laid[k] == Some(rows[k]))
            && (laid[k] == None
                <==> rows[k].kind == SameRow
                     && forall m :: 0 <= m < |rows| && rows[m].kind != SameRow ==> m < k - context || m > k + context)
  {
    var keep :| Keeps(keep, rows, context) && Collapses(hunks, trailing, rows, keep, |rows|);
    DisplayAt(rows, keep, |rows|, k);
    assert keep[k] <==> NearChange(rows, context, k);
    if rows[k].kind != SameRow { assert NearChange(rows, context, k); }
    forall m | 0 <= m < |rows| && rows[m].kind != SameRow && k - context <= m <= k + context
      ensures NearChange(rows, context, k)
    {
      assert -context <= m - k <= context;
    }
  }

  /** There is something to show exactly when the texts differ, over the cap too and whatever the context. */
  lemma NoHunksIffEqual(before: string, after: string, context: int, hunks: seq<DiffHunk<DiffRow>>, trailing: nat)
    requires HunksOf(hunks, trailing, Rows(before, after), context)
    ensures hunks == [] <==> before == after
  {
    hide Rows, Collapses;
    var rows := Rows(before, after);
    var keep :| Keeps(keep, rows, context) && Collapses(hunks, trailing, rows, keep, |rows|);
    NoHunksIffNothingKept(hunks, trailing, rows, keep);
    AllSameRows(before, after);
    if hunks == [] {
      forall k | 0 <= k < |rows| ensures rows[k].kind == SameRow {
        assert !keep[k];
        assert !NearChange(rows, context, k);
      }
    }
  }

  /** The rows and the context leave no choice of hunks. */
  lemma HunksAreDetermined(rows: seq<DiffRow>, context: int, h1: seq<DiffHunk<DiffRow>>, t1: nat,
                           h2: seq<DiffHunk<DiffRow>>, t2: nat)
    requires HunksOf(h1, t1, rows, context) && HunksOf(h2, t2, rows, context)
    ensures h1 == h2 && t1 == t2
  {
    var k1 :| Keeps(k1, rows, context) && Collapses(h1, t1, rows, k1, |rows|);
    var k2 :| Keeps(k2, rows, context) && Collapses(h2, t2, rows, k2, |rows|);
    assert k1 == k2;
    HunksUnique(h1, h2, t1, t2, true);
  }
}
