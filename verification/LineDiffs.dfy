/**
 * The line-level diff of one cell (apps/staff/lib/legal-drafts.ts): lines,
 * rows pairing replaced lines, and hunks with context.
 */
module LineDiffs {
  import opened Sequences
  import opened Numbers
  import opened Wrappers
  import opened Text
  import opened EditScripts
  import opened EditBlocks
  import opened WordDiffs

  datatype RowKind = SameRow | AddedRow | RemovedRow | ChangedRow

  /** Each side counts its own lines from 1; a line that one side lacks has no number there. */
  datatype DiffRow = DiffRow(kind: RowKind, beforeLine: Option<nat>, afterLine: Option<nat>, tokens: seq<Token>)

  // ---------------------------------------------------------------- lines

  function SplitLines(text: string): seq<string> {
    if text == "" then [] else Split(text)
  }

  /** The lines are the text between the breaks: those, and no other list, join up to it; the empty text has none. */
  lemma LinesAreBetweenBreaks(text: string, lines: seq<string>)
    ensures lines == SplitLines(text)
       <==> JoinLines(lines) == text && (forall k :: 0 <= k < |lines| ==> IsLine(lines[k])) && lines != [""]
  {
    JoinSplit(text);
    SplitIntoLines(text);
    if lines != [] && forall k :: 0 <= k < |lines| ==> IsLine(lines[k]) { SplitJoin(lines); }
    if lines == [""] { assert JoinLines(lines) == ""; }
  }

  /** Different texts have different lines; the empty text is the one with none. */
  lemma LinesDetermineText(a: string, b: string)
    ensures SplitLines(a) == SplitLines(b) <==> a == b
  {
    JoinSplit(a);
    JoinSplit(b);
  }

  // ---------------------------------------------------------------- rows

  function SameLine(text: string, b: nat, a: nat): DiffRow {
    DiffRow(SameRow, Some(b + 1), Some(a + 1), [DiffToken(Same, text)])
  }

  function ChangedLine(before: string, after: string, b: nat, a: nat): DiffRow {
    DiffRow(ChangedRow, Some(b + 1), Some(a + 1), WordDiff(before, after))
  }

  function RemovedLine(text: string, b: nat): DiffRow {
    DiffRow(RemovedRow, Some(b + 1), None, [DiffToken(Removed, text)])
  }

  function AddedLine(text: string, a: nat): DiffRow {
    DiffRow(AddedRow, None, Some(a + 1), [DiffToken(Added, text)])
  }

  /** The n-th removal against the n-th addition, for the first `n`; `b` and `a` lines came before the block. */
  function PairedRows(removed: seq<string>, added: seq<string>, b: nat, a: nat, n: nat): seq<DiffRow>
    requires n <= |removed| && n <= |added|
  {
    if n == 0 then []
    else PairedRows(removed, added, b, a, n - 1) + [ChangedLine(removed[n - 1], added[n - 1], b + n - 1, a + n - 1)]
  }

  function RemovedRows(removed: seq<string>, b: nat, from: nat, end: nat): seq<DiffRow>
    requires from <= end <= |removed|
  {
    if end == from then []
    else RemovedRows(removed, b, from, end - 1) + [RemovedLine(removed[end - 1], b + end - 1)]
  }

  function AddedRows(added: seq<string>, a: nat, from: nat, end: nat): seq<DiffRow>
    requires from <= end <= |added|
  {
    if end == from then []
    else AddedRows(added, a, from, end - 1) + [AddedLine(added[end - 1], a + end - 1)]
  }

  function Paired(removed: seq<string>, added: seq<string>): nat {
    Min(|removed|, |added|)
  }

  /** The rows of one block of edits. */
  function BlockRows(removed: seq<string>, added: seq<string>, b: nat, a: nat): seq<DiffRow> {
    var paired := Paired(removed, added);
    PairedRows(removed, added, b, a, paired)
    + RemovedRows(removed, b, paired, |removed|)
    + AddedRows(added, a, paired, |added|)
  }

  function PairRows(ops: seq<Token>, b: nat, a: nat): seq<DiffRow>
    decreases |ops|
  {
    if ops == [] then []
    else if ops[0].op == Same then [SameLine(ops[0].text, b, a)] + PairRows(ops[1..], b + 1, a + 1)
    else
      var block := FirstBlock(ops);
      BlockRows(block.removed, block.added, b, a)
      + PairRows(block.rest, b + |block.removed|, a + |block.added|)
  }

  /** The row stands for the next line on each side its kind names, under that line's number. */
  ghost predicate RowFits(row: DiffRow, before: seq<string>, after: seq<string>, b: nat, a: nat) {
    && (row.beforeLine.Some? <==> row.kind != AddedRow)
    && (row.afterLine.Some? <==> row.kind != RemovedRow)
    && (row.kind == SameRow ==> AllOp(row.tokens, Same))
    && (row.beforeLine.Some? ==> before != [] && row.beforeLine.value == b + 1 && BeforeText(row.tokens) == before[0])
    && (row.afterLine.Some? ==> after != [] && row.afterLine.value == a + 1 && AfterText(row.tokens) == after[0])
  }

  function Skip(lines: seq<string>, used: bool): seq<string> {
    if used && lines != [] then lines[1..] else lines
  }

  /**
   * The rows account for every line: read top to bottom they hold exactly the
   * lines `before` numbered from `b + 1` and the lines `after` numbered from
   * `a + 1`, each row on the sides its kind says.
   */
  ghost predicate Accounts(rows: seq<DiffRow>, before: seq<string>, after: seq<string>, b: nat, a: nat) {
    if rows == [] then before == [] && after == []
    else
      var left, right := rows[0].beforeLine.Some?, rows[0].afterLine.Some?;
      && RowFits(rows[0], before, after, b, a)
      && Accounts(rows[1..], Skip(before, left), Skip(after, right),
                  if left then b + 1 else b, if right then a + 1 else a)
  }

  lemma AccountsCons(row: DiffRow, rest: seq<DiffRow>, before: seq<string>, after: seq<string>, b: nat, a: nat)
    ensures var left, right := row.beforeLine.Some?, row.afterLine.Some?;
            (Accounts([row] + rest, before, after, b, a)
             <==>
             RowFits(row, before, after, b, a)
             && Accounts(rest, Skip(before, left), Skip(after, right),
                         if left then b + 1 else b, if right then a + 1 else a))
  {
    hide RowFits;
    assert ([row] + rest)[1..] == rest && ([row] + rest)[0] == row;
  }

  lemma NothingAccounts(before: seq<string>, after: seq<string>, b: nat, a: nat)
    ensures Accounts([], before, after, b, a) <==> before == [] && after == []
  {
  }

  lemma RowFitsMore(row: DiffRow, before: seq<string>, after: seq<string>, before': seq<string>, after': seq<string>,
                    b: nat, a: nat)
    requires RowFits(row, before, after, b, a)
    ensures RowFits(row, before + before', after + after', b, a)
    ensures Skip(before + before', row.beforeLine.Some?) == Skip(before, row.beforeLine.Some?) + before'
    ensures Skip(after + after', row.afterLine.Some?) == Skip(after, row.afterLine.Some?) + after'
    ensures |Skip(before, row.beforeLine.Some?)| == |before| - if row.beforeLine.Some? then 1 else 0
    ensures |Skip(after, row.afterLine.Some?)| == |after| - if row.afterLine.Some? then 1 else 0
  {
    hide BeforeText, AfterText, AllOp;
    if row.beforeLine.Some? { assert (before + before')[1..] == before[1..] + before'; }
    if row.afterLine.Some? { assert (after + after')[1..] == after[1..] + after'; }
  }

  lemma {:induction false} AccountsAppend(r: seq<DiffRow>, s: seq<DiffRow>, before: seq<string>, after: seq<string>,
                                          before': seq<string>, after': seq<string>, b: nat, a: nat)
    requires Accounts(r, before, after, b, a)
    requires Accounts(s, before', after', b + |before|, a + |after|)
    ensures Accounts(r + s, before + before', after + after', b, a)
  {
    hide *;
    if r == [] {
      NothingAccounts(before, after, b, a);
      assert r + s == s && before + before' == before' && after + after' == after';
    } else {
      var row, rest := r[0], r[1..];
      var left, right := row.beforeLine.Some?, row.afterLine.Some?;
      assert r == [row] + rest;
      AccountsCons(row, rest, before, after, b, a);
      RowFitsMore(row, before, after, before', after', b, a);
      AccountsAppend(rest, s, Skip(before, left), Skip(after, right), before', after',
                     if left then b + 1 else b, if right then a + 1 else a);
      AccountsCons(row, rest + s, before + before', after + after', b, a);
      Associative([row], rest, s);
    }
  }

  /** One row that fits, appended. */
  lemma AccountsSnoc(rows: seq<DiffRow>, row: DiffRow, before: seq<string>, after: seq<string>,
                     before': seq<string>, after': seq<string>, b: nat, a: nat)
    requires Accounts(rows, before, after, b, a)
    requires RowFits(row, before', after', b + |before|, a + |after|)
    requires |before'| == (if row.kind == AddedRow then 0 else 1)
      && |after'| == (if row.kind == RemovedRow then 0 else 1)
    ensures Accounts(rows + [row], before + before', after + after', b, a)
  {
    assert row.beforeLine.Some? <==> row.kind != AddedRow;
    assert row.afterLine.Some? <==> row.kind != RemovedRow;
    var left, right := row.beforeLine.Some?, row.afterLine.Some?;
    assert Skip(before', left) == [] && Skip(after', right) == [];
    hide *;
    var b', a' := b + |before|, a + |after|;
    NothingAccounts([], [], if left then b' + 1 else b', if right then a' + 1 else a');
    AccountsCons(row, [], before', after', b', a');
    assert [row] + [] == [row];
    AccountsAppend(rows, [row], before, after, before', after', b, a);
  }

  lemma LinesFit(removed: string, added: string, b: nat, a: nat)
    ensures RowFits(ChangedLine(removed, added, b, a), [removed], [added], b, a)
    ensures RowFits(RemovedLine(removed, b), [removed], [], b, a)
    ensures RowFits(AddedLine(added, a), [], [added], b, a)
  {
    hide WordDiff, BeforeText, AfterText;
    WordDiffLossless(removed, added);
    TextsOfOne(DiffToken(Removed, removed));
    TextsOfOne(DiffToken(Added, added));
  }

  lemma {:induction false} PairedAccount(removed: seq<string>, added: seq<string>, b: nat, a: nat, n: nat)
    requires n <= |removed| && n <= |added|
    ensures Accounts(PairedRows(removed, added, b, a, n), removed[..n], added[..n], b, a)
  {
    hide WordDiff, RowFits, Accounts;
    if n == 0 {
      NothingAccounts([], [], b, a);
    } else {
      PairedAccount(removed, added, b, a, n - 1);
      LinesFit(removed[n - 1], added[n - 1], b + n - 1, a + n - 1);
      AccountsSnoc(PairedRows(removed, added, b, a, n - 1),
                   ChangedLine(removed[n - 1], added[n - 1], b + n - 1, a + n - 1),
                   removed[..n - 1], added[..n - 1], [removed[n - 1]], [added[n - 1]], b, a);
      assert removed[..n] == removed[..n - 1] + [removed[n - 1]] && added[..n] == added[..n - 1] + [added[n - 1]];
    }
  }

  lemma {:induction false} RemovedAccount(removed: seq<string>, b: nat, a: nat, from: nat, end: nat)
    requires from <= end <= |removed|
    ensures Accounts(RemovedRows(removed, b, from, end), removed[from..end], [], b + from, a)
  {
    hide WordDiff, RowFits, Accounts;
    if end == from {
      NothingAccounts([], [], b + from, a);
    } else {
      RemovedAccount(removed, b, a, from, end - 1);
      LinesFit(removed[end - 1], "", b + end - 1, a);
      AccountsSnoc(RemovedRows(removed, b, from, end - 1), RemovedLine(removed[end - 1], b + end - 1),
                   removed[from..end - 1], [], [removed[end - 1]], [], b + from, a);
      assert removed[from..end] == removed[from..end - 1] + [removed[end - 1]];
      var none: seq<string> := [];
      assert none + none == none;
    }
  }

  lemma {:induction false} AddedAccount(added: seq<string>, b: nat, a: nat, from: nat, end: nat)
    requires from <= end <= |added|
    ensures Accounts(AddedRows(added, a, from, end), [], added[from..end], b, a + from)
  {
    hide WordDiff, RowFits, Accounts;
    if end == from {
      NothingAccounts([], [], b, a + from);
    } else {
      AddedAccount(added, b, a, from, end - 1);
      LinesFit("", added[end - 1], b, a + end - 1);
      AccountsSnoc(AddedRows(added, a, from, end - 1), AddedLine(added[end - 1], a + end - 1),
                   [], added[from..end - 1], [], [added[end - 1]], b, a + from);
      assert added[from..end] == added[from..end - 1] + [added[end - 1]];
      var none: seq<string> := [];
      assert none + none == none;
    }
  }

  lemma ThreePartsAccount(x: seq<DiffRow>, y: seq<DiffRow>, z: seq<DiffRow>, r1: seq<string>, r2: seq<string>,
                          s1: seq<string>, s2: seq<string>, b: nat, a: nat)
    requires Accounts(x, r1, s1, b, a)
    requires Accounts(y, r2, [], b + |r1|, a + |s1|)
    requires Accounts(z, [], s2, b + |r1| + |r2|, a + |s1|)
    ensures Accounts(x + y + z, r1 + r2, s1 + s2, b, a)
  {
    hide *;
    AccountsAppend(x, y, r1, s1, r2, [], b, a);
    assert s1 + [] == s1;
    AccountsAppend(x + y, z, r1 + r2, s1, [], s2, b, a);
    assert (r1 + r2) + [] == r1 + r2;
  }

  lemma BlockRowsParts(removed: seq<string>, added: seq<string>, b: nat, a: nat, p: nat)
    requires p == Paired(removed, added)
    ensures p <= |removed| && p <= |added| && (p == |removed| || p == |added|)
    ensures BlockRows(removed, added, b, a)
         == PairedRows(removed, added, b, a, p) + RemovedRows(removed, b, p, |removed|)
           + AddedRows(added, a, p, |added|)
  {
    hide PairedRows, RemovedRows, AddedRows;
  }

  lemma BlockAccounts(removed: seq<string>, added: seq<string>, b: nat, a: nat)
    ensures Accounts(BlockRows(removed, added, b, a), removed, added, b, a)
  {
    hide *;
    var p := Paired(removed, added);
    BlockRowsParts(removed, added, b, a, p);
    var x, y, z := PairedRows(removed, added, b, a, p), RemovedRows(removed, b, p, |removed|),
      AddedRows(added, a, p, |added|);
    var r1, r2, s1, s2 := removed[..p], removed[p..|removed|], added[..p], added[p..|added|];
    PairedAccount(removed, added, b, a, p);
    RemovedAccount(removed, b, a + p, p, |removed|);
    AddedAccount(added, b + |removed|, a, p, |added|);
    ThreePartsAccount(x, y, z, r1, r2, s1, s2, b, a);
    assert r1 + r2 == removed && s1 + s2 == added;
  }

  lemma PairRowsStep(ops: seq<Token>, b: nat, a: nat)
    requires ops != []
    ensures PairRows(ops, b, a)
         == if ops[0].op == Same then [SameLine(ops[0].text, b, a)] + PairRows(ops[1..], b + 1, a + 1)
            else var block := FirstBlock(ops);
                 BlockRows(block.removed, block.added, b, a)
                   + PairRows(block.rest, b + |block.removed|, a + |block.added|)
  {
    hide WordDiff, FirstBlock;
  }

  lemma NoRows(b: nat, a: nat)
    ensures PairRows([], b, a) == []
  {
  }

  lemma SameLineFits(ops: seq<Token>, b: nat, a: nat)
    requires ops != [] && ops[0].op == Same
    ensures RowFits(SameLine(ops[0].text, b, a), BeforeSide(ops), AfterSide(ops), b, a)
    ensures SameLine(ops[0].text, b, a).beforeLine.Some? && SameLine(ops[0].text, b, a).afterLine.Some?
    ensures Skip(BeforeSide(ops), true) == BeforeSide(ops[1..]) && Skip(AfterSide(ops), true) == AfterSide(ops[1..])
  {
    hide BeforeText, AfterText;
    TextsOfOne(DiffToken(Same, ops[0].text));
  }

  lemma SameStepAccounts(ops: seq<Token>, b: nat, a: nat)
    requires ops != [] && ops[0].op == Same
    requires Accounts(PairRows(ops[1..], b + 1, a + 1), BeforeSide(ops[1..]), AfterSide(ops[1..]), b + 1, a + 1)
    ensures Accounts(PairRows(ops, b, a), BeforeSide(ops), AfterSide(ops), b, a)
  {
    hide *;
    PairRowsStep(ops, b, a);
    SameLineFits(ops, b, a);
    AccountsCons(SameLine(ops[0].text, b, a), PairRows(ops[1..], b + 1, a + 1), BeforeSide(ops), AfterSide(ops), b, a);
  }

  lemma BlockStepAccounts(ops: seq<Token>, b: nat, a: nat, block: Block<string>)
    requires ops != [] && ops[0].op != Same && block == FirstBlock(ops)
    requires Accounts(PairRows(block.rest, b + |block.removed|, a + |block.added|),
                      BeforeSide(block.rest), AfterSide(block.rest), b + |block.removed|, a + |block.added|)
    ensures Accounts(PairRows(ops, b, a), BeforeSide(ops), AfterSide(ops), b, a)
  {
    hide *;
    PairRowsStep(ops, b, a);
    BlockSides(ops);
    BlockAccounts(block.removed, block.added, b, a);
    AccountsAppend(BlockRows(block.removed, block.added, b, a),
                   PairRows(block.rest, b + |block.removed|, a + |block.added|),
                   block.removed, block.added, BeforeSide(block.rest), AfterSide(block.rest), b, a);
  }

  /** Pairing loses no line and skips no number, whatever the operations. */
  lemma {:induction false} RowsAccount(ops: seq<Token>, b: nat, a: nat)
    ensures Accounts(PairRows(ops, b, a), BeforeSide(ops), AfterSide(ops), b, a)
    decreases |ops|
  {
    if ops != [] {
      hide *;
      if ops[0].op == Same {
        RowsAccount(ops[1..], b + 1, a + 1);
        SameStepAccounts(ops, b, a);
      } else {
        var block := FirstBlock(ops);
        RowsAccount(block.rest, b + |block.removed|, a + |block.added|);
        BlockStepAccounts(ops, b, a, block);
      }
    }
  }

  // ---------------------------------------------------------------- the loops

  /** The three loops that turn a collected block into rows. */
  method EmitBlock(removed: seq<string>, added: seq<string>, b: nat, a: nat) returns (rows: seq<DiffRow>)
    ensures rows == BlockRows(removed, added, b, a)
  {
    hide WordDiff;
    var pairs: seq<DiffRow>, removals: seq<DiffRow>, additions: seq<DiffRow> := [], [], [];
    var paired := if |removed| <= |added| then |removed| else |added|;
    for n := 0 to paired
      invariant pairs == PairedRows(removed, added, b, a, n)
    {
      var tokens := ComputeWordDiff(removed[n], added[n]);
      pairs := pairs + [DiffRow(ChangedRow, Some(b + n + 1), Some(a + n + 1), tokens)];
    }
    for n := paired to |removed|
      invariant removals == RemovedRows(removed, b, paired, n)
    {
      removals := removals + [RemovedLine(removed[n], b + n)];
    }
    for n := paired to |added|
      invariant additions == AddedRows(added, a, paired, n)
    {
      additions := additions + [AddedLine(added[n], a + n)];
    }
    rows := pairs + removals + additions;
  }

  /** The rows so far and those still to come make up the specification's. */
  ghost predicate RowsSoFar(rows: seq<DiffRow>, ops: seq<Token>, index: nat, b: nat, a: nat)
    requires index <= |ops|
  {
    rows + PairRows(ops[index..], b, a) == PairRows(ops, 0, 0)
  }

  lemma RowsAtEnds(rows: seq<DiffRow>, ops: seq<Token>, b: nat, a: nat)
    ensures RowsSoFar([], ops, 0, 0, 0)
    ensures RowsSoFar(rows, ops, |ops|, b, a) ==> rows == PairRows(ops, 0, 0)
  {
    assert ops[0..] == ops && ops[|ops|..] == [] && rows + [] == rows;
  }

  lemma SameRowStep(rows: seq<DiffRow>, ops: seq<Token>, index: nat, b: nat, a: nat)
    requires index < |ops| && ops[index].op == Same && RowsSoFar(rows, ops, index, b, a)
    ensures RowsSoFar(rows + [SameLine(ops[index].text, b, a)], ops, index + 1, b + 1, a + 1)
  {
    hide PairRows, SameLine, FirstBlock, BlockRows;
    assert ops[index..][1..] == ops[index + 1..];
    PairRowsStep(ops[index..], b, a);
    Associative(rows, [SameLine(ops[index].text, b, a)], PairRows(ops[index + 1..], b + 1, a + 1));
  }

  lemma BlockRowStep(rows: seq<DiffRow>, ops: seq<Token>, index: nat, b: nat, a: nat,
                     removed: seq<string>, added: seq<string>, next: nat)
    requires index < |ops| && next <= |ops| && ops[index].op != Same && RowsSoFar(rows, ops, index, b, a)
    requires FirstBlock(ops[index..]) == Block(removed, added, ops[next..])
    ensures RowsSoFar(rows + BlockRows(removed, added, b, a), ops, next, b + |removed|, a + |added|)
  {
    hide PairRows, SameLine, FirstBlock, BlockRows;
    PairRowsStep(ops[index..], b, a);
    Associative(rows, BlockRows(removed, added, b, a), PairRows(ops[next..], b + |removed|, a + |added|));
  }

  /** The walk over the operations, one match or one block at a time. */
  method PairChangedLines(ops: seq<Token>) returns (rows: seq<DiffRow>)
    ensures rows == PairRows(ops, 0, 0)
  {
    hide *;
    rows := [];
    var beforeLine: nat, afterLine: nat := 0, 0;
    var index: nat := 0;
    RowsAtEnds([], ops, 0, 0);
    while index < |ops|
      invariant index <= |ops|
      invariant RowsSoFar(rows, ops, index, beforeLine, afterLine)
      decreases |ops| - index
    {
      if ops[index].op == Same {
        SameRowStep(rows, ops, index, beforeLine, afterLine);
        rows := rows + [SameLine(ops[index].text, beforeLine, afterLine)];
        beforeLine, afterLine, index := beforeLine + 1, afterLine + 1, index + 1;
      } else {
        var removed, added, next := CollectBlock(ops, index);
        var block := EmitBlock(removed, added, beforeLine, afterLine);
        BlockRowStep(rows, ops, index, beforeLine, afterLine, removed, added, next);
        rows := rows + block;
        beforeLine, afterLine, index := beforeLine + |removed|, afterLine + |added|, next;
      }
    }
    RowsAtEnds(rows, ops, beforeLine, afterLine);
  }
}
