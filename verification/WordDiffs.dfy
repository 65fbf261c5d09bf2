/**
 * The word-level diff (apps/staff/lib/legal-drafts.ts): tokenising text into
 * words and whitespace runs, diffing the tokens, merging runs of one operation.
 */
module WordDiffs {
  import opened Sequences
  import opened Text
  import opened CommonSubsequences
  import opened EditScripts

  type Token = DiffToken<string>

  // ---------------------------------------------------------------- tokens

  /** Length of the leading run of `text`, all whitespace or all not. */
  function RunLength(text: string): (n: nat)
    requires text != ""
    ensures 1 <= n <= |text|
    ensures forall k :: 0 <= k < n ==> IsSpace(text[k]) == IsSpace(text[0])
    ensures n < |text| ==> IsSpace(text[n]) != IsSpace(text[0])
  {
    if |text| > 1 && IsSpace(text[1]) == IsSpace(text[0]) then RunLength(text[1..]) + 1 else 1
  }

  /** The matches of `\s+|\S+`: maximal runs, left to right. */
  function Tokenize(text: string): seq<string> {
    if text == "" then []
    else [text[..RunLength(text)]] + Tokenize(text[RunLength(text)..])
  }

  /** Tokenising is lossless. */
  lemma {:induction false} TokenizeLossless(text: string)
    ensures Concat(Tokenize(text)) == text
  {
    if text != "" {
      var n := RunLength(text);
      TokenizeLossless(text[n..]);
      assert text[..n] + text[n..] == text;
    }
  }

  /** Each token is all whitespace or all not, and its neighbours are of the other sort. */
  lemma {:induction false} TokensAreRuns(text: string)
    ensures var tokens := Tokenize(text);
      && (forall k :: 0 <= k < |tokens| ==> tokens[k] != "")
      && (forall k, c :: 0 <= k < |tokens| && 0 <= c < |tokens[k]| ==> IsSpace(tokens[k][c]) == IsSpace(tokens[k][0]))
      && (forall k, next :: 0 <= k < next < |tokens| && next == k + 1 ==>
            IsSpace(tokens[k][0]) != IsSpace(tokens[next][0]))
      && (tokens != [] ==> text != "" && tokens[0][0] == text[0])
  {
    hide IsSpace;
    if text != "" { TokensAreRuns(text[RunLength(text)..]); }
  }

  // ---------------------------------------------------------------- merging

  /** One more token onto an already merged list. */
  function MergeOne(merged: seq<Token>, token: Token): seq<Token> {
    if merged != [] && merged[|merged| - 1].op == token.op then
      merged[..|merged| - 1] + [DiffToken(token.op, merged[|merged| - 1].text + token.text)]
    else
      merged + [token]
  }

  function Merge(tokens: seq<Token>): seq<Token> {
    if tokens == [] then []
    else MergeOne(Merge(tokens[..|tokens| - 1]), tokens[|tokens| - 1])
  }

  /** No two neighbours had the same thing happen to them. */
  ghost predicate Alternating(tokens: seq<Token>) {
    forall k, next :: 0 <= k < next < |tokens| && next == k + 1 ==> tokens[k].op != tokens[next].op
  }

  /** What the left-hand text was, and what the right-hand text became, read off a script. */
  function BeforeText(tokens: seq<Token>): string { Concat(BeforeSide(tokens)) }

  function AfterText(tokens: seq<Token>): string { Concat(AfterSide(tokens)) }

  lemma TextsAppend(s: seq<Token>, t: seq<Token>)
    ensures BeforeText(s + t) == BeforeText(s) + BeforeText(t)
    ensures AfterText(s + t) == AfterText(s) + AfterText(t)
  {
    SidesConcat(s, t);
    ConcatAppend(BeforeSide(s), BeforeSide(t));
    ConcatAppend(AfterSide(s), AfterSide(t));
  }

  lemma TextsOfOne(token: Token)
    ensures BeforeText([token]) == if token.op.Added? then "" else token.text
    ensures AfterText([token]) == if token.op.Removed? then "" else token.text
  {
    assert [token][1..] == [];
    assert BeforeSide([token]) == if token.op.Added? then [] else [token.text];
    assert AfterSide([token]) == if token.op.Removed? then [] else [token.text];
    assert Concat([token.text]) == token.text + Concat([]) == token.text;
  }

  lemma MergeOneKeepsText(merged: seq<Token>, token: Token)
    ensures BeforeText(MergeOne(merged, token)) == BeforeText(merged) + BeforeText([token])
    ensures AfterText(MergeOne(merged, token)) == AfterText(merged) + AfterText([token])
  {
    hide BeforeText, AfterText;
    if merged != [] && merged[|merged| - 1].op == token.op {
      var init, last := merged[..|merged| - 1], merged[|merged| - 1];
      var joined := DiffToken(token.op, last.text + token.text);
      assert merged == init + [last];
      TextsAppend(init, [last]);
      TextsAppend(init, [joined]);
      TextsOfOne(last);
      TextsOfOne(token);
      TextsOfOne(joined);
      hide *;
      Associative(BeforeText(init), BeforeText([last]), BeforeText([token]));
      Associative(AfterText(init), AfterText([last]), AfterText([token]));
    } else {
      TextsAppend(merged, [token]);
    }
  }

  /** Merging moves no text, and leaves no two neighbours alike. */
  lemma {:induction false} MergeIsFaithful(tokens: seq<Token>)
    ensures BeforeText(Merge(tokens)) == BeforeText(tokens)
    ensures AfterText(Merge(tokens)) == AfterText(tokens)
    ensures Alternating(Merge(tokens))
    decreases |tokens|
  {
    hide BeforeText, AfterText;
    if tokens != [] {
      var init, last := tokens[..|tokens| - 1], tokens[|tokens| - 1];
      MergeIsFaithful(init);
      assert tokens == init + [last];
      TextsAppend(init, [last]);
      MergeOneKeepsText(Merge(init), last);
    }
  }

  /** What one more token does to the operations. */
  lemma MergeOneOps(merged: seq<Token>, token: Token)
    ensures var more := MergeOne(merged, token);
            && more != [] && more[|more| - 1].op == token.op
            && (AllOp(more, Same) <==> AllOp(merged, Same) && token.op == Same)
  {
    var more := MergeOne(merged, token);
    assert forall k :: 0 <= k < |merged| ==> more[k].op == merged[k].op;
    assert |more| == |merged| || |more| == |merged| + 1;
  }

  lemma MergeOneOrder(merged: seq<Token>, token: Token)
    requires RemovalsFirst(merged)
    requires merged != [] && merged[|merged| - 1].op.Added? ==> !token.op.Removed?
    ensures RemovalsFirst(MergeOne(merged, token))
  {
    var more := MergeOne(merged, token);
    assert forall k :: 0 <= k < |merged| ==> more[k].op == merged[k].op;
  }

  lemma OpsOfInit(tokens: seq<Token>)
    requires tokens != []
    ensures var init, last := tokens[..|tokens| - 1], tokens[|tokens| - 1];
            && (AllOp(tokens, Same) <==> AllOp(init, Same) && last.op == Same)
            && (RemovalsFirst(tokens) ==> RemovalsFirst(init))
            && (RemovalsFirst(tokens) && init != [] && init[|init| - 1].op.Added? ==> !last.op.Removed?)
  {
    var init := tokens[..|tokens| - 1];
    assert tokens == init + [tokens[|tokens| - 1]];
  }

  /** Merging keeps the last operation, and so every neighbouring pair of operations. */
  lemma {:induction false} MergeOps(tokens: seq<Token>)
    ensures tokens != [] ==> Merge(tokens) != [] && Merge(tokens)[|Merge(tokens)| - 1].op == tokens[|tokens| - 1].op
    ensures AllOp(Merge(tokens), Same) <==> AllOp(tokens, Same)
    ensures RemovalsFirst(tokens) ==> RemovalsFirst(Merge(tokens))
    decreases |tokens|
  {
    hide MergeOne, AllOp, RemovalsFirst;
    if tokens != [] {
      var init, last := tokens[..|tokens| - 1], tokens[|tokens| - 1];
      MergeOps(init);
      OpsOfInit(tokens);
      MergeOneOps(Merge(init), last);
      if RemovalsFirst(tokens) {
        if init == [] { assert Merge(init) == []; }
        MergeOneOrder(Merge(init), last);
      }
    }
  }

  /** `mergeTokens`: the last token grows in place while the operation stays the same. */
  method MergeTokens(tokens: seq<Token>) returns (merged: seq<Token>)
    ensures merged == Merge(tokens)
  {
    merged := [];
    for n := 0 to |tokens|
      invariant merged == Merge(tokens[..n])
    {
      assert tokens[..n + 1][..n] == tokens[..n];
      var token := tokens[n];
      var last := |merged| - 1;
      if last >= 0 && merged[last].op == token.op {
        merged := merged[last := DiffToken(token.op, merged[last].text + token.text)];
      } else {
        merged := merged + [token];
      }
    }
    assert tokens[..|tokens|] == tokens;
  }

  // ---------------------------------------------------------------- the word diff

  function WordDiff(before: string, after: string): seq<Token> {
    Merge(DiffScript(Tokenize(before), Tokenize(after)))
  }

  /** `wordDiff`: tokenise both texts, diff the tokens, merge the script. */
  method ComputeWordDiff(before: string, after: string) returns (tokens: seq<Token>)
    ensures tokens == WordDiff(before, after)
  {
    var script := DiffSequences(Tokenize(before), Tokenize(after));
    tokens := MergeTokens(script);
  }

  /** Both texts can be read back exactly, whitespace included, over the cap too. */
  lemma WordDiffLossless(before: string, after: string)
    ensures BeforeText(WordDiff(before, after)) == before
    ensures AfterText(WordDiff(before, after)) == after
  {
    DiffIsLossless(Tokenize(before), Tokenize(after));
    MergeIsFaithful(DiffScript(Tokenize(before), Tokenize(after)));
    TokenizeLossless(before);
    TokenizeLossless(after);
  }

  /** No two neighbouring tokens share an operation, and a replaced phrase's old words come first. */
  lemma WordDiffNormalForm(before: string, after: string)
    ensures Alternating(WordDiff(before, after)) && RemovalsFirst(WordDiff(before, after))
  {
    var script := DiffScript(Tokenize(before), Tokenize(after));
    MergeIsFaithful(script);
    MergeOps(script);
    DiffRemovalsFirst(Tokenize(before), Tokenize(after));
  }

  /** What a script keeps, as text. */
  function KeptText(tokens: seq<Token>): string { Concat(Survivors(tokens)) }

  lemma KeptAppend(s: seq<Token>, t: seq<Token>)
    ensures KeptText(s + t) == KeptText(s) + KeptText(t)
  {
    SurvivorsConcat(s, t);
    ConcatAppend(Survivors(s), Survivors(t));
  }

  lemma KeptOfOne(token: Token)
    ensures KeptText([token]) == if token.op.Same? then token.text else ""
  {
    assert [token][1..] == [];
    assert Survivors([token]) == if token.op.Same? then [token.text] else [];
    assert Concat([token.text]) == token.text + Concat([]) == token.text;
  }

  lemma MergeOneKeepsKept(merged: seq<Token>, token: Token)
    ensures KeptText(MergeOne(merged, token)) == KeptText(merged) + KeptText([token])
  {
    hide KeptText;
    if merged != [] && merged[|merged| - 1].op == token.op {
      var init, last := merged[..|merged| - 1], merged[|merged| - 1];
      var joined := DiffToken(token.op, last.text + token.text);
      assert merged == init + [last];
      KeptAppend(init, [last]);
      KeptAppend(init, [joined]);
      KeptOfOne(last);
      KeptOfOne(token);
      KeptOfOne(joined);
      hide *;
      Associative(KeptText(init), KeptText([last]), KeptText([token]));
    } else {
      KeptAppend(merged, [token]);
    }
  }

  lemma {:induction false} MergeKeepsKept(tokens: seq<Token>)
    ensures KeptText(Merge(tokens)) == KeptText(tokens)
    decreases |tokens|
  {
    hide KeptText;
    if tokens != [] {
      var init, last := tokens[..|tokens| - 1], tokens[|tokens| - 1];
      MergeKeepsKept(init);
      assert tokens == init + [last];
      KeptAppend(init, [last]);
      MergeOneKeepsKept(Merge(init), last);
    }
  }

  /**
   * A word diff leaves unmarked the text of a common subsequence of the two
   * texts' words and spaces, of as many of them as any has exactly when its
   * middle was within the cap or shares no word or space.
   */
  lemma WordDiffKeepsMost(before: string, after: string)
    ensures var kept := Survivors(DiffScript(Tokenize(before), Tokenize(after)));
            && KeptText(WordDiff(before, after)) == Concat(kept)
            && IsCommon(kept, Tokenize(before), Tokenize(after))
            && (IsLongestCommonLength(|kept|, Tokenize(before), Tokenize(after))
                <==> NothingMissed(Tokenize(before), Tokenize(after)))
  {
    hide DiffScript, NothingMissed, IsLongestCommonLength, IsCommon, Merge, Tokenize;
    var script := DiffScript(Tokenize(before), Tokenize(after));
    MergeKeepsKept(script);
    DiffIsLossless(Tokenize(before), Tokenize(after));
    SurvivorsAreCommon(script);
    DiffIsOptimal(Tokenize(before), Tokenize(after));
  }

  /** Nothing is marked exactly when the texts are equal, over the cap too. */
  lemma WordDiffAllSame(before: string, after: string)
    ensures AllOp(WordDiff(before, after), Same) <==> before == after
  {
    MergeOps(DiffScript(Tokenize(before), Tokenize(after)));
    DiffAllSame(Tokenize(before), Tokenize(after));
    TokenizeLossless(before);
    TokenizeLossless(after);
  }
}
