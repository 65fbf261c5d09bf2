/** Blocks of edits inside a script: everything removed at one place, then everything added there. */
module EditBlocks {
  import opened Sequences
  import opened EditScripts

  /** The texts of the leading run of one operation... */
  function TakeRun<T>(ops: seq<DiffToken<T>>, op: DiffOp): seq<T> {
    if ops != [] && ops[0].op == op then [ops[0].text] + TakeRun(ops[1..], op) else []
  }

  /** ...and what follows it. */
  function DropRun<T>(ops: seq<DiffToken<T>>, op: DiffOp): (rest: seq<DiffToken<T>>)
    ensures |rest| <= |ops|
    ensures ops != [] && ops[0].op == op ==> |rest| < |ops|
    ensures rest != [] ==> rest[0].op != op
  {
    if ops != [] && ops[0].op == op then DropRun(ops[1..], op) else ops
  }

  datatype Block<T> = Block(removed: seq<T>, added: seq<T>, rest: seq<DiffToken<T>>)

  /** The first block of edits, and what follows it. */
  function FirstBlock<T>(ops: seq<DiffToken<T>>): (block: Block<T>)
    ensures ops != [] && ops[0].op != Same ==> |block.rest| < |ops|
  {
    var additions := DropRun(ops, Removed);
    Block(TakeRun(ops, Removed), TakeRun(additions, Added), DropRun(additions, Added))
  }

  lemma {:induction false} RunParts<T>(ops: seq<DiffToken<T>>, op: DiffOp)
    ensures ops == Tag(op, TakeRun(ops, op)) + DropRun(ops, op)
  {
    if ops != [] && ops[0].op == op {
      RunParts(ops[1..], op);
      assert ops == [ops[0]] + ops[1..];
    }
  }

  lemma BlockParts<T>(ops: seq<DiffToken<T>>)
    ensures var block := FirstBlock(ops);
            ops == Tag(Removed, block.removed) + Tag(Added, block.added) + block.rest
  {
    RunParts(ops, Removed);
    RunParts(DropRun(ops, Removed), Added);
  }

  lemma BlockSides<T>(ops: seq<DiffToken<T>>)
    ensures var block := FirstBlock(ops);
            && BeforeSide(ops) == block.removed + BeforeSide(block.rest)
            && AfterSide(ops) == block.added + AfterSide(block.rest)
            && Survivors(ops) == Survivors(block.rest)
  {
    var block := FirstBlock(ops);
    BlockParts(ops);
    hide *;
    TagSides(Removed, block.removed);
    TagSides(Added, block.added);
    SidesConcat(Tag(Removed, block.removed), Tag(Added, block.added));
    SidesConcat(Tag(Removed, block.removed) + Tag(Added, block.added), block.rest);
  }

  /** With removals first, a block is a whole maximal run of edits. */
  lemma BlockIsMaximal<T>(ops: seq<DiffToken<T>>)
    requires RemovalsFirst(ops)
    ensures var rest := FirstBlock(ops).rest; RemovalsFirst(rest) && (rest != [] ==> rest[0].op == Same)
  {
    var block := FirstBlock(ops);
    var n := |block.removed| + |block.added|;
    BlockParts(ops);
    assert block.rest == ops[n..];
    if block.rest != [] && block.added != [] {
      assert ops[n - 1].op == Added && ops[n] == block.rest[0];
    }
  }

  lemma {:induction false} RunOfTag<T>(texts: seq<T>, op: DiffOp, rest: seq<DiffToken<T>>)
    requires rest == [] || rest[0].op != op
    ensures TakeRun(Tag(op, texts) + rest, op) == texts && DropRun(Tag(op, texts) + rest, op) == rest
  {
    hide TakeRun, DropRun;
    if texts == [] {
      assert Tag(op, texts) + rest == rest;
      NoRun(rest, op);
    } else {
      var first, more := DiffToken(op, texts[0]), Tag(op, texts[1..]) + rest;
      RunOfTag(texts[1..], op, rest);
      Associative([first], Tag(op, texts[1..]), rest);
      LongerRun(first, more);
    }
  }

  lemma NoRun<T>(rest: seq<DiffToken<T>>, op: DiffOp)
    requires rest == [] || rest[0].op != op
    ensures TakeRun(rest, op) == [] && DropRun(rest, op) == rest
  {
  }

  lemma LongerRun<T>(first: DiffToken<T>, more: seq<DiffToken<T>>)
    ensures TakeRun([first] + more, first.op) == [first.text] + TakeRun(more, first.op)
    ensures DropRun([first] + more, first.op) == DropRun(more, first.op)
  {
    assert ([first] + more)[1..] == more;
  }

  lemma RunStep<T>(ops: seq<DiffToken<T>>, k: nat, op: DiffOp)
    requires k < |ops|
    ensures ops[k].op == op ==>
              && TakeRun(ops[k..], op) == [ops[k].text] + TakeRun(ops[k + 1..], op)
              && DropRun(ops[k..], op) == DropRun(ops[k + 1..], op)
    ensures ops[k].op != op ==> TakeRun(ops[k..], op) == [] && DropRun(ops[k..], op) == ops[k..]
  {
    assert ops[k..][1..] == ops[k + 1..];
  }

  lemma RunEnd<T>(op: DiffOp)
    ensures TakeRun<T>([], op) == [] && DropRun<T>([], op) == []
  {
  }

  /** One of the two collecting loops of a block. */
  method CollectRun<T>(ops: seq<DiffToken<T>>, index: nat, op: DiffOp) returns (texts: seq<T>, next: nat)
    requires index <= |ops|
    ensures index <= next <= |ops| && (index < |ops| && ops[index].op == op ==> index < next)
    ensures texts == TakeRun(ops[index..], op) && ops[next..] == DropRun(ops[index..], op)
  {
    hide *;
    texts, next := [], index;
    while next < |ops| && ops[next].op == op
      invariant index <= next <= |ops| && (next == index ==> texts == [])
      invariant texts + TakeRun(ops[next..], op) == TakeRun(ops[index..], op)
      invariant DropRun(ops[next..], op) == DropRun(ops[index..], op)
    {
      RunStep(ops, next, op);
      Associative(texts, [ops[next].text], TakeRun(ops[next + 1..], op));
      texts := texts + [ops[next].text];
      next := next + 1;
    }
    if next < |ops| { RunStep(ops, next, op); } else { RunEnd<T>(op); }
  }

  /** Two collecting loops make a block: the removals at `index`, and the additions after them. */
  method CollectBlock<T>(ops: seq<DiffToken<T>>, index: nat) returns (removed: seq<T>, added: seq<T>, next: nat)
    requires index < |ops| && ops[index].op != Same
    ensures index < next <= |ops| && FirstBlock(ops[index..]) == Block(removed, added, ops[next..])
  {
    hide TakeRun, DropRun;
    var middle;
    removed, middle := CollectRun(ops, index, Removed);
    added, next := CollectRun(ops, middle, Added);
  }
}
