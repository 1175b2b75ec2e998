/**
 * The nested-loop joins of src/operator.h: NestedLoopJoinOperator and
 * BlockNestedLoopJoinOperator. Both emit the concatenation of a left and a
 * right row whenever the join condition, evaluated against the merged
 * schema, is true.
 */
module JoinOperators {
  import opened Errors
  import opened Types
  import opened Expressions
  import opened Iterators
  import opened PipelineOperators

  /** The left row `l` joined with each right row in turn. */
  function Pairs(l: Tuple, rs: seq<Tuple>): (r: seq<Tuple>)
    ensures |r| == |rs| && forall j :: 0 <= j < |rs| ==> r[j] == l + rs[j]
  {
    seq(|rs|, j requires 0 <= j < |rs| => l + rs[j])
  }

  lemma PairsCons(l: Tuple, r: Tuple, rs: seq<Tuple>)
    ensures Pairs(l, [r] + rs) == [l + r] + Pairs(l, rs)
  {
    assert Pairs(l, [r] + rs)[1..] == Pairs(l, rs);
  }

  /** One pass of the inner loop: the matches of `l` against the right rows. */
  function JoinRow(cond: Expr, s: Schema, l: Tuple, rs: seq<Tuple>): Trace {
    Selected(cond, s, Pairs(l, rs))
  }

  /** Consuming the first right row of an inner pass. */
  lemma JoinRowStep(cond: Expr, s: Schema, l: Tuple, rs: seq<Tuple>)
    requires rs != []
    ensures JoinRow(cond, s, l, rs) ==
      match Evaluate(cond, l + rs[0], s)
      case Err(e) => Failing(e)
      case Ok(v) =>
        if !v.BoolV? then Failing(NotABool)
        else if v.b then Cons(l + rs[0], JoinRow(cond, s, l, rs[1..]))
        else JoinRow(cond, s, l, rs[1..])
  {
    assert Pairs(l, rs)[1..] == Pairs(l, rs[1..]);
  }

  /** Consuming a right row on which the condition is a bool. */
  lemma JoinRowBool(cond: Expr, s: Schema, l: Tuple, rs: seq<Tuple>, b: bool)
    requires rs != [] && Evaluate(cond, l + rs[0], s) == Ok(BoolV(b))
    ensures JoinRow(cond, s, l, rs) ==
      if b then Cons(l + rs[0], JoinRow(cond, s, l, rs[1..])) else JoinRow(cond, s, l, rs[1..])
  {
    JoinRowStep(cond, s, l, rs);
  }

  /** One step of an inner pass followed by whatever comes after it. */
  lemma PassStep(cond: Expr, s: Schema, l: Tuple, rs: seq<Tuple>, later: Trace)
    requires rs != []
    ensures Then(JoinRow(cond, s, l, rs), later) ==
      match Evaluate(cond, l + rs[0], s)
      case Err(e) => Failing(e)
      case Ok(v) =>
        if !v.BoolV? then Failing(NotABool)
        else if v.b then Cons(l + rs[0], Then(JoinRow(cond, s, l, rs[1..]), later))
        else Then(JoinRow(cond, s, l, rs[1..]), later)
  {
    JoinRowStep(cond, s, l, rs);
    ThenCons(l + rs[0], JoinRow(cond, s, l, rs[1..]), later);
  }

  /** What a nested-loop join emits: each left row's matches, left row by left row. */
  function NestedLoop(cond: Expr, s: Schema, ls: seq<Tuple>, rs: seq<Tuple>): Trace
    decreases |ls|
  {
    if ls == [] then Finished
    else Then(JoinRow(cond, s, ls[0], rs), NestedLoop(cond, s, ls[1..], rs))
  }

  /** All pairs of a left and a right row, left-major. */
  function Product(ls: seq<Tuple>, rs: seq<Tuple>): (p: seq<Tuple>)
    ensures |p| == |ls| * |rs|
    decreases |ls|
  {
    if ls == [] then [] else Pairs(ls[0], rs) + Product(ls[1..], rs)
  }

  lemma {:induction false} ProductMembers(ls: seq<Tuple>, rs: seq<Tuple>, t: Tuple)
    ensures t in Product(ls, rs) <==> exists i, j :: 0 <= i < |ls| && 0 <= j < |rs| && t == ls[i] + rs[j]
    decreases |ls|
  {
    if ls != [] {
      ProductMembers(ls[1..], rs, t);
      if t in Product(ls[1..], rs) {
        var i, j :| 0 <= i < |ls[1..]| && 0 <= j < |rs| && t == ls[1..][i] + rs[j];
        assert t == ls[i + 1] + rs[j];
      }
      if exists i, j :: 0 <= i < |ls| && 0 <= j < |rs| && t == ls[i] + rs[j] {
        var i, j :| 0 <= i < |ls| && 0 <= j < |rs| && t == ls[i] + rs[j];
        if i == 0 {
          assert t == Pairs(ls[0], rs)[j];
        } else {
          assert t == ls[1..][i - 1] + rs[j];
        }
      }
    }
  }

  /**
   * The nested-loop join is a selection over the product of its inputs:
   * exactly the joined pairs satisfying the condition, in left-major order,
   * stopping at the first pair on which the condition fails.
   */
  lemma {:induction false} NestedLoopIsSelectedProduct(cond: Expr, s: Schema, ls: seq<Tuple>, rs: seq<Tuple>)
    ensures NestedLoop(cond, s, ls, rs) == Selected(cond, s, Product(ls, rs))
    decreases |ls|
  {
    if ls != [] {
      NestedLoopIsSelectedProduct(cond, s, ls[1..], rs);
      SelectedAppend(cond, s, Pairs(ls[0], rs), Product(ls[1..], rs));
    }
  }

  /** Every emitted row joins some left row with some right row, and satisfies the condition. */
  lemma NestedLoopRows(cond: Expr, s: Schema, ls: seq<Tuple>, rs: seq<Tuple>, t: Tuple)
    requires t in NestedLoop(cond, s, ls, rs).rows
    ensures Evaluate(cond, t, s) == Ok(BoolV(true))
    ensures exists i, j :: 0 <= i < |ls| && 0 <= j < |rs| && t == ls[i] + rs[j]
  {
    NestedLoopIsSelectedProduct(cond, s, ls, rs);
    SelectedMeaning(cond, s, Product(ls, rs));
    ProductMembers(ls, rs, t);
  }

  /** Joining a concatenation of left inputs is joining each part in turn. */
  lemma {:induction false} NestedLoopAppend(cond: Expr, s: Schema, a: seq<Tuple>, b: seq<Tuple>, rs: seq<Tuple>)
    ensures NestedLoop(cond, s, a + b, rs) == Then(NestedLoop(cond, s, a, rs), NestedLoop(cond, s, b, rs))
    decreases |a|
  {
    if a == [] {
      assert a + b == b;
    } else {
      assert (a + b)[1..] == a[1..] + b;
      NestedLoopAppend(cond, s, a[1..], b, rs);
      ThenAssociative(JoinRow(cond, s, a[0], rs), NestedLoop(cond, s, a[1..], rs), NestedLoop(cond, s, b, rs));
    }
  }

  /**
   * What a block nested-loop join emits: the left input is cut into blocks
   * of `k` rows, and each block is joined against a full pass of the right
   * input per row. With no room in a block nothing is emitted.
   */
  function BlockJoin(cond: Expr, s: Schema, ls: seq<Tuple>, rs: seq<Tuple>, k: nat): Trace
    decreases |ls|
  {
    if k == 0 || ls == [] then Finished
    else
      var block := Take(ls, k);
      Then(NestedLoop(cond, s, block, rs), BlockJoin(cond, s, ls[|block|..], rs, k))
  }

  /** A block join starting a new block: the first row's pass, the rest of the block, the later blocks. */
  lemma BlockJoinUnfold(cond: Expr, s: Schema, ls: seq<Tuple>, rs: seq<Tuple>, k: nat)
    requires k >= 1 && ls != []
    ensures var block := Take(ls, k);
      BlockJoin(cond, s, ls, rs, k) ==
        Then(JoinRow(cond, s, block[0], rs), Then(NestedLoop(cond, s, block[1..], rs), BlockJoin(cond, s, ls[|block|..], rs, k)))
  {
    var block := Take(ls, k);
    ThenAssociative(JoinRow(cond, s, block[0], rs), NestedLoop(cond, s, block[1..], rs), BlockJoin(cond, s, ls[|block|..], rs, k));
  }

  /**
   * Where a block join stands inside a block: the rest `cur` of row `i`'s
   * pass, the full passes of the later rows of the block, then `later`.
   */
  function Pending(cond: Expr, s: Schema, block: seq<Tuple>, i: nat, cur: seq<Tuple>, rs: seq<Tuple>, later: Trace): Trace
    requires i < |block|
  {
    Then(JoinRow(cond, s, block[i], cur), Then(NestedLoop(cond, s, block[i + 1..], rs), later))
  }

  /** Moving on to the next row of a block once the right input is exhausted. */
  lemma NextInBlock(cond: Expr, s: Schema, block: seq<Tuple>, i: nat, rs: seq<Tuple>, later: Trace)
    requires i + 1 < |block|
    ensures Pending(cond, s, block, i, [], rs, later) == Pending(cond, s, block, i + 1, rs, rs, later)
  {
    assert block[i + 1..][1..] == block[i + 2..];
    ThenAssociative(JoinRow(cond, s, block[i + 1], rs), NestedLoop(cond, s, block[i + 2..], rs), later);
  }

  /** Leaving a block once its last row's pass is over. */
  lemma EndOfBlock(cond: Expr, s: Schema, block: seq<Tuple>, i: nat, rs: seq<Tuple>, later: Trace)
    requires i + 1 == |block|
    ensures Pending(cond, s, block, i, [], rs, later) == later
  {
  }

  /** Blocking the outer loop does not change the join's output. */
  lemma {:induction false} BlockJoinIsNestedLoop(cond: Expr, s: Schema, ls: seq<Tuple>, rs: seq<Tuple>, k: nat)
    requires k >= 1
    ensures BlockJoin(cond, s, ls, rs, k) == NestedLoop(cond, s, ls, rs)
    decreases |ls|
  {
    if ls != [] {
      var block := Take(ls, k);
      BlockJoinIsNestedLoop(cond, s, ls[|block|..], rs, k);
      NestedLoopAppend(cond, s, block, ls[|block|..], rs);
      assert block + ls[|block|..] == ls;
    }
  }


  /**
   * NestedLoopJoinOperator. `hasLeft` and `leftTuple` are the current outer
   * row; the right input is rewound after each inner pass.
   */
  class NestedLoopJoin {
    const left: Source
    const right: Source
    const cond: Expr
    const outputSchema: Schema
    var leftTuple: Tuple
    var hasLeft: bool

    ghost predicate Valid()
      reads this, left, right
    {
      left.Valid() && right.Valid() && left != right
    }

    /** The trace still to come: the rest of the current inner pass, then the remaining left rows. */
    ghost function Remaining(): Trace
      reads this, left, right
      requires Valid()
    {
      if hasLeft then
        Then(JoinRow(cond, outputSchema, leftTuple, right.Remaining()), NestedLoop(cond, outputSchema, left.Remaining(), right.rows))
      else Finished
    }

    constructor (left: Source, right: Source, cond: Expr)
      requires left.Valid() && right.Valid() && left != right
      ensures Valid() && this.left == left && this.right == right && this.cond == cond && !hasLeft
      ensures outputSchema == Merged(left.schema, right.schema)
    {
      this.left := left;
      this.right := right;
      this.cond := cond;
      var s := Merge(left.schema, right.schema);
      outputSchema := s;
      leftTuple := [];
      hasLeft := false;
    }

    method Open()
      requires Valid()
      modifies this, left, right
      ensures Valid()
      ensures !old(left.isOpen) && !old(right.isOpen) ==>
        Remaining() == NestedLoop(cond, outputSchema, left.rows, right.rows)
    {
      left.Open();
      right.Open();
      hasLeft, leftTuple := left.Next();
    }

    method Close()
      requires Valid()
      modifies left, right
      ensures Valid() && !left.isOpen && !right.isOpen
    {
      left.Close();
      right.Close();
    }

    method Next() returns (step: Step)
      requires Valid()
      modifies this, left, right
      ensures Valid()
      ensures Advances(old(Remaining()), step, Remaining())
    {
      while hasLeft
        invariant Valid()
        invariant Remaining() == old(Remaining())
        decreases (if hasLeft then 1 else 0) + |left.Remaining()|, |right.Remaining()|
      {
        ghost var rest := right.Remaining();
        var ok, rightTuple := right.Next();
        if ok {
          JoinRowStep(cond, outputSchema, leftTuple, rest);
          var combined := leftTuple + rightTuple;
          var v := Evaluate(cond, combined, outputSchema);
          if v.Err? {
            return Failed(v.error);
          }
          if !v.value.BoolV? {
            return Failed(NotABool);
          }
          if v.value.b {
            ThenCons(combined, JoinRow(cond, outputSchema, leftTuple, right.Remaining()), NestedLoop(cond, outputSchema, left.Remaining(), right.rows));
            return Row(combined);
          }
        } else {
          hasLeft, leftTuple := left.Next();
          right.Close();
          right.Open();
        }
      }
      return Done;
    }
  }

  /**
   * BlockNestedLoopJoinOperator. `leftBlock` holds up to `blockSize` left
   * rows; `blockIndex` is the one currently scanned against the right input.
   */
  class BlockNestedLoopJoin {
    const left: Source
    const right: Source
    const cond: Expr
    const outputSchema: Schema
    const blockSize: nat
    var leftBlock: seq<Tuple>
    var blockIndex: nat

    ghost predicate ChildrenValid()
      reads this, left, right
    {
      left.Valid() && right.Valid() && left != right
    }

    ghost predicate Valid()
      reads this, left, right
    {
      ChildrenValid() && |leftBlock| <= blockSize && (leftBlock != [] ==> blockIndex < |leftBlock|)
    }

    /**
     * The trace still to come: the rest of the current inner pass, the
     * passes of the rest of the block, then the blocks still to be read.
     */
    ghost function Remaining(): Trace
      reads this, left, right
      requires Valid()
    {
      if leftBlock == [] then Finished
      else
        Pending(cond, outputSchema, leftBlock, blockIndex, right.Remaining(), right.rows,
          BlockJoin(cond, outputSchema, left.Remaining(), right.rows, blockSize))
    }

    constructor (left: Source, right: Source, cond: Expr, blockSize: nat)
      requires left.Valid() && right.Valid() && left != right
      ensures Valid() && this.left == left && this.right == right && this.cond == cond
      ensures this.blockSize == blockSize && leftBlock == []
      ensures outputSchema == Merged(left.schema, right.schema)
    {
      this.left := left;
      this.right := right;
      this.cond := cond;
      this.blockSize := blockSize;
      var s := Merge(left.schema, right.schema);
      outputSchema := s;
      leftBlock := [];
      blockIndex := 0;
    }

    /** The fill loop of loadNextLeftBlock: up to `blockSize` rows read from the left input. */
    method ReadBlock() returns (block: seq<Tuple>)
      requires left.Valid()
      modifies left
      ensures left.Valid() && left.isOpen == old(left.isOpen)
      ensures block == Take(old(left.Remaining()), blockSize)
      ensures left.Remaining() == old(left.Remaining())[|block|..]
    {
      ghost var all := left.Remaining();
      block := [];
      var more := true;
      while more && |block| < blockSize
        invariant left.Valid() && left.isOpen == old(left.isOpen)
        invariant |block| <= blockSize && |block| <= |all|
        invariant block == all[..|block|] && left.Remaining() == all[|block|..]
        invariant !more ==> left.Remaining() == []
        decreases |left.Remaining()|, more
      {
        var ok, t := left.Next();
        if ok {
          block := block + [t];
        } else {
          more := false;
        }
      }
    }

    /** Reads the next block of left rows and rewinds the right input. */
    method LoadNextLeftBlock() returns (loaded: bool)
      requires ChildrenValid()
      modifies this, left, right
      ensures Valid() && blockIndex == 0
      ensures leftBlock == Take(old(left.Remaining()), blockSize)
      ensures left.Remaining() == old(left.Remaining())[|leftBlock|..]
      ensures right.Remaining() == right.rows
      ensures loaded <==> leftBlock != []
      ensures Remaining() == BlockJoin(cond, outputSchema, old(left.Remaining()), right.rows, blockSize)
    {
      ghost var all := left.Remaining();
      var block := ReadBlock();
      ghost var rest := left.Remaining();
      leftBlock := block;
      blockIndex := 0;
      right.Close();
      right.Open();
      assert left.Remaining() == rest;
      loaded := block != [];
      if loaded {
        BlockJoinUnfold(cond, outputSchema, all, right.rows, blockSize);
      }
    }

    method Open()
      requires Valid()
      modifies this, left, right
      ensures Valid()
      ensures !old(left.isOpen) ==> Remaining() == BlockJoin(cond, outputSchema, left.rows, right.rows, blockSize)
    {
      left.Open();
      right.Open();
      var _ := LoadNextLeftBlock();
    }

    method Close()
      requires Valid()
      modifies left, right
      ensures Valid() && !left.isOpen && !right.isOpen
    {
      left.Close();
      right.Close();
    }

    /**
     * The right input is exhausted for the current left row: moves on to
     * the next row of the block, or reads the next block when this one is done.
     */
    method AdvanceBlock() returns (more: bool)
      requires Valid() && leftBlock != [] && right.Remaining() == []
      modifies this, left, right
      ensures Valid() && Remaining() == old(Remaining())
      ensures more <==> leftBlock != []
      ensures more ==> (|left.Remaining()| < old(|left.Remaining()|) ||
        (left.Remaining() == old(left.Remaining()) && |leftBlock| - blockIndex < old(|leftBlock| - blockIndex)))
    {
      if blockIndex + 1 >= |leftBlock| {
        more := NextBlock();
      } else {
        NextRowOfBlock();
        more := true;
      }
    }

    /** The last row of the block is done: the next block is read. */
    method NextBlock() returns (more: bool)
      requires Valid() && leftBlock != [] && right.Remaining() == [] && blockIndex + 1 == |leftBlock|
      modifies this, left, right
      ensures Valid() && Remaining() == old(Remaining())
      ensures more <==> leftBlock != []
      ensures more ==> |left.Remaining()| < old(|left.Remaining()|)
    {
      ghost var blocks := BlockJoin(cond, outputSchema, left.Remaining(), right.rows, blockSize);
      EndOfBlock(cond, outputSchema, leftBlock, blockIndex, right.rows, blocks);
      assert Remaining() == blocks;
      blockIndex := blockIndex + 1;
      more := LoadNextLeftBlock();
    }

    /** A row of the block other than the last is done: the right input is rewound for the next one. */
    method NextRowOfBlock()
      requires Valid() && right.Remaining() == [] && blockIndex + 1 < |leftBlock|
      modifies this, right
      ensures Valid() && Remaining() == old(Remaining())
      ensures leftBlock == old(leftBlock) && blockIndex == old(blockIndex) + 1
    {
      ghost var rest := left.Remaining();
      ghost var after := Pending(cond, outputSchema, leftBlock, blockIndex + 1, right.rows, right.rows,
        BlockJoin(cond, outputSchema, rest, right.rows, blockSize));
      PassOver(rest);
      assert Remaining() == after;
      blockIndex := blockIndex + 1;
      RewindRight();
      Rewound(old(leftBlock), old(blockIndex), rest);
      assert Remaining() == after;
    }

    /** The right input is closed and opened again, which rewinds it. */
    method RewindRight()
      requires right.Valid()
      modifies right
      ensures right.Valid() && right.isOpen && right.Remaining() == right.rows
    {
      right.Close();
      right.Open();
    }

    /** With the right input exhausted, what remains starts with the next row of the block. */
    lemma PassOver(rest: seq<Tuple>)
      requires Valid() && right.Remaining() == [] && blockIndex + 1 < |leftBlock|
      requires left.Remaining() == rest
      ensures Remaining() == Pending(cond, outputSchema, leftBlock, blockIndex + 1, right.rows, right.rows,
        BlockJoin(cond, outputSchema, rest, right.rows, blockSize))
    {
      NextInBlock(cond, outputSchema, leftBlock, blockIndex, right.rows,
        BlockJoin(cond, outputSchema, rest, right.rows, blockSize));
    }

    /** After the rewind, the pass of the next row starts over the whole right input. */
    lemma Rewound(block: seq<Tuple>, i: nat, rest: seq<Tuple>)
      requires Valid() && leftBlock == block && blockIndex == i + 1 < |block|
      requires right.Remaining() == right.rows && left.Remaining() == rest
      ensures Remaining() == Pending(cond, outputSchema, block, i + 1, right.rows, right.rows,
        BlockJoin(cond, outputSchema, rest, right.rows, blockSize))
    {
    }

    /**
     * Joins the current left row `l` with the right row just read, the
     * head of `rest`: either the step is emitted, or the pair is dropped
     * and the trace still to come is unchanged.
     */
    method Pair(l: Tuple, rightTuple: Tuple, ghost rest: seq<Tuple>, ghost later: Trace) returns (emit: bool, step: Step)
      requires rest != [] && rest[0] == rightTuple
      ensures emit ==> Advances(Then(JoinRow(cond, outputSchema, l, rest), later), step, Then(JoinRow(cond, outputSchema, l, rest[1..]), later))
      ensures !emit ==> Then(JoinRow(cond, outputSchema, l, rest), later) == Then(JoinRow(cond, outputSchema, l, rest[1..]), later)
    {
      PassStep(cond, outputSchema, l, rest, later);
      var combined := l + rightTuple;
      var v := Evaluate(cond, combined, outputSchema);
      if v.Err? {
        return true, Failed(v.error);
      }
      if !v.value.BoolV? {
        return true, Failed(NotABool);
      }
      if v.value.b {
        return true, Row(combined);
      }
      return false, Done;
    }

    /**
     * Reads the next right row for the current left row. `rest` is what
     * the right input still held, and `later` what follows this row's pass.
     */
    method ReadRight() returns (ok: bool, rightTuple: Tuple, ghost rest: seq<Tuple>, ghost later: Trace)
      requires Valid() && leftBlock != []
      modifies right
      ensures Valid() && right.isOpen == old(right.isOpen)
      ensures rest == old(right.Remaining())
      ensures later == Then(NestedLoop(cond, outputSchema, leftBlock[blockIndex + 1..], right.rows),
        BlockJoin(cond, outputSchema, left.Remaining(), right.rows, blockSize))
      ensures old(Remaining()) == Then(JoinRow(cond, outputSchema, leftBlock[blockIndex], rest), later)
      ensures Remaining() == Then(JoinRow(cond, outputSchema, leftBlock[blockIndex], right.Remaining()), later)
      ensures ok <==> rest != []
      ensures ok ==> rightTuple == rest[0] && right.Remaining() == rest[1..]
      ensures !ok ==> right.Remaining() == []
    {
      rest := right.Remaining();
      later := Then(NestedLoop(cond, outputSchema, leftBlock[blockIndex + 1..], right.rows),
        BlockJoin(cond, outputSchema, left.Remaining(), right.rows, blockSize));
      ok, rightTuple := right.Next();
    }

    method Next() returns (step: Step)
      requires Valid()
      modifies this, left, right
      ensures Valid()
      ensures Advances(old(Remaining()), step, Remaining())
    {
      while leftBlock != []
        invariant Valid()
        invariant Remaining() == old(Remaining())
        decreases |left.Remaining()|, |leftBlock| - blockIndex, |right.Remaining()|
      {
        var ok, rightTuple, rest, later := ReadRight();
        if ok {
          var emit;
          emit, step := Pair(leftBlock[blockIndex], rightTuple, rest, later);
          if emit {
            return;
          }
        } else {
          var more := AdvanceBlock();
          if !more {
            return Done;
          }
        }
      }
      return Done;
    }
  }
}
