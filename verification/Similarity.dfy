/** The similarity ratio of two sequences: twice the size of their blocks by their total length. */
module Similarity {
  import opened Arithmetic
  import opened Edits
  import opened MatchSpec
  import opened GroupSpec

  ghost function TotalSize(ms: seq<Match>): nat {
    if ms == [] then 0 else ms[0].size + TotalSize(ms[1..])
  }

  ghost function Ratio<T>(x: Input<T>): real {
    var length := |x.from| + |x.to|;
    if length == 0 then 1.0 else 2.0 * (TotalSize(Blocks(x)) as real) / (length as real)
  }

  lemma {:induction false} ChainSize<T>(x: Input<T>, ms: seq<Match>, i: nat, j: nat, iEnd: nat, jEnd: nat)
    requires Chain(x, ms, i, j, iEnd, jEnd)
    ensures TotalSize(ms) <= iEnd - i && TotalSize(ms) <= jEnd - j
  {
    if ms != [] {
      ChainSize(x, ms[1..], ms[0].from + ms[0].size, ms[0].to + ms[0].size, iEnd, jEnd);
    }
  }

  lemma {:induction false} TotalSizeSnoc(ms: seq<Match>, m: Match)
    ensures TotalSize(ms + [m]) == TotalSize(ms) + m.size
  {
    if ms != [] {
      assert (ms + [m])[1..] == ms[1..] + [m];
      TotalSizeSnoc(ms[1..], m);
    }
  }

  lemma RatioBounds<T>(x: Input<T>)
    ensures 0.0 <= Ratio(x) <= 1.0
  {
    var b := BlocksFrom(Matches(x, Whole(x)), Match(0, 0, 0));
    MatchesChain(x, Whole(x));
    BlocksChain(x, Matches(x, Whole(x)), Match(0, 0, 0), 0, 0);
    ChainSize(x, b, 0, 0, |x.from|, |x.to|);
    TotalSizeSnoc(b, Match(|x.from|, |x.to|, 0));
    if |x.from| + |x.to| > 0 {
      HalfRatio(TotalSize(Blocks(x)), |x.from| + |x.to|);
    }
  }

  // ---------------------------------------------------------------- what the ratio counts

  /** The number of elements, on both sides, of the common ranges. */
  function CommonElements(ops: seq<Operation>): int {
    if ops == [] then 0
    else
      var op := ops[0];
      (if op.kind == Equal then (op.fromEnd - op.fromBegin) + (op.toEnd - op.toBegin) else 0)
      + CommonElements(ops[1..])
  }

  lemma CommonCons(op: Operation, ops: seq<Operation>)
    ensures CommonElements([op] + ops)
            == (if op.kind == Equal then (op.fromEnd - op.fromBegin) + (op.toEnd - op.toBegin) else 0)
               + CommonElements(ops)
  {
    assert ([op] + ops)[1..] == ops;
  }

  lemma OneBlockCommon(m: Match, i: nat, j: nat, rest: seq<Operation>)
    ensures CommonElements(GapBefore(m, i, j) + BlockOperation(m) + rest) == 2 * m.size + CommonElements(rest)
  {
    var gap, block := GapBefore(m, i, j), BlockOperation(m);
    hide CommonElements;
    assert gap + block + rest == gap + (block + rest);
    if block == [] {
      assert block + rest == rest;
    } else {
      CommonCons(block[0], rest);
      assert block + rest == [block[0]] + rest;
    }
    if gap == [] {
      assert gap + (block + rest) == block + rest;
    } else {
      CommonCons(gap[0], block + rest);
      assert gap + (block + rest) == [gap[0]] + (block + rest);
    }
  }

  lemma {:induction false} BlocksCommon(blocks: seq<Match>, i: nat, j: nat)
    ensures CommonElements(OperationsFrom(blocks, i, j)) == 2 * TotalSize(blocks)
    decreases |blocks|
  {
    hide *;
    BlocksUnfolded(blocks, i, j);
    if blocks != [] {
      var m := blocks[0];
      BlocksCommon(blocks[1..], m.from + m.size, m.to + m.size);
      OneBlockCommon(m, i, j, OperationsFrom(blocks[1..], m.from + m.size, m.to + m.size));
    }
  }

  lemma BlocksUnfolded(blocks: seq<Match>, i: nat, j: nat)
    ensures blocks == [] ==> CommonElements(OperationsFrom(blocks, i, j)) == TotalSize(blocks) == 0
    ensures blocks != [] ==>
              var m := blocks[0];
              && TotalSize(blocks) == m.size + TotalSize(blocks[1..])
              && OperationsFrom(blocks, i, j)
                 == GapBefore(m, i, j) + BlockOperation(m)
                    + OperationsFrom(blocks[1..], m.from + m.size, m.to + m.size)
  {
    hide GapBefore, BlockOperation;
  }

  /** The ratio is the share of the elements that the edit script shows as common; without elements it is 1. */
  lemma RatioCounts<T>(x: Input<T>)
    ensures var length := |x.from| + |x.to|;
            && (length > 0 ==> Ratio(x) * (length as real) == CommonElements(Operations(x)) as real)
            && (length == 0 ==> Ratio(x) == 1.0)
  {
    RatioIs(x);
    hide *;
    var length := |x.from| + |x.to|;
    BlocksCommon(Blocks(x), 0, 0);
    if length > 0 {
      Share(TotalSize(Blocks(x)), length);
    }
  }

  lemma RatioIs<T>(x: Input<T>)
    ensures var length := |x.from| + |x.to|;
            Ratio(x) == if length == 0 then 1.0 else 2.0 * (TotalSize(Blocks(x)) as real) / (length as real)
    ensures Operations(x) == OperationsFrom(Blocks(x), 0, 0)
  {
    hide Blocks, OperationsFrom, TotalSize;
  }

  lemma Share(total: nat, length: nat)
    requires length > 0
    ensures (2.0 * (total as real) / (length as real)) * (length as real) == (2 * total) as real
  {
  }

  /** Operations that tile a range are all common only if both sides of it are equal. */
  lemma {:induction false} AllCommon<T>(x: Input<T>, ops: seq<Operation>, i: nat, j: nat, iEnd: nat, jEnd: nat)
    requires Tiles(x, ops, i, j, iEnd, jEnd) && iEnd <= |x.from| && jEnd <= |x.to|
    ensures i <= iEnd && j <= jEnd && CommonElements(ops) <= (iEnd - i) + (jEnd - j)
    ensures CommonElements(ops) == (iEnd - i) + (jEnd - j) ==> iEnd - i == jEnd - j && Same(x, i, j, iEnd - i)
  {
    if ops != [] {
      var op := ops[0];
      AllCommon(x, ops[1..], op.fromEnd, op.toEnd, iEnd, jEnd);
      if op.kind == Equal && CommonElements(ops) == (iEnd - i) + (jEnd - j) {
        SameConcat(x, i, j, op.fromEnd - i, iEnd - op.fromEnd);
      }
      hide Same, Tiles;
    }
  }

  /** Without junk the ratio is 1 exactly if both sequences are equal. */
  lemma RatioOneIff<T>(x: Input<T>)
    requires !HasJunk(x)
    ensures Ratio(x) == 1.0 <==> x.from == x.to
  {
    hide *;
    RatioCounts(x);
    if x.from == x.to && x.from != [] {
      AllIsCommon(x);
      ShareOfAll(Ratio(x), |x.from| + |x.to|, CommonElements(Operations(x)));
    }
    if Ratio(x) == 1.0 {
      OnlyEqual(x);
    }
  }

  lemma OnlyEqual<T>(x: Input<T>)
    requires Ratio(x) == 1.0
    ensures x.from == x.to
  {
    hide *;
    RatioCounts(x);
    ScriptTiles(x);
    AllCommon(x, Operations(x), 0, 0, |x.from|, |x.to|);
    SameIsEqualSlices(x, 0, 0, |x.from|);
    assert x.from[0..|x.from|] == x.from && x.to[0..|x.to|] == x.to;
  }

  lemma ScriptTiles<T>(x: Input<T>)
    ensures Tiles(x, Operations(x), 0, 0, |x.from|, |x.to|)
  {
    OperationsValid(x);
    hide Operations;
  }

  lemma AllIsCommon<T>(x: Input<T>)
    requires x.from == x.to && x.from != [] && !HasJunk(x)
    ensures CommonElements(Operations(x)) == |x.from| + |x.to|
  {
    EqualSequencesOperations(x);
    hide Operations;
    assert Operations(x)[1..] == [];
  }

  lemma ShareOfAll(ratio: real, length: int, common: int)
    requires length > 0 && common == length && ratio * (length as real) == common as real
    ensures ratio == 1.0
  {
    var n := length as real;
    assert (ratio - 1.0) * n == 0.0;
    if ratio > 1.0 {
      Positive(ratio - 1.0, n);
    } else if ratio < 1.0 {
      Positive(1.0 - ratio, n);
    }
  }

  lemma Positive(a: real, b: real)
    requires a > 0.0 && b > 0.0
    ensures a * b > 0.0
  {
  }
}
