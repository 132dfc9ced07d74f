/**
 What the sequence matcher computes, as functions of its two sequences: the longest match
 of a window, the list of matches, the blocks they merge into, the edit operations, and the
 grouped operations of a context diff.  The class in SequenceMatcher.dfy is proved to
 compute these functions; everything the differs rely on is proved about them here.
 */
module MatchSpec {

  import opened Edits

  ghost function Whole<T>(x: Input<T>): Window {
    Window(0, |x.from|, 0, |x.to|)
  }

  ghost predicate ValidWindow<T>(x: Input<T>, w: Window) {
    w.fromBegin <= w.fromEnd <= |x.from| && w.toBegin <= w.toEnd <= |x.to|
  }

  ghost predicate InWindow(w: Window, i: int, j: int) {
    w.fromBegin <= i < w.fromEnd && w.toBegin <= j < w.toEnd
  }

  /** The n elements of `from` at i are the n elements of `to` at j. */
  ghost predicate Same<T>(x: Input<T>, i: nat, j: nat, n: nat)
    requires i + n <= |x.from| && j + n <= |x.to|
  {
    n == 0 || (x.from[i + n - 1] == x.to[j + n - 1] && Same(x, i, j, n - 1))
  }

  lemma {:induction false} SameConcat<T>(x: Input<T>, i: nat, j: nat, n: nat, m: nat)
    requires i + n + m <= |x.from| && j + n + m <= |x.to|
    ensures Same(x, i, j, n + m) <==> Same(x, i, j, n) && Same(x, i + n, j + n, m)
    decreases m
  {
    if m > 0 {
      SameConcat(x, i, j, n, m - 1);
    }
  }

  lemma {:induction false} SameIsEqualSlices<T>(x: Input<T>, i: nat, j: nat, n: nat)
    requires i + n <= |x.from| && j + n <= |x.to|
    ensures Same(x, i, j, n) <==> x.from[i..i + n] == x.to[j..j + n]
    decreases n
  {
    if n > 0 {
      SameIsEqualSlices(x, i, j, n - 1);
      LastOfSlice(x.from, i, n);
      LastOfSlice(x.to, j, n);
    }
  }

  lemma LastOfSlice<T>(s: seq<T>, i: nat, n: nat)
    requires n > 0 && i + n <= |s|
    ensures s[i..i + n][n - 1] == s[i + n - 1] && s[i..i + n][..n - 1] == s[i..i + (n - 1)]
    ensures s[i..i + n] == s[i..i + (n - 1)] + [s[i + n - 1]]
  {
  }

  // ---------------------------------------------------------------- longest match

  /** Length of the longest junk-free common run of the window that ends at cell (i, j). */
  ghost function RunLength<T>(x: Input<T>, w: Window, i: nat, j: nat): (n: nat)
    requires ValidWindow(x, w) && InWindow(w, i, j)
    ensures n <= i + 1 - w.fromBegin && n <= j + 1 - w.toBegin
    ensures Same(x, i + 1 - n, j + 1 - n, n)
    ensures n > 0 <==> x.from[i] == x.to[j] && !x.junk(x.to[j])
    decreases i
  {
    if x.from[i] != x.to[j] || x.junk(x.to[j]) then 0
    else if i == w.fromBegin || j == w.toBegin then 1
    else 1 + RunLength(x, w, i - 1, j - 1)
  }

  ghost predicate JunkFree<T>(x: Input<T>, j: nat, n: nat)
    requires j + n <= |x.to|
  {
    forall k :: j <= k < j + n ==> !x.junk(x.to[k])
  }

  /** A junk-free common run inside the window. */
  ghost predicate CleanRun<T>(x: Input<T>, w: Window, i: nat, j: nat, n: nat)
    requires ValidWindow(x, w)
  {
    && w.fromBegin <= i && i + n <= w.fromEnd && w.toBegin <= j && j + n <= w.toEnd
    && Same(x, i, j, n) && JunkFree(x, j, n)
  }

  /** Every junk-free common run of the window is counted in full at its last cell. */
  lemma {:induction false} RunLengthCovers<T>(x: Input<T>, w: Window, i: nat, j: nat, n: nat)
    requires ValidWindow(x, w) && n > 0
    requires w.fromBegin <= i && i + n <= w.fromEnd && w.toBegin <= j && j + n <= w.toEnd
    requires Same(x, i, j, n) && JunkFree(x, j, n)
    ensures RunLength(x, w, i + n - 1, j + n - 1) >= n
    decreases n
  {
    if n > 1 {
      RunLengthCovers(x, w, i, j, n - 1);
    }
  }

  /** One cell of the scan: a strictly longer run replaces the best one so far. */
  ghost function Improve<T>(x: Input<T>, w: Window, best: Match, i: nat, j: nat): Match
    requires ValidWindow(x, w) && InWindow(w, i, j)
  {
    var n := RunLength(x, w, i, j);
    if n > best.size then Match(i + 1 - n, j + 1 - n, n) else best
  }

  /** The best match after the cells (i, toBegin), ..., (i, j - 1) of row i. */
  ghost function ScanRow<T>(x: Input<T>, w: Window, best: Match, i: nat, j: nat): Match
    requires ValidWindow(x, w) && w.fromBegin <= i < w.fromEnd && w.toBegin <= j <= w.toEnd
    decreases j
  {
    if j == w.toBegin then best else Improve(x, w, ScanRow(x, w, best, i, j - 1), i, j - 1)
  }

  /** The best match after all cells of the rows before i. */
  ghost function ScanRows<T>(x: Input<T>, w: Window, i: nat): Match
    requires ValidWindow(x, w) && w.fromBegin <= i <= w.fromEnd
    decreases i
  {
    if i == w.fromBegin then Match(w.fromBegin, w.toBegin, 0)
    else ScanRow(x, w, ScanRows(x, w, i - 1), i - 1, w.toEnd)
  }

  ghost function BestMatch<T>(x: Input<T>, w: Window): Match
    requires ValidWindow(x, w)
  {
    ScanRows(x, w, w.fromEnd)
  }

  /** A match lies inside the window and pairs equal content. */
  ghost predicate GoodMatch<T>(x: Input<T>, w: Window, m: Match)
    requires ValidWindow(x, w)
  {
    && w.fromBegin <= m.from && m.from + m.size <= w.fromEnd
    && w.toBegin <= m.to && m.to + m.size <= w.toEnd
    && Same(x, m.from, m.to, m.size)
  }

  /** Cell (a, b) is visited before cell (i, j). */
  ghost predicate Before(a: int, b: int, i: int, j: int) {
    a < i || (a == i && b < j)
  }

  /** No cell visited before (i, j) ends a run longer than n. */
  ghost predicate NoneLonger<T>(x: Input<T>, w: Window, n: nat, i: nat, j: nat)
    requires ValidWindow(x, w)
  {
    forall a, b {:trigger RunLength(x, w, a, b)} ::
      InWindow(w, a, b) && Before(a, b, i, j) ==> RunLength(x, w, a, b) <= n
  }

  /** `best` is the first longest run among the cells visited before (i, j). */
  ghost predicate FirstLongest<T>(x: Input<T>, w: Window, best: Match, i: nat, j: nat)
    requires ValidWindow(x, w)
  {
    && GoodMatch(x, w, best)
    && NoneLonger(x, w, best.size, i, j)
    && (best.size == 0 ==> best == Match(w.fromBegin, w.toBegin, 0))
    && (best.size > 0 ==>
          var ei, ej := best.from + best.size - 1, best.to + best.size - 1;
          && Before(ei, ej, i, j) && RunLength(x, w, ei, ej) == best.size
          && NoneLonger(x, w, best.size - 1, ei, ej))
  }

  lemma ImproveFirstLongest<T>(x: Input<T>, w: Window, best: Match, i: nat, j: nat)
    requires ValidWindow(x, w) && InWindow(w, i, j)
    requires FirstLongest(x, w, best, i, j)
    ensures FirstLongest(x, w, Improve(x, w, best, i, j), i, j + 1)
  {
    hide RunLength;
    var n := RunLength(x, w, i, j);
    var r := Improve(x, w, best, i, j);
    forall a, b | InWindow(w, a, b) && Before(a, b, i, j + 1)
      ensures RunLength(x, w, a, b) <= r.size
    {
      assert Before(a, b, i, j) || (a == i && b == j);
    }
  }

  lemma {:induction false} ScanRowFirstLongest<T>(x: Input<T>, w: Window, best: Match, i: nat, j: nat)
    requires ValidWindow(x, w) && w.fromBegin <= i < w.fromEnd && w.toBegin <= j <= w.toEnd
    requires FirstLongest(x, w, best, i, w.toBegin)
    ensures FirstLongest(x, w, ScanRow(x, w, best, i, j), i, j)
    decreases j
  {
    hide RunLength, FirstLongest, Improve;
    if j > w.toBegin {
      ScanRowFirstLongest(x, w, best, i, j - 1);
      ImproveFirstLongest(x, w, ScanRow(x, w, best, i, j - 1), i, j - 1);
    }
  }

  /** The end of a row is the beginning of the next one. */
  lemma NextRow<T>(x: Input<T>, w: Window, best: Match, i: nat)
    requires ValidWindow(x, w)
    requires FirstLongest(x, w, best, i, w.toEnd)
    ensures FirstLongest(x, w, best, i + 1, w.toBegin)
  {
    hide RunLength;
    forall a, b | InWindow(w, a, b) && Before(a, b, i + 1, w.toBegin)
      ensures RunLength(x, w, a, b) <= best.size
    {
      assert Before(a, b, i, w.toEnd);
    }
  }

  lemma {:induction false} ScanRowsFirstLongest<T>(x: Input<T>, w: Window, i: nat)
    requires ValidWindow(x, w) && w.fromBegin <= i <= w.fromEnd
    ensures FirstLongest(x, w, ScanRows(x, w, i), i, w.toBegin)
    decreases i
  {
    hide *;
    ScanRowsUnfold(x, w, i);
    if i == w.fromBegin {
      NothingScanned(x, w);
    } else {
      ScanRowsFirstLongest(x, w, i - 1);
      ScanRowFirstLongest(x, w, ScanRows(x, w, i - 1), i - 1, w.toEnd);
      NextRow(x, w, ScanRows(x, w, i), i - 1);
    }
  }

  lemma ScanRowsUnfold<T>(x: Input<T>, w: Window, i: nat)
    requires ValidWindow(x, w) && w.fromBegin <= i <= w.fromEnd
    ensures w.toBegin <= w.toEnd
    ensures ScanRows(x, w, i) == if i == w.fromBegin then Match(w.fromBegin, w.toBegin, 0)
                                 else ScanRow(x, w, ScanRows(x, w, i - 1), i - 1, w.toEnd)
  {
    hide ScanRow;
  }

  lemma NothingScanned<T>(x: Input<T>, w: Window)
    requires ValidWindow(x, w)
    ensures FirstLongest(x, w, Match(w.fromBegin, w.toBegin, 0), w.fromBegin, w.toBegin)
  {
    hide RunLength;
  }

  /**
   The best match of a window is a common run of it, no junk-free common run of the window is
   longer, and among the longest ones it is the one whose last cell comes first.
   */
  lemma BestMatchIsFirstLongest<T>(x: Input<T>, w: Window)
    requires ValidWindow(x, w)
    ensures GoodMatch(x, w, BestMatch(x, w))
    ensures FirstLongest(x, w, BestMatch(x, w), w.fromEnd, w.toBegin)
    ensures forall i: nat, j: nat, n: nat :: CleanRun(x, w, i, j, n) ==> n <= BestMatch(x, w).size
  {
    ScanRowsFirstLongest(x, w, w.fromEnd);
    forall i: nat, j: nat, n: nat | n > 0 && CleanRun(x, w, i, j, n)
      ensures n <= BestMatch(x, w).size
    {
      RunLengthCovers(x, w, i, j, n);
      assert InWindow(w, i + n - 1, j + n - 1) && Before(i + n - 1, j + n - 1, w.fromEnd, w.toBegin);
    }
  }

  /** Grow a match to the left over equal elements that are junk, or that are not. */
  ghost function ExtendLeft<T>(x: Input<T>, w: Window, shouldJunk: bool, m: Match): (r: Match)
    requires ValidWindow(x, w) && GoodMatch(x, w, m)
    ensures GoodMatch(x, w, r) && r.size >= m.size
    decreases m.from
  {
    if && m.from > w.fromBegin && m.to > w.toBegin
       && x.junk(x.to[m.to - 1]) == shouldJunk
       && x.from[m.from - 1] == x.to[m.to - 1]
    then
      assert Same(x, m.from - 1, m.to - 1, 1);
      SameConcat(x, m.from - 1, m.to - 1, 1, m.size);
      ExtendLeft(x, w, shouldJunk, Match(m.from - 1, m.to - 1, m.size + 1))
    else m
  }

  /** Grow a match to the right; the source stops one element short of the window's end. */
  ghost function ExtendRight<T>(x: Input<T>, w: Window, shouldJunk: bool, m: Match): (r: Match)
    requires ValidWindow(x, w) && GoodMatch(x, w, m)
    ensures GoodMatch(x, w, r) && r.size >= m.size
    decreases w.fromEnd - m.size
  {
    if && m.from + m.size + 1 < w.fromEnd && m.to + m.size + 1 < w.toEnd
       && x.junk(x.to[m.to + m.size]) == shouldJunk
       && x.from[m.from + m.size] == x.to[m.to + m.size]
    then
      ExtendRight(x, w, shouldJunk, m.(size := m.size + 1))
    else m
  }

  ghost predicate HasJunk<T>(x: Input<T>) {
    exists j :: 0 <= j < |x.to| && x.junk(x.to[j])
  }

  ghost function Adjust<T>(x: Input<T>, w: Window, shouldJunk: bool, m: Match): (r: Match)
    requires ValidWindow(x, w) && GoodMatch(x, w, m)
    ensures GoodMatch(x, w, r) && r.size >= m.size
  {
    ExtendRight(x, w, shouldJunk, ExtendLeft(x, w, shouldJunk, m))
  }

  ghost function LongestMatch<T>(x: Input<T>, w: Window): (m: Match)
    requires ValidWindow(x, w)
    ensures GoodMatch(x, w, m) && m.size >= BestMatch(x, w).size
  {
    BestMatchIsFirstLongest(x, w);
    var best := BestMatch(x, w);
    if HasJunk(x) then Adjust(x, w, true, Adjust(x, w, false, best)) else best
  }

  // ---------------------------------------------------------------- matches

  ghost function LeftOf(w: Window, m: Match): Window {
    Window(w.fromBegin, m.from, w.toBegin, m.to)
  }

  ghost function RightOf(w: Window, m: Match): Window {
    Window(m.from + m.size, w.fromEnd, m.to + m.size, w.toEnd)
  }

  ghost predicate Open(w: Window) {
    w.fromBegin < w.fromEnd && w.toBegin < w.toEnd
  }

  /** The matches of a window in order: those left of its longest match, that match, those right of it. */
  ghost function Matches<T>(x: Input<T>, w: Window): seq<Match>
    requires ValidWindow(x, w)
    decreases w.fromEnd - w.fromBegin
  {
    var m := LongestMatch(x, w);
    if m.size == 0 then [] else
      (if Open(LeftOf(w, m)) then Matches(x, LeftOf(w, m)) else [])
      + [m]
      + (if Open(RightOf(w, m)) then Matches(x, RightOf(w, m)) else [])
  }

  /** The matches are non-empty common runs, in order and disjoint on both sides, from (i, j) up to (iEnd, jEnd). */
  ghost predicate Chain<T>(x: Input<T>, ms: seq<Match>, i: nat, j: nat, iEnd: nat, jEnd: nat) {
    if ms == [] then i <= iEnd <= |x.from| && j <= jEnd <= |x.to|
    else
      var m := ms[0];
      && i <= m.from && j <= m.to && m.size > 0
      && m.from + m.size <= |x.from| && m.to + m.size <= |x.to|
      && Same(x, m.from, m.to, m.size)
      && Chain(x, ms[1..], m.from + m.size, m.to + m.size, iEnd, jEnd)
  }

  lemma {:induction false} ChainBounds<T>(x: Input<T>, ms: seq<Match>, i: nat, j: nat, iEnd: nat, jEnd: nat)
    requires Chain(x, ms, i, j, iEnd, jEnd)
    ensures i <= iEnd <= |x.from| && j <= jEnd <= |x.to|
  {
    if ms != [] {
      ChainBounds(x, ms[1..], ms[0].from + ms[0].size, ms[0].to + ms[0].size, iEnd, jEnd);
    }
  }

  lemma {:induction false} ChainConcat<T>(x: Input<T>, ms: seq<Match>, ms': seq<Match>,
                                          i: nat, j: nat, iMid: nat, jMid: nat, iEnd: nat, jEnd: nat)
    requires Chain(x, ms, i, j, iMid, jMid) && Chain(x, ms', iMid, jMid, iEnd, jEnd)
    ensures Chain(x, ms + ms', i, j, iEnd, jEnd)
  {
    if ms == [] {
      assert ms + ms' == ms';
      ChainBounds(x, ms', iMid, jMid, iEnd, jEnd);
    } else {
      assert (ms + ms')[1..] == ms[1..] + ms';
      ChainConcat(x, ms[1..], ms', ms[0].from + ms[0].size, ms[0].to + ms[0].size, iMid, jMid, iEnd, jEnd);
    }
  }

  /** Matches never cross or overlap: they form a chain through their window. */
  lemma {:induction false} MatchesChain<T>(x: Input<T>, w: Window)
    requires ValidWindow(x, w)
    ensures Chain(x, Matches(x, w), w.fromBegin, w.toBegin, w.fromEnd, w.toEnd)
    decreases w.fromEnd - w.fromBegin
  {
    var m := LongestMatch(x, w);
    if m.size > 0 {
      var l := if Open(LeftOf(w, m)) then Matches(x, LeftOf(w, m)) else [];
      var r := if Open(RightOf(w, m)) then Matches(x, RightOf(w, m)) else [];
      if Open(LeftOf(w, m)) { MatchesChain(x, LeftOf(w, m)); }
      if Open(RightOf(w, m)) { MatchesChain(x, RightOf(w, m)); }
      ChainAround(x, w, l, m, r);
    }
  }

  lemma ChainAround<T>(x: Input<T>, w: Window, l: seq<Match>, m: Match, r: seq<Match>)
    requires ValidWindow(x, w) && GoodMatch(x, w, m) && m.size > 0
    requires Chain(x, l, w.fromBegin, w.toBegin, m.from, m.to)
    requires Chain(x, r, m.from + m.size, m.to + m.size, w.fromEnd, w.toEnd)
    ensures Chain(x, l + [m] + r, w.fromBegin, w.toBegin, w.fromEnd, w.toEnd)
  {
    assert ([m] + r)[1..] == r;
    ChainConcat(x, l, [m] + r, w.fromBegin, w.toBegin, m.from, m.to, w.fromEnd, w.toEnd);
    assert l + [m] + r == l + ([m] + r);
  }

  // ---------------------------------------------------------------- blocks

  /** Merge adjacent matches; `current` is the block being grown. */
  ghost function BlocksFrom(ms: seq<Match>, current: Match): seq<Match> {
    if ms == [] then
      if current.size > 0 then [current] else []
    else if current.from + current.size == ms[0].from && current.to + current.size == ms[0].to then
      BlocksFrom(ms[1..], current.(size := current.size + ms[0].size))
    else
      (if current.size > 0 then [current] else []) + BlocksFrom(ms[1..], ms[0])
  }

  ghost function Blocks<T>(x: Input<T>): seq<Match> {
    BlocksFrom(Matches(x, Whole(x)), Match(0, 0, 0)) + [Match(|x.from|, |x.to|, 0)]
  }

  lemma {:induction false} BlocksChain<T>(x: Input<T>, ms: seq<Match>, current: Match, i: nat, j: nat)
    requires i <= current.from && j <= current.to
    requires current.from + current.size <= |x.from| && current.to + current.size <= |x.to|
    requires Same(x, current.from, current.to, current.size)
    requires Chain(x, ms, current.from + current.size, current.to + current.size, |x.from|, |x.to|)
    ensures Chain(x, BlocksFrom(ms, current), i, j, |x.from|, |x.to|)
    decreases |ms|
  {
    var c := current;
    hide BlocksFrom;
    BlocksUnfold(ms, c);
    if ms == [] {
    } else if c.from + c.size == ms[0].from && c.to + c.size == ms[0].to {
      SameConcat(x, c.from, c.to, c.size, ms[0].size);
      BlocksChain(x, ms[1..], c.(size := c.size + ms[0].size), i, j);
    } else if c.size > 0 {
      BlocksChain(x, ms[1..], ms[0], c.from + c.size, c.to + c.size);
      hide Chain, Same;
      ChainCons(x, c, BlocksFrom(ms[1..], ms[0]), i, j, |x.from|, |x.to|);
    } else {
      BlocksChain(x, ms[1..], ms[0], i, j);
      assert [] + BlocksFrom(ms[1..], ms[0]) == BlocksFrom(ms[1..], ms[0]);
    }
  }

  lemma BlocksUnfold(ms: seq<Match>, current: Match)
    ensures var last := if current.size > 0 then [current] else [];
            BlocksFrom(ms, current) ==
            if ms == [] then last
            else if current.from + current.size == ms[0].from && current.to + current.size == ms[0].to then
              BlocksFrom(ms[1..], current.(size := current.size + ms[0].size))
            else last + BlocksFrom(ms[1..], ms[0])
  {
  }

  lemma ChainCons<T>(x: Input<T>, m: Match, rest: seq<Match>, i: nat, j: nat, iEnd: nat, jEnd: nat)
    requires i <= m.from && j <= m.to && m.size > 0
    requires m.from + m.size <= |x.from| && m.to + m.size <= |x.to| && Same(x, m.from, m.to, m.size)
    requires Chain(x, rest, m.from + m.size, m.to + m.size, iEnd, jEnd)
    ensures Chain(x, [m] + rest, i, j, iEnd, jEnd)
  {
    assert ([m] + rest)[1..] == rest;
  }

  // ---------------------------------------------------------------- operations

  /** Some operation is of that kind. */
  ghost predicate HasKind(ops: seq<Operation>, kind: Kind) {
    exists k :: 0 <= k < |ops| && ops[k].kind == kind
  }

  /** The operations for the blocks from (i, j) on: the gap before each block, then the block. */
  ghost function OperationsFrom(blocks: seq<Match>, i: nat, j: nat): seq<Operation> {
    if blocks == [] then [] else
      GapBefore(blocks[0], i, j) + BlockOperation(blocks[0])
      + OperationsFrom(blocks[1..], blocks[0].from + blocks[0].size, blocks[0].to + blocks[0].size)
  }

  ghost function GapBefore(m: Match, i: nat, j: nat): seq<Operation> {
    if i < m.from && j < m.to then [Operation(Replace, i, m.from, j, m.to)]
    else if i < m.from then [Operation(Delete, i, m.from, j, m.to)]
    else if j < m.to then [Operation(Insert, i, m.from, j, m.to)]
    else []
  }

  ghost function BlockOperation(m: Match): seq<Operation> {
    if m.size > 0 then [Operation(Equal, m.from, m.from + m.size, m.to, m.to + m.size)] else []
  }

  ghost function Operations<T>(x: Input<T>): seq<Operation> {
    OperationsFrom(Blocks(x), 0, 0)
  }

  /** What each kind of operation promises about its two ranges. */
  ghost predicate ValidOperation<T>(x: Input<T>, op: Operation) {
    && op.fromBegin <= op.fromEnd <= |x.from|
    && op.toBegin <= op.toEnd <= |x.to|
    && match op.kind {
         case Equal =>
           && op.fromEnd - op.fromBegin == op.toEnd - op.toBegin
           && Same(x, op.fromBegin, op.toBegin, op.fromEnd - op.fromBegin)
         case Insert => op.fromBegin == op.fromEnd && op.toBegin < op.toEnd
         case Delete => op.fromBegin < op.fromEnd && op.toBegin == op.toEnd
         case Replace => op.fromBegin < op.fromEnd && op.toBegin < op.toEnd
       }
  }

  /** The operations are valid and tile both sequences contiguously from (i, j) to (iEnd, jEnd). */
  ghost predicate Tiles<T>(x: Input<T>, ops: seq<Operation>, i: nat, j: nat, iEnd: nat, jEnd: nat) {
    if ops == [] then i == iEnd && j == jEnd
    else
      && ops[0].fromBegin == i && ops[0].toBegin == j
      && ValidOperation(x, ops[0])
      && Tiles(x, ops[1..], ops[0].fromEnd, ops[0].toEnd, iEnd, jEnd)
  }

  ghost predicate ValidScript<T>(x: Input<T>, ops: seq<Operation>) {
    Tiles(x, ops, 0, 0, |x.from|, |x.to|)
  }

  lemma {:induction false} TilesConcat<T>(x: Input<T>, ops: seq<Operation>, ops': seq<Operation>,
                                          i: nat, j: nat, iMid: nat, jMid: nat, iEnd: nat, jEnd: nat)
    requires Tiles(x, ops, i, j, iMid, jMid) && Tiles(x, ops', iMid, jMid, iEnd, jEnd)
    ensures Tiles(x, ops + ops', i, j, iEnd, jEnd)
  {
    if ops == [] {
      assert ops + ops' == ops';
    } else {
      assert (ops + ops')[1..] == ops[1..] + ops';
      TilesConcat(x, ops[1..], ops', ops[0].fromEnd, ops[0].toEnd, iMid, jMid, iEnd, jEnd);
    }
  }

  /** No operation is empty on both sides. */
  ghost predicate Proper(ops: seq<Operation>) {
    ops == [] || ((ops[0].fromBegin < ops[0].fromEnd || ops[0].toBegin < ops[0].toEnd) && Proper(ops[1..]))
  }

  lemma TilesCons<T>(x: Input<T>, op: Operation, rest: seq<Operation>, iEnd: nat, jEnd: nat)
    requires ValidOperation(x, op) && (op.fromBegin < op.fromEnd || op.toBegin < op.toEnd)
    requires Tiles(x, rest, op.fromEnd, op.toEnd, iEnd, jEnd) && Proper(rest)
    ensures Tiles(x, [op] + rest, op.fromBegin, op.toBegin, iEnd, jEnd) && Proper([op] + rest)
  {
    assert ([op] + rest)[1..] == rest;
  }

  lemma OneBlockTiles<T>(x: Input<T>, m: Match, rest: seq<Operation>, i: nat, j: nat)
    requires i <= m.from && j <= m.to && m.from + m.size <= |x.from| && m.to + m.size <= |x.to|
    requires Same(x, m.from, m.to, m.size)
    requires Tiles(x, rest, m.from + m.size, m.to + m.size, |x.from|, |x.to|) && Proper(rest)
    ensures Tiles(x, GapBefore(m, i, j) + BlockOperation(m) + rest, i, j, |x.from|, |x.to|)
    ensures Proper(GapBefore(m, i, j) + BlockOperation(m) + rest)
  {
    var gap, block := GapBefore(m, i, j), BlockOperation(m);
    assert gap + block + rest == gap + (block + rest);
    if m.size > 0 { TilesCons(x, block[0], rest, |x.from|, |x.to|); }
    assert m.size == 0 ==> block + rest == rest;
    assert Tiles(x, block + rest, m.from, m.to, |x.from|, |x.to|) && Proper(block + rest);
    if gap != [] {
      TilesCons(x, gap[0], block + rest, |x.from|, |x.to|);
    } else {
      assert gap + (block + rest) == block + rest;
    }
  }

  lemma {:induction false} OperationsFromTile<T>(x: Input<T>, blocks: seq<Match>, i: nat, j: nat)
    requires Chain(x, blocks, i, j, |x.from|, |x.to|)
    ensures Tiles(x, OperationsFrom(blocks + [Match(|x.from|, |x.to|, 0)], i, j), i, j, |x.from|, |x.to|)
    ensures Proper(OperationsFrom(blocks + [Match(|x.from|, |x.to|, 0)], i, j))
    decreases |blocks|
  {
    hide *;
    var end := Match(|x.from|, |x.to|, 0);
    FirstBlock(blocks, end, i, j);
    if blocks == [] {
      EndFacts(x, end, i, j);
      OneBlockTiles(x, end, [], i, j);
    } else {
      var m := blocks[0];
      ChainHead(x, blocks, i, j);
      OperationsFromTile(x, blocks[1..], m.from + m.size, m.to + m.size);
      OneBlockTiles(x, m, OperationsFrom(blocks[1..] + [end], m.from + m.size, m.to + m.size), i, j);
    }
  }

  lemma FirstBlock(blocks: seq<Match>, end: Match, i: nat, j: nat)
    ensures blocks == [] ==>
              OperationsFrom(blocks + [end], i, j) == GapBefore(end, i, j) + BlockOperation(end) + []
    ensures blocks != [] ==>
              var m := blocks[0];
              OperationsFrom(blocks + [end], i, j)
              == GapBefore(m, i, j) + BlockOperation(m)
                 + OperationsFrom(blocks[1..] + [end], m.from + m.size, m.to + m.size)
  {
    hide GapBefore, BlockOperation;
    var all := blocks + [end];
    assert blocks == [] ==> all[1..] == [];
    assert blocks != [] ==> all[1..] == blocks[1..] + [end] && all[0] == blocks[0];
  }

  lemma EndFacts<T>(x: Input<T>, end: Match, i: nat, j: nat)
    requires Chain(x, [], i, j, |x.from|, |x.to|) && end == Match(|x.from|, |x.to|, 0)
    ensures i <= end.from && j <= end.to && Same(x, end.from, end.to, 0)
    ensures Tiles(x, [], |x.from|, |x.to|, |x.from|, |x.to|) && Proper([])
  {
  }

  lemma ChainHead<T>(x: Input<T>, blocks: seq<Match>, i: nat, j: nat)
    requires blocks != [] && Chain(x, blocks, i, j, |x.from|, |x.to|)
    ensures var m := blocks[0];
            && i <= m.from && j <= m.to && m.from + m.size <= |x.from| && m.to + m.size <= |x.to|
            && Same(x, m.from, m.to, m.size)
            && Chain(x, blocks[1..], m.from + m.size, m.to + m.size, |x.from|, |x.to|)
  {
    hide Same;
  }

  /**
   For every pair of sequences and every junk filter the edit operations are a valid script:
   contiguous, covering both sequences, non-empty, with equal content where they say so.
   */
  lemma OperationsValid<T>(x: Input<T>)
    ensures ValidScript(x, Operations(x)) && Proper(Operations(x))
  {
    MatchesChain(x, Whole(x));
    BlocksChain(x, Matches(x, Whole(x)), Match(0, 0, 0), 0, 0);
    OperationsFromTile(x, BlocksFrom(Matches(x, Whole(x)), Match(0, 0, 0)), 0, 0);
  }
}
