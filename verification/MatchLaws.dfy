/**
 What the matcher's result means without naming how it is computed: how a match grows over junk,
 which matches are found, and how the operations show them.
 */
module MatchLaws {
  import opened Edits
  import opened MatchSpec
  import opened Unshared

  // ---------------------------------------------------------------- growth over junk

  /** The two elements are equal, and junk or not as asked. */
  ghost predicate EqualCell<T>(x: Input<T>, i: int, j: int, junk: bool) {
    0 <= i < |x.from| && 0 <= j < |x.to| && x.from[i] == x.to[j] && x.junk(x.to[j]) == junk
  }

  /** All elements of the match from begin up to end on its first side are such. */
  ghost predicate EqualCells<T>(x: Input<T>, m: Match, begin: int, end: int, junk: bool) {
    forall i, j :: begin <= i < end && i - m.from == j - m.to ==> EqualCell(x, i, j, junk)
  }

  /**
   The match is the run with equal junk around it: as much as the window has on the left, and on the
   right as much as leaves one element of the window over on both sides.
   */
  ghost predicate GrownFrom<T>(x: Input<T>, w: Window, run: Match, m: Match)
    requires ValidWindow(x, w)
  {
    var end, endTo := m.from + m.size, m.to + m.size;
    && GoodMatch(x, w, m)
    && m.from <= run.from && run.from + run.size <= end && run.from - m.from == run.to - m.to
    && EqualCells(x, m, m.from, run.from, true) && EqualCells(x, m, run.from + run.size, end, true)
    && !(w.fromBegin < m.from && w.toBegin < m.to && EqualCell(x, m.from - 1, m.to - 1, true))
    && (end == run.from + run.size || (end < w.fromEnd && endTo < w.toEnd))
    && !(end + 1 < w.fromEnd && endTo + 1 < w.toEnd && EqualCell(x, end, endTo, true))
  }

  /** There is only one such match. */
  lemma GrownUnique<T>(x: Input<T>, w: Window, run: Match, m: Match, m': Match)
    requires ValidWindow(x, w) && GrownFrom(x, w, run, m) && GrownFrom(x, w, run, m')
    ensures m == m'
  {
    hide *;
    StartsNoEarlier(x, w, run, m, m');
    StartsNoEarlier(x, w, run, m', m);
    OnDiagonal(x, w, run, m);
    OnDiagonal(x, w, run, m');
    EndsNoEarlier(x, w, run, m, m');
    EndsNoEarlier(x, w, run, m', m);
  }

  lemma OnDiagonal<T>(x: Input<T>, w: Window, run: Match, m: Match)
    requires ValidWindow(x, w) && GrownFrom(x, w, run, m)
    ensures run.from - m.from == run.to - m.to
  {
  }

  lemma CellOf<T>(x: Input<T>, m: Match, begin: int, end: int, junk: bool, i: int)
    requires EqualCells(x, m, begin, end, junk) && begin <= i < end
    ensures EqualCell(x, i, i - m.from + m.to, junk)
  {
  }

  lemma StartsNoEarlier<T>(x: Input<T>, w: Window, run: Match, m: Match, m': Match)
    requires ValidWindow(x, w) && GrownFrom(x, w, run, m) && GrownFrom(x, w, run, m')
    ensures m'.from <= m.from
  {
    hide Same, EqualCells, EqualCell;
    if m.from < m'.from {
      CellOf(x, m, m.from, run.from, true, m'.from - 1);
      assert false;
    }
  }

  lemma EndsNoEarlier<T>(x: Input<T>, w: Window, run: Match, m: Match, m': Match)
    requires ValidWindow(x, w) && GrownFrom(x, w, run, m) && GrownFrom(x, w, run, m')
    requires m.from == m'.from && m.to == m'.to
    ensures m.size <= m'.size
  {
    hide Same, EqualCells, EqualCell;
    if m.size > m'.size {
      CellOf(x, m, run.from + run.size, m.from + m.size, true, m.from + m'.size);
      assert false;
    }
  }

  lemma {:induction false} LeftGrows<T>(x: Input<T>, w: Window, shouldJunk: bool, m: Match)
    requires ValidWindow(x, w) && GoodMatch(x, w, m)
    ensures var r := ExtendLeft(x, w, shouldJunk, m);
            && r.from <= m.from && m.from - r.from == m.to - r.to == r.size - m.size
            && EqualCells(x, m, r.from, m.from, shouldJunk)
            && !(w.fromBegin < r.from && w.toBegin < r.to && EqualCell(x, r.from - 1, r.to - 1, shouldJunk))
    decreases m.from
  {
    hide *;
    LeftUnfold(x, w, shouldJunk, m);
    NoCells(x, m, m.from, shouldJunk);
    if w.fromBegin < m.from && w.toBegin < m.to && EqualCell(x, m.from - 1, m.to - 1, shouldJunk) {
      var n := Match(m.from - 1, m.to - 1, m.size + 1);
      LeftGrows(x, w, shouldJunk, n);
      MoreCells(x, n, m, ExtendLeft(x, w, shouldJunk, n).from, m.from - 1, m.from, shouldJunk);
    }
  }

  lemma LeftUnfold<T>(x: Input<T>, w: Window, shouldJunk: bool, m: Match)
    requires ValidWindow(x, w) && GoodMatch(x, w, m)
    ensures if w.fromBegin < m.from && w.toBegin < m.to && EqualCell(x, m.from - 1, m.to - 1, shouldJunk) then
              var n := Match(m.from - 1, m.to - 1, m.size + 1);
              GoodMatch(x, w, n) && ExtendLeft(x, w, shouldJunk, m) == ExtendLeft(x, w, shouldJunk, n)
            else ExtendLeft(x, w, shouldJunk, m) == m
  {
    if w.fromBegin < m.from && w.toBegin < m.to && EqualCell(x, m.from - 1, m.to - 1, shouldJunk) {
      SameBefore(x, m);
    }
    hide Same;
  }

  lemma RightUnfold<T>(x: Input<T>, w: Window, shouldJunk: bool, m: Match)
    requires ValidWindow(x, w) && GoodMatch(x, w, m)
    ensures m.from + m.size <= w.fromEnd && m.to + m.size <= w.toEnd
    ensures var end, endTo := m.from + m.size, m.to + m.size;
            if end + 1 < w.fromEnd && endTo + 1 < w.toEnd && EqualCell(x, end, endTo, shouldJunk) then
              var n := m.(size := m.size + 1);
              GoodMatch(x, w, n) && ExtendRight(x, w, shouldJunk, m) == ExtendRight(x, w, shouldJunk, n)
            else ExtendRight(x, w, shouldJunk, m) == m
  {
    var end, endTo := m.from + m.size, m.to + m.size;
    if end + 1 < w.fromEnd && endTo + 1 < w.toEnd && EqualCell(x, end, endTo, shouldJunk) {
      SameAfter(x, m);
    }
    hide Same;
  }

  lemma NoCells<T>(x: Input<T>, m: Match, i: int, junk: bool)
    ensures EqualCells(x, m, i, i, junk)
  {
  }

  /** Two stretches of one diagonal that follow each other, the second a single element. */
  lemma MoreCells<T>(x: Input<T>, m: Match, m': Match, begin: int, i: int, end: int, junk: bool)
    requires m.from - m.to == m'.from - m'.to && begin <= i && end == i + 1
    requires EqualCells(x, m, begin, i, junk) && EqualCell(x, i, i - m.from + m.to, junk)
    ensures EqualCells(x, m', begin, end, junk)
  {
    hide EqualCell;
  }

  lemma CellsBefore<T>(x: Input<T>, m: Match, m': Match, i: int, begin: int, end: int, junk: bool)
    requires m.from - m.to == m'.from - m'.to && begin == i + 1
    requires EqualCells(x, m, begin, end, junk) && EqualCell(x, i, i - m.from + m.to, junk)
    ensures EqualCells(x, m', i, end, junk)
  {
    hide EqualCell;
  }

  lemma SameBefore<T>(x: Input<T>, m: Match)
    requires 0 < m.from && 0 < m.to && m.from + m.size <= |x.from| && m.to + m.size <= |x.to|
    requires Same(x, m.from, m.to, m.size) && x.from[m.from - 1] == x.to[m.to - 1]
    ensures Same(x, m.from - 1, m.to - 1, m.size + 1)
  {
    assert Same(x, m.from - 1, m.to - 1, 1);
    SameConcat(x, m.from - 1, m.to - 1, 1, m.size);
  }

  lemma SameAfter<T>(x: Input<T>, m: Match)
    requires m.from + m.size < |x.from| && m.to + m.size < |x.to|
    requires Same(x, m.from, m.to, m.size) && x.from[m.from + m.size] == x.to[m.to + m.size]
    ensures Same(x, m.from, m.to, m.size + 1)
  {
  }

  lemma {:induction false} RightGrows<T>(x: Input<T>, w: Window, shouldJunk: bool, m: Match)
    requires ValidWindow(x, w) && GoodMatch(x, w, m)
    ensures var r := ExtendRight(x, w, shouldJunk, m);
            var end, endTo := r.from + r.size, r.to + r.size;
            && r.from == m.from && r.to == m.to && r.size >= m.size
            && EqualCells(x, m, m.from + m.size, end, shouldJunk)
            && (r == m || (end < w.fromEnd && endTo < w.toEnd))
            && !(end + 1 < w.fromEnd && endTo + 1 < w.toEnd && EqualCell(x, end, endTo, shouldJunk))
    decreases w.fromEnd - m.size
  {
    hide *;
    RightUnfold(x, w, shouldJunk, m);
    var end, endTo := m.from + m.size, m.to + m.size;
    NoCells(x, m, end, shouldJunk);
    if end + 1 < w.fromEnd && endTo + 1 < w.toEnd && EqualCell(x, end, endTo, shouldJunk) {
      var n := m.(size := m.size + 1);
      RightGrows(x, w, shouldJunk, n);
      var r := ExtendRight(x, w, shouldJunk, n);
      CellsBefore(x, n, m, end, end + 1, r.from + r.size, shouldJunk);
    }
  }

  /** The elements of a counted run are no junk. */
  lemma {:induction false} RunIsClean<T>(x: Input<T>, w: Window, i: nat, j: nat)
    requires ValidWindow(x, w) && InWindow(w, i, j)
    ensures var n := RunLength(x, w, i, j);
            n <= j + 1 && forall k :: j + 1 - n <= k <= j ==> !x.junk(x.to[k])
    decreases i
  {
    if x.from[i] == x.to[j] && !x.junk(x.to[j]) && i > w.fromBegin && j > w.toBegin {
      RunIsClean(x, w, i - 1, j - 1);
    }
  }

  /** The first longest run cannot be prolonged by an element that is no junk. */
  lemma BestAlone<T>(x: Input<T>, w: Window)
    requires ValidWindow(x, w)
    ensures var b := BestMatch(x, w);
            && GoodMatch(x, w, b)
            && !(w.fromBegin < b.from && w.toBegin < b.to && EqualCell(x, b.from - 1, b.to - 1, false))
            && !(b.from + b.size < w.fromEnd && b.to + b.size < w.toEnd
                 && EqualCell(x, b.from + b.size, b.to + b.size, false))
  {
    BestMatchIsFirstLongest(x, w);
    var b := BestMatch(x, w);
    BestIsClean(x, w, b);
    hide BestMatch, FirstLongest, RunLength, CleanRun;
    if w.fromBegin < b.from && w.toBegin < b.to && EqualCell(x, b.from - 1, b.to - 1, false) {
      CleanBefore(x, w, b);
      assert false;
    }
    if && b.from + b.size < w.fromEnd && b.to + b.size < w.toEnd
       && EqualCell(x, b.from + b.size, b.to + b.size, false)
    {
      CleanAfter(x, w, b);
      assert false;
    }
  }

  lemma CleanBefore<T>(x: Input<T>, w: Window, b: Match)
    requires ValidWindow(x, w) && GoodMatch(x, w, b) && JunkFree(x, b.to, b.size)
    requires w.fromBegin < b.from && w.toBegin < b.to && EqualCell(x, b.from - 1, b.to - 1, false)
    ensures CleanRun(x, w, b.from - 1, b.to - 1, b.size + 1)
  {
    SameBefore(x, b);
    hide Same;
  }

  lemma CleanAfter<T>(x: Input<T>, w: Window, b: Match)
    requires ValidWindow(x, w) && GoodMatch(x, w, b) && JunkFree(x, b.to, b.size)
    requires b.from + b.size < w.fromEnd && b.to + b.size < w.toEnd
    requires EqualCell(x, b.from + b.size, b.to + b.size, false)
    ensures CleanRun(x, w, b.from, b.to, b.size + 1)
  {
    SameAfter(x, b);
    hide Same;
  }

  lemma BestIsClean<T>(x: Input<T>, w: Window, b: Match)
    requires ValidWindow(x, w) && FirstLongest(x, w, b, w.fromEnd, w.toBegin)
    ensures GoodMatch(x, w, b) && JunkFree(x, b.to, b.size)
  {
    if b.size > 0 {
      RunIsClean(x, w, b.from + b.size - 1, b.to + b.size - 1);
    }
  }

  /** The longest match of a window is its first longest run, grown over junk. */
  lemma LongestIsGrown<T>(x: Input<T>, w: Window)
    requires ValidWindow(x, w)
    ensures GrownFrom(x, w, BestMatch(x, w), LongestMatch(x, w))
  {
    hide *;
    BestAlone(x, w);
    var b := BestMatch(x, w);
    LongestIs(x, w, b);
    if HasJunk(x) {
      NothingClean(x, w, b);
      LeftGrows(x, w, true, b);
      var l := ExtendLeft(x, w, true, b);
      RightGrows(x, w, true, l);
      GrownBothWays(x, w, b, l, ExtendRight(x, w, true, l));
    } else {
      NotGrown(x, w, b);
    }
  }

  lemma LongestIs<T>(x: Input<T>, w: Window, b: Match)
    requires ValidWindow(x, w) && b == BestMatch(x, w) && GoodMatch(x, w, b)
    ensures LongestMatch(x, w) == if HasJunk(x) then Adjust(x, w, true, Adjust(x, w, false, b)) else b
    ensures Adjust(x, w, true, b) == ExtendRight(x, w, true, ExtendLeft(x, w, true, b))
  {
    hide BestMatch, ExtendLeft, ExtendRight, GoodMatch, HasJunk;
  }

  lemma NotGrown<T>(x: Input<T>, w: Window, b: Match)
    requires ValidWindow(x, w) && GoodMatch(x, w, b) && !HasJunk(x)
    ensures GrownFrom(x, w, b, b)
  {
    hide Same;
    assert forall i, j :: !EqualCell(x, i, j, true);
  }

  /** Growing over elements that are no junk adds nothing to a run that cannot be prolonged by one. */
  lemma NothingClean<T>(x: Input<T>, w: Window, b: Match)
    requires ValidWindow(x, w) && GoodMatch(x, w, b)
    requires !(w.fromBegin < b.from && w.toBegin < b.to && EqualCell(x, b.from - 1, b.to - 1, false))
    requires !(b.from + b.size < w.fromEnd && b.to + b.size < w.toEnd
               && EqualCell(x, b.from + b.size, b.to + b.size, false))
    ensures Adjust(x, w, false, b) == b
  {
    hide Same;
  }

  lemma GrownBothWays<T>(x: Input<T>, w: Window, b: Match, l: Match, r: Match)
    requires ValidWindow(x, w) && GoodMatch(x, w, r)
    requires l.from <= b.from && b.from - l.from == b.to - l.to == l.size - b.size
    requires EqualCells(x, b, l.from, b.from, true)
    requires !(w.fromBegin < l.from && w.toBegin < l.to && EqualCell(x, l.from - 1, l.to - 1, true))
    requires var end, endTo := r.from + r.size, r.to + r.size;
             && r.from == l.from && r.to == l.to && r.size >= l.size
             && EqualCells(x, l, l.from + l.size, end, true)
             && (r == l || (end < w.fromEnd && endTo < w.toEnd))
             && !(end + 1 < w.fromEnd && endTo + 1 < w.toEnd && EqualCell(x, end, endTo, true))
    ensures GrownFrom(x, w, b, r)
  {
    hide Same, GoodMatch, EqualCell;
  }

  /** So the longest match is exactly what grows from a first longest run. */
  lemma LongestMatchIff<T>(x: Input<T>, w: Window, m: Match)
    requires ValidWindow(x, w)
    ensures m == LongestMatch(x, w) <==> GrownFrom(x, w, BestMatch(x, w), m)
  {
    LongestIsGrown(x, w);
    hide BestMatch, LongestMatch, GrownFrom;
    if GrownFrom(x, w, BestMatch(x, w), m) {
      GrownUnique(x, w, BestMatch(x, w), m, LongestMatch(x, w));
    }
  }

  // ---------------------------------------------------------------- which matches are found

  /** The search that starts with the window w comes to the window v. */
  ghost predicate Visits<T>(x: Input<T>, w: Window, v: Window)
    requires ValidWindow(x, w)
    ensures Visits(x, w, v) ==> ValidWindow(x, v)
    decreases w.fromEnd - w.fromBegin
  {
    var m := LongestMatch(x, w);
    || v == w
    || (m.size > 0 && ((Open(LeftOf(w, m)) && Visits(x, LeftOf(w, m), v))
                       || (Open(RightOf(w, m)) && Visits(x, RightOf(w, m), v))))
  }

  /** The match is the longest of a window the search comes to. */
  ghost predicate FoundIn<T>(x: Input<T>, w: Window, v: Window, m: Match)
    requires ValidWindow(x, w)
  {
    Visits(x, w, v) && m == LongestMatch(x, v) && m.size > 0
  }

  /** The matches are exactly the longest ones of the windows the search comes to. */
  lemma {:induction false} MatchesIff<T>(x: Input<T>, w: Window, m: Match)
    requires ValidWindow(x, w)
    ensures m in Matches(x, w) <==> exists v :: FoundIn(x, w, v, m)
    decreases w.fromEnd - w.fromBegin
  {
    hide LongestMatch, FoundIn, Visits;
    var longest := LongestMatch(x, w);
    FoundUnfold(x, w, m);
    if longest.size > 0 {
      if Open(LeftOf(w, longest)) { MatchesIff(x, LeftOf(w, longest), m); }
      if Open(RightOf(w, longest)) { MatchesIff(x, RightOf(w, longest), m); }
    }
  }

  lemma VisitsUnfold<T>(x: Input<T>, w: Window, v: Window)
    requires ValidWindow(x, w)
    ensures var m := LongestMatch(x, w);
            Visits(x, w, v) <==>
            || v == w
            || (m.size > 0 && ((Open(LeftOf(w, m)) && Visits(x, LeftOf(w, m), v))
                               || (Open(RightOf(w, m)) && Visits(x, RightOf(w, m), v))))
  {
    hide LongestMatch;
  }

  lemma FoundUnfold<T>(x: Input<T>, w: Window, m: Match)
    requires ValidWindow(x, w)
    ensures var longest := LongestMatch(x, w);
            (exists v :: FoundIn(x, w, v, m)) <==>
            longest.size > 0
            && (|| m == longest
                || (Open(LeftOf(w, longest)) && exists v :: FoundIn(x, LeftOf(w, longest), v, m))
                || (Open(RightOf(w, longest)) && exists v :: FoundIn(x, RightOf(w, longest), v, m)))
  {
    hide LongestMatch, Visits;
    var longest := LongestMatch(x, w);
    if v :| FoundIn(x, w, v, m) {
      VisitsUnfold(x, w, v);
      if v != w {
        assert (Open(LeftOf(w, longest)) && FoundIn(x, LeftOf(w, longest), v, m))
               || (Open(RightOf(w, longest)) && FoundIn(x, RightOf(w, longest), v, m));
      }
    }
    VisitsUnfold(x, w, w);
    assert m == longest && m.size > 0 ==> FoundIn(x, w, w, m);
    if longest.size > 0 {
      if Open(LeftOf(w, longest)) {
        if v :| FoundIn(x, LeftOf(w, longest), v, m) {
          VisitsUnfold(x, w, v);
          assert FoundIn(x, w, v, m);
        }
      }
      if Open(RightOf(w, longest)) {
        if v :| FoundIn(x, RightOf(w, longest), v, m) {
          VisitsUnfold(x, w, v);
          assert FoundIn(x, w, v, m);
        }
      }
    }
  }

  // ---------------------------------------------------------------- how the matches are shown

  /** The match lies in the common range, element by element. */
  ghost predicate Shows(op: Operation, m: Match) {
    && op.kind == Equal && op.fromBegin <= m.from && m.from + m.size <= op.fromEnd
    && m.from - op.fromBegin == m.to - op.toBegin
  }

  ghost predicate InBlock(b: Match, m: Match) {
    b.from <= m.from && m.from + m.size <= b.from + b.size && m.from - b.from == m.to - b.to
  }

  /** Merging keeps every match inside some block. */
  lemma {:induction false} BlockHolds(ms: seq<Match>, c: Match, m: Match)
    requires m.size > 0 && (m in ms || InBlock(c, m))
    ensures exists b :: b in BlocksFrom(ms, c) && InBlock(b, m)
    decreases |ms|
  {
    hide BlocksFrom;
    BlocksUnfold(ms, c);
    if ms == [] {
      assert c in [c];
    } else if c.from + c.size == ms[0].from && c.to + c.size == ms[0].to {
      BlockHolds(ms[1..], c.(size := c.size + ms[0].size), m);
    } else if InBlock(c, m) {
      assert c in [c] + BlocksFrom(ms[1..], ms[0]);
    } else {
      BlockHolds(ms[1..], ms[0], m);
    }
  }

  /** Every block is shown as one common range. */
  lemma {:induction false} BlockShown(blocks: seq<Match>, end: Match, i: nat, j: nat, b: Match)
    requires b in blocks && b.size > 0
    ensures Operation(Equal, b.from, b.from + b.size, b.to, b.to + b.size) in OperationsFrom(blocks + [end], i, j)
    decreases |blocks|
  {
    hide OperationsFrom;
    FirstBlock(blocks, end, i, j);
    var m := blocks[0];
    if b != m {
      BlockShown(blocks[1..], end, m.from + m.size, m.to + m.size, b);
    }
  }

  /**
   Whatever the search finds is shown as common: the longest match of every window it comes to lies
   in one common range of the edit script.
   */
  lemma FoundIsShown<T>(x: Input<T>, v: Window, m: Match)
    requires FoundIn(x, Whole(x), v, m)
    ensures exists op :: op in Operations(x) && Shows(op, m)
  {
    var ms, none := Matches(x, Whole(x)), Match(0, 0, 0);
    MatchesIff(x, Whole(x), m);
    assert m.size > 0;
    hide FoundIn, Matches, BlocksFrom, OperationsFrom;
    BlockHolds(ms, none, m);
    var b :| b in BlocksFrom(ms, none) && InBlock(b, m);
    BlockShown(BlocksFrom(ms, none), Match(|x.from|, |x.to|, 0), 0, 0, b);
    assert Shows(Operation(Equal, b.from, b.from + b.size, b.to, b.to + b.size), m);
  }

  // ---------------------------------------------------------------- common and changed ranges alternate

  ghost predicate Adjacent(b: Match, c: Match) {
    b.from + b.size == c.from && b.to + b.size == c.to
  }

  /** No two blocks that follow each other touch on both sides. */
  ghost predicate Separated(bs: seq<Match>) {
    |bs| > 1 ==> !Adjacent(bs[0], bs[1]) && Separated(bs[1..])
  }

  lemma {:induction false} BlocksSeparated(ms: seq<Match>, c: Match)
    requires forall m :: m in ms ==> m.size > 0
    ensures var bs := BlocksFrom(ms, c);
            && Separated(bs) && (forall b :: b in bs ==> b.size > 0)
            && (c.size > 0 ==> bs != [] && bs[0].from == c.from && bs[0].to == c.to)
    decreases |ms|
  {
    hide BlocksFrom;
    BlocksUnfold(ms, c);
    if ms != [] {
      var m, rest := ms[0], ms[1..];
      assert m in ms && forall n :: n in rest ==> n in ms;
      if Adjacent(c, m) {
        BlocksSeparated(rest, c.(size := c.size + m.size));
      } else {
        BlocksSeparated(rest, m);
        hide Separated;
        SeparatedCons(c, BlocksFrom(rest, m));
        assert [] + BlocksFrom(rest, m) == BlocksFrom(rest, m);
      }
    }
  }

  lemma SeparatedCons(c: Match, bs: seq<Match>)
    requires Separated(bs) && bs != [] && !Adjacent(c, bs[0])
    ensures Separated([c] + bs)
  {
    assert ([c] + bs)[1..] == bs;
  }

  /** Of two neighbouring operations exactly one is a common range. */
  ghost predicate Alternates(ops: seq<Operation>) {
    |ops| > 1 ==> ((ops[0].kind == Equal) != (ops[1].kind == Equal)) && Alternates(ops[1..])
  }

  lemma AlternatesCons(op: Operation, ops: seq<Operation>)
    requires Alternates(ops) && (ops != [] ==> (op.kind == Equal) != (ops[0].kind == Equal))
    ensures Alternates([op] + ops)
  {
    assert ([op] + ops)[1..] == ops;
  }

  lemma {:induction false} OperationsFromAlternate(bs: seq<Match>, end: Match, i: nat, j: nat)
    requires Separated(bs) && end.size == 0 && forall b :: b in bs ==> b.size > 0
    requires bs != [] ==> bs[0].from >= i && bs[0].to >= j
    requires InOrder(bs)
    ensures var ops := OperationsFrom(bs + [end], i, j);
            && Alternates(ops)
            && (ops != [] && ops[0].kind == Equal ==> bs != [] && bs[0].from == i && bs[0].to == j)
    decreases |bs|
  {
    hide OperationsFrom;
    FirstBlock(bs, end, i, j);
    if bs != [] {
      var b, more := bs[0], bs[1..];
      assert b in bs && forall c :: c in more ==> c in bs;
      OperationsFromAlternate(more, end, b.from + b.size, b.to + b.size);
      var rest := OperationsFrom(more + [end], b.from + b.size, b.to + b.size);
      var common := Operation(Equal, b.from, b.from + b.size, b.to, b.to + b.size);
      hide Alternates;
      AlternatesCons(common, rest);
      if GapBefore(b, i, j) == [] {
        assert [] + [common] + rest == [common] + rest;
      } else {
        AlternatesCons(GapBefore(b, i, j)[0], [common] + rest);
        assert GapBefore(b, i, j) + [common] + rest == [GapBefore(b, i, j)[0]] + ([common] + rest);
      }
    }
  }

  /** Each block begins where the one before it ends, or behind that. */
  ghost predicate InOrder(bs: seq<Match>) {
    |bs| > 1 ==>
      && bs[0].from + bs[0].size <= bs[1].from && bs[0].to + bs[0].size <= bs[1].to && InOrder(bs[1..])
  }

  lemma {:induction false} ChainInOrder<T>(x: Input<T>, bs: seq<Match>, i: nat, j: nat, iEnd: nat, jEnd: nat)
    requires Chain(x, bs, i, j, iEnd, jEnd)
    ensures InOrder(bs) && (bs != [] ==> i <= bs[0].from && j <= bs[0].to)
  {
    hide Same;
    if bs != [] {
      ChainInOrder(x, bs[1..], bs[0].from + bs[0].size, bs[0].to + bs[0].size, iEnd, jEnd);
    }
  }

  /** In every edit script common and changed ranges alternate: neither is ever cut in two. */
  lemma OperationsAlternate<T>(x: Input<T>)
    ensures Alternates(Operations(x))
  {
    var w := Whole(x);
    var ms, none := Matches(x, w), Match(0, 0, 0);
    MatchesChain(x, w);
    MatchesNonEmpty(x, w);
    BlocksChain(x, ms, none, 0, 0);
    hide Matches, BlocksFrom, Chain, OperationsFrom, Alternates, Separated, InOrder;
    BlocksSeparated(ms, none);
    ChainInOrder(x, BlocksFrom(ms, none), 0, 0, |x.from|, |x.to|);
    OperationsFromAlternate(BlocksFrom(ms, none), Match(|x.from|, |x.to|, 0), 0, 0);
  }
}
