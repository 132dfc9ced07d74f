/**
 What the matcher leaves between its matches: the two sides of a REPLACE have nothing but junk
 in common, and a sequence of junk alone is never matched to its end.
 */
module Unshared {
  import opened Edits
  import opened MatchSpec
  import opened GroupSpec

  /** What the two ranges have in common is junk. */
  ghost predicate OnlyJunkShared<T>(x: Input<T>, i: nat, iEnd: nat, j: nat, jEnd: nat) {
    forall a, b :: i <= a < iEnd <= |x.from| && j <= b < jEnd <= |x.to| && x.from[a] == x.to[b] ==> x.junk(x.to[b])
  }

  /** The ranges before, between and after the matches share only junk. */
  ghost predicate GapsUnshared<T>(x: Input<T>, ms: seq<Match>, i: nat, j: nat, iEnd: nat, jEnd: nat) {
    if ms == [] then OnlyJunkShared(x, i, iEnd, j, jEnd)
    else
      && OnlyJunkShared(x, i, ms[0].from, j, ms[0].to)
      && GapsUnshared(x, ms[1..], ms[0].from + ms[0].size, ms[0].to + ms[0].size, iEnd, jEnd)
  }

  // ---------------------------------------------------------------- matches

  /** A common element that is no junk is a run, so a window without a match has none. */
  lemma NoMatchUnshared<T>(x: Input<T>, w: Window)
    requires ValidWindow(x, w) && LongestMatch(x, w).size == 0
    ensures OnlyJunkShared(x, w.fromBegin, w.fromEnd, w.toBegin, w.toEnd)
  {
    BestMatchIsFirstLongest(x, w);
    forall a, b | w.fromBegin <= a < w.fromEnd && w.toBegin <= b < w.toEnd && x.from[a] == x.to[b]
      ensures x.junk(x.to[b])
    {
      OneElementRun(x, w, a, b);
    }
  }

  lemma OneElementRun<T>(x: Input<T>, w: Window, a: nat, b: nat)
    requires ValidWindow(x, w) && InWindow(w, a, b) && x.from[a] == x.to[b]
    ensures x.junk(x.to[b]) || CleanRun(x, w, a, b, 1)
  {
    assert Same(x, a, b, 0);
  }

  lemma {:induction false} GapsAround<T>(x: Input<T>, l: seq<Match>, m: Match, r: seq<Match>,
                                         i: nat, j: nat, iEnd: nat, jEnd: nat)
    requires GapsUnshared(x, l, i, j, m.from, m.to)
    requires GapsUnshared(x, r, m.from + m.size, m.to + m.size, iEnd, jEnd)
    ensures GapsUnshared(x, l + [m] + r, i, j, iEnd, jEnd)
  {
    hide OnlyJunkShared;
    var all := l + [m] + r;
    if l == [] {
      assert all[0] == m && all[1..] == r;
    } else {
      assert all[0] == l[0] && all[1..] == l[1..] + [m] + r;
      GapsAround(x, l[1..], m, r, l[0].from + l[0].size, l[0].to + l[0].size, iEnd, jEnd);
    }
  }

  /** The ranges between the matches of a window share only junk. */
  lemma {:induction false} MatchesUnshared<T>(x: Input<T>, w: Window)
    requires ValidWindow(x, w)
    ensures GapsUnshared(x, Matches(x, w), w.fromBegin, w.toBegin, w.fromEnd, w.toEnd)
    decreases w.fromEnd - w.fromBegin, 0
  {
    hide *;
    MatchesParted(x, w);
    var m := LongestMatch(x, w);
    if m.size == 0 {
      NoMatchUnshared(x, w);
      NoGaps(x, w);
    } else {
      PartUnshared(x, LeftOf(w, m));
      PartUnshared(x, RightOf(w, m));
      GapsAround(x, PartMatches(x, LeftOf(w, m)), m, PartMatches(x, RightOf(w, m)),
                 w.fromBegin, w.toBegin, w.fromEnd, w.toEnd);
    }
  }

  /** The matches of a window either side of which may be empty. */
  ghost function PartMatches<T>(x: Input<T>, w: Window): seq<Match>
    requires ValidWindow(x, w)
  {
    if Open(w) then Matches(x, w) else []
  }

  lemma PartUnshared<T>(x: Input<T>, w: Window)
    requires ValidWindow(x, w)
    ensures GapsUnshared(x, PartMatches(x, w), w.fromBegin, w.toBegin, w.fromEnd, w.toEnd)
    decreases w.fromEnd - w.fromBegin, 1
  {
    hide GapsUnshared, Matches;
    if Open(w) { MatchesUnshared(x, w); } else { NoGaps(x, w); }
  }

  lemma MatchesParted<T>(x: Input<T>, w: Window)
    requires ValidWindow(x, w)
    ensures var m := LongestMatch(x, w);
            && w.fromBegin <= w.fromEnd && ValidWindow(x, LeftOf(w, m)) && ValidWindow(x, RightOf(w, m))
            && LeftOf(w, m) == Window(w.fromBegin, m.from, w.toBegin, m.to)
            && RightOf(w, m) == Window(m.from + m.size, w.fromEnd, m.to + m.size, w.toEnd)
            && (m.size > 0 ==> m.from < w.fromEnd && m.from + m.size > w.fromBegin)
            && Matches(x, w) == if m.size == 0 then []
                                else PartMatches(x, LeftOf(w, m)) + [m] + PartMatches(x, RightOf(w, m))
  {
    hide LongestMatch, Same;
  }

  lemma NoGaps<T>(x: Input<T>, w: Window)
    requires !Open(w) || OnlyJunkShared(x, w.fromBegin, w.fromEnd, w.toBegin, w.toEnd)
    ensures GapsUnshared(x, [], w.fromBegin, w.toBegin, w.fromEnd, w.toEnd)
  {
  }

  // ---------------------------------------------------------------- blocks and operations

  /** Merging adjacent matches changes none of the ranges between them. */
  lemma {:induction false} BlocksUnshared<T>(x: Input<T>, ms: seq<Match>, c: Match, i: nat, j: nat)
    requires OnlyJunkShared(x, i, c.from, j, c.to)
    requires c.size == 0 ==> i == c.from && j == c.to
    requires GapsUnshared(x, ms, c.from + c.size, c.to + c.size, |x.from|, |x.to|)
    requires forall m :: m in ms ==> m.size > 0
    ensures GapsUnshared(x, BlocksFrom(ms, c), i, j, |x.from|, |x.to|)
    decreases |ms|
  {
    hide OnlyJunkShared, BlocksFrom;
    BlocksUnfold(ms, c);
    var last := if c.size > 0 then [c] else [];
    if ms == [] {
      assert last == [] || last[1..] == [];
    } else {
      var m, rest := ms[0], ms[1..];
      assert m in ms && forall n :: n in rest ==> n in ms;
      if c.from + c.size == m.from && c.to + c.size == m.to {
        BlocksUnshared(x, rest, c.(size := c.size + m.size), i, j);
      } else {
        BlocksUnshared(x, rest, m, c.from + c.size, c.to + c.size);
        hide GapsUnshared;
        GapsCons(x, last, c, BlocksFrom(rest, m), i, j);
      }
    }
  }

  lemma GapsCons<T>(x: Input<T>, last: seq<Match>, c: Match, rest: seq<Match>, i: nat, j: nat)
    requires OnlyJunkShared(x, i, c.from, j, c.to) && last == if c.size > 0 then [c] else []
    requires c.size == 0 ==> i == c.from && j == c.to
    requires GapsUnshared(x, rest, c.from + c.size, c.to + c.size, |x.from|, |x.to|)
    ensures GapsUnshared(x, last + rest, i, j, |x.from|, |x.to|)
  {
    hide OnlyJunkShared;
    if c.size > 0 {
      assert (last + rest)[1..] == rest;
    } else {
      assert last + rest == rest;
    }
  }

  ghost predicate ReplacesUnshared<T>(x: Input<T>, ops: seq<Operation>) {
    forall op :: op in ops && op.kind == Replace ==>
      OnlyJunkShared(x, op.fromBegin, op.fromEnd, op.toBegin, op.toEnd)
  }

  lemma {:induction false} OperationsFromUnshared<T>(x: Input<T>, blocks: seq<Match>, i: nat, j: nat)
    requires GapsUnshared(x, blocks, i, j, |x.from|, |x.to|)
    ensures ReplacesUnshared(x, OperationsFrom(blocks + [Match(|x.from|, |x.to|, 0)], i, j))
    decreases |blocks|
  {
    hide OnlyJunkShared, OperationsFrom;
    var end := Match(|x.from|, |x.to|, 0);
    FirstBlock(blocks, end, i, j);
    if blocks != [] {
      var m := blocks[0];
      OperationsFromUnshared(x, blocks[1..], m.from + m.size, m.to + m.size);
    }
  }

  lemma {:induction false} MatchesNonEmpty<T>(x: Input<T>, w: Window)
    requires ValidWindow(x, w)
    ensures forall m :: m in Matches(x, w) ==> m.size > 0
    decreases w.fromEnd - w.fromBegin
  {
    hide LongestMatch;
    var m := LongestMatch(x, w);
    if m.size > 0 {
      if Open(LeftOf(w, m)) { MatchesNonEmpty(x, LeftOf(w, m)); }
      if Open(RightOf(w, m)) { MatchesNonEmpty(x, RightOf(w, m)); }
    }
  }

  /** Whatever two sequences are compared, what the sides of a REPLACE have in common is junk. */
  lemma ReplacedShareOnlyJunk<T>(x: Input<T>)
    ensures ReplacesUnshared(x, Operations(x))
  {
    hide *;
    var whole := Whole(x);
    NothingBefore(x);
    MatchesUnshared(x, whole);
    MatchesNonEmpty(x, whole);
    BlocksUnshared(x, Matches(x, whole), Match(0, 0, 0), 0, 0);
    OperationsFromUnshared(x, BlocksFrom(Matches(x, whole), Match(0, 0, 0)), 0, 0);
    OperationsAre(x);
  }

  lemma NothingBefore<T>(x: Input<T>)
    ensures OnlyJunkShared(x, 0, 0, 0, 0) && ValidWindow(x, Whole(x)) && Whole(x) == Window(0, |x.from|, 0, |x.to|)
  {
  }

  lemma OperationsAre<T>(x: Input<T>)
    ensures Operations(x)
            == OperationsFrom(BlocksFrom(Matches(x, Whole(x)), Match(0, 0, 0)) + [Match(|x.from|, |x.to|, 0)], 0, 0)
  {
    hide OperationsFrom, BlocksFrom, Matches;
  }

  // ---------------------------------------------------------------- an operation between two equal ranges

  /** A common range that is not empty. */
  predicate Common(op: Operation) {
    op.kind == Equal && op.fromBegin < op.fromEnd
  }

  /** A REPLACE is followed by a common range, if by anything. */
  ghost predicate ReplacesApart(ops: seq<Operation>) {
    forall k :: 0 <= k < |ops| - 1 && ops[k].kind == Replace ==> Common(ops[k + 1])
  }

  lemma {:induction false} OperationsFromApart(blocks: seq<Match>, end: Match, i: nat, j: nat)
    requires end.size == 0 && forall m :: m in blocks ==> m.size > 0
    ensures ReplacesApart(OperationsFrom(blocks + [end], i, j))
    decreases |blocks|
  {
    hide OperationsFrom;
    FirstBlock(blocks, end, i, j);
    if blocks != [] {
      var m, rest := blocks[0], blocks[1..];
      assert m in blocks && forall n :: n in rest ==> n in blocks;
      OperationsFromApart(rest, end, m.from + m.size, m.to + m.size);
      ApartCons(GapBefore(m, i, j), BlockOperation(m), OperationsFrom(rest + [end], m.from + m.size, m.to + m.size));
    }
  }

  lemma ApartCons(gap: seq<Operation>, block: seq<Operation>, rest: seq<Operation>)
    requires |gap| <= 1 && |block| == 1 && Common(block[0]) && ReplacesApart(rest)
    ensures ReplacesApart(gap + block + rest)
  {
    var all, n := gap + block + rest, |gap| + 1;
    forall k | 0 <= k < |all| - 1 && all[k].kind == Replace
      ensures Common(all[k + 1])
    {
      if k >= n {
        assert all[k] == rest[k - n] && all[k + 1] == rest[k - n + 1];
      }
    }
  }

  lemma {:induction false} BlocksNonEmpty(ms: seq<Match>, c: Match)
    requires forall m :: m in ms ==> m.size > 0
    ensures forall m :: m in BlocksFrom(ms, c) ==> m.size > 0
    decreases |ms|
  {
    hide BlocksFrom;
    BlocksUnfold(ms, c);
    if ms != [] {
      assert ms[0] in ms && forall n :: n in ms[1..] ==> n in ms;
      BlocksNonEmpty(ms[1..], c.(size := c.size + ms[0].size));
      BlocksNonEmpty(ms[1..], ms[0]);
    }
  }

  lemma OperationsApart<T>(x: Input<T>)
    ensures ReplacesApart(Operations(x))
  {
    hide *;
    NothingBefore(x);
    MatchesNonEmpty(x, Whole(x));
    BlocksNonEmpty(Matches(x, Whole(x)), Match(0, 0, 0));
    OperationsFromApart(BlocksFrom(Matches(x, Whole(x)), Match(0, 0, 0)), Match(|x.from|, |x.to|, 0), 0, 0);
    OperationsAre(x);
  }

  // ---------------------------------------------------------------- the same in groups

  lemma {:induction false} ChangesHold(ops: seq<Operation>)
    ensures forall op :: op in Changes(ops) <==> op in ops && op.kind != Equal
  {
    if ops != [] {
      ChangesHold(ops[1..]);
    }
  }

  lemma {:induction false} FlattenHolds(groups: seq<seq<Operation>>, g: seq<Operation>)
    requires g in groups
    ensures forall op :: op in g ==> op in Flatten(groups)
  {
    if g != groups[0] {
      FlattenHolds(groups[1..], g);
    }
  }

  lemma {:induction false} TrimLastParts(ops: seq<Operation>, context: nat)
    requires ops != []
    ensures var r, n := TrimLast(ops, context), |ops| - 1;
            && |r| == n + 1 && (forall k :: 0 <= k < n ==> r[k] == ops[k])
            && r[n] == if ops[n].kind == Equal then TrimTail(ops[n], context) else ops[n]
  {
    if |ops| > 1 {
      TrimLastParts(ops[1..], context);
      hide TrimTail;
      assert ops[1..][|ops| - 2] == ops[|ops| - 1];
    }
  }

  lemma TrimLastApart(ops: seq<Operation>, context: nat)
    requires context > 0 && ReplacesApart(ops)
    ensures ReplacesApart(TrimLast(ops, context))
  {
    if ops != [] {
      TrimLastParts(ops, context);
      var r := TrimLast(ops, context);
      hide TrimLast;
      forall k | 0 <= k < |r| - 1 && r[k].kind == Replace
        ensures Common(r[k + 1])
      {
        assert ops[k].kind == Replace;
      }
    }
  }

  lemma EdgesApart(ops: seq<Operation>, context: nat)
    requires context > 0 && ReplacesApart(ops)
    ensures ReplacesApart(EdgeExpanded(ops, context))
  {
    if ops != [] && ops[0].kind == Equal {
      ApartTail(ops);
      TrimLastApart(ops[1..], context);
      hide TrimLast, TrimHead;
      ApartHead(TrimHead(ops[0], context), TrimLast(ops[1..], context));
    } else {
      TrimLastApart(ops, context);
      hide TrimLast;
    }
  }

  lemma ApartTail(ops: seq<Operation>)
    requires ops != [] && ReplacesApart(ops)
    ensures ReplacesApart(ops[1..])
  {
    forall k | 0 <= k < |ops[1..]| - 1 && ops[1..][k].kind == Replace
      ensures Common(ops[1..][k + 1])
    {
      assert ops[k + 1].kind == Replace;
    }
  }

  lemma ApartHead(op: Operation, rest: seq<Operation>)
    requires op.kind != Replace && ReplacesApart(rest)
    ensures ReplacesApart([op] + rest)
  {
    forall k | 0 <= k < |rest| && ([op] + rest)[k].kind == Replace
      ensures Common(([op] + rest)[k + 1])
    {
      assert ([op] + rest)[k] == rest[k - 1];
    }
  }

  /** The beginning of a list of operations, with its last one replaced by a part of it. */
  lemma ApartPrefix(all: seq<Operation>, n: nat, t: Operation)
    requires n < |all| && ReplacesApart(all) && (t == all[n] || Common(t))
    ensures ReplacesApart(all[..n] + [t])
  {
    var g := all[..n] + [t];
    forall k | 0 <= k < |g| - 1 && g[k].kind == Replace
      ensures Common(g[k + 1])
    {
      assert all[k].kind == Replace;
    }
  }

  lemma {:induction false} ApartDrop(all: seq<Operation>, n: nat)
    requires n <= |all| && ReplacesApart(all)
    ensures ReplacesApart(all[n..])
  {
    if n > 0 {
      ApartTail(all);
      ApartDrop(all[1..], n - 1);
      assert all[1..][n - 1..] == all[n..];
    }
  }

  lemma SplitCommon(op: Operation, context: nat)
    requires context > 0 && Splits(op, context)
    ensures Common(TrimTail(op, context)) && TrimHead(op, context).kind == Equal
  {
  }

  lemma {:induction false} GroupFromApart(ops: seq<Operation>, group: seq<Operation>, context: nat)
    requires context > 0 && ReplacesApart(group + ops)
    ensures forall g :: g in GroupFrom(ops, group, context) ==> ReplacesApart(g)
    decreases |ops|
  {
    hide ReplacesApart, Splits, TrimTail, TrimHead;
    if ops == [] {
      assert group + ops == group;
    } else if Splits(ops[0], context) {
      var t, h := TrimTail(ops[0], context), TrimHead(ops[0], context);
      var all, n := group + ops, |group|;
      assert all[..n] == group && all[n] == ops[0] && all[n + 1..] == ops[1..];
      SplitCommon(ops[0], context);
      ApartPrefix(all, n, t);
      ApartDrop(all, n + 1);
      ApartHead(h, ops[1..]);
      GroupFromApart(ops[1..], [h], context);
    } else {
      assert group + [ops[0]] + ops[1..] == group + ops;
      GroupFromApart(ops[1..], group + [ops[0]], context);
    }
  }

  /** In every group of a context diff a REPLACE is as it is in the whole script. */
  lemma GroupReplaces<T>(x: Input<T>, context: nat, g: seq<Operation>)
    requires context > 0 && g in GroupedOperations(x, context)
    ensures ReplacesUnshared(x, g) && ReplacesApart(g)
  {
    var ops, groups := Operations(x), GroupedOperations(x, context);
    GroupsKeepChanges(x, context);
    ChangesHold(ops);
    ChangesHold(Flatten(groups));
    FlattenHolds(groups, g);
    ReplacedShareOnlyJunk(x);
    OperationsApart(x);
    hide Operations, Changes, Flatten, OnlyJunkShared, ReplacesApart;
    EdgesApart(ops, context);
    assert [] + EdgeExpanded(ops, context) == EdgeExpanded(ops, context);
    hide EdgeExpanded, GroupFrom;
    GroupFromApart(EdgeExpanded(ops, context), [], context);
  }

  // ---------------------------------------------------------------- junk alone

  ghost predicate JunkOnly<T>(x: Input<T>) {
    forall a :: 0 <= a < |x.from| ==> x.junk(x.from[a])
  }

  /** No match comes to the end of the window on the side that is all junk. */
  lemma JunkMatchEndsEarly<T>(x: Input<T>, w: Window)
    requires ValidWindow(x, w) && JunkOnly(x) && LongestMatch(x, w).size > 0
    ensures LongestMatch(x, w).from + LongestMatch(x, w).size < w.fromEnd
  {
    BestMatchIsFirstLongest(x, w);
    var best := BestMatch(x, w);
    NoCleanRun(x, w, best);
    hide BestMatch;
    assert HasJunk(x);
    var once := Adjust(x, w, false, best);
    ExtendsFromStart(x, w, false, best);
    ExtendsFromStart(x, w, true, once);
  }

  lemma NoCleanRun<T>(x: Input<T>, w: Window, best: Match)
    requires ValidWindow(x, w) && JunkOnly(x) && FirstLongest(x, w, best, w.fromEnd, w.toBegin)
    ensures best == Match(w.fromBegin, w.toBegin, 0)
  {
  }

  /** A match at the start of its window grows to the right only, and stops before the window's end. */
  lemma ExtendsFromStart<T>(x: Input<T>, w: Window, shouldJunk: bool, m: Match)
    requires ValidWindow(x, w) && GoodMatch(x, w, m) && m.from == w.fromBegin && m.to == w.toBegin
    requires m.size > 0 ==> m.from + m.size < w.fromEnd
    ensures var r := Adjust(x, w, shouldJunk, m);
            r.from == m.from && r.to == m.to && (r.size > 0 ==> r.from + r.size < w.fromEnd)
  {
    assert ExtendLeft(x, w, shouldJunk, m) == m;
    ExtendRightBounded(x, w, shouldJunk, m);
  }

  lemma {:induction false} ExtendRightBounded<T>(x: Input<T>, w: Window, shouldJunk: bool, m: Match)
    requires ValidWindow(x, w) && GoodMatch(x, w, m)
    requires m.size > 0 ==> m.from + m.size < w.fromEnd
    ensures var r := ExtendRight(x, w, shouldJunk, m);
            r.from == m.from && r.to == m.to && (r.size > 0 ==> r.from + r.size < w.fromEnd)
    decreases w.fromEnd - m.size
  {
    hide Same;
    if && m.from + m.size + 1 < w.fromEnd && m.to + m.size + 1 < w.toEnd
       && x.junk(x.to[m.to + m.size]) == shouldJunk
       && x.from[m.from + m.size] == x.to[m.to + m.size]
    {
      var n := m.(size := m.size + 1);
      assert Same(x, m.from, m.to, m.size + 1) by { SameNext(x, m); }
      ExtendRightBounded(x, w, shouldJunk, n);
    }
  }

  lemma SameNext<T>(x: Input<T>, m: Match)
    requires m.from + m.size < |x.from| && m.to + m.size < |x.to| && Same(x, m.from, m.to, m.size)
    requires x.from[m.from + m.size] == x.to[m.to + m.size]
    ensures Same(x, m.from, m.to, m.size + 1)
  {
  }

  ghost predicate EndBefore(ms: seq<Match>, end: nat) {
    forall m :: m in ms && m.size > 0 ==> m.from + m.size < end
  }

  lemma {:induction false} JunkMatchesEndEarly<T>(x: Input<T>, w: Window)
    requires ValidWindow(x, w) && JunkOnly(x)
    ensures EndBefore(Matches(x, w), w.fromEnd)
    decreases w.fromEnd - w.fromBegin
  {
    hide LongestMatch;
    var m := LongestMatch(x, w);
    if m.size > 0 {
      JunkMatchEndsEarly(x, w);
      if Open(LeftOf(w, m)) { JunkMatchesEndEarly(x, LeftOf(w, m)); }
      if Open(RightOf(w, m)) { JunkMatchesEndEarly(x, RightOf(w, m)); }
    }
  }

  lemma {:induction false} BlocksEndEarly(ms: seq<Match>, c: Match, end: nat)
    requires EndBefore(ms, end) && EndBefore([c], end)
    requires forall m :: m in ms ==> m.size > 0
    ensures EndBefore(BlocksFrom(ms, c), end)
    decreases |ms|
  {
    hide BlocksFrom;
    BlocksUnfold(ms, c);
    assert c in [c];
    if ms != [] {
      var m, rest := ms[0], ms[1..];
      assert m in ms && forall n :: n in rest ==> n in ms;
      if c.from + c.size == m.from && c.to + c.size == m.to {
        BlocksEndEarly(rest, c.(size := c.size + m.size), end);
      } else {
        BlocksEndEarly(rest, m, end);
      }
    }
  }

  lemma {:induction false} EqualsEndEarly(blocks: seq<Match>, end: Match, i: nat, j: nat)
    requires EndBefore(blocks, end.from) && end.size == 0
    ensures forall op :: op in OperationsFrom(blocks + [end], i, j) && op.kind == Equal ==> op.fromEnd < end.from
    decreases |blocks|
  {
    hide OperationsFrom;
    FirstBlock(blocks, end, i, j);
    if blocks != [] {
      var m, rest := blocks[0], blocks[1..];
      assert m in blocks && forall n :: n in rest ==> n in blocks;
      EqualsEndEarly(rest, end, m.from + m.size, m.to + m.size);
    }
  }

  /** Where the first sequence is all junk its last element is never shown as common. */
  lemma JunkNeverKeptWhole<T>(x: Input<T>)
    requires JunkOnly(x)
    ensures forall op :: op in Operations(x) && op.kind == Equal ==> op.fromEnd < |x.from|
  {
    hide *;
    NothingBefore(x);
    var ms, none := Matches(x, Whole(x)), Match(0, 0, 0);
    JunkMatchesEndEarly(x, Whole(x));
    MatchesNonEmpty(x, Whole(x));
    NoneEnds(none, |x.from|);
    BlocksEndEarly(ms, none, |x.from|);
    EqualsEndEarly(BlocksFrom(ms, none), Match(|x.from|, |x.to|, 0), 0, 0);
    OperationsAre(x);
  }

  lemma NoneEnds(none: Match, end: nat)
    requires none.size == 0
    ensures EndBefore([none], end)
  {
  }
}
