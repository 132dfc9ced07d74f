/**
 The sequence matcher object: tables built from the second sequence, a scan for the longest
 match of a window, a work queue of windows, and lazily computed results (cut-sequence-matcher.c).
 Lists the source prepends to and then reverses are appended to here.
 */
module SequenceMatcher {
  import opened Seqs
  import opened Edits
  import opened MatchSpec
  import opened Similarity
  import opened GroupSpec
  import opened MatchQueue

  /** The positions of `t` among the first n elements, ascending. */
  ghost function IndicesOf<T>(s: seq<T>, t: T, n: nat): seq<nat>
    requires n <= |s|
  {
    if n == 0 then [] else IndicesOf(s, t, n - 1) + (if s[n - 1] == t then [n - 1] else [])
  }

  lemma {:induction false} IndicesOfComplete<T>(s: seq<T>, t: T, n: nat)
    requires n <= |s|
    ensures forall k :: 0 <= k < |IndicesOf(s, t, n)| ==> IndicesOf(s, t, n)[k] < n && s[IndicesOf(s, t, n)[k]] == t
    ensures forall a, b :: 0 <= a < b < |IndicesOf(s, t, n)| ==> IndicesOf(s, t, n)[a] < IndicesOf(s, t, n)[b]
    ensures forall j :: 0 <= j < n && s[j] == t ==> j in IndicesOf(s, t, n)
  {
    if n > 0 {
      IndicesOfComplete(s, t, n - 1);
    }
  }

  lemma {:induction false} IndicesOfAbsent<T>(s: seq<T>, t: T, n: nat)
    requires n <= |s|
    ensures t !in s[..n] ==> IndicesOf(s, t, n) == []
  {
    if n > 0 && t !in s[..n] {
      assert s[..n] == s[..n - 1] + [s[n - 1]];
      IndicesOfAbsent(s, t, n - 1);
    }
  }

  /** The table holds the positions of exactly the elements among the first n. */
  ghost predicate Indexed<T>(s: seq<T>, n: nat, table: map<T, seq<nat>>)
    requires n <= |s|
  {
    && (forall t :: t in table ==> t in s[..n] && table[t] == IndicesOf(s, t, n))
    && (forall t :: t in s[..n] ==> t in table)
  }

  lemma IndexOne<T>(s: seq<T>, n: nat, table: map<T, seq<nat>>)
    requires n < |s| && Indexed(s, n, table)
    ensures Indexed(s, n + 1, table[s[n] := (if s[n] in table then table[s[n]] else []) + [n]])
  {
    assert s[..n + 1] == s[..n] + [s[n]];
    hide IndicesOf;
    forall t | t in s[..n] || t == s[n]
      ensures IndicesOf(s, t, n + 1) == if t == s[n] then (if t in table then table[t] else []) + [n] else table[t]
    {
      IndicesOfAbsent(s, t, n);
      IndicesOfNext(s, t, n);
    }
  }

  lemma IndicesOfNext<T>(s: seq<T>, t: T, n: nat)
    requires n < |s|
    ensures IndicesOf(s, t, n + 1) == if s[n] == t then IndicesOf(s, t, n) + [n] else IndicesOf(s, t, n)
  {
  }

  /** Cells whose run is empty leave the best match alone. */
  lemma {:induction false} ScanSkips<T>(x: Input<T>, w: Window, best: Match, i: nat, j: nat, j': nat)
    requires ValidWindow(x, w) && w.fromBegin <= i < w.fromEnd && w.toBegin <= j <= j' <= w.toEnd
    requires forall b :: j <= b < j' ==> x.to[b] != x.from[i] || x.junk(x.to[b])
    ensures ScanRow(x, w, best, i, j') == ScanRow(x, w, best, i, j)
    decreases j'
  {
    if j < j' {
      ScanSkips(x, w, best, i, j, j' - 1);
    }
  }

  // ---------------------------------------------------------------- loops over plain lists

  /** The merging loop of cut_sequence_matcher_get_blocks. */
  method MergeBlocks(ms: seq<Match>) returns (merged: seq<Match>)
    ensures merged == BlocksFrom(ms, Match(0, 0, 0))
  {
    hide BlocksFrom;
    var current := Match(0, 0, 0);
    merged := [];
    var k := 0;
    assert ms[0..] == ms;
    while k < |ms|
      invariant k <= |ms|
      invariant merged + BlocksFrom(ms[k..], current) == BlocksFrom(ms, Match(0, 0, 0))
    {
      var info := ms[k];
      BlocksStep(ms, k, merged, current);
      if current.from + current.size == info.from && current.to + current.size == info.to {
        current := current.(size := current.size + info.size);
      } else {
        if current.size > 0 {
          merged := merged + [current];
        }
        current := info;
      }
      k := k + 1;
    }
    LastBlock(ms[k..], current);
    if current.size > 0 {
      merged := merged + [current];
    }
  }

  lemma LastBlock(ms: seq<Match>, current: Match)
    requires ms == []
    ensures BlocksFrom(ms, current) == if current.size > 0 then [current] else []
  {
  }

  lemma BlocksStep(ms: seq<Match>, k: nat, merged: seq<Match>, current: Match)
    requires k < |ms|
    ensures var info := ms[k];
            merged + BlocksFrom(ms[k..], current) ==
            if current.from + current.size == info.from && current.to + current.size == info.to then
              merged + BlocksFrom(ms[k + 1..], current.(size := current.size + info.size))
            else (if current.size > 0 then merged + [current] else merged) + BlocksFrom(ms[k + 1..], info)
  {
    hide *;
    SliceHead(ms, k);
    BlocksUnfold(ms[k..], current);
    var tail := BlocksFrom(ms[k + 1..], ms[k]);
    Regroup(merged, current, tail);
    EmptyHead(tail);
  }

  /** The loop of cut_sequence_matcher_get_operations. */
  method ListOperations(bs: seq<Match>) returns (ops: seq<Operation>)
    ensures ops == OperationsFrom(bs, 0, 0)
  {
    hide OperationsFrom, DetermineOperationType;
    var fromIndex: nat, toIndex: nat := 0, 0;
    ops := [];
    var k := 0;
    assert bs[0..] == bs;
    while k < |bs|
      invariant k <= |bs|
      invariant ops + OperationsFrom(bs[k..], fromIndex, toIndex) == OperationsFrom(bs, 0, 0)
    {
      var info := bs[k];
      OperationsStep(bs, k, ops, fromIndex, toIndex);
      var kind := DetermineOperationType(fromIndex, toIndex, info);
      if kind != Equal {
        ops := ops + [Operation(kind, fromIndex, info.from, toIndex, info.to)];
      }
      fromIndex, toIndex := info.from + info.size, info.to + info.size;
      if info.size > 0 {
        ops := ops + [Operation(Equal, info.from, fromIndex, info.to, toIndex)];
      }
      k := k + 1;
    }
    NoOperationsLeft(bs[k..], fromIndex, toIndex);
  }

  lemma NoOperationsLeft(bs: seq<Match>, i: nat, j: nat)
    requires bs == []
    ensures OperationsFrom(bs, i, j) == []
  {
  }

  lemma OperationsStep(bs: seq<Match>, k: nat, ops: seq<Operation>, i: nat, j: nat)
    requires k < |bs|
    ensures var info, kind := bs[k], DetermineOperationType(i, j, bs[k]);
            var gap := if kind != Equal then ops + [Operation(kind, i, info.from, j, info.to)] else ops;
            var all := if info.size > 0
                       then gap + [Operation(Equal, info.from, info.from + info.size, info.to, info.to + info.size)]
                       else gap;
            ops + OperationsFrom(bs[k..], i, j)
            == all + OperationsFrom(bs[k + 1..], info.from + info.size, info.to + info.size)
  {
    var rest, info := bs[k..], bs[k];
    SliceHead(bs, k);
    var tail := OperationsFrom(rest[1..], info.from + info.size, info.to + info.size);
    var step := GapBefore(info, i, j) + BlockOperation(info);
    assert OperationsFrom(rest, i, j) == step + tail;
    hide OperationsFrom;
    Associate(ops, step, tail);
    Associate(ops, GapBefore(info, i, j), BlockOperation(info));
    EmptyTail(ops);
    EmptyTail(ops + GapBefore(info, i, j));
  }

  function DetermineOperationType(fromIndex: nat, toIndex: nat, info: Match): Kind {
    if fromIndex < info.from && toIndex < info.to then Replace
    else if fromIndex < info.from then Delete
    else if toIndex < info.to then Insert
    else Equal
  }

  /** The loop of get_edge_expanded_copied_operations. */
  method ExpandEdges(original: seq<Operation>, context: nat) returns (ops: seq<Operation>)
    ensures ops == EdgeExpanded(original, context)
  {
    hide TrimLast, EdgeExpanded;
    EdgeStart(original, context);
    if original == [] {
      return [Operation(Equal, 0, 0, 0, 0)];
    }
    ops := [];
    var k := 0;
    if original[0].kind == Equal {
      var op := original[0];
      var fromContextBegin := if op.fromEnd > context then op.fromEnd - context else 0;
      var toContextBegin := if op.toEnd > context then op.toEnd - context else 0;
      ops := [Operation(Equal, Max(op.fromBegin, fromContextBegin), op.fromEnd,
                        Max(op.toBegin, toContextBegin), op.toEnd)];
      k := 1;
    }
    while k < |original|
      invariant k <= |original|
      invariant ops + TrimLast(original[k..], context) == EdgeExpanded(original, context)
    {
      var op := original[k];
      TrimStep(original, k, ops, context);
      if k + 1 == |original| && op.kind == Equal {
        ops := ops + [Operation(Equal,
                                op.fromBegin, Min(op.fromEnd, op.fromBegin + context),
                                op.toBegin, Min(op.toEnd, op.toBegin + context))];
      } else {
        ops := ops + [op];
      }
      k := k + 1;
    }
    TrimNothing(original[k..], context);
  }

  lemma EdgeStart(original: seq<Operation>, context: nat)
    ensures original == [] ==> EdgeExpanded(original, context) == [Operation(Equal, 0, 0, 0, 0)]
    ensures original != [] && original[0].kind == Equal ==>
              EdgeExpanded(original, context) == [TrimHead(original[0], context)] + TrimLast(original[1..], context)
    ensures original != [] && original[0].kind != Equal ==>
              EdgeExpanded(original, context) == [] + TrimLast(original[0..], context)
  {
    hide TrimLast;
    assert original[0..] == original;
  }

  lemma TrimNothing(ops: seq<Operation>, context: nat)
    requires ops == []
    ensures TrimLast(ops, context) == []
  {
  }

  lemma TrimStep(original: seq<Operation>, k: nat, ops: seq<Operation>, context: nat)
    requires k < |original|
    ensures var op := original[k];
            var shown := if k + 1 == |original| && op.kind == Equal then TrimTail(op, context) else op;
            ops + TrimLast(original[k..], context) == (ops + [shown]) + TrimLast(original[k + 1..], context)
  {
    var rest, op := original[k..], original[k];
    SliceHead(original, k);
    var shown := if k + 1 == |original| && op.kind == Equal then TrimTail(op, context) else op;
    if |rest| == 1 {
      assert rest[1..] == [];
      EmptyTail([shown]);
    }
    assert TrimLast(rest, context) == [shown] + TrimLast(rest[1..], context);
    Regroup(ops, shown, TrimLast(rest[1..], context));
  }

  /** The loop of cut_sequence_matcher_get_grouped_operations. */
  method GroupOperations(ops: seq<Operation>, context: nat) returns (groups: seq<seq<Operation>>)
    ensures groups == GroupFrom(ops, [], context)
  {
    hide GroupFrom;
    var groupWindow := context * 2;
    groups := [];
    var group: seq<Operation> := [];
    var k := 0;
    assert ops[0..] == ops;
    while k < |ops|
      invariant k <= |ops|
      invariant groups + GroupFrom(ops[k..], group, context) == GroupFrom(ops, [], context)
    {
      var op := ops[k];
      GroupStep(ops, k, groups, group, context);
      if op.kind == Equal && op.fromEnd - op.fromBegin > groupWindow {
        groups := groups + [group + [op.(fromEnd := Min(op.fromEnd, op.fromBegin + context),
                                         toEnd := Min(op.toEnd, op.toBegin + context))]];
        var fromBegin := if op.fromEnd > context then Max(op.fromBegin, op.fromEnd - context) else op.fromBegin;
        var toBegin := if op.toEnd > context then Max(op.toBegin, op.toEnd - context) else op.toBegin;
        group := [Operation(op.kind, fromBegin, op.fromEnd, toBegin, op.toEnd)];
      } else {
        group := group + [op];
      }
      k := k + 1;
    }
    LastGroup(ops[k..], group, context);
    if group != [] {
      groups := groups + [group];
    }
  }

  lemma LastGroup(ops: seq<Operation>, group: seq<Operation>, context: nat)
    requires ops == []
    ensures GroupFrom(ops, group, context) == if group == [] then [] else [group]
  {
  }

  lemma GroupStep(ops: seq<Operation>, k: nat, groups: seq<seq<Operation>>, group: seq<Operation>, context: nat)
    requires k < |ops|
    ensures groups + GroupFrom(ops[k..], group, context) ==
            if Splits(ops[k], context) then
              (groups + [group + [TrimTail(ops[k], context)]])
              + GroupFrom(ops[k + 1..], [TrimHead(ops[k], context)], context)
            else groups + GroupFrom(ops[k + 1..], group + [ops[k]], context)
  {
    SliceHead(ops, k);
    Regroup(groups, group + [TrimTail(ops[k], context)],
            GroupFrom(ops[k + 1..], [TrimHead(ops[k], context)], context));
  }

  /** The summing loop of cut_sequence_matcher_get_ratio. */
  method SumSizes(bs: seq<Match>) returns (total: nat)
    ensures total == TotalSize(bs)
  {
    total := 0;
    var k := 0;
    assert bs[0..] == bs;
    while k < |bs|
      invariant k <= |bs| && total + TotalSize(bs[k..]) == TotalSize(bs)
    {
      assert bs[k..][0] == bs[k] && bs[k..][1..] == bs[k + 1..];
      total := total + bs[k].size;
      k := k + 1;
    }
  }

  class SequenceMatcher<T(==)> {
    const from: seq<T>
    const to: seq<T>
    const junkFilter: T -> bool
    var toIndices: map<T, seq<nat>>
    var junks: set<T>
    var matches: seq<Match>
    var blocks: seq<Match>
    var operations: seq<Operation>
    var groupedOperations: seq<seq<Operation>>
    var ratio: real
    var contextSize: nat

    ghost function Sequences(): Input<T> {
      Input(from, to, junkFilter)
    }

    ghost predicate ValidTables()
      reads this`toIndices, this`junks
    {
      && (forall t :: t in toIndices ==> toIndices[t] == IndicesOf(to, t, |to|) && !junkFilter(t))
      && (forall j :: 0 <= j < |to| && !junkFilter(to[j]) ==> to[j] in toIndices)
      && (forall t :: t in junks ==> t in to && junkFilter(t))
      && (forall j :: 0 <= j < |to| && junkFilter(to[j]) ==> to[j] in junks)
    }

    /** Each cached list is either not computed yet or what MatchSpec says it is; so is the ratio. */
    ghost predicate Valid()
      reads this
    {
      && ValidTables()
      && (matches == [] || matches == Matches(Sequences(), Whole(Sequences())))
      && (blocks == [] || blocks == Blocks(Sequences()))
      && (operations == [] || operations == Operations(Sequences()))
      && (groupedOperations == [] || groupedOperations == GroupedOperations(Sequences(), contextSize))
      && (ratio < 0.0 || ratio == Ratio(Sequences()))
    }

    constructor (from: seq<T>, to: seq<T>, junkFilter: T -> bool)
      ensures Valid()
      ensures Sequences() == Input(from, to, junkFilter) && contextSize == 3
      ensures matches == [] && blocks == [] && operations == [] && groupedOperations == [] && ratio < 0.0
    {
      hide Matches, Blocks, Operations, GroupedOperations, Ratio, ValidTables;
      this.from, this.to, this.junkFilter := from, to, junkFilter;
      toIndices, junks := map[], {};
      matches, blocks, operations, groupedOperations := [], [], [], [];
      ratio, contextSize := -1.0, 3;
      new;
      UpdateToIndices();
    }

    method UpdateToIndices()
      requires toIndices == map[] && junks == {}
      modifies this`toIndices, this`junks
      ensures ValidTables()
    {
      var i := 0;
      while i < |to|
        invariant i <= |to| && junks == {}
        invariant Indexed(to, i, toIndices)
      {
        hide *;
        var data := to[i];
        var indices := if data in toIndices then toIndices[data] else [];
        IndexOne(to, i, toIndices);
        toIndices := toIndices[data := indices + [i]];
        i := i + 1;
      }
      RemoveJunksFromToIndices();
    }

    method RemoveJunksFromToIndices()
      requires junks == {} && Indexed(to, |to|, toIndices)
      modifies this`toIndices, this`junks
      ensures ValidTables()
    {
      assert to[..|to|] == to;
      hide IndicesOf;
      junks := set t | t in toIndices && junkFilter(t);
      toIndices := map t | t in toIndices && !junkFilter(t) :: toIndices[t];
    }

    /** The scan of one window, row by row through the positions of each element of `from`. */
    method FindBestMatchPosition(w: Window) returns (info: Match)
      requires ValidTables() && ValidWindow(Sequences(), w)
      ensures info == BestMatch(Sequences(), w)
    {
      ghost var x := Sequences();
      info := Match(w.fromBegin, w.toBegin, 0);
      var sizes: map<nat, nat> := map[];
      var i := w.fromBegin;
      while i < w.fromEnd
        invariant w.fromBegin <= i <= w.fromEnd
        invariant info == ScanRows(x, w, i)
        invariant RowSizes(w, i, sizes)
      {
        info, sizes := ScanOneRow(w, i, info, sizes);
        i := i + 1;
      }
    }

    /** `sizes` holds the run lengths of the row before i that are not zero. */
    ghost predicate RowSizes(w: Window, i: nat, sizes: map<nat, nat>)
      requires ValidWindow(Sequences(), w) && w.fromBegin <= i <= w.fromEnd
    {
      if i == w.fromBegin then sizes == map[]
      else PartialRow(w, i - 1, w.toEnd, sizes)
    }

    /** `sizes` holds the non-zero run lengths of row i left of column `reached`. */
    ghost predicate PartialRow(w: Window, i: nat, reached: nat, sizes: map<nat, nat>)
      requires ValidWindow(Sequences(), w) && w.fromBegin <= i < w.fromEnd
    {
      && (forall j :: j in sizes ==>
            w.toBegin <= j < reached && j < w.toEnd && sizes[j] == RunLength(Sequences(), w, i, j))
      && (forall j {:trigger j in sizes} :: w.toBegin <= j < reached && j < w.toEnd && j !in sizes ==>
            to[j] != from[i] || junkFilter(to[j]))
    }

    /** The ascending list of the junk-free positions of `to` that match row i. */
    ghost predicate RowNodes(i: nat, nodes: seq<nat>)
      requires i < |from|
    {
      && (forall k :: 0 <= k < |nodes| ==> nodes[k] < |to| && to[nodes[k]] == from[i] && !junkFilter(to[nodes[k]]))
      && (forall a, b :: 0 <= a < b < |nodes| ==> nodes[a] < nodes[b])
      && (forall j :: 0 <= j < |to| && to[j] == from[i] && !junkFilter(to[j]) ==> j in nodes)
    }

    method GetToIndex(i: nat) returns (nodes: seq<nat>)
      requires ValidTables() && i < |from|
      ensures RowNodes(i, nodes)
    {
      nodes := if from[i] in toIndices then toIndices[from[i]] else [];
      IndicesOfComplete(to, from[i], |to|);
    }

    /** The scan of row i has passed the columns before `reached`. */
    ghost predicate RowState(w: Window, i: nat, info0: Match, reached: nat, info: Match, sizes: map<nat, nat>)
      requires ValidWindow(Sequences(), w) && w.fromBegin <= i < w.fromEnd
    {
      && w.toBegin <= reached <= w.toEnd
      && info == ScanRow(Sequences(), w, info0, i, reached)
      && PartialRow(w, i, reached, sizes)
    }

    ghost predicate NoMatchBetween(i: nat, j: nat, j': nat)
      requires i < |from| && j' <= |to|
    {
      forall b :: j <= b < j' ==> to[b] != from[i] || junkFilter(to[b])
    }

    method ScanOneRow(w: Window, i: nat, info0: Match, sizes: map<nat, nat>)
      returns (info: Match, currentSizes: map<nat, nat>)
      requires ValidTables() && ValidWindow(Sequences(), w) && w.fromBegin <= i < w.fromEnd
      requires info0 == ScanRows(Sequences(), w, i) && RowSizes(w, i, sizes)
      ensures info == ScanRows(Sequences(), w, i + 1)
      ensures RowSizes(w, i + 1, currentSizes)
    {
      var nodes := GetToIndex(i);
      info, currentSizes := info0, map[];
      var k := 0;
      var beyond := false;
      RowStart(w, i, info0, nodes);
      hide *;
      ghost var reached: nat := w.toBegin;
      while k < |nodes| && !beyond
        invariant 0 <= k <= |nodes|
        invariant RowLoop(w, i, info0, nodes, k, reached, info, currentSizes)
        invariant beyond ==> k < |nodes| && nodes[k] >= w.toEnd
        decreases |nodes| - k, !beyond
      {
        info, currentSizes, beyond, reached := ScanNode(w, i, nodes, k, info0, info, sizes, currentSizes, reached);
        if !beyond {
          k := k + 1;
        }
      }
      RowFinished(w, i, info0, nodes, k, reached, info, currentSizes);
    }

    /** The loop over the listed positions has handled the first k of them. */
    ghost predicate RowLoop(w: Window, i: nat, info0: Match, nodes: seq<nat>, k: nat, reached: nat,
                            info: Match, sizes: map<nat, nat>)
      requires ValidWindow(Sequences(), w) && w.fromBegin <= i < w.fromEnd
    {
      && RowNodes(i, nodes) && k <= |nodes|
      && RowState(w, i, info0, reached, info, sizes)
      && (reached == w.toBegin || (k > 0 && reached == nodes[k - 1] + 1))
      && (k > 0 ==> nodes[k - 1] < reached)
    }

    /** One iteration: skip a position before the window, stop at one beyond it, else scan the cell. */
    method ScanNode(w: Window, i: nat, nodes: seq<nat>, k: nat, ghost info0: Match, info: Match,
                    sizes: map<nat, nat>, currentSizes: map<nat, nat>, ghost reached: nat)
      returns (info': Match, currentSizes': map<nat, nat>, beyond: bool, ghost reached': nat)
      requires ValidWindow(Sequences(), w) && w.fromBegin <= i < w.fromEnd
      requires RowSizes(w, i, sizes) && k < |nodes|
      requires RowLoop(w, i, info0, nodes, k, reached, info, currentSizes)
      ensures !beyond ==> RowLoop(w, i, info0, nodes, k + 1, reached', info', currentSizes')
      ensures beyond ==> RowLoop(w, i, info0, nodes, k, reached', info', currentSizes') && nodes[k] >= w.toEnd
    {
      hide RunLength, ScanRow, RowSizes, PartialRow, NoMatchBetween;
      info', currentSizes', beyond, reached' := info, currentSizes, false, reached;
      var toIndex := nodes[k];
      NodesAscend(i, nodes, k);
      if toIndex < w.toBegin {
        return;
      }
      if toIndex + 1 > w.toEnd {
        beyond := true;
        return;
      }
      NoneBetween(i, nodes, k, reached, toIndex);
      info', currentSizes' := ScanCell(w, i, toIndex, info0, info, sizes, currentSizes, reached);
      reached' := toIndex + 1;
    }

    /** One listed position: the run it ends is one longer than the run ending diagonally before it. */
    method ScanCell(w: Window, i: nat, toIndex: nat, ghost info0: Match, info: Match,
                    sizes: map<nat, nat>, currentSizes: map<nat, nat>, ghost reached: nat)
      returns (info': Match, currentSizes': map<nat, nat>)
      requires ValidWindow(Sequences(), w) && InWindow(w, i, toIndex)
      requires RowSizes(w, i, sizes) && RowState(w, i, info0, reached, info, currentSizes)
      requires to[toIndex] == from[i] && !junkFilter(to[toIndex])
      requires reached <= toIndex && NoMatchBetween(i, reached, toIndex)
      ensures RowState(w, i, info0, toIndex + 1, info', currentSizes')
    {
      ScanSkips(Sequences(), w, info0, i, reached, toIndex);
      info' := info;
      var size := (if toIndex > 0 && toIndex - 1 in sizes then sizes[toIndex - 1] else 0) + 1;
      RunFromPreviousRow(w, i, toIndex, sizes);
      PartialRowStep(w, i, reached, toIndex, currentSizes);
      currentSizes' := currentSizes[toIndex := size];
      if size > info.size {
        info' := Match(i + 1 - size, toIndex + 1 - size, size);
      }
    }

    lemma RowStart(w: Window, i: nat, info0: Match, nodes: seq<nat>)
      requires ValidWindow(Sequences(), w) && w.fromBegin <= i < w.fromEnd && RowNodes(i, nodes)
      ensures RowLoop(w, i, info0, nodes, 0, w.toBegin, info0, map[])
    {
    }

    lemma NodesAscend(i: nat, nodes: seq<nat>, k: nat)
      requires i < |from| && RowNodes(i, nodes) && k < |nodes|
      ensures nodes[k] < |to| && to[nodes[k]] == from[i] && !junkFilter(to[nodes[k]])
      ensures k > 0 ==> nodes[k - 1] < nodes[k]
    {
    }

    lemma RowFinished(w: Window, i: nat, info0: Match, nodes: seq<nat>, k: nat, reached: nat,
                      info: Match, sizes: map<nat, nat>)
      requires ValidWindow(Sequences(), w) && w.fromBegin <= i < w.fromEnd
      requires info0 == ScanRows(Sequences(), w, i)
      requires RowLoop(w, i, info0, nodes, k, reached, info, sizes)
      requires k < |nodes| ==> nodes[k] >= w.toEnd
      ensures info == ScanRows(Sequences(), w, i + 1) && RowSizes(w, i + 1, sizes)
    {
      NoneBetween(i, nodes, k, reached, w.toEnd);
      hide RowNodes;
      ScanSkips(Sequences(), w, info0, i, reached, w.toEnd);
    }

    lemma PartialRowStep(w: Window, i: nat, reached: nat, j: nat, sizes: map<nat, nat>)
      requires ValidWindow(Sequences(), w) && InWindow(w, i, j) && reached <= j
      requires PartialRow(w, i, reached, sizes) && NoMatchBetween(i, reached, j)
      ensures PartialRow(w, i, j + 1, sizes[j := RunLength(Sequences(), w, i, j)])
    {
    }

    /** Between the column reached and the next listed position nothing matches row i. */
    lemma NoneBetween(i: nat, nodes: seq<nat>, k: nat, reached: nat, next: nat)
      requires i < |from| && RowNodes(i, nodes) && k <= |nodes| && next <= |to|
      requires k > 0 ==> nodes[k - 1] < reached
      requires k < |nodes| ==> next <= nodes[k]
      ensures NoMatchBetween(i, reached, next)
    {
      assert forall c :: 0 <= c < k ==> nodes[c] < reached;
      assert forall c :: k <= c < |nodes| ==> nodes[c] >= next;
    }

    lemma RunFromPreviousRow(w: Window, i: nat, j: nat, sizes: map<nat, nat>)
      requires ValidWindow(Sequences(), w) && InWindow(w, i, j)
      requires to[j] == from[i] && !junkFilter(to[j])
      requires RowSizes(w, i, sizes)
      ensures RunLength(Sequences(), w, i, j) == (if j > 0 && j - 1 in sizes then sizes[j - 1] else 0) + 1
    {
    }

    predicate CheckJunk(shouldJunk: bool, index: nat)
      requires index < |to|
      reads this`junks
    {
      var isJunk := to[index] in junks;
      if shouldJunk then isJunk else !isJunk
    }

    method AdjustBestInfoWithJunkPredicate(shouldJunk: bool, bestInfo: Match, w: Window) returns (info: Match)
      requires ValidTables() && ValidWindow(Sequences(), w) && GoodMatch(Sequences(), w, bestInfo)
      ensures info == Adjust(Sequences(), w, shouldJunk, bestInfo)
    {
      hide ExtendLeft, ExtendRight, GoodMatch;
      info := GrowLeft(shouldJunk, bestInfo, w);
      info := GrowRight(shouldJunk, info, w);
    }

    method GrowLeft(shouldJunk: bool, bestInfo: Match, w: Window) returns (info: Match)
      requires ValidTables() && ValidWindow(Sequences(), w) && GoodMatch(Sequences(), w, bestInfo)
      ensures info == ExtendLeft(Sequences(), w, shouldJunk, bestInfo)
    {
      ghost var x := Sequences();
      info := bestInfo;
      while && info.from > w.fromBegin && info.to > w.toBegin
            && CheckJunk(shouldJunk, info.to - 1)
            && from[info.from - 1] == to[info.to - 1]
        invariant GoodMatch(x, w, info)
        invariant ExtendLeft(x, w, shouldJunk, info) == ExtendLeft(x, w, shouldJunk, bestInfo)
        decreases info.from
      {
        SameConcat(x, info.from - 1, info.to - 1, 1, info.size);
        hide Same;
        info := Match(info.from - 1, info.to - 1, info.size + 1);
      }
    }

    method GrowRight(shouldJunk: bool, bestInfo: Match, w: Window) returns (info: Match)
      requires ValidTables() && ValidWindow(Sequences(), w) && GoodMatch(Sequences(), w, bestInfo)
      ensures info == ExtendRight(Sequences(), w, shouldJunk, bestInfo)
    {
      ghost var x := Sequences();
      info := bestInfo;
      while && info.from + info.size + 1 < w.fromEnd && info.to + info.size + 1 < w.toEnd
            && CheckJunk(shouldJunk, info.to + info.size)
            && from[info.from + info.size] == to[info.to + info.size]
        invariant GoodMatch(x, w, info)
        invariant ExtendRight(x, w, shouldJunk, info) == ExtendRight(x, w, shouldJunk, bestInfo)
        decreases w.fromEnd - info.size
      {
        info := info.(size := info.size + 1);
      }
    }

    method GetLongestMatch(w: Window) returns (info: Match)
      requires ValidTables() && ValidWindow(Sequences(), w)
      ensures info == LongestMatch(Sequences(), w)
    {
      hide BestMatch;
      info := FindBestMatchPosition(w);
      BestMatchIsFirstLongest(Sequences(), w);
      assert |junks| > 0 <==> HasJunk(Sequences()) by { JunksNonEmpty(); }
      if |junks| > 0 {
        info := AdjustBestInfoWithJunkPredicate(false, info, w);
        info := AdjustBestInfoWithJunkPredicate(true, info, w);
      }
    }

    lemma JunksNonEmpty()
      requires ValidTables()
      ensures |junks| > 0 <==> HasJunk(Sequences())
    {
      if |junks| > 0 {
        var t :| t in junks;
      }
    }

    /** Breadth first over the windows left and right of each longest match, then sorted. */
    method GetMatches() returns (r: seq<Match>)
      requires Valid()
      modifies this`matches
      ensures Valid() && r == Matches(Sequences(), Whole(Sequences()))
    {
      hide LongestMatch, Matches, Pending, Halves, ValidTables, Blocks, Operations, GroupedOperations;
      if matches != [] {
        return matches;
      }
      ghost var x := Sequences();
      var queue := [Window(0, |from|, 0, |to|)];
      var found: seq<Match> := [];
      OneWindowPending(x);
      while queue != []
        invariant ValidQueue(x, queue)
        invariant multiset(found) + Pending(x, queue) == multiset(Matches(x, Whole(x)))
        decreases 2 * |Pending(x, queue)| + |queue|
      {
        QueueStep(x, queue);
        var w := queue[0];
        var info := GetLongestMatch(w);
        if info.size == 0 {
          queue := queue[1..];
          continue;
        }
        StepMeasure(Pending(x, queue), Pending(x, queue[1..] + Halves(w, info)), info, found,
            multiset(Matches(x, Whole(x))));
        queue := queue[1..] + Halves(w, info);
        found := [info] + found;
      }
      EmptyPending(x);
      SortedMatches(x, found);
      matches := SortByFrom(found);
      return matches;
    }

    method GetBlocks() returns (r: seq<Match>)
      requires Valid()
      modifies this`matches, this`blocks
      ensures Valid() && r == Blocks(Sequences())
    {
      hide LongestMatch, Matches;
      if blocks != [] {
        return blocks;
      }
      var ms := GetMatches();
      var merged := MergeBlocks(ms);
      blocks := merged + [Match(|from|, |to|, 0)];
      return blocks;
    }

    method GetOperations() returns (r: seq<Operation>)
      requires Valid()
      modifies this`matches, this`blocks, this`operations
      ensures Valid() && r == Operations(Sequences())
    {
      hide Blocks, OperationsFrom;
      if operations != [] {
        return operations;
      }
      var bs := GetBlocks();
      operations := ListOperations(bs);
      return operations;
    }

    method GetEdgeExpandedCopiedOperations(context: nat) returns (ops: seq<Operation>)
      requires Valid()
      modifies this`matches, this`blocks, this`operations
      ensures Valid() && ops == EdgeExpanded(Operations(Sequences()), context)
    {
      var original := GetOperations();
      ops := ExpandEdges(original, context);
    }

    method GetGroupedOperations() returns (r: seq<seq<Operation>>)
      requires Valid()
      modifies this`matches, this`blocks, this`operations, this`groupedOperations
      ensures Valid() && r == GroupedOperations(Sequences(), contextSize)
    {
      hide Operations, EdgeExpanded, GroupFrom;
      if groupedOperations != [] {
        return groupedOperations;
      }
      var ops := GetEdgeExpandedCopiedOperations(contextSize);
      groupedOperations := GroupOperations(ops, contextSize);
      return groupedOperations;
    }

    method GetRatio() returns (r: real)
      requires Valid()
      modifies this`matches, this`blocks, this`ratio
      ensures Valid() && r == ratio == Ratio(Sequences())
    {
      hide Blocks;
      if ratio >= 0.0 {
        return ratio;
      }
      var length := |from| + |to|;
      if length == 0 {
        ratio := 1.0;
      } else {
        var bs := GetBlocks();
        var total := SumSizes(bs);
        ratio := 2.0 * (total as real) / (length as real);
      }
      r := ratio;
    }

    method SetContextSize(size: nat)
      requires Valid()
      modifies this`contextSize, this`groupedOperations
      ensures Valid() && contextSize == size
    {
      if contextSize != size {
        contextSize := size;
        groupedOperations := [];
      }
    }
  }
}
