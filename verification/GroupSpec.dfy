/**
 The grouped operations of a context diff: the edit script with long equal runs cut down to
 `context` elements next to each change and the script split where a run was cut.
 */
module GroupSpec {
  import opened Edits
  import opened MatchSpec

  function Max(a: nat, b: nat): nat { if a > b then a else b }

  function Min(a: nat, b: nat): nat { if a < b then a else b }

  /** An equal run reduced to its last `context` elements. */
  function TrimHead(op: Operation, context: nat): Operation {
    Operation(Equal,
              Max(op.fromBegin, if op.fromEnd > context then op.fromEnd - context else 0), op.fromEnd,
              Max(op.toBegin, if op.toEnd > context then op.toEnd - context else 0), op.toEnd)
  }

  /** An equal run reduced to its first `context` elements. */
  function TrimTail(op: Operation, context: nat): Operation {
    Operation(Equal,
              op.fromBegin, Min(op.fromEnd, op.fromBegin + context),
              op.toBegin, Min(op.toEnd, op.toBegin + context))
  }

  function TrimLast(ops: seq<Operation>, context: nat): seq<Operation> {
    if ops == [] then []
    else if |ops| == 1 then [if ops[0].kind == Equal then TrimTail(ops[0], context) else ops[0]]
    else [ops[0]] + TrimLast(ops[1..], context)
  }

  /** The script with its first and its last equal run reduced. */
  function EdgeExpanded(ops: seq<Operation>, context: nat): seq<Operation> {
    if ops == [] then [Operation(Equal, 0, 0, 0, 0)]
    else if ops[0].kind == Equal then [TrimHead(ops[0], context)] + TrimLast(ops[1..], context)
    else TrimLast(ops, context)
  }

  /** An inner equal run long enough to end one group and begin the next. */
  predicate Splits(op: Operation, context: nat) {
    op.kind == Equal && op.fromEnd - op.fromBegin > context * 2
  }

  /** The groups of `ops`, `group` being the one under construction. */
  function GroupFrom(ops: seq<Operation>, group: seq<Operation>, context: nat): seq<seq<Operation>>
    decreases |ops|
  {
    if ops == [] then
      if group == [] then [] else [group]
    else if Splits(ops[0], context) then
      [group + [TrimTail(ops[0], context)]] + GroupFrom(ops[1..], [TrimHead(ops[0], context)], context)
    else
      GroupFrom(ops[1..], group + [ops[0]], context)
  }

  ghost function GroupedOperations<T>(x: Input<T>, context: nat): seq<seq<Operation>> {
    GroupFrom(EdgeExpanded(Operations(x), context), [], context)
  }

  // ---------------------------------------------------------------- groups form a patch

  /** What lies between the two positions is the same on both sides. */
  ghost predicate Gap<T>(x: Input<T>, i: nat, j: nat, i': nat, j': nat) {
    i <= i' <= |x.from| && j <= j' <= |x.to| && i' - i == j' - j && Same(x, i, j, i' - i)
  }

  /**
   From (i, j) on, the groups are non-empty contiguous runs of valid operations, in order, and
   everything before, between and after them is the same on both sides.
   */
  ghost predicate Covers<T>(x: Input<T>, groups: seq<seq<Operation>>, i: nat, j: nat) {
    if groups == [] then Gap(x, i, j, |x.from|, |x.to|)
    else
      var g := groups[0];
      && g != []
      && Gap(x, i, j, g[0].fromBegin, g[0].toBegin)
      && Tiles(x, g, g[0].fromBegin, g[0].toBegin, g[|g| - 1].fromEnd, g[|g| - 1].toEnd)
      && Covers(x, groups[1..], g[|g| - 1].fromEnd, g[|g| - 1].toEnd)
  }

  lemma {:induction false} TilesEnd<T>(x: Input<T>, ops: seq<Operation>, i: nat, j: nat, iEnd: nat, jEnd: nat)
    requires Tiles(x, ops, i, j, iEnd, jEnd) && ops != []
    ensures iEnd == ops[|ops| - 1].fromEnd && jEnd == ops[|ops| - 1].toEnd
  {
    if |ops| > 1 {
      TilesEnd(x, ops[1..], ops[0].fromEnd, ops[0].toEnd, iEnd, jEnd);
    }
  }

  lemma TrimHeadValid<T>(x: Input<T>, op: Operation, context: nat)
    requires ValidOperation(x, op) && op.kind == Equal
    requires context < op.fromEnd - op.fromBegin || (op.fromBegin == 0 && op.toBegin == 0)
    ensures var r := TrimHead(op, context);
            ValidOperation(x, r) && Gap(x, op.fromBegin, op.toBegin, r.fromBegin, r.toBegin)
  {
    var r := TrimHead(op, context);
    SameConcat(x, op.fromBegin, op.toBegin, r.fromBegin - op.fromBegin, r.fromEnd - r.fromBegin);
  }

  lemma TrimTailValid<T>(x: Input<T>, op: Operation, context: nat)
    requires ValidOperation(x, op) && op.kind == Equal
    ensures var r := TrimTail(op, context);
            ValidOperation(x, r) && Gap(x, r.fromEnd, r.toEnd, op.fromEnd, op.toEnd)
  {
    var r := TrimTail(op, context);
    SameConcat(x, op.fromBegin, op.toBegin, r.fromEnd - op.fromBegin, op.fromEnd - r.fromEnd);
  }

  /** Cutting an inner run leaves an unshown part that is the same on both sides. */
  lemma SplitGap<T>(x: Input<T>, op: Operation, context: nat)
    requires ValidOperation(x, op) && Splits(op, context)
    ensures Gap(x, TrimTail(op, context).fromEnd, TrimTail(op, context).toEnd,
                TrimHead(op, context).fromBegin, TrimHead(op, context).toBegin)
  {
    var a, b := TrimTail(op, context), TrimHead(op, context);
    TrimTailValid(x, op, context);
    SameConcat(x, a.fromEnd, a.toEnd, b.fromBegin - a.fromEnd, op.fromEnd - b.fromBegin);
  }

  lemma {:induction false} TrimLastTiles<T>(x: Input<T>, ops: seq<Operation>, context: nat, i: nat, j: nat)
    returns (iEnd: nat, jEnd: nat)
    requires Tiles(x, ops, i, j, |x.from|, |x.to|)
    ensures Tiles(x, TrimLast(ops, context), i, j, iEnd, jEnd)
    ensures Gap(x, iEnd, jEnd, |x.from|, |x.to|)
  {
    if ops == [] {
      iEnd, jEnd := i, j;
    } else if |ops| == 1 {
      if ops[0].kind == Equal { TrimTailValid(x, ops[0], context); }
      var r := TrimLast(ops, context)[0];
      iEnd, jEnd := r.fromEnd, r.toEnd;
    } else {
      iEnd, jEnd := TrimLastTiles(x, ops[1..], context, ops[0].fromEnd, ops[0].toEnd);
      assert ([ops[0]] + TrimLast(ops[1..], context))[1..] == TrimLast(ops[1..], context);
    }
  }

  lemma EdgeExpandedTiles<T>(x: Input<T>, ops: seq<Operation>, context: nat)
    returns (i: nat, j: nat, iEnd: nat, jEnd: nat)
    requires ValidScript(x, ops)
    ensures EdgeExpanded(ops, context) != []
    ensures Tiles(x, EdgeExpanded(ops, context), i, j, iEnd, jEnd)
    ensures Gap(x, 0, 0, i, j) && Gap(x, iEnd, jEnd, |x.from|, |x.to|)
  {
    if ops == [] {
      i, j, iEnd, jEnd := 0, 0, 0, 0;
    } else if ops[0].kind == Equal {
      var h := TrimHead(ops[0], context);
      TrimHeadValid(x, ops[0], context);
      i, j := h.fromBegin, h.toBegin;
      iEnd, jEnd := TrimLastTiles(x, ops[1..], context, ops[0].fromEnd, ops[0].toEnd);
      assert ([h] + TrimLast(ops[1..], context))[1..] == TrimLast(ops[1..], context);
    } else {
      i, j := 0, 0;
      iEnd, jEnd := TrimLastTiles(x, ops, context, 0, 0);
    }
  }

  lemma {:induction false} GroupFromCovers<T>(x: Input<T>, ops: seq<Operation>, group: seq<Operation>, context: nat,
                                              p: nat, q: nat, i: nat, j: nat, iEnd: nat, jEnd: nat)
    requires group != [] ==> Gap(x, p, q, group[0].fromBegin, group[0].toBegin)
    requires group != [] ==> Tiles(x, group, group[0].fromBegin, group[0].toBegin, i, j)
    requires group == [] ==> Gap(x, p, q, i, j)
    requires Tiles(x, ops, i, j, iEnd, jEnd) && Gap(x, iEnd, jEnd, |x.from|, |x.to|)
    requires ops != [] || group != []
    ensures Covers(x, GroupFrom(ops, group, context), p, q)
    decreases |ops|
  {
    if ops == [] {
      LastGroupCovers(x, group, p, q, i, j);
    } else {
      var op := ops[0];
      var last := if Splits(op, context) then TrimTail(op, context) else op;
      if Splits(op, context) { TrimTailValid(x, op, context); }
      var g := group + [last];
      GrowGroup(x, group, last, i, j);
      if Splits(op, context) {
        var h := TrimHead(op, context);
        TrimHeadValid(x, op, context);
        SplitGap(x, op, context);
        GrowGroup(x, [], h, h.fromBegin, h.toBegin);
        assert [] + [h] == [h];
        GroupFromCovers(x, ops[1..], [h], context, last.fromEnd, last.toEnd, op.fromEnd, op.toEnd, iEnd, jEnd);
        hide Tiles, Gap, Same;
        CoversCons(x, g, GroupFrom(ops[1..], [h], context), p, q, last.fromEnd, last.toEnd);
      } else {
        hide Gap, Same;
        GroupFromCovers(x, ops[1..], g, context, p, q, op.fromEnd, op.toEnd, iEnd, jEnd);
      }
    }
  }

  lemma LastGroupCovers<T>(x: Input<T>, group: seq<Operation>, p: nat, q: nat, iEnd: nat, jEnd: nat)
    requires group != [] && Gap(x, p, q, group[0].fromBegin, group[0].toBegin)
    requires Tiles(x, group, group[0].fromBegin, group[0].toBegin, iEnd, jEnd)
    requires Gap(x, iEnd, jEnd, |x.from|, |x.to|)
    ensures Covers(x, [group], p, q)
  {
    hide Gap;
    TilesEnd(x, group, group[0].fromBegin, group[0].toBegin, iEnd, jEnd);
    hide Tiles;
    assert [group][1..] == [];
  }

  lemma GrowGroup<T>(x: Input<T>, group: seq<Operation>, op: Operation, i: nat, j: nat)
    requires ValidOperation(x, op) && op.fromBegin == i && op.toBegin == j
    requires group != [] ==> Tiles(x, group, group[0].fromBegin, group[0].toBegin, i, j)
    ensures var g := group + [op]; Tiles(x, g, g[0].fromBegin, g[0].toBegin, op.fromEnd, op.toEnd)
  {
    assert [op][1..] == [];
    assert Tiles(x, [op], i, j, op.fromEnd, op.toEnd);
    hide ValidOperation;
    if group == [] {
      assert group + [op] == [op];
    } else {
      TilesConcat(x, group, [op], group[0].fromBegin, group[0].toBegin, i, j, op.fromEnd, op.toEnd);
    }
  }

  lemma CoversCons<T>(x: Input<T>, g: seq<Operation>, rest: seq<seq<Operation>>, p: nat, q: nat, iEnd: nat, jEnd: nat)
    requires g != [] && Gap(x, p, q, g[0].fromBegin, g[0].toBegin)
    requires Tiles(x, g, g[0].fromBegin, g[0].toBegin, iEnd, jEnd) && Covers(x, rest, iEnd, jEnd)
    ensures Covers(x, [g] + rest, p, q)
  {
    hide Gap;
    TilesEnd(x, g, g[0].fromBegin, g[0].toBegin, iEnd, jEnd);
    hide Tiles;
    assert ([g] + rest)[1..] == rest;
  }

  lemma {:induction false} GroupFromNonEmpty(ops: seq<Operation>, group: seq<Operation>, context: nat)
    requires ops != [] || group != []
    ensures GroupFrom(ops, group, context) != []
    ensures forall g :: g in GroupFrom(ops, group, context) ==> g != []
    decreases |ops|
  {
    if ops != [] {
      if Splits(ops[0], context) {
        GroupFromNonEmpty(ops[1..], [TrimHead(ops[0], context)], context);
      } else {
        GroupFromNonEmpty(ops[1..], group + [ops[0]], context);
      }
    }
  }

  /** For all sequences and every context size, the groups of the edit script form a patch. */
  lemma GroupsCover<T>(x: Input<T>, context: nat)
    ensures Covers(x, GroupedOperations(x, context), 0, 0)
    ensures GroupedOperations(x, context) != []
    ensures forall g :: g in GroupedOperations(x, context) ==> g != []
  {
    hide Operations, Tiles, Covers, GroupFrom;
    OperationsValid(x);
    var ops := EdgeExpanded(Operations(x), context);
    var i, j, iEnd, jEnd := EdgeExpandedTiles(x, Operations(x), context);
    GroupFromCovers(x, ops, [], context, 0, 0, i, j, iEnd, jEnd);
    GroupFromNonEmpty(ops, [], context);
  }

  // ---------------------------------------------------------------- no change is lost

  function Changes(ops: seq<Operation>): seq<Operation> {
    if ops == [] then []
    else (if ops[0].kind == Equal then [] else [ops[0]]) + Changes(ops[1..])
  }

  function Flatten(groups: seq<seq<Operation>>): seq<Operation> {
    if groups == [] then [] else groups[0] + Flatten(groups[1..])
  }

  lemma ChangesOfHead(ops: seq<Operation>)
    requires ops != []
    ensures Changes(ops) == Changes([ops[0]]) + Changes(ops[1..])
  {
    assert [ops[0]][1..] == [];
  }

  lemma FlattenCons(g: seq<Operation>, rest: seq<seq<Operation>>)
    ensures Flatten([g] + rest) == g + Flatten(rest)
  {
    assert ([g] + rest)[1..] == rest;
  }

  lemma {:induction false} ChangesConcat(a: seq<Operation>, b: seq<Operation>)
    ensures Changes(a + b) == Changes(a) + Changes(b)
  {
    if a == [] {
      assert a + b == b;
    } else {
      assert (a + b)[1..] == a[1..] + b;
      ChangesConcat(a[1..], b);
    }
  }

  lemma {:induction false} TrimLastChanges(ops: seq<Operation>, context: nat)
    ensures Changes(TrimLast(ops, context)) == Changes(ops)
  {
    if |ops| > 1 {
      TrimLastChanges(ops[1..], context);
      assert ([ops[0]] + TrimLast(ops[1..], context))[1..] == TrimLast(ops[1..], context);
    }
  }

  lemma EqualAddsNoChange(ops: seq<Operation>, op: Operation)
    requires op.kind == Equal
    ensures Changes(ops + [op]) == Changes(ops) && Changes([op]) == []
  {
    ChangesConcat(ops, [op]);
    assert [op][1..] == [];
  }

  lemma SplitKeepsChanges(group: seq<Operation>, t: Operation, h: Operation,
                          rest: seq<seq<Operation>>, tail: seq<Operation>)
    requires t.kind == Equal && h.kind == Equal
    requires Changes(Flatten(rest)) == Changes([h]) + tail
    ensures Changes(Flatten([group + [t]] + rest)) == Changes(group) + tail
  {
    hide Flatten, Changes;
    FlattenCons(group + [t], rest);
    ChangesConcat(group + [t], Flatten(rest));
    EqualAddsNoChange(group, t);
    EqualAddsNoChange([], h);
    assert [] + tail == tail;
  }

  lemma GrowKeepsChanges(group: seq<Operation>, ops: seq<Operation>)
    requires ops != []
    ensures Changes(group + [ops[0]]) + Changes(ops[1..]) == Changes(group) + Changes(ops)
  {
    hide Changes;
    ChangesConcat(group, [ops[0]]);
    ChangesOfHead(ops);
    var a, b, c := Changes(group), Changes([ops[0]]), Changes(ops[1..]);
    assert (a + b) + c == a + (b + c);
  }

  lemma {:induction false} GroupFromChanges(ops: seq<Operation>, group: seq<Operation>, context: nat)
    ensures Changes(Flatten(GroupFrom(ops, group, context))) == Changes(group) + Changes(ops)
    decreases |ops|
  {
    hide Flatten, Changes;
    if ops == [] {
      LastKeepsChanges(group);
    } else if Splits(ops[0], context) {
      var h, t := TrimHead(ops[0], context), TrimTail(ops[0], context);
      GroupFromChanges(ops[1..], [h], context);
      SplitKeepsChanges(group, t, h, GroupFrom(ops[1..], [h], context), Changes(ops[1..]));
      ChangesOfHead(ops);
      EqualAddsNoChange([], ops[0]);
      assert [] + [ops[0]] == [ops[0]] && [] + Changes(ops[1..]) == Changes(ops[1..]);
    } else {
      GroupFromChanges(ops[1..], group + [ops[0]], context);
      GrowKeepsChanges(group, ops);
    }
  }

  lemma LastKeepsChanges(group: seq<Operation>)
    ensures Changes(Flatten(if group == [] then [] else [group])) == Changes(group) + Changes([])
  {
    if group != [] {
      FlattenCons(group, []);
      assert [group] + [] == [group] && group + [] == group;
    }
  }

  /** Reducing the context never drops, reorders or alters a change. */
  lemma GroupsKeepChanges<T>(x: Input<T>, context: nat)
    ensures Changes(Flatten(GroupedOperations(x, context))) == Changes(Operations(x))
  {
    hide Operations, GroupFrom;
    var ops := Operations(x);
    GroupFromChanges(EdgeExpanded(ops, context), [], context);
    if ops != [] && ops[0].kind == Equal {
      TrimLastChanges(ops[1..], context);
      var rest := TrimLast(ops[1..], context);
      assert ([TrimHead(ops[0], context)] + rest)[1..] == rest;
    } else {
      TrimLastChanges(ops, context);
    }
  }

  // ---------------------------------------------------------------- how much context is shown

  /** A common range with at most n elements on either side; any other operation is as long as it likes. */
  predicate AtMost(op: Operation, n: nat) {
    op.kind == Equal ==> op.fromEnd - op.fromBegin <= n && op.toEnd - op.toBegin <= n
  }

  /** A common range with exactly n elements on either side. */
  predicate Exactly(op: Operation, n: nat) {
    op.kind == Equal && op.fromEnd - op.fromBegin == n && op.toEnd - op.toBegin == n
  }

  /** Before and after its changes a group shows at most `context` elements, between two of them twice as many. */
  predicate Bounded(group: seq<Operation>, context: nat) {
    && (forall k :: 0 <= k < |group| ==> AtMost(group[k], 2 * context))
    && (group != [] ==> AtMost(group[0], context) && AtMost(group[|group| - 1], context))
  }

  /**
   Where two groups follow each other, the first ends and the second begins with exactly `context`
   elements, and at least one is left out between them.
   */
  predicate CutsExactly(groups: seq<seq<Operation>>, context: nat) {
    |groups| > 1 ==>
      && groups[0] != [] && Exactly(groups[0][|groups[0]| - 1], context)
      && groups[1] != [] && Exactly(groups[1][0], context)
      && groups[0][|groups[0]| - 1].fromEnd < groups[1][0].fromBegin
      && CutsExactly(groups[1..], context)
  }

  /** Common ranges are as long on both sides. */
  predicate Even(ops: seq<Operation>) {
    forall k :: 0 <= k < |ops| && ops[k].kind == Equal ==>
      && ops[k].fromBegin <= ops[k].fromEnd && ops[k].toBegin <= ops[k].toEnd
      && ops[k].fromEnd - ops[k].fromBegin == ops[k].toEnd - ops[k].toBegin
  }

  lemma SplitExactly(op: Operation, context: nat)
    requires Even([op]) && Splits(op, context)
    ensures Exactly(TrimTail(op, context), context) && Exactly(TrimHead(op, context), context)
    ensures TrimTail(op, context).fromEnd < TrimHead(op, context).fromBegin
  {
    assert [op][0].kind == Equal;
  }

  lemma InnerBounded(group: seq<Operation>, op: Operation, context: nat)
    requires (forall k :: 0 <= k < |group| ==> AtMost(group[k], 2 * context)) && AtMost(op, 2 * context)
    requires if group == [] then AtMost(op, context) else AtMost(group[0], context)
    ensures var g := group + [op];
            (forall k :: 0 <= k < |g| ==> AtMost(g[k], 2 * context)) && AtMost(g[0], context)
  {
    var g := group + [op];
    forall k | 0 <= k < |g|
      ensures AtMost(g[k], 2 * context)
    {
      if k < |group| {
        assert g[k] == group[k];
      }
    }
  }

  lemma {:induction false} GroupFromBounded(ops: seq<Operation>, group: seq<Operation>, context: nat)
    requires Even(ops) && (ops != [] ==> AtMost(ops[|ops| - 1], context))
    requires forall k :: 0 <= k < |group| ==> AtMost(group[k], 2 * context)
    requires group != [] ==> AtMost(group[0], context)
    requires group == [] && ops != [] ==> AtMost(ops[0], context)
    requires ops == [] && group != [] ==> AtMost(group[|group| - 1], context)
    ensures var groups := GroupFrom(ops, group, context);
            && (forall g :: g in groups ==> Bounded(g, context)) && CutsExactly(groups, context)
            && (group != [] ==> groups != [] && groups[0] != [] && groups[0][0] == group[0])
    decreases |ops|
  {
    if ops != [] {
      var op, rest := ops[0], ops[1..];
      assert Even(rest) && Even([op]);
      assert rest != [] ==> rest[|rest| - 1] == ops[|ops| - 1];
      hide Even;
      if Splits(op, context) {
        var t, h := TrimTail(op, context), TrimHead(op, context);
        SplitExactly(op, context);
        hide TrimTail, TrimHead, Splits;
        InnerBounded(group, t, context);
        assert AtMost(h, context);
        GroupFromBounded(rest, [h], context);
        CutsCons(group + [t], GroupFrom(rest, [h], context), context);
      } else {
        NoSplitAtMost(op, context);
        hide Splits;
        InnerBounded(group, op, context);
        GroupFromBounded(rest, group + [op], context);
      }
    }
  }

  lemma NoSplitAtMost(op: Operation, context: nat)
    requires Even([op]) && !Splits(op, context)
    ensures AtMost(op, 2 * context)
  {
    assert [op][0] == op;
  }

  lemma CutsCons(g: seq<Operation>, rest: seq<seq<Operation>>, context: nat)
    requires g != [] && Exactly(g[|g| - 1], context)
    requires CutsExactly(rest, context) && (rest != [] ==> rest[0] != [] && Exactly(rest[0][0], context))
    requires rest != [] ==> g[|g| - 1].fromEnd < rest[0][0].fromBegin
    ensures CutsExactly([g] + rest, context)
  {
    assert ([g] + rest)[1..] == rest;
  }

  lemma {:induction false} TilesEven<T>(x: Input<T>, ops: seq<Operation>, i: nat, j: nat, iEnd: nat, jEnd: nat)
    requires Tiles(x, ops, i, j, iEnd, jEnd)
    ensures Even(ops)
  {
    hide Same;
    if ops != [] {
      TilesEven(x, ops[1..], ops[0].fromEnd, ops[0].toEnd, iEnd, jEnd);
      assert forall k :: 1 <= k < |ops| ==> ops[k] == ops[1..][k - 1];
    }
  }

  lemma {:induction false} TrimLastBounded(ops: seq<Operation>, context: nat)
    requires ops != []
    ensures var r := TrimLast(ops, context);
            |r| == |ops| && AtMost(r[|r| - 1], context) && (|ops| > 1 ==> r[0] == ops[0])
  {
    if |ops| > 1 {
      TrimLastBounded(ops[1..], context);
    }
  }

  /** Nothing is left out before the operation, or it shows exactly `context` elements. */
  predicate StartsShown(op: Operation, context: nat) {
    (op.fromBegin == 0 && op.toBegin == 0) || Exactly(op, context)
  }

  /** Nothing is left out behind the operation, or it shows exactly `context` elements. */
  ghost predicate EndsShown<T>(x: Input<T>, op: Operation, context: nat) {
    (op.fromEnd == |x.from| && op.toEnd == |x.to|) || Exactly(op, context)
  }

  /** So it is where the first group starts and where the last one ends. */
  ghost predicate EndsExactly<T>(x: Input<T>, groups: seq<seq<Operation>>, context: nat) {
    && groups != [] && groups[0] != [] && StartsShown(groups[0][0], context)
    && var last := groups[|groups| - 1];
       last != [] && EndsShown(x, last[|last| - 1], context)
  }

  lemma {:induction false} TrimLastShown<T>(x: Input<T>, ops: seq<Operation>, context: nat, i: nat, j: nat)
    requires ops != [] && Tiles(x, ops, i, j, |x.from|, |x.to|)
    ensures TrimLast(ops, context) != [] && EndsShown(x, TrimLast(ops, context)[|TrimLast(ops, context)| - 1], context)
  {
    hide Same;
    if |ops| > 1 {
      TrimLastShown(x, ops[1..], context, ops[0].fromEnd, ops[0].toEnd);
      var r := TrimLast(ops[1..], context);
      assert TrimLast(ops, context) == [ops[0]] + r;
    }
  }

  lemma EdgesShown<T>(x: Input<T>, ops: seq<Operation>, context: nat)
    requires ValidScript(x, ops)
    ensures var r := EdgeExpanded(ops, context);
            r != [] && StartsShown(r[0], context) && EndsShown(x, r[|r| - 1], context)
  {
    hide Same;
    if ops != [] {
      if ops[0].kind != Equal {
        TrimLastBounded(ops, context);
        TrimLastShown(x, ops, context, 0, 0);
      } else if |ops| > 1 {
        var r := TrimLast(ops[1..], context);
        TrimLastShown(x, ops[1..], context, ops[0].fromEnd, ops[0].toEnd);
        assert EdgeExpanded(ops, context) == [TrimHead(ops[0], context)] + r;
      } else {
        assert ops[1..] == [] && Tiles(x, [], ops[0].fromEnd, ops[0].toEnd, |x.from|, |x.to|);
        assert EdgeExpanded(ops, context) == [TrimHead(ops[0], context)] + TrimLast([], context);
        assert EdgeExpanded(ops, context)[0] == TrimHead(ops[0], context);
      }
    }
  }

  /** Grouping keeps the first and the last operation at the ends, unless they are cut. */
  lemma {:induction false} GroupFromEdges(ops: seq<Operation>, group: seq<Operation>, context: nat)
    requires group + ops != []
    requires group == [] ==> !Splits(ops[0], context)
    requires ops != [] ==> !Splits(ops[|ops| - 1], context)
    ensures var groups := GroupFrom(ops, group, context);
            && groups != [] && groups[0] != [] && groups[0][0] == (group + ops)[0]
            && var last := groups[|groups| - 1];
            && last != [] && last[|last| - 1] == (group + ops)[|group + ops| - 1]
    decreases |ops|
  {
    hide Splits, TrimHead, TrimTail;
    if ops != [] {
      var op, rest := ops[0], ops[1..];
      assert rest != [] ==> rest[|rest| - 1] == ops[|ops| - 1];
      if Splits(op, context) {
        GroupFromEdges(rest, [TrimHead(op, context)], context);
      } else {
        assert group + [op] + rest == group + ops;
        GroupFromEdges(rest, group + [op], context);
      }
    }
  }

  /** The edges of the expanded script: the first and the last common range have been reduced. */
  lemma EdgesBounded(ops: seq<Operation>, context: nat)
    ensures var r := EdgeExpanded(ops, context);
            r != [] && AtMost(r[0], context) && AtMost(r[|r| - 1], context)
  {
    if ops != [] {
      if ops[0].kind != Equal {
        TrimLastBounded(ops, context);
      } else if |ops| > 1 {
        TrimLastBounded(ops[1..], context);
      }
    }
  }

  lemma EdgesUncut(ops: seq<Operation>, context: nat)
    requires ops != [] && AtMost(ops[0], context) && AtMost(ops[|ops| - 1], context)
    ensures !Splits(ops[0], context) && !Splits(ops[|ops| - 1], context)
  {
  }

  /**
   A context diff shows what it is asked to show and no more: at most `context` common elements
   before and after the changes of a group, at most twice as many between two of its changes, and
   exactly `context` on each side of every place where common elements are left out.
   */
  lemma ContextShown<T>(x: Input<T>, context: nat)
    ensures forall g :: g in GroupedOperations(x, context) ==> Bounded(g, context)
    ensures CutsExactly(GroupedOperations(x, context), context)
    ensures EndsExactly(x, GroupedOperations(x, context), context)
  {
    hide Operations, Tiles, GroupFrom, EdgeExpanded, StartsShown, EndsShown;
    OperationsValid(x);
    EdgesShown(x, Operations(x), context);
    var ops := EdgeExpanded(Operations(x), context);
    var i, j, iEnd, jEnd := EdgeExpandedTiles(x, Operations(x), context);
    TilesEven(x, ops, i, j, iEnd, jEnd);
    EdgesBounded(Operations(x), context);
    GroupFromBounded(ops, [], context);
    EdgesUncut(ops, context);
    assert [] + ops == ops;
    GroupFromEdges(ops, [], context);
  }

  // ---------------------------------------------------------------- same content

  /** One group holding one equal operation at the same place on both sides. */
  predicate IsSameContent(groups: seq<seq<Operation>>) {
    && |groups| == 1 && |groups[0]| == 1
    && var op := groups[0][0];
       op.kind == Equal && op.fromBegin == op.toBegin && op.fromEnd == op.toEnd
  }

  lemma EqualSequencesMatches<T>(x: Input<T>)
    requires x.from == x.to && x.from != [] && !HasJunk(x)
    ensures Matches(x, Whole(x)) == [Match(0, 0, |x.from|)]
  {
    var n, w := |x.from|, Whole(x);
    SameIsEqualSlices(x, 0, 0, n);
    BestMatchIsFirstLongest(x, w);
    assert CleanRun(x, w, 0, 0, n);
    assert LongestMatch(x, w) == Match(0, 0, n);
  }

  lemma WholeBlockOperations(n: nat)
    requires n > 0
    ensures OperationsFrom(BlocksFrom([Match(0, 0, n)], Match(0, 0, 0)) + [Match(n, n, 0)], 0, 0)
            == [Operation(Equal, 0, n, 0, n)]
  {
    var m, sentinel := Match(0, 0, n), Match(n, n, 0);
    assert BlocksFrom([m][1..], m) == [m];
    assert OperationsFrom([sentinel][1..], n, n) == [];
    assert [m, sentinel][1..] == [sentinel];
    assert OperationsFrom([sentinel], n, n) == [];
  }

  lemma EqualSequencesOperations<T>(x: Input<T>)
    requires x.from == x.to && x.from != [] && !HasJunk(x)
    ensures Operations(x) == [Operation(Equal, 0, |x.from|, 0, |x.to|)]
  {
    EqualSequencesMatches(x);
    WholeBlockOperations(|x.from|);
  }

  lemma OneOperationGroup(op: Operation, context: nat)
    requires !Splits(op, context)
    ensures GroupFrom([op], [], context) == [[op]]
  {
    assert [op][1..] == [] && [] + [op] == [op];
  }

  lemma EqualSequencesGroups<T>(x: Input<T>, context: nat)
    requires x.from == x.to && !HasJunk(x)
    ensures IsSameContent(GroupedOperations(x, context))
  {
    hide Operations;
    if x.from == [] {
      EmptyOperations(x);
      OneOperationGroup(Operation(Equal, 0, 0, 0, 0), context);
    } else {
      EqualSequencesOperations(x);
      OneOperationGroup(TrimHead(Operation(Equal, 0, |x.from|, 0, |x.to|), context), context);
    }
  }

  /** The early exit of a context diff is taken exactly when there is no difference. */
  lemma SameContentIff<T>(x: Input<T>, context: nat)
    requires !HasJunk(x)
    ensures IsSameContent(GroupedOperations(x, context)) <==> x.from == x.to
  {
    hide GroupedOperations, Covers;
    var groups := GroupedOperations(x, context);
    if IsSameContent(groups) {
      GroupsCover(x, context);
      assert groups[0] == [groups[0][0]] && groups == [groups[0]];
      SingleEqualGroup(x, groups[0][0], groups);
    }
    if x.from == x.to {
      EqualSequencesGroups(x, context);
    }
  }

  lemma SingleEqualGroup<T>(x: Input<T>, op: Operation, groups: seq<seq<Operation>>)
    requires groups == [[op]] && op.kind == Equal && Covers(x, groups, 0, 0)
    ensures x.from == x.to
  {
    assert groups[1..] == [];
    var n := op.fromEnd - op.fromBegin;
    assert Gap(x, op.fromEnd, op.toEnd, |x.from|, |x.to|);
    assert Tiles(x, [op], op.fromBegin, op.toBegin, op.fromEnd, op.toEnd);
    SameConcat(x, 0, 0, op.fromBegin, n);
    SameConcat(x, 0, 0, op.fromEnd, |x.from| - op.fromEnd);
    SameIsEqualSlices(x, 0, 0, |x.from|);
  }

  lemma EmptyOperations<T>(x: Input<T>)
    requires x.from == [] && x.to == []
    ensures Operations(x) == []
  {
    hide Operations;
    OperationsValid(x);
  }
}
