/**
 The coloured presentation of a changed pair of lines: one row of segments, or two rows when
 part of the line was replaced (cut-colorize-differ.c).
 */
module ColorRows {
  import opened Seqs
  import opened Edits
  import opened MatchSpec
  import opened LineDiff
  import opened CharDiff
  import opened DiffWriter

  /** A piece of a line; nothing if the range is empty or reversed. */
  function Part(line: string, begin: nat, end: nat): string {
    if begin <= end <= |line| then line[begin..end] else ""
  }

  ghost function FromPart(x: Input<char>, op: Operation): string { Part(x.from, op.fromBegin, op.fromEnd) }

  ghost function ToPart(x: Input<char>, op: Operation): string { Part(x.to, op.toBegin, op.toEnd) }

  /** What one operation writes at once. */
  ghost function First(wide: Wide, noReplace: bool, x: Input<char>, op: Operation): seq<Event> {
    var fromWidth, toWidth := Width(wide, FromPart(x, op)), Width(wide, ToPart(x, op));
    match op.kind
    case Equal => [Event(FromPart(x, op), EqualSegment)]
    case Insert =>
      if noReplace then [Event(ToPart(x, op), InsertedSegment)]
      else [Event(Spaces(wide, ToPart(x, op)), DifferenceSegment)]
    case Delete => [Event(FromPart(x, op), DeletedSegment)]
    case Replace =>
      [Event(FromPart(x, op), DeletedSegment)]
      + if fromWidth < toWidth
        then [Event(Spaces(wide, Part(x.to, op.toBegin + fromWidth, op.toEnd)), DifferenceSegment)] else []
  }

  /** What one operation defers to the second row. */
  ghost function Second(wide: Wide, noReplace: bool, x: Input<char>, op: Operation): seq<Event> {
    var fromWidth, toWidth := Width(wide, FromPart(x, op)), Width(wide, ToPart(x, op));
    match op.kind
    case Equal => if noReplace then [] else [Event(Spaces(wide, FromPart(x, op)), EqualSegment)]
    case Insert => if noReplace then [] else [Event(ToPart(x, op), InsertedSegment)]
    case Delete => if noReplace then [] else [Event(Spaces(wide, FromPart(x, op)), DifferenceSegment)]
    case Replace =>
      [Event(ToPart(x, op), InsertedSegment)]
      + if toWidth < fromWidth
        then [Event(Spaces(wide, Part(x.from, op.fromBegin + toWidth, op.fromEnd)), DifferenceSegment)] else []
  }

  ghost function FirstRow(wide: Wide, noReplace: bool, x: Input<char>, ops: seq<Operation>): seq<Event> {
    if ops == [] then [] else First(wide, noReplace, x, ops[0]) + FirstRow(wide, noReplace, x, ops[1..])
  }

  ghost function SecondRow(wide: Wide, noReplace: bool, x: Input<char>, ops: seq<Operation>): seq<Event> {
    if ops == [] then [] else Second(wide, noReplace, x, ops[0]) + SecondRow(wide, noReplace, x, ops[1..])
  }

  /** Everything written for a changed pair of lines. */
  ghost function RowEvents(wide: Wide, x: Input<char>, ops: seq<Operation>): seq<Event> {
    var noReplace := !HasKind(ops, Replace);
    var second := SecondRow(wide, noReplace, x, ops);
    Row(FirstRow(wide, noReplace, x, ops)) + if second == [] then [] else Row(second)
  }

  ghost function Row(segments: seq<Event>): seq<Event> {
    MarkEvents("?", " ", DifferenceMark) + segments + [Event("", NoTag), Event("\n", NoTag)]
  }

  // ---------------------------------------------------------------- nothing is lost

  /** The segments of a row that belong to the old line. */
  function ReadFrom(row: seq<Event>): string {
    if row == [] then ""
    else (if row[0].tag == EqualSegment || row[0].tag == DeletedSegment then row[0].text else "") + ReadFrom(row[1..])
  }

  /** The segments of a single row that belong to the new line. */
  function ReadInserted(row: seq<Event>): string {
    if row == [] then ""
    else
      (if row[0].tag == EqualSegment || row[0].tag == InsertedSegment then row[0].text else "")
      + ReadInserted(row[1..])
  }

  /** The common segments of the first row, in order. */
  function EqualTexts(row: seq<Event>): seq<string> {
    if row == [] then []
    else (if row[0].tag == EqualSegment then [row[0].text] else []) + EqualTexts(row[1..])
  }

  /** The new line from the second row, its gaps filled with the common segments of the first. */
  function FillGaps(equals: seq<string>, second: seq<Event>): string {
    if second == [] then ""
    else if second[0].tag == InsertedSegment then second[0].text + FillGaps(equals, second[1..])
    else if second[0].tag == EqualSegment && equals != [] then equals[0] + FillGaps(equals[1..], second[1..])
    else FillGaps(equals, second[1..])
  }

  /** Reading the new line off one or two rows. */
  function ReadTo(first: seq<Event>, second: seq<Event>): string {
    if second == [] then ReadInserted(first) else FillGaps(EqualTexts(first), second)
  }

  lemma ReadConcat(a: seq<Event>, b: seq<Event>)
    ensures ReadFrom(a + b) == ReadFrom(a) + ReadFrom(b)
    ensures ReadInserted(a + b) == ReadInserted(a) + ReadInserted(b)
    ensures EqualTexts(a + b) == EqualTexts(a) + EqualTexts(b)
  {
    ReadFromConcat(a, b);
    ReadInsertedConcat(a, b);
    EqualTextsConcat(a, b);
  }

  lemma NothingReads()
    ensures ReadFrom([]) == "" && ReadInserted([]) == "" && EqualTexts([]) == []
  {
  }

  lemma ReadsCons(row: seq<Event>)
    requires row != []
    ensures ReadFrom(row) == ReadFrom([row[0]]) + ReadFrom(row[1..])
    ensures ReadInserted(row) == ReadInserted([row[0]]) + ReadInserted(row[1..])
    ensures EqualTexts(row) == EqualTexts([row[0]]) + EqualTexts(row[1..])
  {
    OneReads(row[0]);
  }

  lemma {:induction false} ReadFromConcat(a: seq<Event>, b: seq<Event>)
    ensures ReadFrom(a + b) == ReadFrom(a) + ReadFrom(b)
  {
    hide *;
    if a == [] {
      NothingReads();
      EmptyHead(b);
      EmptyHead(ReadFrom(b));
    } else {
      ReadsCons(a);
      ReadsCons(a + b);
      assert (a + b)[0] == a[0] && (a + b)[1..] == a[1..] + b;
      ReadFromConcat(a[1..], b);
      Associate(ReadFrom([a[0]]), ReadFrom(a[1..]), ReadFrom(b));
    }
  }

  lemma {:induction false} ReadInsertedConcat(a: seq<Event>, b: seq<Event>)
    ensures ReadInserted(a + b) == ReadInserted(a) + ReadInserted(b)
  {
    hide *;
    if a == [] {
      NothingReads();
      EmptyHead(b);
      EmptyHead(ReadInserted(b));
    } else {
      ReadsCons(a);
      ReadsCons(a + b);
      assert (a + b)[0] == a[0] && (a + b)[1..] == a[1..] + b;
      ReadInsertedConcat(a[1..], b);
      Associate(ReadInserted([a[0]]), ReadInserted(a[1..]), ReadInserted(b));
    }
  }

  lemma {:induction false} EqualTextsConcat(a: seq<Event>, b: seq<Event>)
    ensures EqualTexts(a + b) == EqualTexts(a) + EqualTexts(b)
  {
    hide *;
    if a == [] {
      NothingReads();
      EmptyHead(b);
      EmptyHead(EqualTexts(b));
    } else {
      ReadsCons(a);
      ReadsCons(a + b);
      assert (a + b)[0] == a[0] && (a + b)[1..] == a[1..] + b;
      EqualTextsConcat(a[1..], b);
      Associate(EqualTexts([a[0]]), EqualTexts(a[1..]), EqualTexts(b));
    }
  }

  lemma OneReads(e: Event)
    ensures ReadFrom([e]) == if e.tag == EqualSegment || e.tag == DeletedSegment then e.text else ""
    ensures ReadInserted([e]) == if e.tag == EqualSegment || e.tag == InsertedSegment then e.text else ""
    ensures EqualTexts([e]) == if e.tag == EqualSegment then [e.text] else []
  {
    assert [e][1..] == [];
  }

  lemma EqualParts(x: Input<char>, op: Operation)
    requires ValidOperation(x, op) && op.kind == Equal
    ensures FromPart(x, op) == ToPart(x, op)
  {
    SameIsEqualSlices(x, op.fromBegin, op.toBegin, op.fromEnd - op.fromBegin);
  }

  /** What one operation contributes to reading the rows back. */
  lemma FirstReads(wide: Wide, noReplace: bool, x: Input<char>, op: Operation)
    requires ValidOperation(x, op)
    ensures ReadFrom(First(wide, noReplace, x, op)) == FromPart(x, op)
    ensures noReplace && op.kind != Replace ==> ReadInserted(First(wide, noReplace, x, op)) == ToPart(x, op)
    ensures EqualTexts(First(wide, noReplace, x, op)) == if op.kind == Equal then [ToPart(x, op)] else []
  {
    if op.kind == Equal { EqualParts(x, op); }
    var f := First(wide, noReplace, x, op);
    hide Spaces, Width, Same, ReadFrom, ReadInserted, EqualTexts;
    OneReads(f[0]);
    if |f| == 1 {
      assert f == [f[0]];
    } else {
      assert f == [f[0]] + [f[1]];
      OneReads(f[1]);
      ReadConcat([f[0]], [f[1]]);
    }
  }

  lemma SecondReads(wide: Wide, x: Input<char>, op: Operation, equals: seq<string>, rest: seq<Event>)
    requires ValidOperation(x, op)
    ensures op.kind == Equal && equals != [] ==>
              FillGaps(equals, Second(wide, false, x, op) + rest) == equals[0] + FillGaps(equals[1..], rest)
    ensures op.kind != Equal ==>
              FillGaps(equals, Second(wide, false, x, op) + rest) == ToPart(x, op) + FillGaps(equals, rest)
  {
    var s := Second(wide, false, x, op);
    hide Spaces, Width, Same;
    assert (s + rest)[1..] == s[1..] + rest;
    assert |s| == 1 ==> s[1..] + rest == rest;
    assert |s| == 2 ==> (s[1..] + rest)[0] == s[1] && (s[1..] + rest)[1..] == rest;
    assert |s| == 1 || |s| == 2;
  }

  lemma JoinParts(line: string, i: nat, j: nat, k: nat)
    requires i <= j <= k <= |line|
    ensures Part(line, i, j) + line[j..k] == line[i..k]
  {
  }

  lemma {:induction false} RowsRead(wide: Wide, noReplace: bool, x: Input<char>, ops: seq<Operation>,
                                    i: nat, j: nat, iEnd: nat, jEnd: nat)
    requires Tiles(x, ops, i, j, iEnd, jEnd) && i <= iEnd <= |x.from| && j <= jEnd <= |x.to|
    requires noReplace ==> !HasKind(ops, Replace)
    ensures ReadFrom(FirstRow(wide, noReplace, x, ops)) == x.from[i..iEnd]
    ensures noReplace ==> ReadInserted(FirstRow(wide, noReplace, x, ops)) == x.to[j..jEnd]
    ensures !noReplace ==>
              FillGaps(EqualTexts(FirstRow(wide, noReplace, x, ops)), SecondRow(wide, noReplace, x, ops))
                  == x.to[j..jEnd]
  {
    if ops != [] {
      var op, rest := ops[0], ops[1..];
      TilesBounds(x, rest, op.fromEnd, op.toEnd, iEnd, jEnd);
      assert noReplace ==> op.kind != Replace;
      assert HasKind(rest, Replace) ==> HasKind(ops, Replace) by {
        if HasKind(rest, Replace) {
          var k :| 0 <= k < |rest| && rest[k].kind == Replace;
          assert ops[k + 1].kind == Replace;
        }
      }
      RowsRead(wide, noReplace, x, rest, op.fromEnd, op.toEnd, iEnd, jEnd);
      FirstReads(wide, noReplace, x, op);
      var first, restRow := First(wide, noReplace, x, op), FirstRow(wide, noReplace, x, rest);
      var second, restSecond := Second(wide, noReplace, x, op), SecondRow(wide, noReplace, x, rest);
      assert FirstRow(wide, noReplace, x, ops) == first + restRow;
      assert SecondRow(wide, noReplace, x, ops) == second + restSecond;
      hide First, Second, FirstRow, SecondRow, Tiles, ReadFrom, ReadInserted, EqualTexts, FillGaps, HasKind;
      ReadConcat(first, restRow);
      JoinParts(x.from, i, op.fromEnd, iEnd);
      JoinParts(x.to, j, op.toEnd, jEnd);
      if !noReplace {
        var equals := EqualTexts(first) + EqualTexts(restRow);
        SecondReads(wide, x, op, equals, restSecond);
        assert op.kind == Equal ==> equals[0] == ToPart(x, op) && equals[1..] == EqualTexts(restRow);
        assert op.kind != Equal ==> equals == EqualTexts(restRow);
      }
    }
  }

  lemma {:induction false} TilesBounds(x: Input<char>, ops: seq<Operation>, i: nat, j: nat, iEnd: nat, jEnd: nat)
    requires Tiles(x, ops, i, j, iEnd, jEnd)
    ensures i <= iEnd && j <= jEnd
  {
    if ops != [] {
      TilesBounds(x, ops[1..], ops[0].fromEnd, ops[0].toEnd, iEnd, jEnd);
    }
  }

  lemma {:induction false} SecondRowEmpty(wide: Wide, noReplace: bool, x: Input<char>, ops: seq<Operation>)
    ensures noReplace && !HasKind(ops, Replace) ==> SecondRow(wide, noReplace, x, ops) == []
    ensures !noReplace && ops != [] ==> SecondRow(wide, noReplace, x, ops) != []
  {
    if ops != [] {
      SecondRowEmpty(wide, noReplace, x, ops[1..]);
      if HasKind(ops[1..], Replace) {
        var k :| 0 <= k < |ops[1..]| && ops[1..][k].kind == Replace;
        assert ops[k + 1].kind == Replace;
      }
      assert HasKind(ops, Replace) || ops[0].kind != Replace;
    }
  }

  /** Both lines of a changed pair can be read off the rows written for it. */
  lemma RowsRoundTrip(wide: Wide, x: Input<char>, ops: seq<Operation>)
    requires ValidScript(x, ops)
    ensures var noReplace := !HasKind(ops, Replace);
            var first, second := FirstRow(wide, noReplace, x, ops), SecondRow(wide, noReplace, x, ops);
            ReadFrom(first) == x.from && ReadTo(first, second) == x.to
  {
    var noReplace := !HasKind(ops, Replace);
    RowsRead(wide, noReplace, x, ops, 0, 0, |x.from|, |x.to|);
    SecondRowEmpty(wide, noReplace, x, ops);
    assert x.from[0..|x.from|] == x.from && x.to[0..|x.to|] == x.to;
  }

  // ---------------------------------------------------------------- rows line up

  ghost function RowWidth(wide: Wide, row: seq<Event>): nat {
    if row == [] then 0 else Width(wide, row[0].text) + RowWidth(wide, row[1..])
  }

  ghost predicate Narrow(wide: Wide, s: string) {
    forall c :: c in s ==> CharWidth(wide, c) == 1
  }

  lemma {:induction false} NarrowWidth(wide: Wide, s: string)
    ensures Width(wide, s) >= |s|
    ensures Width(wide, s) == |s| <==> Narrow(wide, s)
  {
    if s != [] {
      NarrowWidth(wide, s[..|s| - 1]);
      assert s == s[..|s| - 1] + [s[|s| - 1]];
    }
  }

  /**
   The wider side has at least as many characters as the narrower side has columns, and that
   many of its first characters are one column wide.
   */
  ghost predicate NarrowStart(wide: Wide, wider: string, columns: nat) {
    columns <= |wider| && Narrow(wide, wider[..columns])
  }

  /** The condition under which the padding of an operation is as wide as intended. */
  ghost predicate PadFits(wide: Wide, x: Input<char>, op: Operation) {
    var fromWidth, toWidth := Width(wide, FromPart(x, op)), Width(wide, ToPart(x, op));
    op.kind == Replace ==>
      && (fromWidth < toWidth ==> NarrowStart(wide, ToPart(x, op), fromWidth))
      && (toWidth < fromWidth ==> NarrowStart(wide, FromPart(x, op), toWidth))
  }

  /** The padding put after the narrower side, given as characters of the wider side. */
  lemma PadWidth(wide: Wide, line: string, begin: nat, end: nat, columns: nat)
    requires begin <= end <= |line| && columns < Width(wide, line[begin..end])
    ensures columns + Width(wide, Part(line, begin + columns, end)) == Width(wide, line[begin..end])
            <==> NarrowStart(wide, line[begin..end], columns)
  {
    var s := line[begin..end];
    if columns <= |s| {
      assert s == s[..columns] + s[columns..] && line[begin + columns..end] == s[columns..];
      WidthConcat(wide, s[..columns], s[columns..]);
      NarrowWidth(wide, s[..columns]);
    } else {
      assert Part(line, begin + columns, end) == "";
    }
  }

  lemma OneWidth(wide: Wide, e: Event)
    ensures RowWidth(wide, [e]) == Width(wide, e.text)
  {
    hide Width;
    assert [e][1..] == [];
  }

  lemma TwoWidths(wide: Wide, e: Event, f: Event)
    ensures RowWidth(wide, [e] + [f]) == Width(wide, e.text) + Width(wide, f.text)
  {
    hide Width;
    assert ([e] + [f])[1..] == [f];
    OneWidth(wide, f);
  }

  /** An operation takes the same width in both rows exactly when its padding fits. */
  lemma OperationAligned(wide: Wide, x: Input<char>, op: Operation)
    requires ValidOperation(x, op)
    ensures RowWidth(wide, First(wide, false, x, op)) == RowWidth(wide, Second(wide, false, x, op))
            <==> PadFits(wide, x, op)
  {
    var f, t := FromPart(x, op), ToPart(x, op);
    var fromWidth, toWidth := Width(wide, f), Width(wide, t);
    var a, b := First(wide, false, x, op), Second(wide, false, x, op);
    SpacesWidth(wide, f);
    SpacesWidth(wide, t);
    hide Same, Spaces, Width, RowWidth, NarrowStart;
    OneWidth(wide, a[0]);
    OneWidth(wide, b[0]);
    if op.kind == Replace && fromWidth < toWidth {
      var pad := Part(x.to, op.toBegin + fromWidth, op.toEnd);
      SpacesWidth(wide, pad);
      TwoWidths(wide, a[0], a[1]);
      assert a == [a[0]] + [a[1]] && b == [b[0]];
      PadWidth(wide, x.to, op.toBegin, op.toEnd, fromWidth);
    } else if op.kind == Replace && toWidth < fromWidth {
      var pad := Part(x.from, op.fromBegin + toWidth, op.fromEnd);
      SpacesWidth(wide, pad);
      TwoWidths(wide, b[0], b[1]);
      assert b == [b[0]] + [b[1]] && a == [a[0]];
      PadWidth(wide, x.from, op.fromBegin, op.fromEnd, toWidth);
    } else {
      assert a == [a[0]] && b == [b[0]];
    }
  }

  lemma {:induction false} RowWidthConcat(wide: Wide, a: seq<Event>, b: seq<Event>)
    ensures RowWidth(wide, a + b) == RowWidth(wide, a) + RowWidth(wide, b)
  {
    hide Width;
    if a == [] {
      assert a + b == b;
    } else {
      assert (a + b)[1..] == a[1..] + b;
      RowWidthConcat(wide, a[1..], b);
    }
  }

  /** Operation k starts at the same column in both rows (k past the end: the rows end together). */
  ghost predicate StartsAligned(wide: Wide, x: Input<char>, ops: seq<Operation>, k: nat)
    requires k <= |ops|
  {
    RowWidth(wide, FirstRow(wide, false, x, ops[..k])) == RowWidth(wide, SecondRow(wide, false, x, ops[..k]))
  }

  lemma {:induction false} RowSnoc(wide: Wide, noReplace: bool, x: Input<char>, ops: seq<Operation>, op: Operation)
    ensures FirstRow(wide, noReplace, x, ops + [op])
            == FirstRow(wide, noReplace, x, ops) + First(wide, noReplace, x, op)
    ensures SecondRow(wide, noReplace, x, ops + [op])
            == SecondRow(wide, noReplace, x, ops) + Second(wide, noReplace, x, op)
  {
    hide First, Second;
    if ops == [] {
      assert [op][1..] == [] && [] + [op] == [op];
    } else {
      assert (ops + [op])[1..] == ops[1..] + [op];
      RowSnoc(wide, noReplace, x, ops[1..], op);
    }
  }

  lemma NextAligned(wide: Wide, x: Input<char>, ops: seq<Operation>, k: nat)
    requires k < |ops| && ValidOperation(x, ops[k]) && StartsAligned(wide, x, ops, k)
    ensures StartsAligned(wide, x, ops, k + 1) <==> PadFits(wide, x, ops[k])
  {
    assert ops[..k + 1] == ops[..k] + [ops[k]];
    RowSnoc(wide, false, x, ops[..k], ops[k]);
    OperationAligned(wide, x, ops[k]);
    hide First, Second, FirstRow, SecondRow, RowWidth, PadFits, ValidOperation;
    RowWidthConcat(wide, FirstRow(wide, false, x, ops[..k]), First(wide, false, x, ops[k]));
    RowWidthConcat(wide, SecondRow(wide, false, x, ops[..k]), Second(wide, false, x, ops[k]));
  }

  lemma {:induction false} FitsAligned(wide: Wide, x: Input<char>, ops: seq<Operation>, k: nat)
    requires k <= |ops| && forall n :: 0 <= n < |ops| ==> ValidOperation(x, ops[n]) && PadFits(wide, x, ops[n])
    ensures StartsAligned(wide, x, ops, k)
    decreases k
  {
    if k == 0 {
      assert ops[..0] == [];
    } else {
      FitsAligned(wide, x, ops, k - 1);
      hide PadFits, StartsAligned, ValidOperation;
      NextAligned(wide, x, ops, k - 1);
    }
  }

  /**
   The two rows stay aligned at every operation exactly when each replaced part satisfies the
   padding condition; tabs and wide characters anywhere else do no harm.
   */
  lemma RowsAligned(wide: Wide, x: Input<char>, ops: seq<Operation>)
    requires ValidScript(x, ops)
    ensures (forall k {:trigger StartsAligned(wide, x, ops, k)} :: 0 <= k <= |ops| ==> StartsAligned(wide, x, ops, k))
            <==> forall k :: 0 <= k < |ops| ==> PadFits(wide, x, ops[k])
  {
    TilesInLine(x, FromSide, ops, 0, 0, |x.from|, |x.to|);
    hide PadFits, StartsAligned, ValidOperation, Tiles;
    if forall k {:trigger StartsAligned(wide, x, ops, k)} :: 0 <= k <= |ops| ==> StartsAligned(wide, x, ops, k) {
      forall k | 0 <= k < |ops| ensures PadFits(wide, x, ops[k]) {
        assert StartsAligned(wide, x, ops, k) && StartsAligned(wide, x, ops, k + 1);
        NextAligned(wide, x, ops, k);
      }
    }
    if forall k :: 0 <= k < |ops| ==> PadFits(wide, x, ops[k]) {
      forall k | 0 <= k <= |ops| ensures StartsAligned(wide, x, ops, k) {
        FitsAligned(wide, x, ops, k);
      }
    }
  }

  /** In particular the padding fits when the wider side is made of one-column characters. */
  lemma NarrowPadFits(wide: Wide, x: Input<char>, op: Operation)
    requires ValidOperation(x, op)
    requires op.kind == Replace && Width(wide, FromPart(x, op)) < Width(wide, ToPart(x, op))
             ==> Narrow(wide, ToPart(x, op))
    requires op.kind == Replace && Width(wide, ToPart(x, op)) < Width(wide, FromPart(x, op))
             ==> Narrow(wide, FromPart(x, op))
    ensures PadFits(wide, x, op)
  {
    NarrowWidth(wide, FromPart(x, op));
    NarrowWidth(wide, ToPart(x, op));
  }

  // ---------------------------------------------------------------- rows that do not line up

  /** Lines without a common character are replaced as a whole. */
  lemma NothingShared(a: string, b: string)
    requires a != "" && b != "" && forall c :: c in a ==> c !in b
    ensures Operations(CharInput(a, b)) == [Operation(Replace, 0, |a|, 0, |b|)]
  {
    var x := CharInput(a, b);
    var m := LongestMatch(x, Whole(x));
    if m.size > 0 {
      SharedCharacter(x, m);
    }
    assert Matches(x, Whole(x)) == [];
    hide LongestMatch, Matches;
    var end := Match(|a|, |b|, 0);
    assert BlocksFrom([], Match(0, 0, 0)) == [];
    assert Blocks(x) == [end] && [end][1..] == [];
    assert OperationsFrom([end], 0, 0) == GapBefore(end, 0, 0) + BlockOperation(end) + [];
  }

  lemma SharedCharacter(x: Input<char>, m: Match)
    requires GoodMatch(x, Whole(x), m) && m.size > 0
    ensures exists c :: c in x.from && c in x.to
  {
    SameIsEqualSlices(x, m.from, m.to, m.size);
    assert x.from[m.from] == x.from[m.from..m.from + m.size][0] == x.to[m.to..m.to + m.size][0] == x.to[m.to];
    hide Same;
    assert x.from[m.from] in x.from && x.from[m.from] in x.to;
  }

  /** A tab on the wider side: the padding skips a character for a column, and the rows do not end together. */
  lemma MisalignedExample(wide: Wide)
    ensures var x := CharInput("a", "\tb");
            && Operations(x) == [Operation(Replace, 0, 1, 0, 2)]
            && !PadFits(wide, x, Operations(x)[0])
            && exists k :: 0 <= k <= 1 && !StartsAligned(wide, x, Operations(x), k)
  {
    hide *;
    var x := CharInput("a", "\tb");
    NothingShared("a", "\tb");
    OperationsValid(x);
    RowsAligned(wide, x, Operations(x));
    TabMisfit(wide);
  }

  lemma TabMisfit(wide: Wide)
    ensures !PadFits(wide, CharInput("a", "\tb"), Operation(Replace, 0, 1, 0, 2))
  {
    assert 'a' as int < 128 && 'b' as int < 128 && '\t' as int < 128;
    assert Width(wide, "a") == 1 by { assert "a"[..0] == ""; }
    assert Width(wide, "\t") == 8 by { assert "\t"[..0] == ""; }
    assert Width(wide, "\tb") == 9 by { assert "\tb"[..1] == "\t"; }
    assert "\tb"[..1][0] == '\t';
    hide Width;
  }
}
