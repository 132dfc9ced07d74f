/**
 The differ object and its two presentations, readable and coloured
 (cut-differ.c, cut-readable-differ.c, cut-colorize-differ.c).
 */
module Differ {
  import opened Seqs
  import opened Edits
  import opened MatchSpec
  import opened Similarity
  import opened GroupSpec
  import opened SequenceMatcher
  import opened LineDiff
  import opened CharDiff
  import opened ColorRows
  import opened DiffWriter
  import opened Lines
  import opened DiffText
  import opened Decimal
  import opened Patch

  /** The class of a differ, deciding how a changed pair of lines is shown. */
  datatype Style = Readable | Colorize

  function RuleOf(style: Style): Rule {
    if style == Readable then READABLE else COLORIZE
  }

  // ---------------------------------------------------------------- what is written

  ghost function StepEvents(style: Style, wide: Wide, x: Input<string>, s: Step): seq<Event> {
    if s.Paired? && style == Colorize then
      var pair := CharInput(At(x.from, s.i), At(x.to, s.j));
      RowEvents(wide, pair, Operations(pair))
    else LinesEvents(PrintStep(wide, x, s))
  }

  ghost function ScriptEvents(style: Style, wide: Wide, x: Input<string>, steps: seq<Step>): seq<Event> {
    if steps == [] then [] else StepEvents(style, wide, x, steps[0]) + ScriptEvents(style, wide, x, steps[1..])
  }

  ghost function GroupsEvents(style: Style, wide: Wide, x: Input<string>, groups: seq<seq<Operation>>): seq<Event>
    requires ValidGroups(x, groups)
  {
    if groups == [] then []
    else [Event(Header(groups[0]), Summary), Event("\n", NoTag)]
         + ScriptEvents(style, wide, x, Script(x, RuleOf(style), groups[0]))
         + GroupsEvents(style, wide, x, groups[1..])
  }

  /** Everything a differ writes for a context size; zero means the whole script. */
  ghost function DiffEvents(style: Style, wide: Wide, x: Input<string>, context: nat): seq<Event> {
    if context == 0 then
      OperationsValid(x);
      TilesAllValid(x, Operations(x), 0, 0, |x.from|, |x.to|);
      ScriptEvents(style, wide, x, Script(x, RuleOf(style), Operations(x)))
    else GroupsEvents(style, wide, x, ShownGroups(x, context))
  }

  lemma {:induction false} ScriptEventsConcat(style: Style, wide: Wide, x: Input<string>, a: seq<Step>, b: seq<Step>)
    ensures ScriptEvents(style, wide, x, a + b) == ScriptEvents(style, wide, x, a) + ScriptEvents(style, wide, x, b)
  {
    hide StepEvents;
    if a == [] {
      assert a + b == b;
    } else {
      assert (a + b)[1..] == a[1..] + b;
      ScriptEventsConcat(style, wide, x, a[1..], b);
      Associate(StepEvents(style, wide, x, a[0]), ScriptEvents(style, wide, x, a[1..]),
          ScriptEvents(style, wide, x, b));
    }
  }

  lemma OneStepEvents(style: Style, wide: Wide, x: Input<string>, s: Step)
    ensures ScriptEvents(style, wide, x, [s]) == StepEvents(style, wide, x, s)
  {
    hide StepEvents;
    assert [s][1..] == [];
  }

  lemma OneLineEvents(o: Out)
    ensures LinesEvents([o]) == LineEvents(o)
  {
    hide LineEvents;
    assert [o][1..] == [];
  }

  /** What a script of plain steps writes, one marked line per step. */
  lemma PlainStepEvents(style: Style, wide: Wide, x: Input<string>, steps: seq<Step>, s: Step, o: Out)
    requires !s.Paired? && PrintStep(wide, x, s) == [o]
    ensures ScriptEvents(style, wide, x, steps + [s]) == ScriptEvents(style, wide, x, steps) + LineEvents(o)
  {
    hide LineEvents, ScriptEvents, PrintStep;
    ScriptEventsConcat(style, wide, x, steps, [s]);
    OneStepEvents(style, wide, x, s);
    OneLineEvents(o);
  }

  /** The line printed for a step that is not a pair. */
  ghost function PlainOut(x: Input<string>, s: Step): Out {
    if s.Added? then Out('+', At(x.to, s.j))
    else if s.Removed? then Out('-', At(x.from, s.i)) else Out(' ', At(x.from, s.i))
  }

  lemma PlainStep(wide: Wide, x: Input<string>, s: Step)
    requires !s.Paired?
    ensures PrintStep(wide, x, s) == [PlainOut(x, s)]
    ensures s.Removed? && s.i < |x.from| ==>
              LineEvents(PlainOut(x, s)) == MarkLineEvents("-", " ", x.from[s.i], DeletedLine)
    ensures s.Added? && s.j < |x.to| ==>
              LineEvents(PlainOut(x, s)) == MarkLineEvents("+", " ", x.to[s.j], InsertedLine)
    ensures s.Kept? && s.i < |x.from| ==>
              LineEvents(PlainOut(x, s)) == MarkLineEvents(" ", " ", x.from[s.i], EqualLine)
  {
    hide MarkLineEvents;
  }

  lemma MarkLinesSnoc(mark: string, lines: seq<string>, begin: nat, end: nat, tag: WriterTag)
    requires begin < end <= |lines|
    ensures MarkLinesEvents(mark, " ", lines, begin, end, tag)
            == MarkLinesEvents(mark, " ", lines, begin, end - 1, tag) + MarkLineEvents(mark, " ", lines[end - 1], tag)
  {
    hide MarkLineEvents;
  }

  lemma RemovesSnoc(style: Style, wide: Wide, x: Input<string>, begin: nat, end: nat)
    requires begin <= end
    ensures begin == end ==> ScriptEvents(style, wide, x, Removes(begin, end)) == []
    ensures begin < end ==> Removes(begin, end) == Removes(begin, end - 1) + [Removed(end - 1)]
  {
  }

  lemma {:induction false} RemovesEvents(style: Style, wide: Wide, x: Input<string>, begin: nat, end: nat)
    requires begin <= end <= |x.from|
    ensures ScriptEvents(style, wide, x, Removes(begin, end))
            == MarkLinesEvents("-", " ", x.from, begin, end, DeletedLine)
    decreases end
  {
    hide *;
    RemovesSnoc(style, wide, x, begin, end);
    if begin < end {
      RemovesEvents(style, wide, x, begin, end - 1);
      MarkLinesSnoc("-", x.from, begin, end, DeletedLine);
      PlainStep(wide, x, Removed(end - 1));
      PlainStepEvents(style, wide, x, Removes(begin, end - 1), Removed(end - 1), PlainOut(x, Removed(end - 1)));
    } else {
      NoLines("-", x.from, begin, DeletedLine);
    }
  }

  lemma AddsSnoc(style: Style, wide: Wide, x: Input<string>, begin: nat, end: nat)
    requires begin <= end
    ensures begin == end ==> ScriptEvents(style, wide, x, Adds(begin, end)) == []
    ensures begin < end ==> Adds(begin, end) == Adds(begin, end - 1) + [Added(end - 1)]
  {
  }

  lemma {:induction false} AddsEvents(style: Style, wide: Wide, x: Input<string>, begin: nat, end: nat)
    requires begin <= end <= |x.to|
    ensures ScriptEvents(style, wide, x, Adds(begin, end)) == MarkLinesEvents("+", " ", x.to, begin, end, InsertedLine)
    decreases end
  {
    hide *;
    AddsSnoc(style, wide, x, begin, end);
    if begin < end {
      AddsEvents(style, wide, x, begin, end - 1);
      MarkLinesSnoc("+", x.to, begin, end, InsertedLine);
      PlainStep(wide, x, Added(end - 1));
      PlainStepEvents(style, wide, x, Adds(begin, end - 1), Added(end - 1), PlainOut(x, Added(end - 1)));
    } else {
      NoLines("+", x.to, begin, InsertedLine);
    }
  }

  lemma KeepsSnoc(style: Style, wide: Wide, x: Input<string>, i: nat, j: nat, n: nat)
    ensures n == 0 ==> ScriptEvents(style, wide, x, Keeps(i, j, n)) == []
    ensures n > 0 ==> Keeps(i, j, n) == Keeps(i, j, n - 1) + [Kept(i + n - 1, j + n - 1)]
  {
  }

  lemma {:induction false} KeepsEvents(style: Style, wide: Wide, x: Input<string>, i: nat, j: nat, n: nat)
    requires i + n <= |x.from|
    ensures ScriptEvents(style, wide, x, Keeps(i, j, n)) == MarkLinesEvents(" ", " ", x.from, i, i + n, EqualLine)
  {
    KeepsSnoc(style, wide, x, i, j, n);
    hide *;
    if n > 0 {
      var last := i + n - 1;
      var s := Kept(last, j + n - 1);
      KeepsEvents(style, wide, x, i, j, n - 1);
      MarkLinesSnoc(" ", x.from, i, last + 1, EqualLine);
      PlainStep(wide, x, s);
      PlainStepEvents(style, wide, x, Keeps(i, j, n - 1), s, PlainOut(x, s));
    } else {
      NoLines(" ", x.from, i, EqualLine);
    }
  }

  lemma NoLines(mark: string, lines: seq<string>, i: nat, tag: WriterTag)
    requires i <= |lines|
    ensures MarkLinesEvents(mark, " ", lines, i, i, tag) == []
  {
  }

  lemma {:induction false} LinesEventsConcat(a: seq<Out>, b: seq<Out>)
    ensures LinesEvents(a + b) == LinesEvents(a) + LinesEvents(b)
  {
    hide LineEvents;
    if a == [] {
      assert a + b == b;
    } else {
      assert (a + b)[1..] == a[1..] + b;
      LinesEventsConcat(a[1..], b);
      Associate(LineEvents(a[0]), LinesEvents(a[1..]), LinesEvents(b));
    }
  }

  /** The readable differ writes the printed lines and nothing else. */
  lemma {:induction false} ReadableEvents(wide: Wide, x: Input<string>, steps: seq<Step>)
    ensures ScriptEvents(Readable, wide, x, steps) == LinesEvents(Print(wide, x, steps))
  {
    if steps != [] {
      ReadableEvents(wide, x, steps[1..]);
      hide LineEvents, PrintStep;
      LinesEventsConcat(PrintStep(wide, x, steps[0]), Print(wide, x, steps[1..]));
    }
  }

  lemma {:induction false} GroupsText(wide: Wide, x: Input<string>, groups: seq<seq<Operation>>)
    requires ValidGroups(x, groups)
    ensures Text(GroupsEvents(Readable, wide, x, groups)) == Unlines(GroupsLines(wide, x, groups))
  {
    if groups != [] {
      var g := groups[0];
      GroupsText(wide, x, groups[1..]);
      var head := [Event(Header(g), Summary), Event("\n", NoTag)];
      var steps := Script(x, READABLE, g);
      HeadText(Header(g));
      hide ValidGroups, Header, Script, AllValid;
      ReadableEvents(wide, x, steps);
      LinesText(Print(wide, x, steps));
      hide Print, LinesEvents, OutTexts, ScriptEvents;
      TextConcat(head, LinesEvents(Print(wide, x, steps)));
      TextConcat(head + LinesEvents(Print(wide, x, steps)), GroupsEvents(Readable, wide, x, groups[1..]));
      UnlinesConcat([Header(g)], OutTexts(Print(wide, x, steps)));
      UnlinesConcat(GroupLines(wide, x, g), GroupsLines(wide, x, groups[1..]));
    }
  }

  lemma HeadText(header: string)
    ensures Text([Event(header, Summary), Event("\n", NoTag)]) == Unlines([header])
  {
    var a, b := Event(header, Summary), Event("\n", NoTag);
    assert [a, b][1..] == [b] && [b][1..] == [];
    assert Text([b]) == "\n";
    var hs: seq<string> := [header];
    assert hs[1..] == [];
    assert Unlines(hs) == header + ['\n'] + [];
  }

  /** The text a readable differ produces is the text whose round trip and patch laws are proved. */
  lemma DiffEventsText(wide: Wide, x: Input<string>, context: nat)
    ensures context == 0 ==> DropLastNewline(Text(DiffEvents(Readable, wide, x, context))) == ReadableText(wide, x)
    ensures context > 0 ==>
              DropLastNewline(Text(DiffEvents(Readable, wide, x, context))) == ContextText(wide, x, context)
  {
    if context == 0 {
      OperationsValid(x);
      TilesAllValid(x, Operations(x), 0, 0, |x.from|, |x.to|);
      hide Operations, Script, LinesEvents, Print, ScriptEvents;
      ReadableEvents(wide, x, Script(x, READABLE, Operations(x)));
    } else {
      hide ShownGroups, GroupsEvents, GroupsLines;
      GroupsText(wide, x, ShownGroups(x, context));
    }
  }

  // ---------------------------------------------------------------- deferred writing

  datatype WriteType = WriteEqualSpaces | WriteDifferenceSpaces | WriteInsertedSegment

  datatype WriteOperation = WriteOperation(kind: WriteType, line: string, begin: nat, end: nat)

  ghost predicate InLines(ws: seq<WriteOperation>) {
    forall w :: w in ws ==> w.end <= |w.line| && (w.kind == WriteInsertedSegment ==> w.begin <= w.end)
  }

  lemma InLinesConcat(a: seq<WriteOperation>, b: seq<WriteOperation>)
    requires InLines(a) && InLines(b)
    ensures InLines(a + b)
  {
  }

  ghost function WriteEvent(wide: Wide, w: WriteOperation): Event {
    match w.kind
    case WriteEqualSpaces => Event(Spaces(wide, Part(w.line, w.begin, w.end)), EqualSegment)
    case WriteDifferenceSpaces => Event(Spaces(wide, Part(w.line, w.begin, w.end)), DifferenceSegment)
    case WriteInsertedSegment => Event(Part(w.line, w.begin, w.end), InsertedSegment)
  }

  ghost function ReplayEvents(wide: Wide, ws: seq<WriteOperation>): seq<Event> {
    if ws == [] then [] else [WriteEvent(wide, ws[0])] + ReplayEvents(wide, ws[1..])
  }

  lemma {:induction false} ReplayConcat(wide: Wide, a: seq<WriteOperation>, b: seq<WriteOperation>)
    ensures ReplayEvents(wide, a + b) == ReplayEvents(wide, a) + ReplayEvents(wide, b)
  {
    hide WriteEvent;
    if a == [] {
      assert a + b == b;
    } else {
      assert (a + b)[1..] == a[1..] + b;
      ReplayConcat(wide, a[1..], b);
    }
  }

  lemma ReplayShort(wide: Wide, ws: seq<WriteOperation>)
    ensures ws == [] ==> ReplayEvents(wide, ws) == []
    ensures |ws| == 1 ==> ReplayEvents(wide, ws) == [WriteEvent(wide, ws[0])]
    ensures |ws| == 2 ==> ReplayEvents(wide, ws) == [WriteEvent(wide, ws[0])] + [WriteEvent(wide, ws[1])]
  {
    hide WriteEvent;
    assert |ws| == 1 ==> ws[1..] == [];
    assert |ws| == 2 ==> ws[1..][1..] == [];
  }

  lemma ReplayNonEmpty(wide: Wide, ws: seq<WriteOperation>)
    ensures ReplayEvents(wide, ws) == [] <==> ws == []
  {
  }

  lemma NothingDeferred(wide: Wide)
    ensures InLines([]) && ReplayEvents(wide, []) == []
  {
  }

  lemma OneDeferred(wide: Wide, w: WriteOperation)
    requires w.begin <= w.end <= |w.line|
    ensures InLines([w])
    ensures var text := w.line[w.begin..w.end];
            ReplayEvents(wide, [w]) ==
            match w.kind
            case WriteEqualSpaces => [Event(Spaces(wide, text), EqualSegment)]
            case WriteDifferenceSpaces => [Event(Spaces(wide, text), DifferenceSegment)]
            case WriteInsertedSegment => [Event(text, InsertedSegment)]
  {
    ReplayShort(wide, [w]);
    hide Spaces, ReplayEvents;
  }

  /** What an operation that replaces nothing writes at once and defers. */
  lemma PlainCases(wide: Wide, noReplace: bool, fromLine: string, toLine: string, op: Operation)
    requires ValidOperation(CharInput(fromLine, toLine), op)
    ensures op.fromBegin <= op.fromEnd <= |fromLine| && op.toBegin <= op.toEnd <= |toLine|
    ensures var a, b := fromLine[op.fromBegin..op.fromEnd], toLine[op.toBegin..op.toEnd];
            var first := First(wide, noReplace, CharInput(fromLine, toLine), op);
            var second := Second(wide, noReplace, CharInput(fromLine, toLine), op);
            match op.kind
            case Equal =>
              && first == [Event(a, EqualSegment)]
              && second == if noReplace then [] else [Event(Spaces(wide, a), EqualSegment)]
            case Insert =>
              && first == [if noReplace then Event(b, InsertedSegment) else Event(Spaces(wide, b), DifferenceSegment)]
              && second == if noReplace then [] else [Event(b, InsertedSegment)]
            case Delete =>
              && first == [Event(a, DeletedSegment)]
              && second == if noReplace then [] else [Event(Spaces(wide, a), DifferenceSegment)]
            case Replace => true
  {
    hide Width, Spaces, Same;
  }

  lemma NoSpaces(wide: Wide)
    ensures Spaces(wide, "") == ""
  {
  }

  /** The pieces written for one or two rows, put together. */
  lemma TwoRows(start: seq<Event>, wide: Wide, x: Input<char>, ops: seq<Operation>, first: seq<Event>,
                second: seq<Event>)
    requires first == FirstRow(wide, !HasKind(ops, Replace), x, ops)
             && second == SecondRow(wide, !HasKind(ops, Replace), x, ops)
    ensures var mark, end := MarkEvents("?", " ", DifferenceMark), [Event("", NoTag), Event("\n", NoTag)];
            var row := ((start + mark) + first) + end;
            && (second == [] ==> row == start + RowEvents(wide, x, ops))
            && (second != [] ==> ((row + mark) + second) + end == start + RowEvents(wide, x, ops))
  {
    hide FirstRow, SecondRow, HasKind, MarkEvents;
    var mark, end := MarkEvents("?", " ", DifferenceMark), [Event("", NoTag), Event("\n", NoTag)];
    OneRow(start, mark, first, end);
    OneRow(start + (mark + first + end), mark, second, end);
    assert Row(first) == mark + first + end && Row(second) == mark + second + end;
    assert RowEvents(wide, x, ops) == Row(first) + if second == [] then [] else Row(second);
    hide RowEvents, Row;
    EmptyTail(mark + first + end);
    Associate(start, mark + first + end, mark + second + end);
  }

  lemma OneRow(start: seq<Event>, mark: seq<Event>, row: seq<Event>, end: seq<Event>)
    ensures ((start + mark) + row) + end == start + (mark + row + end)
  {
  }

  lemma RowsStart(wide: Wide, noReplace: bool, x: Input<char>, ops: seq<Operation>)
    ensures FirstRow(wide, noReplace, x, ops[..0]) == [] && SecondRow(wide, noReplace, x, ops[..0]) == []
    ensures ReplayEvents(wide, []) == [] && InLines([])
  {
  }

  lemma RowsStep(wide: Wide, noReplace: bool, x: Input<char>, ops: seq<Operation>, k: nat)
    requires k < |ops|
    ensures FirstRow(wide, noReplace, x, ops[..k + 1])
            == FirstRow(wide, noReplace, x, ops[..k]) + First(wide, noReplace, x, ops[k])
    ensures SecondRow(wide, noReplace, x, ops[..k + 1])
            == SecondRow(wide, noReplace, x, ops[..k]) + Second(wide, noReplace, x, ops[k])
  {
    hide *;
    PrefixSnoc(ops, k);
    RowSnoc(wide, noReplace, x, ops[..k], ops[k]);
  }

  lemma NoReplaceAt(ops: seq<Operation>, k: nat)
    requires k < |ops|
    ensures !HasKind(ops, Replace) ==> ops[k].kind != Replace
  {
  }

  // ---------------------------------------------------------------- scripts put together

  /** The variables of the search loops represent a search state. */
  ghost predicate SearchIs(s: Search, ratio: real, i: int, j: int, equalI: int, equalJ: int) {
    && s.ratio == ratio && s.i == i && s.j == j
    && (s.equal == NoCell <==> equalI < 0) && (equalI < 0 <==> equalJ < 0)
    && (s.equal != NoCell ==> s.equal == Cell(equalI, equalJ))
  }

  lemma BothSides(style: Style, wide: Wide, x: Input<string>, start: seq<Event>, a: seq<Step>, b: seq<Step>)
    ensures (start + ScriptEvents(style, wide, x, a)) + ScriptEvents(style, wide, x, b)
            == start + ScriptEvents(style, wide, x, a + b)
    ensures (start + ScriptEvents(style, wide, x, b)) + ScriptEvents(style, wide, x, a)
            == start + ScriptEvents(style, wide, x, b + a)
  {
    hide *;
    ScriptEventsConcat(style, wide, x, a, b);
    ScriptEventsConcat(style, wide, x, b, a);
    Associate(start, ScriptEvents(style, wide, x, a), ScriptEvents(style, wide, x, b));
    Associate(start, ScriptEvents(style, wide, x, b), ScriptEvents(style, wide, x, a));
  }

  lemma AroundPair(style: Style, wide: Wide, x: Input<string>, start: seq<Event>, above: seq<Step>, pair: Step,
                   below: seq<Step>)
    ensures ((start + ScriptEvents(style, wide, x, above)) + StepEvents(style, wide, x, pair))
            + ScriptEvents(style, wide, x, below)
            == start + ScriptEvents(style, wide, x, above + [pair] + below)
  {
    hide *;
    OneStepEvents(style, wide, x, pair);
    BothSides(style, wide, x, start, above, [pair]);
    BothSides(style, wide, x, start, above + [pair], below);
  }

  lemma EmptyScript(style: Style, wide: Wide, x: Input<string>, rule: Rule, start: seq<Event>)
    ensures forall ops: seq<Operation> :: ops == [] ==> AllValid(x, ops)
    ensures forall ops: seq<Operation> :: ops == [] ==>
              AllValid(x, ops) && start == start + ScriptEvents(style, wide, x, Script(x, rule, ops))
  {
  }

  lemma {:induction false} AllValidAt(x: Input<string>, ops: seq<Operation>, k: nat)
    requires AllValid(x, ops) && k < |ops|
    ensures ValidOperation(x, ops[k])
  {
    hide ValidOperation;
    if k > 0 {
      AllValidAt(x, ops[1..], k - 1);
    }
  }

  lemma {:induction false} ScriptSnocSteps(x: Input<string>, rule: Rule, ops: seq<Operation>, op: Operation)
    requires AllValid(x, ops) && ValidOperation(x, op)
    ensures AllValid(x, ops + [op])
    ensures Script(x, rule, ops + [op]) == Script(x, rule, ops) + OperationScript(x, rule, op)
  {
    hide ValidOperation, OperationScript;
    if ops == [] {
      assert [op][1..] == [] && [] + [op] == [op];
      assert Script(x, rule, [op]) == OperationScript(x, rule, op) + Script(x, rule, [op][1..]);
      EmptyTail(OperationScript(x, rule, op));
      EmptyHead(OperationScript(x, rule, op));
    } else {
      assert (ops + [op])[1..] == ops[1..] + [op];
      ScriptSnocSteps(x, rule, ops[1..], op);
      Associate(OperationScript(x, rule, ops[0]), Script(x, rule, ops[1..]), OperationScript(x, rule, op));
    }
  }

  lemma ScriptSnoc(style: Style, wide: Wide, x: Input<string>, rule: Rule, ops: seq<Operation>, k: nat,
                   start: seq<Event>)
    requires k < |ops| && AllValid(x, ops[..k]) && ValidOperation(x, ops[k])
    ensures AllValid(x, ops[..k + 1])
    ensures (start + ScriptEvents(style, wide, x, Script(x, rule, ops[..k])))
            + ScriptEvents(style, wide, x, OperationScript(x, rule, ops[k]))
            == start + ScriptEvents(style, wide, x, Script(x, rule, ops[..k + 1]))
  {
    hide *;
    PrefixSnoc(ops, k);
    ScriptSnocSteps(x, rule, ops[..k], ops[k]);
    BothSides(style, wide, x, start, Script(x, rule, ops[..k]), OperationScript(x, rule, ops[k]));
  }

  lemma HeaderPieces(fromStart: nat, fromCount: int, toStart: nat, toCount: int)
    ensures var a := "@@ " + "-" + Numeral(fromStart);
            var b := if fromCount > 1 then a + "," + Numeral(fromCount) else a;
            var c := b + " +" + Numeral(toStart);
            var d := if toCount > 1 then c + "," + Numeral(toCount) else c;
            d + " @@" == HeaderText(fromStart, fromCount, toStart, toCount)
  {
    hide Numeral;
    var a := "@@ " + "-" + Numeral(fromStart);
    assert a == "@@ -" + Numeral(fromStart);
    var b := if fromCount > 1 then a + "," + Numeral(fromCount) else a;
    assert b == "@@ -" + RangeText(fromStart, fromCount);
    var c := b + " +" + Numeral(toStart);
    var d := if toCount > 1 then c + "," + Numeral(toCount) else c;
    assert d == (b + " +") + RangeText(toStart, toCount);
  }

  lemma LineOperations(x: Input<string>)
    ensures AllValid(x, Operations(x))
  {
    hide Operations;
    OperationsValid(x);
    TilesAllValid(x, Operations(x), 0, 0, |x.from|, |x.to|);
  }

  lemma LineGroups(x: Input<string>, context: nat)
    ensures ValidGroups(x, GroupedOperations(x, context))
    ensures ShownGroups(x, context)
            == if IsSameContent(GroupedOperations(x, context)) then [] else GroupedOperations(x, context)
  {
    hide GroupedOperations, Covers, ValidGroups;
    GroupsCover(x, context);
    CoversValid(x, GroupedOperations(x, context), 0, 0);
  }

  lemma NoGroups(style: Style, wide: Wide, x: Input<string>, start: seq<Event>)
    ensures ValidGroups(x, []) && start == start + GroupsEvents(style, wide, x, [])
  {
  }

  lemma NoGroupsLeft(style: Style, wide: Wide, x: Input<string>, groups: seq<seq<Operation>>, start: seq<Event>)
    requires ValidGroups(x, groups) && groups == []
    ensures start == start + GroupsEvents(style, wide, x, groups)
  {
  }

  lemma GroupsStep(style: Style, wide: Wide, x: Input<string>, groups: seq<seq<Operation>>, k: nat, start: seq<Event>)
    requires k < |groups| && ValidGroups(x, groups[k..])
    ensures groups[k] != [] && AllValid(x, groups[k]) && ValidGroups(x, groups[k + 1..])
    ensures start + GroupsEvents(style, wide, x, groups[k..])
            == ((start + [Event(Header(groups[k]), Summary), Event("\n", NoTag)])
                + ScriptEvents(style, wide, x, Script(x, RuleOf(style), groups[k])))
               + GroupsEvents(style, wide, x, groups[k + 1..])
  {
    SliceHead(groups, k);
    var g := groups[k];
    var head := [Event(Header(g), Summary), Event("\n", NoTag)];
    assert AllValid(x, g);
    var body := ScriptEvents(style, wide, x, Script(x, RuleOf(style), g));
    var rest := GroupsEvents(style, wide, x, groups[k + 1..]);
    assert GroupsEvents(style, wide, x, groups[k..]) == head + body + rest;
    hide *;
    Associate(start, head + body, rest);
    Associate(start, head, body);
  }

  lemma KindPrefix(ops: seq<Operation>, k: nat, kind: Kind)
    requires k < |ops|
    ensures HasKind(ops[..k + 1], kind) <==> HasKind(ops[..k], kind) || ops[k].kind == kind
    ensures HasKind(ops[..k], kind) ==> HasKind(ops, kind)
    ensures ops[k].kind == kind ==> HasKind(ops, kind)
  {
    if HasKind(ops[..k], kind) {
      var n :| 0 <= n < |ops[..k]| && ops[..k][n].kind == kind;
      assert ops[..k + 1][n].kind == kind && ops[n].kind == kind;
    }
    assert ops[..k + 1][k] == ops[k];
    if HasKind(ops[..k + 1], kind) && ops[k].kind != kind {
      var n :| 0 <= n < |ops[..k + 1]| && ops[..k + 1][n].kind == kind;
      assert ops[..k][n].kind == kind;
    }
  }

  ghost predicate SimilarPair(x: Input<string>, best: real, i: nat, j: nat)
    requires i < |x.from| && j < |x.to|
  {
    LineRatio(x.from[i], x.to[j]) > best
  }

  /** A replaced block with a pair of lines above the ratio. */
  ghost predicate SimilarBlock(x: Input<string>, best: real, op: Operation) {
    && op.kind == Replace && op.fromEnd <= |x.from| && op.toEnd <= |x.to|
    && exists i, j :: op.fromBegin <= i < op.fromEnd && op.toBegin <= j < op.toEnd && SimilarPair(x, best, i, j)
  }

  lemma NotReplaced(x: Input<string>, best: real, op: Operation)
    requires op.kind != Replace
    ensures !SimilarBlock(x, best, op)
  {
  }

  lemma NoKind(ops: seq<Operation>)
    ensures !HasKind(ops[..0], Equal) && !HasKind(ops[..0], Insert) && !HasKind(ops[..0], Delete)
  {
  }

  /** The script has equal and changed parts, or a block with a similar pair. */
  ghost predicate Worth(x: Input<string>, best: real, ops: seq<Operation>) {
    || (HasKind(ops, Equal) && (HasKind(ops, Insert) || HasKind(ops, Delete)))
    || exists k :: 0 <= k < |ops| && SimilarBlock(x, best, ops[k])
  }

  // ---------------------------------------------------------------- the object

  class Differ {
    const style: Style
    const wide: Wide
    const from: seq<string>
    const to: seq<string>
    var matcher: SequenceMatcher?<string>

    ghost function Lines(): Input<string> {
      LineInput(from, to)
    }

    ghost predicate Valid()
      reads this, matcher
    {
      matcher != null ==> matcher.Valid() && matcher.Sequences() == Lines()
    }

    /** The context size in effect; the readable and the colouring differ start with none. */
    ghost function ContextSize(): nat
      reads this, matcher
    {
      if matcher == null then 0 else matcher.contextSize
    }

    constructor (style: Style, wide: Wide, from: string, to: string)
      ensures Valid() && fresh(this) && matcher == null
      ensures this.style == style && this.wide == wide
      ensures this.from == SplitToLines(from) && this.to == SplitToLines(to)
    {
      this.style, this.wide := style, wide;
      this.from, this.to := SplitToLines(from), SplitToLines(to);
      matcher := null;
    }

    /** The line matcher is created when first asked for. */
    method GetSequenceMatcher() returns (m: SequenceMatcher<string>)
      requires Valid()
      modifies this
      ensures Valid() && m == matcher && ContextSize() == old(ContextSize())
      ensures matcher == old(matcher) || fresh(matcher)
    {
      hide Matches, Blocks, Operations, GroupedOperations;
      if matcher == null {
        var created := new SequenceMatcher<string>(from, to, NO_JUNK);
        created.SetContextSize(0);
        matcher := created;
      }
      m := matcher;
    }

    method SetContextSize(size: nat)
      requires Valid()
      modifies this, matcher
      ensures Valid() && ContextSize() == size
      ensures matcher == old(matcher) || fresh(matcher)
    {
      hide Matches, Blocks, Operations, GroupedOperations;
      var m := GetSequenceMatcher();
      m.SetContextSize(size);
    }

    // -------------------------------------------------------------- one changed pair

    /** format_diff_point */
    method FormatDiffPoint(writer: DiffWriter, fromLine: string, toLine: string, fromTags: string, toTags: string)
      modifies writer
      ensures writer.events == old(writer.events)
                               + LinesEvents([Out('-', fromLine)] + OptionalTagLine(Chomp(fromTags))
                                             + [Out('+', toLine)] + OptionalTagLine(Chomp(toTags)))
    {
      hide *;
      var fromShown, toShown := Chomp(fromTags), Chomp(toTags);
      ghost var a, b, c, d := [Out('-', fromLine)], OptionalTagLine(fromShown), [Out('+', toLine)],
          OptionalTagLine(toShown);
      FourLists(a, b, c, d);
      MarkedLines(fromLine);
      MarkedLines(toLine);
      writer.MarkLine("-", " ", fromLine, DeletedLine);
      MarkTags(writer, fromShown);
      writer.MarkLine("+", " ", toLine, InsertedLine);
      MarkTags(writer, toShown);
    }

    /** The tags of a line are written unless nothing is left of them. */
    method MarkTags(writer: DiffWriter, shown: string)
      modifies writer
      ensures writer.events == old(writer.events) + LinesEvents(OptionalTagLine(shown))
    {
      OneLineEvents(Out('?', shown));
      hide MarkLineEvents;
      if shown != "" {
        writer.MarkLine("?", " ", shown, DifferenceLine);
      }
    }

    lemma MarkedLines(line: string)
      ensures MarkLineEvents("-", " ", line, DeletedLine) == LinesEvents([Out('-', line)])
      ensures MarkLineEvents("+", " ", line, InsertedLine) == LinesEvents([Out('+', line)])
    {
      OneLineEvents(Out('-', line));
      OneLineEvents(Out('+', line));
      hide MarkLineEvents;
    }

    lemma FourLists(a: seq<Out>, b: seq<Out>, c: seq<Out>, d: seq<Out>)
      ensures LinesEvents(a + b + c + d) == LinesEvents(a) + LinesEvents(b) + LinesEvents(c) + LinesEvents(d)
    {
      hide LinesEvents;
      LinesEventsConcat(a + b + c, d);
      LinesEventsConcat(a + b, c);
      LinesEventsConcat(a, b);
    }

    /** diff_line of the readable differ */
    method ReadableDiffLine(writer: DiffWriter, fromLine: string, toLine: string)
      modifies writer
      ensures writer.events == old(writer.events) + LinesEvents(PairLines(wide, fromLine, toLine))
    {
      ghost var x := CharInput(fromLine, toLine);
      OperationsValid(x);
      TilesInLine(x, FromSide, Operations(x), 0, 0, |fromLine|, |toLine|);
      TilesInLine(x, ToSide, Operations(x), 0, 0, |fromLine|, |toLine|);
      hide Operations, Matches, Blocks, GroupedOperations, Tiles, Tags, LinesEvents, OptionalTagLine;
      var m := new SequenceMatcher<char>(fromLine, toLine, SPACES);
      var operations := m.GetOperations();
      var fromTags, toTags := BuildTags(wide, x, fromLine, toLine, operations);
      FormatDiffPoint(writer, fromLine, toLine, fromTags, toTags);
    }

    /** diff_line of the colouring differ */
    method ColorizeDiffLine(writer: DiffWriter, fromLine: string, toLine: string)
      modifies writer
      ensures writer.events == old(writer.events)
                               + RowEvents(wide, CharInput(fromLine, toLine), Operations(CharInput(fromLine, toLine)))
    {
      ghost var x := CharInput(fromLine, toLine);
      OperationsValid(x);
      TilesInLine(x, FromSide, Operations(x), 0, 0, |fromLine|, |toLine|);
      hide *;
      var m := new SequenceMatcher<char>(fromLine, toLine, SPACES);
      var operations := m.GetOperations();
      var noReplace := NoReplace(operations);
      ghost var start := writer.events;
      ghost var first, second := FirstRow(wide, noReplace, x, operations), SecondRow(wide, noReplace, x, operations);
      TwoRows(start, wide, x, operations, first, second);
      writer.WriteMark("?", " ", DifferenceMark);
      var writeOperations := WriteFirstRow(writer, noReplace, fromLine, toLine, operations);
      writer.WriteLine("", NoTag);
      ReplayNonEmpty(wide, writeOperations);
      if writeOperations != [] {
        writer.WriteMark("?", " ", DifferenceMark);
        WriteDeferred(writer, writeOperations);
        writer.WriteLine("", NoTag);
      }
    }

    /** The loop of diff_line over the operations. */
    method WriteFirstRow(writer: DiffWriter, noReplace: bool, fromLine: string, toLine: string,
                         operations: seq<Operation>)
      returns (writeOperations: seq<WriteOperation>)
      requires forall k :: 0 <= k < |operations| ==> ValidOperation(CharInput(fromLine, toLine), operations[k])
      requires noReplace ==> !HasKind(operations, Replace)
      modifies writer
      ensures InLines(writeOperations)
      ensures writer.events == old(writer.events) + FirstRow(wide, noReplace, CharInput(fromLine, toLine), operations)
      ensures ReplayEvents(wide, writeOperations) == SecondRow(wide, noReplace, CharInput(fromLine, toLine), operations)
    {
      hide *;
      ghost var x := CharInput(fromLine, toLine);
      ghost var start := writer.events;
      writeOperations := [];
      var k := 0;
      RowsStart(wide, noReplace, x, operations);
      EmptyTail(start);
      while k < |operations|
        invariant k <= |operations|
        invariant writer.events == start + FirstRow(wide, noReplace, x, operations[..k])
        invariant ReplayEvents(wide, writeOperations) == SecondRow(wide, noReplace, x, operations[..k])
        invariant InLines(writeOperations)
      {
        RowsStep(wide, noReplace, x, operations, k);
        NoReplaceAt(operations, k);
        var deferred := WriteOperationFirst(writer, noReplace, fromLine, toLine, operations[k]);
        ReplayConcat(wide, writeOperations, deferred);
        InLinesConcat(writeOperations, deferred);
        writeOperations := writeOperations + deferred;
        Associate(start, FirstRow(wide, noReplace, x, operations[..k]), First(wide, noReplace, x, operations[k]));
        k := k + 1;
      }
      assert operations[..k] == operations;
    }

    method NoReplace(operations: seq<Operation>) returns (noReplace: bool)
      ensures noReplace == !HasKind(operations, Replace)
    {
      noReplace := true;
      var k := 0;
      while k < |operations|
        invariant k <= |operations| && noReplace
        invariant forall n :: 0 <= n < k ==> operations[n].kind != Replace
      {
        if operations[k].kind == Replace {
          return false;
        }
        k := k + 1;
      }
    }

    /** The switch of diff_line: what is written at once, and what is deferred to the second row. */
    method WriteOperationFirst(writer: DiffWriter, noReplace: bool, fromLine: string, toLine: string,
                               operation: Operation)
      returns (deferred: seq<WriteOperation>)
      requires ValidOperation(CharInput(fromLine, toLine), operation)
      requires noReplace ==> operation.kind != Replace
      modifies writer
      ensures InLines(deferred)
      ensures writer.events == old(writer.events) + First(wide, noReplace, CharInput(fromLine, toLine), operation)
      ensures ReplayEvents(wide, deferred) == Second(wide, noReplace, CharInput(fromLine, toLine), operation)
    {
      var fb, fe, tb, te := operation.fromBegin, operation.fromEnd, operation.toBegin, operation.toEnd;
      var fromWidth := ComputeWidth(wide, fromLine, fb, fe);
      var toWidth := ComputeWidth(wide, toLine, tb, te);
      if operation.kind == Replace {
        hide *;
        deferred := WriteReplaceFirst(writer, fromLine, toLine, operation, fromWidth, toWidth);
        return;
      }
      PlainCases(wide, noReplace, fromLine, toLine, operation);
      NothingDeferred(wide);
      hide *;
      deferred := [];
      match operation.kind {
        case Equal =>
          writer.WriteSegment(fromLine, fb, fe, EqualSegment);
          if !noReplace {
            deferred := [WriteOperation(WriteEqualSpaces, fromLine, fb, fe)];
            OneDeferred(wide, deferred[0]);
          }
        case Insert =>
          if noReplace {
            writer.WriteSegment(toLine, tb, te, InsertedSegment);
          } else {
            writer.WriteSpaces(wide, toLine, tb, te, DifferenceSegment);
            deferred := [WriteOperation(WriteInsertedSegment, toLine, tb, te)];
            OneDeferred(wide, deferred[0]);
          }
        case Delete =>
          writer.WriteSegment(fromLine, fb, fe, DeletedSegment);
          if !noReplace {
            deferred := [WriteOperation(WriteDifferenceSpaces, fromLine, fb, fe)];
            OneDeferred(wide, deferred[0]);
          }
        case Replace =>
      }
    }

    /** A replaced part: the deleted text now, the inserted text deferred, the narrower one padded. */
    method WriteReplaceFirst(writer: DiffWriter, fromLine: string, toLine: string, operation: Operation,
                             fromWidth: nat, toWidth: nat)
      returns (deferred: seq<WriteOperation>)
      requires ValidOperation(CharInput(fromLine, toLine), operation) && operation.kind == Replace
      requires fromWidth == Width(wide, fromLine[operation.fromBegin..operation.fromEnd])
      requires toWidth == Width(wide, toLine[operation.toBegin..operation.toEnd])
      modifies writer
      ensures InLines(deferred)
      ensures writer.events == old(writer.events) + First(wide, false, CharInput(fromLine, toLine), operation)
      ensures ReplayEvents(wide, deferred) == Second(wide, false, CharInput(fromLine, toLine), operation)
    {
      hide Width, Spaces, Same, ReplayEvents;
      writer.WriteSegment(fromLine, operation.fromBegin, operation.fromEnd, DeletedSegment);
      if fromWidth < toWidth {
        writer.WriteSpaces(wide, toLine, operation.toBegin + fromWidth, operation.toEnd, DifferenceSegment);
      }
      deferred := [WriteOperation(WriteInsertedSegment, toLine, operation.toBegin, operation.toEnd)];
      if toWidth < fromWidth {
        var padBegin := operation.fromBegin + toWidth;
        deferred := deferred + [WriteOperation(WriteDifferenceSpaces, fromLine, padBegin, operation.fromEnd)];
      }
      ReplayShort(wide, deferred);
      NoSpaces(wide);
    }

    /** The loop that replays the deferred operations. */
    method WriteDeferred(writer: DiffWriter, writeOperations: seq<WriteOperation>)
      requires InLines(writeOperations)
      modifies writer
      ensures writer.events == old(writer.events) + ReplayEvents(wide, writeOperations)
    {
      hide Spaces;
      var k := 0;
      assert writeOperations[..0] == [];
      while k < |writeOperations|
        invariant k <= |writeOperations|
        invariant writer.events == old(writer.events) + ReplayEvents(wide, writeOperations[..k])
      {
        var operation := writeOperations[k];
        PrefixSnoc(writeOperations, k);
        ReplayConcat(wide, writeOperations[..k], [operation]);
        ReplayShort(wide, [operation]);
        NoSpaces(wide);
        ghost var before := writer.events;
        match operation.kind {
          case WriteEqualSpaces =>
            writer.WriteSpaces(wide, operation.line, operation.begin, operation.end, EqualSegment);
          case WriteDifferenceSpaces =>
            writer.WriteSpaces(wide, operation.line, operation.begin, operation.end, DifferenceSegment);
          case WriteInsertedSegment =>
            writer.WriteSegment(operation.line, operation.begin, operation.end, InsertedSegment);
        }
        assert writer.events == before + [WriteEvent(wide, operation)];
        Associate(old(writer.events), ReplayEvents(wide, writeOperations[..k]), [WriteEvent(wide, operation)]);
        k := k + 1;
      }
      assert writeOperations[..k] == writeOperations;
    }

    // -------------------------------------------------------------- blocks of lines

    method MarkDeleted(writer: DiffWriter, begin: nat, end: nat)
      requires begin <= end <= |from|
      modifies writer
      ensures writer.events == old(writer.events) + ScriptEvents(style, wide, Lines(), Removes(begin, end))
    {
      RemovesEvents(style, wide, Lines(), begin, end);
      hide MarkLinesEvents, ScriptEvents;
      writer.MarkLines("-", " ", from, begin, end, DeletedLine);
    }

    method MarkInserted(writer: DiffWriter, begin: nat, end: nat)
      requires begin <= end <= |to|
      modifies writer
      ensures writer.events == old(writer.events) + ScriptEvents(style, wide, Lines(), Adds(begin, end))
    {
      AddsEvents(style, wide, Lines(), begin, end);
      hide MarkLinesEvents, ScriptEvents;
      writer.MarkLines("+", " ", to, begin, end, InsertedLine);
    }

    /** The similarity of two lines, from a matcher made for them. */
    method GetLineRatio(fromLine: string, toLine: string) returns (ratio: real)
      ensures ratio == LineRatio(fromLine, toLine)
    {
      hide Ratio, Matches, Blocks, Operations, GroupedOperations;
      var m := new SequenceMatcher<char>(fromLine, toLine, SPACES);
      ratio := m.GetRatio();
    }

    /** The nested search loops of diff_lines: the most similar pair and the first identical one. */
    method SearchPairs(w: Window) returns (s: Search)
      requires ValidWindow(Lines(), w) && Open(w)
      ensures s == VisitColumns(Lines(), RuleOf(style), w, w.toEnd)
    {
      ghost var x := Lines();
      hide LineRatio;
      var bestRatio := RuleOf(style).best;
      var fromEqualIndex, toEqualIndex := -1, -1;
      var fromBestIndex, toBestIndex := w.fromBegin, w.toBegin;
      var toIndex := w.toBegin;
      while toIndex < w.toEnd
        invariant w.toBegin <= toIndex <= w.toEnd
        invariant SearchIs(VisitColumns(x, RuleOf(style), w, toIndex),
                           bestRatio, fromBestIndex, toBestIndex, fromEqualIndex, toEqualIndex)
      {
        ghost var before := VisitColumns(x, RuleOf(style), w, toIndex);
        var fromIndex := w.fromBegin;
        while fromIndex < w.fromEnd
          invariant w.fromBegin <= fromIndex <= w.fromEnd
          invariant SearchIs(VisitColumn(x, w, before, fromIndex, toIndex),
                             bestRatio, fromBestIndex, toBestIndex, fromEqualIndex, toEqualIndex)
        {
          var fromLine, toLine := from[fromIndex], to[toIndex];
          if fromLine == toLine {
            if fromEqualIndex < 0 {
              fromEqualIndex := fromIndex;
            }
            if toEqualIndex < 0 {
              toEqualIndex := toIndex;
            }
            fromIndex := fromIndex + 1;
            continue;
          }
          var ratio := GetLineRatio(fromLine, toLine);
          if ratio > bestRatio {
            bestRatio, fromBestIndex, toBestIndex := ratio, fromIndex, toIndex;
          }
          fromIndex := fromIndex + 1;
        }
        toIndex := toIndex + 1;
      }
      s := Search(bestRatio, fromBestIndex, toBestIndex,
                  if fromEqualIndex < 0 then NoCell else Cell(fromEqualIndex, toEqualIndex));
    }

    /** diff_lines: split the block around the chosen pair, or give up on pairing its lines. */
    method DiffLines(writer: DiffWriter, w: Window)
      requires ValidWindow(Lines(), w) && Open(w)
      modifies writer
      ensures writer.events
              == old(writer.events) + ScriptEvents(style, wide, Lines(), DiffScript(Lines(), RuleOf(style), w))
      decreases Size(w), 0
    {
      ghost var x, rule := Lines(), RuleOf(style);
      ghost var start := writer.events;
      var s := SearchPairs(w);
      ghost var selected := Select(x, rule, w);
      hide VisitColumns, ScriptEvents, Removes, Adds;
      if s.ratio < RuleOf(style).cutOff {
        if s.equal == NoCell {
          BothSides(style, wide, x, start, Removes(w.fromBegin, w.fromEnd), Adds(w.toBegin, w.toEnd));
          if w.toEnd - w.toBegin < w.fromEnd - w.fromBegin {
            MarkInserted(writer, w.toBegin, w.toEnd);
            MarkDeleted(writer, w.fromBegin, w.fromEnd);
          } else {
            MarkDeleted(writer, w.fromBegin, w.fromEnd);
            MarkInserted(writer, w.toBegin, w.toEnd);
          }
          return;
        }
      }
      var c := if s.ratio < RuleOf(style).cutOff then s.equal else Cell(s.i, s.j);
      assert c == selected;
      assert DiffScript(x, rule, w)
          == MarkScript(x, rule, Above(w, c)) + [Paired(c.i, c.j)] + MarkScript(x, rule, Below(w, c));
      hide DiffScript, MarkScript, Select;
      MarkDiffLines(writer, Above(w, c));
      DiffLine(writer, c.i, c.j);
      MarkDiffLines(writer, Below(w, c));
      AroundPair(style, wide, x, start, MarkScript(x, rule, Above(w, c)), Paired(c.i, c.j),
          MarkScript(x, rule, Below(w, c)));
    }

    /** mark_diff_lines: a block either side of which may be empty. */
    method MarkDiffLines(writer: DiffWriter, w: Window)
      requires ValidWindow(Lines(), w)
      modifies writer
      ensures writer.events
              == old(writer.events) + ScriptEvents(style, wide, Lines(), MarkScript(Lines(), RuleOf(style), w))
      decreases Size(w), 1
    {
      hide ScriptEvents, DiffScript;
      if w.fromBegin < w.fromEnd {
        if w.toBegin < w.toEnd {
          DiffLines(writer, w);
        } else {
          MarkDeleted(writer, w.fromBegin, w.fromEnd);
        }
      } else {
        MarkInserted(writer, w.toBegin, w.toEnd);
      }
    }

    /** The class's own way of showing a changed pair of lines. */
    method DiffLine(writer: DiffWriter, i: nat, j: nat)
      requires i < |from| && j < |to|
      modifies writer
      ensures writer.events == old(writer.events) + StepEvents(style, wide, Lines(), Paired(i, j))
    {
      hide LinesEvents, PairLines, RowEvents, Operations;
      match style {
        case Readable => ReadableDiffLine(writer, from[i], to[j]);
        case Colorize => ColorizeDiffLine(writer, from[i], to[j]);
      }
    }

    /** diff_operations */
    method DiffOperations(writer: DiffWriter, operations: seq<Operation>)
      requires AllValid(Lines(), operations)
      modifies writer
      ensures writer.events == old(writer.events)
                               + ScriptEvents(style, wide, Lines(), Script(Lines(), RuleOf(style), operations))
    {
      hide *;
      ghost var x, rule := Lines(), RuleOf(style);
      ghost var start := writer.events;
      var k := 0;
      EmptyScript(style, wide, x, rule, start);
      while k < |operations|
        invariant k <= |operations| && AllValid(x, operations[..k])
        invariant writer.events == start + ScriptEvents(style, wide, x, Script(x, rule, operations[..k]))
      {
        AllValidAt(x, operations, k);
        DiffOperation(writer, operations[k]);
        ScriptSnoc(style, wide, x, rule, operations, k, start);
        k := k + 1;
      }
      assert operations[..k] == operations;
    }

    method DiffOperation(writer: DiffWriter, operation: Operation)
      requires ValidOperation(Lines(), operation)
      modifies writer
      ensures writer.events == old(writer.events)
                               + ScriptEvents(style, wide, Lines(), OperationScript(Lines(), RuleOf(style), operation))
    {
      hide ScriptEvents, DiffScript, Same, MarkLinesEvents;
      match operation.kind {
        case Equal =>
          KeepsEvents(style, wide, Lines(), operation.fromBegin, operation.toBegin,
              operation.fromEnd - operation.fromBegin);
          writer.MarkLines(" ", " ", from, operation.fromBegin, operation.fromEnd, EqualLine);
        case Insert =>
          MarkInserted(writer, operation.toBegin, operation.toEnd);
        case Delete =>
          MarkDeleted(writer, operation.fromBegin, operation.fromEnd);
        case Replace =>
          DiffLines(writer, Window(operation.fromBegin, operation.fromEnd, operation.toBegin, operation.toEnd));
      }
    }

    /** cut_differ_write_summary */
    method WriteSummary(writer: DiffWriter, operations: seq<Operation>)
      requires operations != []
      modifies writer
      ensures writer.events == old(writer.events) + [Event(Header(operations), Summary), Event("\n", NoTag)]
    {
      hide Numeral;
      var first := operations[0];
      var k := 0;
      while k + 1 < |operations|
        invariant k < |operations|
      {
        k := k + 1;
      }
      var last := operations[k];
      var format := "@@ ";
      format := format + "-" + Numeral(first.fromBegin + 1);
      var deletedLines: int := last.fromEnd - first.fromBegin;
      if deletedLines > 1 {
        format := format + "," + Numeral(deletedLines);
      }
      format := format + " +" + Numeral(first.toBegin + 1);
      var insertedLines: int := last.toEnd - first.toBegin;
      if insertedLines > 1 {
        format := format + "," + Numeral(insertedLines);
      }
      format := format + " @@";
      HeaderPieces(first.fromBegin + 1, deletedLines, first.toBegin + 1, insertedLines);
      writer.WriteLine(format, Summary);
    }

    // -------------------------------------------------------------- the whole diff

    /** diff: the whole script without context, else the grouped operations as hunks. */
    method Diff(writer: DiffWriter)
      requires Valid()
      modifies this, matcher, writer
      ensures Valid() && ContextSize() == old(ContextSize())
      ensures writer.events == old(writer.events) + DiffEvents(style, wide, Lines(), ContextSize())
    {
      hide Matches, Blocks, Operations, GroupedOperations, ScriptEvents, Script, GroupsEvents, ShownGroups,
          ValidGroups, IsSameContent;
      var m := GetSequenceMatcher();
      ghost var x := Lines();
      if m.contextSize == 0 {
        LineOperations(x);
        var operations := m.GetOperations();
        DiffOperations(writer, operations);
      } else {
        LineGroups(x, m.contextSize);
        var groups := m.GetGroupedOperations();
        if IsSameContent(groups) {
          NoGroups(style, wide, x, writer.events);
          return;
        }
        DiffGroups(writer, groups);
      }
    }

    /** The loop over the hunks. */
    method DiffGroups(writer: DiffWriter, groups: seq<seq<Operation>>)
      requires ValidGroups(Lines(), groups)
      modifies writer
      ensures writer.events == old(writer.events) + GroupsEvents(style, wide, Lines(), groups)
    {
      hide *;
      ghost var x := Lines();
      ghost var start := writer.events;
      var k := 0;
      assert groups[0..] == groups;
      while k < |groups|
        invariant k <= |groups| && ValidGroups(x, groups[k..])
        invariant writer.events + GroupsEvents(style, wide, x, groups[k..])
                  == start + GroupsEvents(style, wide, x, groups)
      {
        ghost var before := writer.events;
        GroupsStep(style, wide, x, groups, k, before);
        WriteSummary(writer, groups[k]);
        DiffOperations(writer, groups[k]);
        k := k + 1;
      }
      NoGroupsLeft(style, wide, x, groups[k..], writer.events);
    }

    /**
     cut_differ_need_diff: a diff is worth showing when equal and inserted or deleted parts
     both occur, or some replaced block has a pair of lines more similar than the class asks.
     */
    method NeedDiff() returns (needed: bool)
      requires Valid()
      modifies this, matcher
      ensures Valid() && ContextSize() == old(ContextSize())
      ensures needed <==> Worth(Lines(), RuleOf(style).best, Operations(Lines()))
    {
      hide Matches, Blocks, Operations, GroupedOperations, Worth;
      var m := GetSequenceMatcher();
      LineOperations(Lines());
      var operations := m.GetOperations();
      needed := NeedDiffFor(operations);
    }

    /** The loop of cut_differ_need_diff. */
    method NeedDiffFor(operations: seq<Operation>) returns (needed: bool)
      requires AllValid(Lines(), operations)
      ensures needed <==> Worth(Lines(), RuleOf(style).best, operations)
    {
      ghost var x, best := Lines(), RuleOf(style).best;
      hide AllValid, HasKind, SimilarBlock, ValidOperation;
      var haveEqual, haveInsertOrDelete := false, false;
      NoKind(operations);
      var k := 0;
      while k < |operations|
        invariant k <= |operations|
        invariant haveEqual <==> HasKind(operations[..k], Equal)
        invariant haveInsertOrDelete <==> HasKind(operations[..k], Insert) || HasKind(operations[..k], Delete)
        invariant !(haveEqual && haveInsertOrDelete)
        invariant forall n :: 0 <= n < k ==> !SimilarBlock(x, best, operations[n])
      {
        var operation := operations[k];
        AllValidAt(x, operations, k);
        KindPrefix(operations, k, Equal);
        KindPrefix(operations, k, Insert);
        KindPrefix(operations, k, Delete);
        if operation.kind == Replace {
          var similar := HasSimilarPair(operation);
          if similar { return true; }
        } else {
          NotReplaced(x, best, operation);
          if operation.kind == Equal {
            haveEqual := true;
            if haveInsertOrDelete { return true; }
          } else {
            haveInsertOrDelete := true;
            if haveEqual { return true; }
          }
        }
        k := k + 1;
      }
      assert operations[..k] == operations;
      return false;
    }

    method HasSimilarPair(operation: Operation) returns (found: bool)
      requires ValidOperation(Lines(), operation) && operation.kind == Replace
      ensures found <==> SimilarBlock(Lines(), RuleOf(style).best, operation)
    {
      hide LineRatio;
      ghost var x := Lines();
      var fromIndex := operation.fromBegin;
      while fromIndex < operation.fromEnd
        invariant operation.fromBegin <= fromIndex <= operation.fromEnd
        invariant forall i, j :: operation.fromBegin <= i < fromIndex && operation.toBegin <= j < operation.toEnd ==>
                    !SimilarPair(x, RuleOf(style).best, i, j)
      {
        var toIndex := operation.toBegin;
        while toIndex < operation.toEnd
          invariant operation.toBegin <= toIndex <= operation.toEnd
          invariant forall j :: operation.toBegin <= j < toIndex ==> !SimilarPair(x, RuleOf(style).best, fromIndex, j)
        {
          var ratio := GetLineRatio(from[fromIndex], to[toIndex]);
          if ratio > RuleOf(style).best {
            assert SimilarPair(x, RuleOf(style).best, fromIndex, toIndex);
            return true;
          }
          toIndex := toIndex + 1;
        }
        fromIndex := fromIndex + 1;
      }
      return false;
    }
  }

  /** cut_diff_readable, and the same with a context size: a differ, a string writer, and its result. */
  method CutDiffReadable(wide: Wide, from: string, to: string, context: nat) returns (diff: string)
    ensures context == 0 ==> diff == DiffReadable(wide, from, to)
    ensures context > 0 ==> diff == DiffWithContext(wide, from, to, context)
  {
    hide *;
    var differ := new Differ(Readable, wide, from, to);
    var writer := new DiffWriter();
    NewDifferContext(differ);
    if context > 0 {
      differ.SetContextSize(context);
    }
    differ.Diff(writer);
    diff := DropLastNewline(Text(writer.events));
    EmptyHead(DiffEvents(Readable, wide, differ.Lines(), context));
    DiffEventsText(wide, differ.Lines(), context);
    TextsOfLines(wide, differ, from, to, context);
  }

  lemma NewDifferContext(differ: Differ)
    ensures differ.matcher == null ==> differ.ContextSize() == 0
  {
  }

  lemma TextsOfLines(wide: Wide, differ: Differ, from: string, to: string, context: nat)
    requires differ.from == SplitToLines(from) && differ.to == SplitToLines(to)
    ensures ReadableText(wide, differ.Lines()) == DiffReadable(wide, from, to)
    ensures ContextText(wide, differ.Lines(), context) == DiffWithContext(wide, from, to, context)
  {
    hide ReadableText, ContextText, SplitToLines;
  }
}
