/**
 Reading what the colouring differ writes as a plain diff.  A changed pair takes one row or two, and
 nothing in a row says which; the rows that follow decide it.  Both texts can be read back from a
 whole diff, and the hunks of a diff with context patch the first text into the second.
 */
module ColorText {
  import opened Seqs
  import opened Edits
  import opened MatchSpec
  import opened GroupSpec
  import opened Unshared
  import opened LineDiff
  import opened PairedLines
  import opened CharDiff
  import opened ColorRows
  import opened DiffWriter
  import opened DiffText
  import opened Patch
  import opened Differ

  // ---------------------------------------------------------------- the reader

  const LINE_END := Event("\n", NoTag)

  /** What was written, row by row. */
  function Rows(events: seq<Event>): seq<seq<Event>> {
    if events == [] then []
    else
      var rest := Rows(events[1..]);
      if events[0] == LINE_END then [[]] + rest
      else if rest == [] then [events]
      else [[events[0]] + rest[0]] + rest[1..]
  }

  predicate HasTag(row: seq<Event>, tag: WriterTag) {
    exists e :: e in row && e.tag == tag
  }

  predicate OnlySpaces(s: string) {
    forall c :: c in s ==> SPACES(c)
  }

  /** The second row shows the new line of the pair whose old line the first row shows. */
  predicate Continues(first: seq<Event>, second: seq<Event>) {
    && second != [] && second[0].tag == DifferenceMark
    && !HasTag(first, InsertedSegment) && !HasTag(second, DeletedSegment)
    && (HasTag(first, EqualSegment) <==> HasTag(second, EqualSegment))
    && OnlySpaces(ReadFrom(second))
  }

  /** The lines of a plain diff that say what the rows say; any row that is no part of a pair stays as it is. */
  function Decode(rows: seq<seq<Event>>): seq<string> {
    if rows == [] then []
    else
      var row, rest := rows[0], rows[1..];
      if row != [] && row[0].tag == DifferenceMark then
        if rest != [] && Continues(row, rest[0]) then PairText(row, rest[0]) + Decode(rest[1..])
        else PairText(row, []) + Decode(rest)
      else [Text(row)] + Decode(rest)
  }

  /** The two lines of a pair. */
  function PairText(first: seq<Event>, second: seq<Event>): seq<string> {
    OutTexts([Out('-', ReadFrom(first)), Out('+', ReadTo(first, second))])
  }

  // ---------------------------------------------------------------- the rows of a script

  function RowBody(segments: seq<Event>): seq<Event> {
    MarkEvents("?", " ", DifferenceMark) + segments + [Event("", NoTag)]
  }

  function LineBody(o: Out): seq<Event> {
    [Event([o.mark], TagOf(o.mark)), Event(" ", NoTag), Event(o.text, TagOf(o.mark))]
  }

  ghost function FirstBody(wide: Wide, p: Input<char>): seq<Event> {
    RowBody(FirstRow(wide, !HasKind(Operations(p), Replace), p, Operations(p)))
  }

  ghost function SecondBody(wide: Wide, p: Input<char>): seq<Event> {
    RowBody(SecondRow(wide, !HasKind(Operations(p), Replace), p, Operations(p)))
  }

  ghost function PairRows(wide: Wide, p: Input<char>): seq<seq<Event>> {
    [FirstBody(wide, p)] + if HasKind(Operations(p), Replace) then [SecondBody(wide, p)] else []
  }

  ghost function PairOf(x: Input<string>, s: Step): Input<char>
    requires s.Paired?
  {
    CharInput(At(x.from, s.i), At(x.to, s.j))
  }

  ghost function StepRows(wide: Wide, x: Input<string>, s: Step): seq<seq<Event>> {
    if s.Paired? then PairRows(wide, PairOf(x, s)) else [LineBody(PlainOut(x, s))]
  }

  ghost function ScriptRows(wide: Wide, x: Input<string>, steps: seq<Step>): seq<seq<Event>> {
    if steps == [] then [] else StepRows(wide, x, steps[0]) + ScriptRows(wide, x, steps[1..])
  }

  lemma {:induction false} RowsOfOne(row: seq<Event>, rest: seq<Event>)
    requires LINE_END !in row
    ensures Rows(row + ([LINE_END] + rest)) == [row] + Rows(rest)
  {
    if row == [] {
      assert row + ([LINE_END] + rest) == [LINE_END] + rest;
      assert ([LINE_END] + rest)[1..] == rest;
    } else {
      var all := row + ([LINE_END] + rest);
      assert all[0] == row[0] && all[1..] == row[1..] + ([LINE_END] + rest);
      assert row[0] in row && forall e :: e in row[1..] ==> e in row;
      RowsOfOne(row[1..], rest);
      assert [row[0]] + row[1..] == row;
      assert ([row[1..]] + Rows(rest))[1..] == Rows(rest);
    }
  }

  ghost predicate NoLineEnd(segments: seq<Event>) {
    forall e :: e in segments ==> e.tag != NoTag
  }

  lemma {:induction false} SegmentsTagged(wide: Wide, noReplace: bool, x: Input<char>, ops: seq<Operation>)
    ensures NoLineEnd(FirstRow(wide, noReplace, x, ops)) && NoLineEnd(SecondRow(wide, noReplace, x, ops))
  {
    hide First, Second;
    if ops != [] {
      SegmentsTagged(wide, noReplace, x, ops[1..]);
      OperationTagged(wide, noReplace, x, ops[0]);
    }
  }

  lemma OperationTagged(wide: Wide, noReplace: bool, x: Input<char>, op: Operation)
    ensures NoLineEnd(First(wide, noReplace, x, op)) && NoLineEnd(Second(wide, noReplace, x, op))
  {
    hide Spaces, Width, Part;
  }

  lemma BodyPlain(segments: seq<Event>)
    requires NoLineEnd(segments)
    ensures LINE_END !in RowBody(segments)
    ensures Row(segments) == RowBody(segments) + [LINE_END]
  {
  }

  lemma SecondWhenReplaced(wide: Wide, p: Input<char>)
    ensures HasKind(Operations(p), Replace)
            <==> SecondRow(wide, !HasKind(Operations(p), Replace), p, Operations(p)) != []
  {
    SecondRowEmpty(wide, !HasKind(Operations(p), Replace), p, Operations(p));
    hide Operations, SecondRow;
  }

  lemma RowsOfPair(wide: Wide, p: Input<char>, rest: seq<Event>)
    ensures Rows(RowEvents(wide, p, Operations(p)) + rest) == PairRows(wide, p) + Rows(rest)
  {
    hide *;
    var first, second := FirstBody(wide, p), SecondBody(wide, p);
    PairEvents(wide, p);
    PairRowsAre(wide, p, Rows(rest));
    RowsOfOne(second, rest);
    if HasKind(Operations(p), Replace) {
      var more := second + ([LINE_END] + rest);
      Split(first, second, rest);
      RowsOfOne(first, more);
    } else {
      Associate(first, [LINE_END], rest);
      RowsOfOne(first, rest);
    }
  }

  lemma Split(first: seq<Event>, second: seq<Event>, rest: seq<Event>)
    ensures (first + [LINE_END] + (second + [LINE_END])) + rest
            == first + ([LINE_END] + (second + ([LINE_END] + rest)))
  {
  }

  lemma PairEvents(wide: Wide, p: Input<char>)
    ensures var first, second := FirstBody(wide, p), SecondBody(wide, p);
            && LINE_END !in first && LINE_END !in second
            && RowEvents(wide, p, Operations(p))
               == if HasKind(Operations(p), Replace) then first + [LINE_END] + (second + [LINE_END])
                  else first + [LINE_END]
  {
    var ops := Operations(p);
    var first, second := FirstRow(wide, !HasKind(ops, Replace), p, ops),
        SecondRow(wide, !HasKind(ops, Replace), p, ops);
    SegmentsTagged(wide, !HasKind(ops, Replace), p, ops);
    SecondWhenReplaced(wide, p);
    BodyPlain(first);
    BodyPlain(second);
    hide Operations, FirstRow, SecondRow, HasKind, RowBody, Row, NoLineEnd;
    EmptyTail(Row(first));
  }

  lemma RowsOfLine(o: Out, rest: seq<Event>)
    ensures Rows(LineEvents(o) + rest) == [LineBody(o)] + Rows(rest)
  {
    assert LineEvents(o) == LineBody(o) + [LINE_END];
    assert TagOf(o.mark) != NoTag;
    assert LINE_END !in LineBody(o);
    hide LineEvents, LineBody;
    assert LineBody(o) + [LINE_END] + rest == LineBody(o) + ([LINE_END] + rest);
    RowsOfOne(LineBody(o), rest);
  }

  lemma RowsOfStep(wide: Wide, x: Input<string>, s: Step, rest: seq<Event>)
    ensures Rows(StepEvents(Colorize, wide, x, s) + rest) == StepRows(wide, x, s) + Rows(rest)
  {
    hide Rows, RowEvents, PairRows, LineBody, Operations, LineEvents, PlainOut;
    if s.Paired? {
      RowsOfPair(wide, PairOf(x, s), rest);
    } else {
      PlainStep(wide, x, s);
      OneLineEvents(PlainOut(x, s));
      RowsOfLine(PlainOut(x, s), rest);
    }
  }

  /** Splitting what is written for a script at the line ends gives the rows of its steps. */
  lemma {:induction false} RowsOfScript(wide: Wide, x: Input<string>, steps: seq<Step>, rest: seq<Event>)
    ensures Rows(ScriptEvents(Colorize, wide, x, steps) + rest) == ScriptRows(wide, x, steps) + Rows(rest)
  {
    hide StepEvents, StepRows, Rows;
    if steps == [] {
      EmptyHead(rest);
      EmptyHead(Rows(rest));
    } else {
      var a, b := StepEvents(Colorize, wide, x, steps[0]), ScriptEvents(Colorize, wide, x, steps[1..]);
      RowsOfScript(wide, x, steps[1..], rest);
      RowsOfStep(wide, x, steps[0], b + rest);
      assert ScriptEvents(Colorize, wide, x, steps) == a + b;
      assert ScriptRows(wide, x, steps) == StepRows(wide, x, steps[0]) + ScriptRows(wide, x, steps[1..]);
      hide *;
      Associate(a, b, rest);
      Associate(StepRows(wide, x, steps[0]), ScriptRows(wide, x, steps[1..]), Rows(rest));
    }
  }

  // ---------------------------------------------------------------- one row or two

  lemma HasKindCons(ops: seq<Operation>, kind: Kind)
    requires ops != []
    ensures HasKind(ops, kind) <==> ops[0].kind == kind || HasKind(ops[1..], kind)
  {
  }

  lemma HasTagConcat(a: seq<Event>, b: seq<Event>, tag: WriterTag)
    ensures HasTag(a + b, tag) <==> HasTag(a, tag) || HasTag(b, tag)
  {
    if HasTag(a, tag) {
      var e :| e in a && e.tag == tag;
      assert e in a + b;
    }
    if HasTag(b, tag) {
      var e :| e in b && e.tag == tag;
      assert e in a + b;
    }
  }

  lemma OneTag(segments: seq<Event>, tag: WriterTag)
    requires |segments| <= 2
    ensures HasTag(segments, tag) <==> |segments| > 0 && (segments[0].tag == tag || segments[|segments| - 1].tag == tag)
  {
    assert |segments| > 0 ==> segments[0] in segments && segments[|segments| - 1] in segments;
  }

  lemma FirstTags(wide: Wide, noReplace: bool, x: Input<char>, op: Operation)
    ensures var f := First(wide, noReplace, x, op);
            && (HasTag(f, EqualSegment) <==> op.kind == Equal)
            && (HasTag(f, DeletedSegment) <==> op.kind == Delete || op.kind == Replace)
            && (HasTag(f, InsertedSegment) <==> op.kind == Insert && noReplace)
  {
    var f := First(wide, noReplace, x, op);
    OneTag(f, EqualSegment);
    OneTag(f, DeletedSegment);
    OneTag(f, InsertedSegment);
    hide Spaces, Width, HasTag;
  }

  lemma SecondTags(wide: Wide, x: Input<char>, op: Operation)
    ensures var s := Second(wide, false, x, op);
            && (HasTag(s, EqualSegment) <==> op.kind == Equal) && !HasTag(s, DeletedSegment)
  {
    var s := Second(wide, false, x, op);
    OneTag(s, EqualSegment);
    OneTag(s, DeletedSegment);
    hide Spaces, Width, HasTag;
  }

  /** Which kinds of segment the first row has. */
  lemma {:induction false} FirstRowTags(wide: Wide, noReplace: bool, x: Input<char>, ops: seq<Operation>)
    ensures var f := FirstRow(wide, noReplace, x, ops);
            && (HasTag(f, EqualSegment) <==> HasKind(ops, Equal))
            && (HasTag(f, DeletedSegment) <==> HasKind(ops, Delete) || HasKind(ops, Replace))
            && (HasTag(f, InsertedSegment) <==> HasKind(ops, Insert) && noReplace)
  {
    if ops != [] {
      var a, b := First(wide, noReplace, x, ops[0]), FirstRow(wide, noReplace, x, ops[1..]);
      FirstRowTags(wide, noReplace, x, ops[1..]);
      FirstTags(wide, noReplace, x, ops[0]);
      HasTagConcat(a, b, EqualSegment);
      HasTagConcat(a, b, DeletedSegment);
      HasTagConcat(a, b, InsertedSegment);
      KindsCons(ops);
      hide First, HasTag, HasKind;
    }
  }

  lemma KindsCons(ops: seq<Operation>)
    requires ops != []
    ensures forall kind :: HasKind(ops, kind) <==> ops[0].kind == kind || HasKind(ops[1..], kind)
  {
    forall kind
      ensures HasKind(ops, kind) <==> ops[0].kind == kind || HasKind(ops[1..], kind)
    {
      HasKindCons(ops, kind);
    }
  }

  lemma {:induction false} SecondRowTags(wide: Wide, x: Input<char>, ops: seq<Operation>)
    ensures var s := SecondRow(wide, false, x, ops);
            && (HasTag(s, EqualSegment) <==> HasKind(ops, Equal)) && !HasTag(s, DeletedSegment)
  {
    if ops != [] {
      var a, b := Second(wide, false, x, ops[0]), SecondRow(wide, false, x, ops[1..]);
      SecondRowTags(wide, x, ops[1..]);
      SecondTags(wide, x, ops[0]);
      HasTagConcat(a, b, EqualSegment);
      HasTagConcat(a, b, DeletedSegment);
      KindsCons(ops);
      hide Second, HasTag, HasKind;
    }
  }

  /** The common parts of a line are blanks in its second row. */
  lemma {:induction false} SecondRowBlank(wide: Wide, x: Input<char>, ops: seq<Operation>)
    ensures OnlySpaces(ReadFrom(SecondRow(wide, false, x, ops)))
  {
    if ops != [] {
      var a, b := Second(wide, false, x, ops[0]), SecondRow(wide, false, x, ops[1..]);
      SecondRowBlank(wide, x, ops[1..]);
      SecondBlank(wide, x, ops[0]);
      ReadFromConcat(a, b);
      assert SecondRow(wide, false, x, ops) == a + b;
      hide Second, ReadFrom, SecondRow;
    }
  }

  lemma SecondBlank(wide: Wide, x: Input<char>, op: Operation)
    ensures OnlySpaces(ReadFrom(Second(wide, false, x, op)))
  {
    SpacesBlank(wide, FromPart(x, op));
    var s := Second(wide, false, x, op);
    hide Spaces, Width, FromPart, ToPart, Part;
    assert |s| == 1 || |s| == 2;
    OneReads(s[0]);
    if |s| == 1 {
      assert s == [s[0]];
    } else {
      assert s == [s[0]] + [s[1]];
      OneReads(s[1]);
      ReadFromConcat([s[0]], [s[1]]);
    }
  }

  /** The mark and the end of a row belong to neither line. */
  lemma BodyReads(segments: seq<Event>)
    ensures ReadFrom(RowBody(segments)) == ReadFrom(segments)
    ensures ReadInserted(RowBody(segments)) == ReadInserted(segments)
    ensures EqualTexts(RowBody(segments)) == EqualTexts(segments)
  {
    var mark, end := MarkEvents("?", " ", DifferenceMark), [Event("", NoTag)];
    MarkReads(mark);
    OneReads(end[0]);
    ReadConcat(mark + segments, end);
    ReadConcat(mark, segments);
  }

  lemma MarkReads(mark: seq<Event>)
    requires mark == MarkEvents("?", " ", DifferenceMark)
    ensures ReadFrom(mark) == "" && ReadInserted(mark) == "" && EqualTexts(mark) == []
  {
    OneReads(mark[0]);
    OneReads(mark[1]);
    ReadConcat([mark[0]], [mark[1]]);
    assert mark == [mark[0]] + [mark[1]];
  }

  lemma BodyTags(segments: seq<Event>, tag: WriterTag)
    requires tag == EqualSegment || tag == DeletedSegment || tag == InsertedSegment
    ensures HasTag(RowBody(segments), tag) <==> HasTag(segments, tag)
    ensures RowBody(segments) != [] && RowBody(segments)[0].tag == DifferenceMark
  {
    var mark, end := MarkEvents("?", " ", DifferenceMark), [Event("", NoTag)];
    HasTagConcat(mark + segments, end, tag);
    HasTagConcat(mark, segments, tag);
    OneTag(mark, tag);
    OneTag(end, tag);
  }

  lemma {:induction false} FillGapsEnd(equals: seq<string>, segments: seq<Event>)
    ensures FillGaps(equals, segments + [Event("", NoTag)]) == FillGaps(equals, segments)
  {
    var end := Event("", NoTag);
    if segments == [] {
      assert segments + [end] == [end] && [end][1..] == [];
    } else {
      assert (segments + [end])[0] == segments[0] && (segments + [end])[1..] == segments[1..] + [end];
      FillGapsEnd(equals, segments[1..]);
      if equals != [] { FillGapsEnd(equals[1..], segments[1..]); }
    }
  }

  lemma FillGapsBody(equals: seq<string>, segments: seq<Event>)
    ensures FillGaps(equals, RowBody(segments)) == FillGaps(equals, segments)
  {
    var b := RowBody(segments);
    FillGapsEnd(equals, segments);
    assert b[1..][1..] == segments + [Event("", NoTag)];
    assert b[0].tag == DifferenceMark && b[1..][0].tag == NoTag;
  }

  /** Both lines of a pair are read off its own rows. */
  lemma PairReads(wide: Wide, p: Input<char>)
    ensures ReadFrom(FirstBody(wide, p)) == p.from
    ensures ReadTo(FirstBody(wide, p), if HasKind(Operations(p), Replace) then SecondBody(wide, p) else []) == p.to
  {
    var ops := Operations(p);
    var first, second := FirstRow(wide, !HasKind(ops, Replace), p, ops),
        SecondRow(wide, !HasKind(ops, Replace), p, ops);
    OperationsValid(p);
    RowsRoundTrip(wide, p, ops);
    SecondWhenReplaced(wide, p);
    BodyReads(first);
    FillGapsBody(EqualTexts(first), second);
    BodyTags(second, EqualSegment);
    hide Operations, FirstRow, SecondRow, HasKind, RowBody, ReadFrom, ReadInserted, EqualTexts, FillGaps, HasTag;
  }

  /** The second row of a pair continues its first row. */
  lemma SecondContinues(wide: Wide, p: Input<char>)
    requires HasKind(Operations(p), Replace)
    ensures Continues(FirstBody(wide, p), SecondBody(wide, p))
  {
    var ops := Operations(p);
    var first, second := FirstRow(wide, false, p, ops), SecondRow(wide, false, p, ops);
    FirstRowTags(wide, false, p, ops);
    SecondRowTags(wide, p, ops);
    SecondRowBlank(wide, p, ops);
    BodyReads(second);
    BodyTags(first, EqualSegment);
    BodyTags(first, InsertedSegment);
    BodyTags(second, EqualSegment);
    BodyTags(second, DeletedSegment);
    hide Operations, FirstRow, SecondRow, HasKind, RowBody, ReadFrom, HasTag, OnlySpaces;
  }

  // ---------------------------------------------------------------- no other row continues a row

  lemma {:induction false} LastIsKept(x: Input<char>, ops: seq<Operation>, i: nat, j: nat, iEnd: nat, jEnd: nat)
    requires Tiles(x, ops, i, j, iEnd, jEnd) && i < iEnd
    requires !HasKind(ops, Delete) && !HasKind(ops, Replace)
    ensures exists op :: op in ops && op.kind == Equal && op.fromEnd == iEnd
  {
    hide Same;
    var op, rest := ops[0], ops[1..];
    assert op in ops && forall o :: o in rest ==> o in ops;
    if op.fromEnd < iEnd {
      LastIsKept(x, rest, op.fromEnd, op.toEnd, iEnd, jEnd);
    } else {
      TilesBounds(x, rest, op.fromEnd, op.toEnd, iEnd, jEnd);
    }
  }

  /** A line of blanks alone that loses nothing is empty, and shares nothing. */
  lemma BlankLineLoses(p: Input<char>)
    requires p.junk == SPACES && OnlySpaces(p.from)
    requires !HasKind(Operations(p), Delete) && !HasKind(Operations(p), Replace)
    ensures p.from == "" && !HasKind(Operations(p), Equal)
  {
    OperationsValid(p);
    JunkNeverKeptWhole(p);
    hide Operations;
    if p.from != "" {
      LastIsKept(p, Operations(p), 0, 0, |p.from|, |p.to|);
    }
  }

  lemma {:induction false} NothingInserted(row: seq<Event>)
    requires !HasTag(row, EqualSegment) && !HasTag(row, InsertedSegment)
    ensures ReadInserted(row) == ""
  {
    if row != [] {
      assert row[0] in row && forall e :: e in row[1..] ==> e in row;
      NothingInserted(row[1..]);
    }
  }

  /** The first row of a pair never continues the only row of the pair before it. */
  lemma FirstNeverContinues(wide: Wide, p: Input<char>, q: Input<char>)
    requires !HasKind(Operations(p), Replace) && q.junk == SPACES && q.from != p.to
    ensures !Continues(FirstBody(wide, p), FirstBody(wide, q))
  {
    hide *;
    if Continues(FirstBody(wide, p), FirstBody(wide, q)) {
      ContinuesFacts(FirstBody(wide, p), FirstBody(wide, q));
      PairReads(wide, q);
      PairReads(wide, p);
      FirstBodyTags(wide, p);
      FirstBodyTags(wide, q);
      BlankLineLoses(q);
      NothingInserted(FirstBody(wide, p));
      ReadsAlone(FirstBody(wide, p));
      assert false;
    }
  }

  lemma ContinuesFacts(first: seq<Event>, second: seq<Event>)
    requires Continues(first, second)
    ensures !HasTag(first, InsertedSegment) && !HasTag(second, DeletedSegment)
    ensures HasTag(first, EqualSegment) <==> HasTag(second, EqualSegment)
    ensures OnlySpaces(ReadFrom(second))
  {
    hide HasTag, ReadFrom, OnlySpaces;
  }

  lemma ReadsAlone(row: seq<Event>)
    ensures ReadTo(row, []) == ReadInserted(row)
  {
    hide ReadInserted;
  }

  lemma FirstBodyTags(wide: Wide, p: Input<char>)
    ensures var f, ops := FirstBody(wide, p), Operations(p);
            && f != [] && f[0].tag == DifferenceMark
            && (HasTag(f, EqualSegment) <==> HasKind(ops, Equal))
            && (HasTag(f, DeletedSegment) <==> HasKind(ops, Delete) || HasKind(ops, Replace))
            && (HasTag(f, InsertedSegment) <==> HasKind(ops, Insert) && !HasKind(ops, Replace))
  {
    var ops := Operations(p);
    var first := FirstRow(wide, !HasKind(ops, Replace), p, ops);
    FirstRowTags(wide, !HasKind(ops, Replace), p, ops);
    BodyTags(first, EqualSegment);
    BodyTags(first, DeletedSegment);
    BodyTags(first, InsertedSegment);
    hide Operations, FirstRow, HasKind, RowBody, HasTag;
  }

  // ---------------------------------------------------------------- nothing is lost

  /** The lines of a plain diff for a step: a pair is a removed and an added line. */
  ghost function StepLines(x: Input<string>, s: Step): seq<Out> {
    if s.Paired? then [Out('-', At(x.from, s.i)), Out('+', At(x.to, s.j))] else [PlainOut(x, s)]
  }

  ghost function ScriptLines(x: Input<string>, steps: seq<Step>): seq<Out> {
    if steps == [] then [] else StepLines(x, steps[0]) + ScriptLines(x, steps[1..])
  }

  /** The rows go on with one that belongs to no pair, if at all. */
  ghost predicate GoesOnPlain(rows: seq<seq<Event>>) {
    rows != [] ==> rows[0] != [] && rows[0][0].tag != DifferenceMark
  }

  lemma DecodeUnfold(row: seq<Event>, rest: seq<seq<Event>>)
    ensures row != [] && row[0].tag == DifferenceMark && !(rest != [] && Continues(row, rest[0])) ==>
              Decode([row] + rest) == PairText(row, []) + Decode(rest)
    ensures row != [] && row[0].tag == DifferenceMark && rest != [] && Continues(row, rest[0]) ==>
              Decode([row] + rest) == PairText(row, rest[0]) + Decode(rest[1..])
    ensures row != [] && row[0].tag != DifferenceMark ==> Decode([row] + rest) == [Text(row)] + Decode(rest)
  {
    hide Continues, PairText, Text;
    assert ([row] + rest)[1..] == rest;
  }

  /** Decoding a pair gives its two lines and leaves the rows after it. */
  lemma DecodePair(wide: Wide, p: Input<char>, rest: seq<seq<Event>>)
    requires HasKind(Operations(p), Replace) || rest == [] || !Continues(FirstBody(wide, p), rest[0])
    ensures Decode(PairRows(wide, p) + rest) == OutTexts([Out('-', p.from), Out('+', p.to)]) + Decode(rest)
  {
    hide *;
    var first, second := FirstBody(wide, p), SecondBody(wide, p);
    PairReads(wide, p);
    FirstBodyTags(wide, p);
    PairRowsAre(wide, p, rest);
    PairTextFact(first, if HasKind(Operations(p), Replace) then second else []);
    if HasKind(Operations(p), Replace) {
      SecondContinues(wide, p);
      DecodeUnfold(first, [second] + rest);
      TailOfOne(second, rest);
    } else {
      DecodeUnfold(first, rest);
    }
  }

  lemma PairTextFact(first: seq<Event>, second: seq<Event>)
    ensures PairText(first, second) == OutTexts([Out('-', ReadFrom(first)), Out('+', ReadTo(first, second))])
  {
    hide OutTexts, ReadFrom, ReadTo;
  }

  lemma PairRowsAre(wide: Wide, p: Input<char>, rest: seq<seq<Event>>)
    ensures PairRows(wide, p) + rest
            == if HasKind(Operations(p), Replace) then [FirstBody(wide, p)] + ([SecondBody(wide, p)] + rest)
               else [FirstBody(wide, p)] + rest
  {
    hide HasKind, FirstBody, SecondBody, Operations;
  }

  lemma TailOfOne<T>(t: T, rest: seq<T>)
    ensures ([t] + rest)[0] == t && ([t] + rest)[1..] == rest
  {
  }

  /** The first row of the steps that follow a pair does not continue it. */
  lemma NextRowApart(wide: Wide, x: Input<string>, steps: seq<Step>, rest: seq<seq<Event>>)
    requires steps != [] && steps[0].Paired? && NeighboursDiffer(x, steps) && GoesOnPlain(rest)
    requires !HasKind(Operations(PairOf(x, steps[0])), Replace)
    ensures var rows := ScriptRows(wide, x, steps[1..]) + rest;
            rows == [] || !Continues(FirstBody(wide, PairOf(x, steps[0])), rows[0])
  {
    hide *;
    var p, rows := PairOf(x, steps[0]), ScriptRows(wide, x, steps[1..]) + rest;
    if |steps| == 1 {
      NoRows(wide, x, steps[1..]);
      EmptyHead(rest);
      PlainNeverContinues(FirstBody(wide, p), rest);
    } else {
      var s := steps[1];
      FirstOfRows(wide, x, steps[1..]);
      assert rows[0] == ScriptRows(wide, x, steps[1..])[0];
      if s.Paired? {
        FirstNeighbours(x, steps);
        PairOfFacts(x, s);
        PairOfFacts(x, steps[0]);
        FirstNeverContinues(wide, p, PairOf(x, s));
      } else {
        BodyIsPlain(PlainOut(x, s));
        PlainNeverContinues(FirstBody(wide, p), [LineBody(PlainOut(x, s))]);
      }
    }
  }

  lemma FirstNeighbours(x: Input<string>, steps: seq<Step>)
    requires |steps| > 1 && steps[0].Paired? && steps[1].Paired? && NeighboursDiffer(x, steps)
    ensures At(x.from, steps[1].i) != At(x.to, steps[0].j)
  {
    hide At;
    assert steps[0 + 1].Paired?;
  }

  lemma PairOfFacts(x: Input<string>, s: Step)
    requires s.Paired?
    ensures PairOf(x, s).junk == SPACES && PairOf(x, s).from == At(x.from, s.i) && PairOf(x, s).to == At(x.to, s.j)
  {
    hide At;
  }

  lemma BodyIsPlain(o: Out)
    ensures LineBody(o) != [] && LineBody(o)[0].tag != DifferenceMark && GoesOnPlain([LineBody(o)])
    ensures Text(LineBody(o)) == OutText(o)
  {
    var body := LineBody(o);
    assert body[1..][1..] == [body[2]] && [body[2]][1..] == [];
    assert Text([body[2]]) == o.text;
    assert Text(body[1..]) == " " + o.text;
  }

  lemma PlainNeverContinues(first: seq<Event>, rows: seq<seq<Event>>)
    requires GoesOnPlain(rows)
    ensures rows == [] || !Continues(first, rows[0])
  {
    hide ReadFrom, HasTag, OnlySpaces;
  }

  lemma FirstOfRows(wide: Wide, x: Input<string>, steps: seq<Step>)
    requires steps != []
    ensures ScriptRows(wide, x, steps) != []
    ensures ScriptRows(wide, x, steps)[0]
            == if steps[0].Paired? then FirstBody(wide, PairOf(x, steps[0])) else LineBody(PlainOut(x, steps[0]))
  {
    hide FirstBody, SecondBody, LineBody, PlainOut, HasKind, Operations;
  }

  /** Decoding the rows of a script gives its plain lines and leaves the rows after them. */
  lemma {:induction false} DecodeScript(wide: Wide, x: Input<string>, steps: seq<Step>, rest: seq<seq<Event>>)
    requires NeighboursDiffer(x, steps) && GoesOnPlain(rest)
    ensures Decode(ScriptRows(wide, x, steps) + rest) == OutTexts(ScriptLines(x, steps)) + Decode(rest)
  {
    hide *;
    if steps == [] {
      NoRows(wide, x, steps);
      NoLinesLeft(FromSide, x, steps);
      EmptyHead(rest);
      EmptyHead(Decode(rest));
    } else {
      NeighboursTail(x, steps);
      DecodeScript(wide, x, steps[1..], rest);
      DecodeStep(wide, x, steps, rest);
      ScriptLinesUnfold(x, steps);
      OutTextsConcat(StepLines(x, steps[0]), ScriptLines(x, steps[1..]));
      Associate(OutTexts(StepLines(x, steps[0])), OutTexts(ScriptLines(x, steps[1..])), Decode(rest));
    }
  }

  lemma DecodeStep(wide: Wide, x: Input<string>, steps: seq<Step>, rest: seq<seq<Event>>)
    requires steps != [] && NeighboursDiffer(x, steps) && GoesOnPlain(rest)
    ensures Decode(ScriptRows(wide, x, steps) + rest)
            == OutTexts(StepLines(x, steps[0])) + Decode(ScriptRows(wide, x, steps[1..]) + rest)
  {
    hide *;
    var s, rows := steps[0], ScriptRows(wide, x, steps[1..]);
    ScriptRowsUnfold(wide, x, steps);
    StepLinesFact(x, s);
    if s.Paired? {
      var p := PairOf(x, s);
      PairOfFacts(x, s);
      if !HasKind(Operations(p), Replace) {
        NextRowApart(wide, x, steps, rest);
      }
      DecodePair(wide, p, rows + rest);
      Associate(PairRows(wide, p), rows, rest);
    } else {
      var body := LineBody(PlainOut(x, s));
      Associate([body], rows, rest);
      DecodeUnfold(body, rows + rest);
      BodyIsPlain(PlainOut(x, s));
    }
  }

  lemma NoRows(wide: Wide, x: Input<string>, steps: seq<Step>)
    requires steps == []
    ensures ScriptRows(wide, x, steps) == []
  {
  }

  lemma NoLinesLeft(side: Side, x: Input<string>, steps: seq<Step>)
    requires steps == []
    ensures OutTexts(ScriptLines(x, steps)) == [] && ReadSide(side, []) == []
    ensures Pick(SideLines(side, x), Numbers(side, steps)) == []
  {
  }

  lemma NeighboursTail(x: Input<string>, steps: seq<Step>)
    requires steps != [] && NeighboursDiffer(x, steps)
    ensures NeighboursDiffer(x, steps[1..])
  {
    var rest := steps[1..];
    hide At;
    forall k | 0 <= k < |rest| - 1 && rest[k].Paired? && rest[k + 1].Paired?
      ensures At(x.from, rest[k + 1].i) != At(x.to, rest[k].j)
    {
      assert steps[k + 1] == rest[k] && steps[k + 2] == rest[k + 1];
    }
  }

  lemma ScriptRowsUnfold(wide: Wide, x: Input<string>, steps: seq<Step>)
    requires steps != []
    ensures ScriptRows(wide, x, steps)
            == (if steps[0].Paired? then PairRows(wide, PairOf(x, steps[0])) else [LineBody(PlainOut(x, steps[0]))])
               + ScriptRows(wide, x, steps[1..])
  {
    hide PairRows, LineBody, PlainOut;
  }

  lemma ScriptLinesUnfold(x: Input<string>, steps: seq<Step>)
    requires steps != []
    ensures ScriptLines(x, steps) == StepLines(x, steps[0]) + ScriptLines(x, steps[1..])
  {
    hide StepLines;
  }

  lemma StepLinesFact(x: Input<string>, s: Step)
    ensures s.Paired? ==> StepLines(x, s) == [Out('-', At(x.from, s.i)), Out('+', At(x.to, s.j))]
    ensures !s.Paired? ==> OutTexts(StepLines(x, s)) == [OutText(PlainOut(x, s))]
  {
    hide At, OutText;
    assert !s.Paired? ==> [PlainOut(x, s)][1..] == [];
  }

  /** The plain lines of a step read as the lines it accounts for. */
  lemma ReadStepLines(side: Side, x: Input<string>, s: Step)
    requires s.Kept? ==> s.i < |x.from| && s.j < |x.to| && Identical(x, s.i, s.j)
    ensures ReadSide(side, OutTexts(StepLines(x, s))) == Pick(SideLines(side, x), Numbers(side, [s]))
  {
    hide ReadSide, OutTexts, Pick, FromNumbers, ToNumbers;
    OneStep(s);
    PickOne(x.from, if s.Added? then 0 else s.i);
    PickOne(x.to, if s.Removed? then 0 else s.j);
    if s.Paired? {
      var a, b := Out('-', At(x.from, s.i)), Out('+', At(x.to, s.j));
      ReadOut(side, a);
      ReadOut(side, b);
      ReadTwo(side, [a], [b]);
      assert StepLines(x, s) == [a] + [b];
    } else {
      ReadOut(side, PlainOut(x, s));
    }
  }

  /** Reading the plain lines of a script gives the lines it accounts for on that side. */
  lemma {:induction false} ReadScriptLines(side: Side, x: Input<string>, steps: seq<Step>)
    requires KeptAgree(x, steps)
    ensures ReadSide(side, OutTexts(ScriptLines(x, steps))) == Pick(SideLines(side, x), Numbers(side, steps))
  {
    hide *;
    if steps == [] {
      NoLinesLeft(side, x, steps);
    } else {
      var s, rest := steps[0], steps[1..];
      KeptParts(x, steps);
      ReadScriptLines(side, x, rest);
      ReadStepLines(side, x, s);
      assert steps == [s] + rest;
      ScriptLinesUnfold(x, steps);
      ReadTwo(side, StepLines(x, s), ScriptLines(x, rest));
      NumbersOf(side, [s], rest);
      PickConcat(SideLines(side, x), Numbers(side, [s]), Numbers(side, rest));
    }
  }

  /** A script that accounts for a window reads as the lines of the window on each side. */
  lemma ReadAccountedLines(x: Input<string>, steps: seq<Step>, w: Window)
    requires ValidWindow(x, w) && Accounts(steps, w) && KeptAgree(x, steps)
    ensures ReadSide(FromSide, OutTexts(ScriptLines(x, steps))) == x.from[w.fromBegin..w.fromEnd]
    ensures ReadSide(ToSide, OutTexts(ScriptLines(x, steps))) == x.to[w.toBegin..w.toEnd]
  {
    ReadScriptLines(FromSide, x, steps);
    ReadScriptLines(ToSide, x, steps);
    PickRange(x.from, w.fromBegin, w.fromEnd);
    PickRange(x.to, w.toBegin, w.toEnd);
    hide KeptAgree, ScriptLines, OutTexts, ReadSide, Pick, Range, FromNumbers, ToNumbers;
  }

  // ---------------------------------------------------------------- the whole diff

  /**
   The main result of the colouring differ: for all lists of lines, both can be recovered, line
   for line, from what it writes.
   */
  lemma ColorizeRoundTrip(wide: Wide, from: seq<string>, to: seq<string>)
    ensures var lines := Decode(Rows(DiffEvents(Colorize, wide, LineInput(from, to), 0)));
            ReadSide(FromSide, lines) == from && ReadSide(ToSide, lines) == to
  {
    hide *;
    var x := LineInput(from, to);
    var steps := WholeScript(COLORIZE, x);
    WholeScriptFacts(wide, from, to);
    RowsOfScript(wide, x, steps, []);
    EmptyTail(ScriptEvents(Colorize, wide, x, steps));
    NothingWritten();
    WholeNeighboursDiffer(COLORIZE, from, to);
    DecodeScript(wide, x, steps, []);
    EmptyTail(OutTexts(ScriptLines(x, steps)));
    ReadAccountedLines(x, steps, Window(0, |from|, 0, |to|));
    assert from[0..|from|] == from && to[0..|to|] == to;
  }

  lemma NothingWritten()
    ensures Rows([]) == [] && Decode([]) == [] && GoesOnPlain([])
  {
  }

  lemma WholeScriptFacts(wide: Wide, from: seq<string>, to: seq<string>)
    ensures var x := LineInput(from, to);
            var steps, w := WholeScript(COLORIZE, x), Window(0, |from|, 0, |to|);
            && x.from == from && x.to == to && ValidWindow(x, w) && Accounts(steps, w) && KeptAgree(x, steps)
            && DiffEvents(Colorize, wide, x, 0) == ScriptEvents(Colorize, wide, x, steps)
  {
    var x := LineInput(from, to);
    var ops := Operations(x);
    OperationsValid(x);
    TilesAllValid(x, ops, 0, 0, |from|, |to|);
    ScriptAccounts(x, COLORIZE, ops, 0, 0, |from|, |to|);
    ScriptKeptAgree(x, COLORIZE, ops);
    hide Operations, Script, KeptAgree, ScriptEvents, Accounts, Tiles;
  }

  // ---------------------------------------------------------------- with context

  /** The plain diff of groups: their headers, each followed by the plain lines of its script. */
  ghost function PlainHunks(x: Input<string>, groups: seq<seq<Operation>>): seq<string>
    requires ValidGroups(x, groups)
  {
    if groups == [] then []
    else [Header(groups[0])] + OutTexts(ScriptLines(x, Script(x, COLORIZE, groups[0]))) + PlainHunks(x, groups[1..])
  }

  /** The script of every group can be decoded. */
  ghost predicate Decodable(x: Input<string>, groups: seq<seq<Operation>>)
    requires ValidGroups(x, groups)
  {
    groups == [] || (NeighboursDiffer(x, Script(x, COLORIZE, groups[0])) && Decodable(x, groups[1..]))
  }

  lemma {:induction false} GroupsDecodable(x: Input<string>, context: nat, groups: seq<seq<Operation>>)
    requires context > 0 && x.junk == NO_JUNK && ValidGroups(x, groups)
    requires forall g :: g in groups ==> g in GroupedOperations(x, context)
    ensures Decodable(x, groups)
  {
    hide GroupedOperations, NeighboursDiffer, Script, AllValid;
    if groups != [] {
      GroupNeighboursDiffer(x, COLORIZE, context, groups[0]);
      GroupsDecodable(x, context, groups[1..]);
    }
  }

  /** Decoding what is written for groups gives their plain diff. */
  lemma {:induction false} DecodeGroups(wide: Wide, x: Input<string>, groups: seq<seq<Operation>>)
    requires ValidGroups(x, groups) && Decodable(x, groups)
    ensures var rows := Rows(GroupsEvents(Colorize, wide, x, groups));
            Decode(rows) == PlainHunks(x, groups) && GoesOnPlain(rows)
  {
    hide *;
    GroupsUnfold(wide, x, groups);
    NothingWritten();
    if groups != [] {
      var header, steps := Event(Header(groups[0]), Summary), Script(x, COLORIZE, groups[0]);
      var more := GroupsEvents(Colorize, wide, x, groups[1..]);
      var body := ScriptEvents(Colorize, wide, x, steps) + more;
      DecodeGroups(wide, x, groups[1..]);
      HeaderEvent(header);
      RowsOfOne([header], body);
      RowsOfScript(wide, x, steps, more);
      DecodeUnfold([header], Rows(body));
      DecodeScript(wide, x, steps, Rows(more));
      HeaderFirst([header], Rows(body));
      Associate([Header(groups[0])], OutTexts(ScriptLines(x, steps)), PlainHunks(x, groups[1..]));
    }
  }

  lemma HeaderEvent(header: Event)
    requires header.tag == Summary
    ensures LINE_END !in [header] && Text([header]) == header.text
  {
    assert [header][1..] == [];
  }

  lemma HeaderFirst(row: seq<Event>, rest: seq<seq<Event>>)
    requires row != [] && row[0].tag == Summary
    ensures GoesOnPlain([row] + rest)
  {
  }

  lemma GroupsUnfold(wide: Wide, x: Input<string>, groups: seq<seq<Operation>>)
    requires ValidGroups(x, groups) && Decodable(x, groups)
    ensures groups == [] ==> GroupsEvents(Colorize, wide, x, groups) == [] && PlainHunks(x, groups) == []
    ensures groups != [] ==>
              && groups[0] != [] && AllValid(x, groups[0]) && ValidGroups(x, groups[1..]) && Decodable(x, groups[1..])
              && var steps := Script(x, COLORIZE, groups[0]);
              && NeighboursDiffer(x, steps)
              && GroupsEvents(Colorize, wide, x, groups)
                 == [Event(Header(groups[0]), Summary)]
                    + ([LINE_END] + (ScriptEvents(Colorize, wide, x, steps)
                                     + GroupsEvents(Colorize, wide, x, groups[1..])))
              && PlainHunks(x, groups)
                 == [Header(groups[0])] + OutTexts(ScriptLines(x, steps)) + PlainHunks(x, groups[1..])
  {
    hide ScriptEvents, Script, Header, OutTexts, ScriptLines, AllValid, NeighboursDiffer;
    if groups != [] {
      var a, b := ScriptEvents(Colorize, wide, x, Script(x, COLORIZE, groups[0])),
          GroupsEvents(Colorize, wide, x, groups[1..]);
      var h := Event(Header(groups[0]), Summary);
      assert GroupsEvents(Colorize, wide, x, groups) == [h, LINE_END] + a + b;
      hide *;
      assert [h, LINE_END] == [h] + [LINE_END];
      Associate([h, LINE_END], a, b);
      Associate([h], [LINE_END], a + b);
    }
  }

  lemma {:induction false} LinesMarked(x: Input<string>, steps: seq<Step>)
    ensures Marked(ScriptLines(x, steps))
  {
    hide At;
    if steps != [] {
      LinesMarked(x, steps[1..]);
    }
  }

  /** The plain lines of a group are the body of a hunk for it. */
  lemma LinesAreBody(x: Input<string>, g: seq<Operation>)
    requires g != [] && AllValid(x, g) && ValidWindow(x, GroupWindow(g))
    requires Tiles(x, g, g[0].fromBegin, g[0].toBegin, g[|g| - 1].fromEnd, g[|g| - 1].toEnd)
    ensures IsBody(x, g, OutTexts(ScriptLines(x, Script(x, COLORIZE, g))))
  {
    var w, steps := GroupWindow(g), Script(x, COLORIZE, g);
    hide ScriptLines, Script, OutTexts, ReadSide, AllValid, Tiles, Marked, KeptAgree, Accounts;
    ScriptAccounts(x, COLORIZE, g, w.fromBegin, w.toBegin, w.fromEnd, w.toEnd);
    ScriptKeptAgree(x, COLORIZE, g);
    ReadAccountedLines(x, steps, w);
    LinesMarked(x, steps);
    MarkedTexts(ScriptLines(x, steps));
  }

  lemma {:induction false} ApplyPlainHunks(x: Input<string>, groups: seq<seq<Operation>>, i: nat, j: nat)
    requires i <= |x.from| && j <= |x.to|
    requires Covers(x, groups, i, j) && ValidGroups(x, groups)
    ensures Apply(x.from, PlainHunks(x, groups), i, j) == Patched(x.to[j..])
    ensures groups != [] ==>
              PlainHunks(x, groups) != [] && PlainHunks(x, groups)[0] != [] && PlainHunks(x, groups)[0][0] == '@'
  {
    if groups == [] {
      SameIsEqualSlices(x, i, j, |x.from| - i);
      assert x.from[i..] == x.from[i..|x.from|] && x.to[j..] == x.to[j..|x.to|];
    } else {
      var g, rest := groups[0], groups[1..];
      var last := g[|g| - 1];
      CoversHead(x, groups, i, j);
      HeaderMarked(g);
      var body := OutTexts(ScriptLines(x, Script(x, COLORIZE, g)));
      assert PlainHunks(x, groups) == [Header(g)] + body + PlainHunks(x, rest);
      hide *;
      LinesAreBody(x, g);
      ApplyPlainHunks(x, rest, last.fromEnd, last.toEnd);
      ApplyGroup(x, g, body, PlainHunks(x, rest), i, j);
    }
  }

  /**
   For all lists of lines and every context size above 0, the hunks of the coloured diff, read as a
   plain diff, patch the first list into the second.
   */
  lemma ColorizePatches(wide: Wide, from: seq<string>, to: seq<string>, context: nat)
    requires context > 0
    ensures Apply(from, Decode(Rows(DiffEvents(Colorize, wide, LineInput(from, to), context))), 0, 0) == Patched(to)
  {
    hide *;
    var x := LineInput(from, to);
    var groups := ShownGroups(x, context);
    LinesHaveNoJunk(from, to);
    ContextEvents(wide, x, context);
    ShownGroupsCover(x, context);
    ShownAreGroups(x, context);
    GroupsDecodable(x, context, groups);
    DecodeGroups(wide, x, groups);
    ApplyPlainHunks(x, groups, 0, 0);
    assert to[0..] == to;
  }

  lemma LinesHaveNoJunk(from: seq<string>, to: seq<string>)
    ensures var x := LineInput(from, to); x.from == from && x.to == to && x.junk == NO_JUNK && !HasJunk(x)
  {
  }

  lemma ContextEvents(wide: Wide, x: Input<string>, context: nat)
    requires context > 0
    ensures DiffEvents(Colorize, wide, x, context) == GroupsEvents(Colorize, wide, x, ShownGroups(x, context))
  {
    hide GroupsEvents, ShownGroups;
  }

  lemma ShownAreGroups(x: Input<string>, context: nat)
    ensures forall g :: g in ShownGroups(x, context) ==> g in GroupedOperations(x, context)
  {
    hide GroupedOperations, IsSameContent;
  }
}
