/** The text of a readable diff, line by line, and reading both inputs back from it. */
module DiffText {
  import opened Edits
  import opened MatchSpec
  import opened LineDiff
  import opened CharDiff
  import opened DiffWriter
  import opened Lines

  /** A printed line: its mark and what follows the separator. */
  datatype Out = Out(mark: char, text: string)

  function TagOf(mark: char): WriterTag {
    if mark == ' ' then EqualLine
    else if mark == '-' then DeletedLine
    else if mark == '+' then InsertedLine
    else DifferenceLine
  }

  function LineEvents(o: Out): seq<Event> {
    MarkLineEvents([o.mark], " ", o.text, TagOf(o.mark))
  }

  function LinesEvents(outs: seq<Out>): seq<Event> {
    if outs == [] then [] else LineEvents(outs[0]) + LinesEvents(outs[1..])
  }

  function OutText(o: Out): string {
    [o.mark] + " " + o.text
  }

  function OutTexts(outs: seq<Out>): seq<string> {
    if outs == [] then [] else [OutText(outs[0])] + OutTexts(outs[1..])
  }

  function At(lines: seq<string>, i: nat): string {
    if i < |lines| then lines[i] else ""
  }

  /** The tag line of one side of a changed pair, trimmed. */
  ghost function TagLine(wide: Wide, side: Side, x: Input<char>): string {
    OperationsValid(x);
    TilesInLine(x, side, Operations(x), 0, 0, |x.from|, |x.to|);
    Chomp(Tags(wide, side, Operations(x), LineOf(side, x)))
  }

  ghost function OptionalTagLine(tags: string): seq<Out> {
    if tags == "" then [] else [Out('?', tags)]
  }

  /** The lines printed for a changed pair (diff_line and format_diff_point). */
  ghost function PairLines(wide: Wide, a: string, b: string): seq<Out> {
    [Out('-', a)] + OptionalTagLine(TagLine(wide, FromSide, CharInput(a, b)))
    + [Out('+', b)] + OptionalTagLine(TagLine(wide, ToSide, CharInput(a, b)))
  }

  ghost function PrintStep(wide: Wide, x: Input<string>, s: Step): seq<Out> {
    match s
    case Kept(i, j) => [Out(' ', At(x.from, i))]
    case Removed(i) => [Out('-', At(x.from, i))]
    case Added(j) => [Out('+', At(x.to, j))]
    case Paired(i, j) => PairLines(wide, At(x.from, i), At(x.to, j))
  }

  ghost function Print(wide: Wide, x: Input<string>, steps: seq<Step>): seq<Out> {
    if steps == [] then [] else PrintStep(wide, x, steps[0]) + Print(wide, x, steps[1..])
  }

  // ---------------------------------------------------------------- reading back

  /** The lines marked as belonging to one side, their marks removed. */
  function ReadSide(side: Side, lines: seq<string>): seq<string> {
    if lines == [] then []
    else
      (if |lines[0]| >= 2 && (lines[0][0] == ' ' || lines[0][0] == if side == FromSide then '-' else '+')
       then [lines[0][2..]] else [])
      + ReadSide(side, lines[1..])
  }

  /** The numbered lines. */
  function Pick(lines: seq<string>, numbers: seq<nat>): seq<string> {
    if numbers == [] then [] else [At(lines, numbers[0])] + Pick(lines, numbers[1..])
  }

  function Numbers(side: Side, steps: seq<Step>): seq<nat> {
    if side == FromSide then FromNumbers(steps) else ToNumbers(steps)
  }

  ghost function SideLines(side: Side, x: Input<string>): seq<string> {
    if side == FromSide then x.from else x.to
  }

  lemma {:induction false} ReadSideConcat(side: Side, a: seq<string>, b: seq<string>)
    ensures ReadSide(side, a + b) == ReadSide(side, a) + ReadSide(side, b)
  {
    if a == [] {
      assert a + b == b;
    } else {
      assert (a + b)[1..] == a[1..] + b;
      ReadSideConcat(side, a[1..], b);
    }
  }

  lemma {:induction false} OutTextsConcat(a: seq<Out>, b: seq<Out>)
    ensures OutTexts(a + b) == OutTexts(a) + OutTexts(b)
  {
    hide OutText;
    if a == [] {
      assert a + b == b;
    } else {
      assert (a + b)[1..] == a[1..] + b;
      OutTextsConcat(a[1..], b);
    }
  }

  lemma {:induction false} PickConcat(lines: seq<string>, a: seq<nat>, b: seq<nat>)
    ensures Pick(lines, a + b) == Pick(lines, a) + Pick(lines, b)
  {
    hide At;
    if a == [] {
      assert a + b == b;
    } else {
      assert (a + b)[1..] == a[1..] + b;
      PickConcat(lines, a[1..], b);
    }
  }

  lemma {:induction false} PickRange(lines: seq<string>, begin: nat, end: nat)
    requires begin <= end <= |lines|
    ensures Pick(lines, Range(begin, end)) == lines[begin..end]
    decreases end
  {
    if begin < end {
      PickRange(lines, begin, end - 1);
      var before := Range(begin, end - 1);
      assert Range(begin, end) == before + [end - 1];
      hide Range;
      PickConcat(lines, before, [end - 1]);
      assert [end - 1][1..] == [];
      assert Pick(lines, [end - 1]) == [lines[end - 1]];
    }
  }

  lemma ReadOut(side: Side, o: Out)
    ensures ReadSide(side, OutTexts([o]))
            == if o.mark == ' ' || o.mark == (if side == FromSide then '-' else '+') then [o.text] else []
  {
    assert [o][1..] == [];
    var t := OutText(o);
    assert OutTexts([o]) == [t];
    assert t[0] == o.mark && t[2..] == o.text && |t| >= 2;
    var ts: seq<string> := [t];
    assert ts[1..] == [];
  }

  lemma ReadTwo(side: Side, a: seq<Out>, b: seq<Out>)
    ensures ReadSide(side, OutTexts(a + b)) == ReadSide(side, OutTexts(a)) + ReadSide(side, OutTexts(b))
  {
    hide ReadSide, OutTexts;
    OutTextsConcat(a, b);
    ReadSideConcat(side, OutTexts(a), OutTexts(b));
  }

  lemma ReadOptional(side: Side, tags: string)
    ensures ReadSide(side, OutTexts(OptionalTagLine(tags))) == []
  {
    if tags != "" {
      ReadOut(side, Out('?', tags));
    }
  }

  lemma ReadPair(side: Side, wide: Wide, a: string, b: string)
    ensures ReadSide(side, OutTexts(PairLines(wide, a, b))) == [if side == FromSide then a else b]
  {
    hide ReadSide, OutTexts, TagLine, OptionalTagLine;
    var p, q := OptionalTagLine(TagLine(wide, FromSide, CharInput(a, b))),
        OptionalTagLine(TagLine(wide, ToSide, CharInput(a, b)));
    ReadTwo(side, [Out('-', a)] + p + [Out('+', b)], q);
    ReadTwo(side, [Out('-', a)] + p, [Out('+', b)]);
    ReadTwo(side, [Out('-', a)], p);
    ReadOptional(side, TagLine(wide, FromSide, CharInput(a, b)));
    ReadOptional(side, TagLine(wide, ToSide, CharInput(a, b)));
    ReadOut(side, Out('-', a));
    ReadOut(side, Out('+', b));
  }

  lemma ReadStep(side: Side, wide: Wide, x: Input<string>, s: Step)
    requires s.Kept? ==> s.i < |x.from| && s.j < |x.to| && Identical(x, s.i, s.j)
    ensures ReadSide(side, OutTexts(PrintStep(wide, x, s))) == Pick(SideLines(side, x), Numbers(side, [s]))
  {
    hide ReadSide, OutTexts, PairLines;
    OneStep(s);
    match s
    case Kept(i, j) =>
      ReadOut(side, Out(' ', x.from[i]));
      PickOne(SideLines(side, x), if side == FromSide then i else j);
    case Removed(i) =>
      ReadOut(side, Out('-', At(x.from, i)));
      PickOne(x.from, i);
    case Added(j) =>
      ReadOut(side, Out('+', At(x.to, j)));
      PickOne(x.to, j);
    case Paired(i, j) =>
      ReadPair(side, wide, At(x.from, i), At(x.to, j));
      PickOne(SideLines(side, x), if side == FromSide then i else j);
  }

  lemma PickOne(lines: seq<string>, n: nat)
    ensures Pick(lines, [n]) == [At(lines, n)] && Pick(lines, []) == []
  {
    assert [n][1..] == [];
  }

  lemma KeptParts(x: Input<string>, steps: seq<Step>)
    requires steps != [] && KeptAgree(x, steps)
    ensures KeptAgree(x, steps[1..])
    ensures var s := steps[0]; s.Kept? ==> s.i < |x.from| && s.j < |x.to| && Identical(x, s.i, s.j)
  {
    hide Identical;
    assert steps[0] in steps && forall t :: t in steps[1..] ==> t in steps;
  }

  lemma NothingToRead(side: Side, wide: Wide, x: Input<string>, steps: seq<Step>)
    requires steps == []
    ensures ReadSide(side, OutTexts([])) == Pick(SideLines(side, x), Numbers(side, steps)) == []
    ensures Print(wide, x, steps) == []
  {
  }

  lemma PrintUnfold(wide: Wide, x: Input<string>, steps: seq<Step>)
    requires steps != []
    ensures Print(wide, x, steps) == PrintStep(wide, x, steps[0]) + Print(wide, x, steps[1..])
  {
    hide PrintStep;
  }

  lemma NumbersOf(side: Side, a: seq<Step>, b: seq<Step>)
    ensures Numbers(side, a + b) == Numbers(side, a) + Numbers(side, b)
  {
    NumbersConcat(a, b);
    hide FromNumbers, ToNumbers;
  }

  /** Reading one side of a printed script picks exactly the lines the script accounts for on that side. */
  lemma {:induction false} ReadPrint(side: Side, wide: Wide, x: Input<string>, steps: seq<Step>)
    requires KeptAgree(x, steps)
    ensures ReadSide(side, OutTexts(Print(wide, x, steps))) == Pick(SideLines(side, x), Numbers(side, steps))
  {
    hide *;
    if steps == [] {
      NothingToRead(side, wide, x, steps);
    } else {
      var s, rest := steps[0], steps[1..];
      KeptParts(x, steps);
      ReadPrint(side, wide, x, rest);
      ReadStep(side, wide, x, s);
      PrintUnfold(wide, x, steps);
      assert steps == [s] + rest;
      ReadTwo(side, PrintStep(wide, x, s), Print(wide, x, rest));
      NumbersOf(side, [s], rest);
      PickConcat(SideLines(side, x), Numbers(side, [s]), Numbers(side, rest));
    }
  }

  /** A script that accounts for a window, once printed, reads back as the lines of the window. */
  lemma ReadAccounted(side: Side, wide: Wide, x: Input<string>, steps: seq<Step>, w: Window)
    requires ValidWindow(x, w) && Accounts(steps, w) && KeptAgree(x, steps)
    ensures ReadSide(side, OutTexts(Print(wide, x, steps)))
            == if side == FromSide then x.from[w.fromBegin..w.fromEnd] else x.to[w.toBegin..w.toEnd]
  {
    hide KeptAgree, Print, OutTexts, ReadSide;
    ReadPrint(side, wide, x, steps);
    PickRange(x.from, w.fromBegin, w.fromEnd);
    PickRange(x.to, w.toBegin, w.toEnd);
  }

  // ---------------------------------------------------------------- as one text

  lemma OneLineText(o: Out)
    ensures Text(LineEvents(o)) == OutText(o) + ['\n']
  {
    var a, b, c, d := Event([o.mark], TagOf(o.mark)), Event(" ", NoTag), Event(o.text, TagOf(o.mark)),
        Event("\n", NoTag);
    assert LineEvents(o) == [a, b, c, d];
    assert [a, b, c, d][1..] == [b, c, d] && [b, c, d][1..] == [c, d] && [c, d][1..] == [d] && [d][1..] == [];
    assert Text([d]) == "\n";
    assert Text([c, d]) == o.text + "\n";
    assert Text([b, c, d]) == " " + (o.text + "\n");
  }

  lemma {:induction false} LinesText(outs: seq<Out>)
    ensures Text(LinesEvents(outs)) == Unlines(OutTexts(outs))
  {
    if outs != [] {
      LinesText(outs[1..]);
      OneLineText(outs[0]);
      hide LineEvents, OutText;
      TextConcat(LineEvents(outs[0]), LinesEvents(outs[1..]));
      assert OutTexts(outs)[1..] == OutTexts(outs[1..]);
    }
  }

  ghost predicate PlainOuts(outs: seq<Out>) {
    forall o :: o in outs ==> '\n' !in o.text && o.mark != '\n'
  }

  lemma {:induction false} PlainTexts(outs: seq<Out>)
    requires PlainOuts(outs)
    ensures NewlineFree(OutTexts(outs)) && |OutTexts(outs)| == |outs|
    ensures forall k :: 0 <= k < |outs| ==> OutTexts(outs)[k] == OutText(outs[k])
  {
    if outs != [] {
      assert outs[0] in outs && forall o :: o in outs[1..] ==> o in outs;
      PlainTexts(outs[1..]);
      assert '\n' !in OutText(outs[0]);
    }
  }

  lemma TagLinePlain(wide: Wide, side: Side, x: Input<char>)
    ensures '\n' !in TagLine(wide, side, x)
  {
    OperationsValid(x);
    TrimmedTags(wide, side, x, Operations(x));
  }

  lemma PairPlain(wide: Wide, a: string, b: string)
    requires '\n' !in a && '\n' !in b
    ensures PlainOuts(PairLines(wide, a, b))
  {
    TagLinePlain(wide, FromSide, CharInput(a, b));
    TagLinePlain(wide, ToSide, CharInput(a, b));
    hide TagLine;
  }

  lemma AtPlain(lines: seq<string>, i: nat)
    requires NewlineFree(lines)
    ensures '\n' !in At(lines, i)
  {
  }

  lemma {:induction false} PrintPlain(wide: Wide, x: Input<string>, steps: seq<Step>)
    requires NewlineFree(x.from) && NewlineFree(x.to)
    ensures PlainOuts(Print(wide, x, steps))
  {
    if steps != [] {
      PrintPlain(wide, x, steps[1..]);
      StepPlain(wide, x, steps[0]);
      hide PrintStep;
    }
  }

  lemma StepPlain(wide: Wide, x: Input<string>, s: Step)
    requires NewlineFree(x.from) && NewlineFree(x.to)
    ensures PlainOuts(PrintStep(wide, x, s))
  {
    hide At, PairLines;
    match s
    case Kept(i, j) => AtPlain(x.from, i);
    case Removed(i) => AtPlain(x.from, i);
    case Added(j) => AtPlain(x.to, j);
    case Paired(i, j) =>
      AtPlain(x.from, i);
      AtPlain(x.to, j);
      PairPlain(wide, At(x.from, i), At(x.to, j));
  }

  /** The text of a readable diff without context, as the string writer finishes it. */
  ghost function ReadableText(wide: Wide, x: Input<string>): string {
    OperationsValid(x);
    TilesAllValid(x, Operations(x), 0, 0, |x.from|, |x.to|);
    DropLastNewline(Text(LinesEvents(Print(wide, x, Script(x, READABLE, Operations(x))))))
  }

  lemma TextReadsBack(outs: seq<Out>)
    requires PlainOuts(outs)
    ensures ReadLines(DropLastNewline(Text(LinesEvents(outs)))) == OutTexts(outs)
  {
    LinesText(outs);
    PlainTexts(outs);
    hide LinesEvents, OutTexts;
    ReadFinished(OutTexts(outs));
  }

  /** Newline-free lines: splitting the diff at newlines and reading the marks gives back both inputs. */
  lemma ReadableRoundTrip(wide: Wide, x: Input<string>)
    requires NewlineFree(x.from) && NewlineFree(x.to)
    ensures ReadSide(FromSide, ReadLines(ReadableText(wide, x))) == x.from
    ensures ReadSide(ToSide, ReadLines(ReadableText(wide, x))) == x.to
  {
    OperationsValid(x);
    var ops := Operations(x);
    TilesAllValid(x, ops, 0, 0, |x.from|, |x.to|);
    ScriptAccounts(x, READABLE, ops, 0, 0, |x.from|, |x.to|);
    ScriptKeptAgree(x, READABLE, ops);
    var steps := Script(x, READABLE, ops);
    hide Script, Operations, Accounts, KeptAgree, Print;
    PrintPlain(wide, x, steps);
    TextReadsBack(Print(wide, x, steps));
    ReadAccounted(FromSide, wide, x, steps, Whole(x));
    ReadAccounted(ToSide, wide, x, steps, Whole(x));
    assert x.from[0..|x.from|] == x.from && x.to[0..|x.to|] == x.to;
  }

  /** cut_diff_readable on two texts. */
  ghost function DiffReadable(wide: Wide, from: string, to: string): string {
    ReadableText(wide, LineInput(SplitToLines(from), SplitToLines(to)))
  }

  /**
   The main result of the readable differ: for all texts, both can be recovered, line for
   line, from the diff that is printed for them.
   */
  lemma DiffReadableRoundTrip(wide: Wide, from: string, to: string)
    ensures ReadSide(FromSide, ReadLines(DiffReadable(wide, from, to))) == SplitToLines(from)
    ensures ReadSide(ToSide, ReadLines(DiffReadable(wide, from, to))) == SplitToLines(to)
  {
    SplitNewlineFree(from);
    SplitNewlineFree(to);
    ReadableRoundTrip(wide, LineInput(SplitToLines(from), SplitToLines(to)));
  }
}
