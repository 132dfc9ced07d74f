/** What a reader of a printed diff sees: the marks below changed lines, and the tags of all lines. */
module DiffLaws {
  import opened Seqs
  import opened Edits
  import opened MatchSpec
  import opened MatchLaws
  import opened LineDiff
  import opened PairedLines
  import opened CharDiff
  import opened TagLaws
  import opened DiffWriter
  import opened Lines
  import opened DiffText
  import opened Patch
  import opened Differ
  import opened ColorText

  // ---------------------------------------------------------------- junk of lines

  /**
   What the matches of two lines grow over is blanks: the longest match of a window is exactly its
   first longest run with the equal spaces and tabs around it.
   */
  lemma LineMatchIff(a: string, b: string, w: Window, m: Match)
    requires ValidWindow(CharInput(a, b), w)
    ensures m == LongestMatch(CharInput(a, b), w)
            <==> GrownFrom(CharInput(a, b), w, BestMatch(CharInput(a, b), w), m)
    ensures forall i, j :: EqualCell(CharInput(a, b), i, j, true)
                           <==> 0 <= i < |a| && 0 <= j < |b| && a[i] == b[j] && (b[j] == ' ' || b[j] == '\t')
  {
    LongestMatchIff(CharInput(a, b), w, m);
    hide LongestMatch, BestMatch, GrownFrom;
  }

  // ---------------------------------------------------------------- changed lines

  /** The lines show a changed pair: each line with its marks right below it, if it has any. */
  ghost predicate ShowsPair(wide: Wide, a: string, b: string, outs: seq<Out>) {
    var p := CharInput(a, b);
    exists s, t :: Explains(wide, FromSide, p, Operations(p), s) && Explains(wide, ToSide, p, Operations(p), t)
                   && outs == [Out('-', a)] + MarksBelow(s) + [Out('+', b)] + MarksBelow(t)
  }

  /** The line of marks below a line. */
  function MarksBelow(marks: string): seq<Out> {
    if marks == "" then [] else [Out('?', marks)]
  }

  lemma TagLineExplains(wide: Wide, side: Side, a: string, b: string)
    ensures var p := CharInput(a, b); Explains(wide, side, p, Operations(p), TagLine(wide, side, p))
  {
    var p := CharInput(a, b);
    OperationsValid(p);
    hide Operations, Tags, Explains, Chomp;
    TrimmedExplains(wide, side, p, Operations(p));
  }

  /** What is printed for a changed pair. */
  lemma PairShown(wide: Wide, a: string, b: string)
    ensures ShowsPair(wide, a, b, PairLines(wide, a, b))
  {
    TagLineExplains(wide, FromSide, a, b);
    TagLineExplains(wide, ToSide, a, b);
    hide Operations, TagLine, Explains;
  }

  lemma {:induction false} StepInPrint(wide: Wide, x: Input<string>, steps: seq<Step>, s: Step)
    requires s in steps
    ensures exists pre, post :: OutTexts(Print(wide, x, steps)) == pre + OutTexts(PrintStep(wide, x, s)) + post
  {
    hide *;
    PrintUnfold(wide, x, steps);
    var first, rest := PrintStep(wide, x, steps[0]), Print(wide, x, steps[1..]);
    OutTextsConcat(first, rest);
    if s == steps[0] {
      EmptyHead(OutTexts(first));
      assert OutTexts(Print(wide, x, steps)) == [] + OutTexts(first) + OutTexts(rest);
    } else {
      StepInPrint(wide, x, steps[1..], s);
      var pre, post :| OutTexts(rest) == pre + OutTexts(PrintStep(wide, x, s)) + post;
      Associate(OutTexts(first), pre + OutTexts(PrintStep(wide, x, s)), post);
      Associate(OutTexts(first), pre, OutTexts(PrintStep(wide, x, s)));
      assert OutTexts(Print(wide, x, steps)) == (OutTexts(first) + pre) + OutTexts(PrintStep(wide, x, s)) + post;
    }
  }

  /**
   In every readable diff of two texts each changed pair of lines stands with its marks: below either
   line, in the columns of what was replaced, removed or added there.
   */
  lemma PairInDiff(wide: Wide, from: string, to: string, i: nat, j: nat)
    requires Paired(i, j) in WholeScript(READABLE, LineInput(SplitToLines(from), SplitToLines(to)))
    ensures exists pre, outs, post ::
              && ReadLines(DiffReadable(wide, from, to)) == pre + OutTexts(outs) + post
              && ShowsPair(wide, At(SplitToLines(from), i), At(SplitToLines(to), j), outs)
  {
    hide *;
    var x := LineInput(SplitToLines(from), SplitToLines(to));
    var steps, s := WholeScript(READABLE, x), Paired(i, j);
    PrintedLines(wide, from, to);
    StepInPrint(wide, x, steps, s);
    PairPrinted(wide, from, to, i, j);
    var pre, post :| OutTexts(Print(wide, x, steps)) == pre + OutTexts(PrintStep(wide, x, s)) + post;
    var outs := PrintStep(wide, x, s);
    assert ReadLines(DiffReadable(wide, from, to)) == pre + OutTexts(outs) + post;
  }

  lemma PairPrinted(wide: Wide, from: string, to: string, i: nat, j: nat)
    ensures var x := LineInput(SplitToLines(from), SplitToLines(to));
            ShowsPair(wide, At(SplitToLines(from), i), At(SplitToLines(to), j), PrintStep(wide, x, Paired(i, j)))
  {
    PairShown(wide, At(SplitToLines(from), i), At(SplitToLines(to), j));
    hide ShowsPair, PairLines, At, SplitToLines;
  }

  lemma PrintedLines(wide: Wide, from: string, to: string)
    ensures var x := LineInput(SplitToLines(from), SplitToLines(to));
            ReadLines(DiffReadable(wide, from, to)) == OutTexts(Print(wide, x, WholeScript(READABLE, x)))
  {
    var x := LineInput(SplitToLines(from), SplitToLines(to));
    SplitNewlineFree(from);
    SplitNewlineFree(to);
    OperationsValid(x);
    TilesAllValid(x, Operations(x), 0, 0, |x.from|, |x.to|);
    var steps := Script(x, READABLE, Operations(x));
    hide Script, Operations, Print, SplitToLines;
    PrintPlain(wide, x, steps);
    TextReadsBack(Print(wide, x, steps));
  }

  // ---------------------------------------------------------------- whether a diff is worth showing

  /** Some lines of the replaced block are similar enough. */
  ghost predicate HoldsSimilar(from: seq<string>, to: seq<string>, op: Operation, best: real) {
    exists i, j :: op.fromBegin <= i < op.fromEnd <= |from| && op.toBegin <= j < op.toEnd <= |to|
                   && LineRatio(from[i], to[j]) > best
  }

  /**
   A diff is worth showing if something is common and something inserted or removed, or if a replaced
   block holds two lines of a ratio above 0.74, or, coloured, with anything in common at all.
   */
  lemma WorthIff(style: Style, from: seq<string>, to: seq<string>)
    ensures var x := LineInput(from, to);
            var ops := Operations(x);
            Worth(x, RuleOf(style).best, ops)
            <==> || ((exists op :: op in ops && op.kind == Equal)
                     && (exists op :: op in ops && (op.kind == Insert || op.kind == Delete)))
                 || exists op :: op in ops && op.kind == Replace
                                 && HoldsSimilar(from, to, op, if style == Readable then 0.74 else 0.0)
  {
    var x := LineInput(from, to);
    var ops := Operations(x);
    hide Operations, LineRatio;
    KindIff(ops, Equal);
    KindIff(ops, Insert);
    KindIff(ops, Delete);
    var best := RuleOf(style).best;
    forall k | 0 <= k < |ops|
      ensures SimilarBlock(x, best, ops[k]) <==> ops[k].kind == Replace && HoldsSimilar(from, to, ops[k], best)
    {
      SimilarIff(from, to, ops[k], best);
    }
    hide HasKind, SimilarBlock, HoldsSimilar;
    assert forall op :: op in ops ==> exists k :: 0 <= k < |ops| && ops[k] == op;
  }

  lemma KindIff(ops: seq<Operation>, kind: Kind)
    ensures HasKind(ops, kind) <==> exists op :: op in ops && op.kind == kind
  {
  }

  lemma SimilarIff(from: seq<string>, to: seq<string>, op: Operation, best: real)
    ensures SimilarBlock(LineInput(from, to), best, op) <==> op.kind == Replace && HoldsSimilar(from, to, op, best)
  {
    hide LineRatio;
    var x := LineInput(from, to);
    if SimilarBlock(x, best, op) {
      var i, j :| op.fromBegin <= i < op.fromEnd && op.toBegin <= j < op.toEnd && SimilarPair(x, best, i, j);
      assert LineRatio(from[i], to[j]) > best;
    }
    if op.kind == Replace && HoldsSimilar(from, to, op, best) {
      var i, j :| op.fromBegin <= i < op.fromEnd <= |from| && op.toBegin <= j < op.toEnd <= |to|
                  && LineRatio(from[i], to[j]) > best;
      assert SimilarPair(x, best, i, j);
    }
  }

  // ---------------------------------------------------------------- tags

  /** The lines of one side, told by their tags alone. */
  function ReadTags(side: Side, rows: seq<seq<Event>>): seq<string> {
    if rows == [] then []
    else
      var row := rows[0];
      (if |row| == 3 && Belongs(side, row[2].tag) then [row[2].text] else []) + ReadTags(side, rows[1..])
  }

  predicate Belongs(side: Side, tag: WriterTag) {
    tag == EqualLine || tag == if side == FromSide then DeletedLine else InsertedLine
  }

  function Bodies(outs: seq<Out>): seq<seq<Event>> {
    if outs == [] then [] else [LineBody(outs[0])] + Bodies(outs[1..])
  }

  lemma {:induction false} RowsOfLines(outs: seq<Out>)
    ensures Rows(LinesEvents(outs)) == Bodies(outs)
  {
    if outs != [] {
      RowsOfLines(outs[1..]);
      hide LineBody, LineEvents, Rows;
      RowsOfLine(outs[0], LinesEvents(outs[1..]));
    }
  }

  /** Marks and tags say the same. */
  lemma {:induction false} TagsAgree(side: Side, outs: seq<Out>)
    requires Patch.Marked(outs)
    ensures ReadTags(side, Bodies(outs)) == ReadSide(side, OutTexts(outs))
  {
    if outs != [] {
      var o, rest := outs[0], outs[1..];
      assert o in outs && forall q :: q in rest ==> q in outs;
      TagsAgree(side, rest);
      assert outs == [o] + rest;
      OneTagged(side, o, Bodies(rest));
      hide ReadTags, ReadSide, OutTexts, LineBody;
      ReadTwo(side, [o], rest);
      ReadOut(side, o);
    }
  }

  lemma OneTagged(side: Side, o: Out, rest: seq<seq<Event>>)
    requires o.mark == ' ' || o.mark == '-' || o.mark == '+' || o.mark == '?'
    ensures ReadTags(side, [LineBody(o)] + rest)
            == (if o.mark == ' ' || o.mark == (if side == FromSide then '-' else '+') then [o.text] else [])
               + ReadTags(side, rest)
  {
    assert ([LineBody(o)] + rest)[1..] == rest;
  }

  /** By its tags alone, which colours depend on, a readable diff gives back both lists of lines. */
  lemma TaggedRoundTrip(wide: Wide, from: seq<string>, to: seq<string>)
    ensures var rows := Rows(DiffEvents(Readable, wide, LineInput(from, to), 0));
            ReadTags(FromSide, rows) == from && ReadTags(ToSide, rows) == to
  {
    hide *;
    var x := LineInput(from, to);
    var steps := WholeScript(READABLE, x);
    WholeReadable(wide, from, to);
    ReadableEvents(wide, x, steps);
    RowsOfLines(Print(wide, x, steps));
    PrintMarked(wide, x, steps);
    TagsAgree(FromSide, Print(wide, x, steps));
    TagsAgree(ToSide, Print(wide, x, steps));
    var w := Window(0, |from|, 0, |to|);
    ReadAccounted(FromSide, wide, x, steps, w);
    ReadAccounted(ToSide, wide, x, steps, w);
    assert from[0..|from|] == from && to[0..|to|] == to;
  }

  lemma WholeReadable(wide: Wide, from: seq<string>, to: seq<string>)
    ensures var x := LineInput(from, to);
            var steps, w := WholeScript(READABLE, x), Window(0, |from|, 0, |to|);
            && x.from == from && x.to == to && ValidWindow(x, w) && Accounts(steps, w) && KeptAgree(x, steps)
            && DiffEvents(Readable, wide, x, 0) == ScriptEvents(Readable, wide, x, steps)
  {
    var x := LineInput(from, to);
    var ops := Operations(x);
    OperationsValid(x);
    TilesAllValid(x, ops, 0, 0, |from|, |to|);
    ScriptAccounts(x, READABLE, ops, 0, 0, |from|, |to|);
    ScriptKeptAgree(x, READABLE, ops);
    hide Operations, Script, KeptAgree, ScriptEvents, Accounts, Tiles;
  }
}
