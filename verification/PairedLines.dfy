/** What pairs of lines in a whole diff have to do with each other, in both differs. */
module PairedLines {
  import opened Edits
  import opened MatchSpec
  import opened GroupSpec
  import opened Unshared
  import opened LineDiff
  import opened DiffText

  ghost predicate PairsInside(steps: seq<Step>, w: Window) {
    forall s :: s in steps && s.Paired? ==> InWindow(w, s.i, s.j)
  }

  /** Pairs are made of lines of the block they are found in. */
  lemma {:induction false} MarkPairsInside(x: Input<string>, rule: Rule, w: Window)
    requires ValidWindow(x, w)
    ensures PairsInside(MarkScript(x, rule, w), w)
    decreases Size(w)
  {
    hide Select, DiffScript;
    NoKeptRange(w.fromBegin, w.fromEnd);
    NoKeptRange(w.toBegin, w.toEnd);
    if Open(w) {
      var c := Select(x, rule, w);
      DiffScriptUnfold(x, rule, w);
      if c != NoCell {
        MarkPairsInside(x, rule, Above(w, c));
        MarkPairsInside(x, rule, Below(w, c));
      }
    }
  }

  /** No line of the new side of a pair is the same as a line of the old side of a pair. */
  ghost predicate PairsUnshared(x: Input<string>, steps: seq<Step>) {
    forall s, t :: s in steps && t in steps && s.Paired? && t.Paired? ==> At(x.from, t.i) != At(x.to, s.j)
  }

  lemma InsideUnshared(x: Input<string>, steps: seq<Step>, w: Window)
    requires ValidWindow(x, w) && PairsInside(steps, w) && x.junk == NO_JUNK
    requires OnlyJunkShared(x, w.fromBegin, w.fromEnd, w.toBegin, w.toEnd)
    ensures PairsUnshared(x, steps)
  {
  }

  ghost predicate NoPairs(steps: seq<Step>) {
    forall s :: s in steps ==> !s.Paired?
  }

  lemma OperationPairs(x: Input<string>, rule: Rule, op: Operation)
    requires ValidOperation(x, op) && x.junk == NO_JUNK
    requires op.kind == Replace ==> OnlyJunkShared(x, op.fromBegin, op.fromEnd, op.toBegin, op.toEnd)
    ensures PairsUnshared(x, OperationScript(x, rule, op))
    ensures op.kind != Replace ==> NoPairs(OperationScript(x, rule, op))
    ensures op.kind == Equal && op.fromBegin < op.fromEnd ==> OperationScript(x, rule, op) != []
  {
    hide DiffScript, OnlyJunkShared, PairsUnshared, Same;
    match op.kind
    case Equal =>
      NoPairsKept(op.fromBegin, op.toBegin, op.fromEnd - op.fromBegin);
      NoPairsUnshared(x, OperationScript(x, rule, op));
    case Insert =>
      NoKeptRange(op.toBegin, op.toEnd);
      NoPairsUnshared(x, OperationScript(x, rule, op));
    case Delete =>
      NoKeptRange(op.fromBegin, op.fromEnd);
      NoPairsUnshared(x, OperationScript(x, rule, op));
    case Replace =>
      var w := Window(op.fromBegin, op.fromEnd, op.toBegin, op.toEnd);
      MarkPairsInside(x, rule, w);
      MarkIsDiff(x, rule, w);
      InsideUnshared(x, DiffScript(x, rule, w), w);
  }

  lemma NoPairsUnshared(x: Input<string>, steps: seq<Step>)
    requires NoPairs(steps)
    ensures PairsUnshared(x, steps)
  {
  }

  lemma MarkIsDiff(x: Input<string>, rule: Rule, w: Window)
    requires ValidWindow(x, w) && Open(w)
    ensures MarkScript(x, rule, w) == DiffScript(x, rule, w)
  {
    hide DiffScript;
  }

  /** The new line of a pair is not the old line of the pair that follows it at once. */
  ghost predicate NeighboursDiffer(x: Input<string>, steps: seq<Step>) {
    forall k :: 0 <= k < |steps| - 1 && steps[k].Paired? && steps[k + 1].Paired? ==>
      At(x.from, steps[k + 1].i) != At(x.to, steps[k].j)
  }

  lemma NeighboursConcat(x: Input<string>, a: seq<Step>, b: seq<Step>)
    requires PairsUnshared(x, a) && NeighboursDiffer(x, b)
    requires NoPairs(a) || (b != [] ==> !b[0].Paired?)
    ensures NeighboursDiffer(x, a + b)
  {
    var all := a + b;
    assert forall k :: 0 <= k < |a| ==> all[k] in a;
    assert b != [] ==> all[|a|] == b[0];
    assert forall k :: |a| <= k < |all| ==> all[k] == b[k - |a|];
    forall k | 0 <= k < |all| - 1 && all[k].Paired? && all[k + 1].Paired?
      ensures At(x.from, all[k + 1].i) != At(x.to, all[k].j)
    {
      hide At;
      if k >= |a| {
        assert b[k - |a| + 1] == all[k + 1];
      }
    }
  }

  /** A pair is never followed by one whose old line is its new line. */
  lemma {:induction false} ScriptNeighbours(x: Input<string>, rule: Rule, ops: seq<Operation>)
    requires AllValid(x, ops) && x.junk == NO_JUNK
    requires ReplacesUnshared(x, ops) && ReplacesApart(ops)
    ensures NeighboursDiffer(x, Script(x, rule, ops))
    ensures ops != [] && Common(ops[0]) ==> Script(x, rule, ops) != [] && !Script(x, rule, ops)[0].Paired?
  {
    hide OperationScript, PairsUnshared, NeighboursDiffer, OnlyJunkShared, ValidOperation;
    if ops == [] {
      NoNeighbours(x);
    } else {
      var op, rest := ops[0], ops[1..];
      assert op in ops && forall o :: o in rest ==> o in ops;
      ApartTail(ops);
      ScriptNeighbours(x, rule, rest);
      OperationPairs(x, rule, op);
      assert op.kind == Replace && rest != [] ==> rest[0] == ops[1];
      assert rest == [] ==> Script(x, rule, rest) == [];
      assert Common(op) ==> OperationScript(x, rule, op)[0] in OperationScript(x, rule, op);
      NeighboursConcat(x, OperationScript(x, rule, op), Script(x, rule, rest));
    }
  }

  lemma NoNeighbours(x: Input<string>)
    ensures NeighboursDiffer(x, [])
  {
  }

  lemma {:induction false} ScriptPairDiffers(x: Input<string>, rule: Rule, ops: seq<Operation>, s: Step)
    requires AllValid(x, ops) && ReplacesUnshared(x, ops) && x.junk == NO_JUNK
    requires s.Paired? && s in Script(x, rule, ops)
    ensures At(x.from, s.i) != At(x.to, s.j)
  {
    hide OperationScript, OnlyJunkShared, ValidOperation;
    var op, rest := ops[0], ops[1..];
    assert op in ops && forall o :: o in rest ==> o in ops;
    OperationPairs(x, rule, op);
    if s !in OperationScript(x, rule, op) {
      ScriptPairDiffers(x, rule, rest, s);
    }
  }

  /** The steps of the whole diff of two lists of lines. */
  ghost function WholeScript(rule: Rule, x: Input<string>): seq<Step> {
    OperationsValid(x);
    TilesAllValid(x, Operations(x), 0, 0, |x.from|, |x.to|);
    Script(x, rule, Operations(x))
  }

  /**
   In a whole diff two lines shown as one changed line are never identical, in either differ: the
   matcher leaves no common line in a replaced block, so the search for an identical pair finds none.
   */
  lemma PairedLinesDiffer(rule: Rule, from: seq<string>, to: seq<string>, i: nat, j: nat)
    requires Paired(i, j) in WholeScript(rule, LineInput(from, to))
    ensures At(from, i) != At(to, j)
  {
    var x := LineInput(from, to);
    OperationsValid(x);
    TilesAllValid(x, Operations(x), 0, 0, |x.from|, |x.to|);
    ReplacedShareOnlyJunk(x);
    hide Operations, Script, At, ReplacesUnshared;
    ScriptPairDiffers(x, rule, Operations(x), Paired(i, j));
  }

  /** So in a whole diff the readable differ pairs only most similar lines, of ratio at least 0.75. */
  lemma PairedLinesSimilar(from: seq<string>, to: seq<string>, i: nat, j: nat)
    requires Paired(i, j) in WholeScript(READABLE, LineInput(from, to))
    ensures exists op, v :: ChosenIn(LineInput(from, to), op, v, i, j) && op in Operations(LineInput(from, to))
                            && MostSimilar(LineInput(from, to), v, Cell(i, j))
                            && LineRatio(from[i], to[j]) >= READABLE.cutOff
  {
    var x := LineInput(from, to);
    PairedLinesDiffer(READABLE, from, to, i, j);
    OperationsValid(x);
    TilesAllValid(x, Operations(x), 0, 0, |x.from|, |x.to|);
    hide Operations, Script, ChosenIn;
    ScriptPairsJustified(x, Operations(x), i, j);
    var op, v :| op in Operations(x) && ChosenIn(x, op, v, i, j);
    DifferingPairSimilar(x, op, v, i, j);
  }

  lemma DifferingPairSimilar(x: Input<string>, op: Operation, v: Window, i: nat, j: nat)
    requires ChosenIn(x, op, v, i, j) && At(x.from, i) != At(x.to, j)
    ensures ValidWindow(x, v) && i < |x.from| && j < |x.to|
    ensures MostSimilar(x, v, Cell(i, j)) && LineRatio(x.from[i], x.to[j]) >= READABLE.cutOff
  {
    hide MostSimilar, LineRatio, Select, HasSimilar;
  }

  lemma WholeNeighboursDiffer(rule: Rule, from: seq<string>, to: seq<string>)
    ensures NeighboursDiffer(LineInput(from, to), WholeScript(rule, LineInput(from, to)))
  {
    var x := LineInput(from, to);
    OperationsValid(x);
    TilesAllValid(x, Operations(x), 0, 0, |x.from|, |x.to|);
    ReplacedShareOnlyJunk(x);
    OperationsApart(x);
    hide Operations, Script, NeighboursDiffer, ReplacesUnshared, ReplacesApart;
    ScriptNeighbours(x, rule, Operations(x));
  }

  /** The same holds in every group of a context diff. */
  lemma GroupNeighboursDiffer(x: Input<string>, rule: Rule, context: nat, g: seq<Operation>)
    requires context > 0 && x.junk == NO_JUNK && g in GroupedOperations(x, context) && AllValid(x, g)
    ensures NeighboursDiffer(x, Script(x, rule, g))
  {
    hide *;
    GroupReplaces(x, context, g);
    ScriptNeighbours(x, rule, g);
  }

  /** And two lines shown as one changed line are never identical there. */
  lemma GroupPairsDiffer(x: Input<string>, rule: Rule, context: nat, g: seq<Operation>, s: Step)
    requires context > 0 && x.junk == NO_JUNK && g in GroupedOperations(x, context) && AllValid(x, g)
    requires s.Paired? && s in Script(x, rule, g)
    ensures At(x.from, s.i) != At(x.to, s.j)
  {
    hide *;
    GroupReplaces(x, context, g);
    ScriptPairDiffers(x, rule, g, s);
  }
}
