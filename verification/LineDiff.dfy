/**
 What the line differs decide: which lines are kept, removed, added or paired.  The decisions
 form a script of steps over line numbers; how a step is printed is up to each differ.
 */
module LineDiff {
  import opened Seqs
  import opened Edits
  import opened MatchSpec
  import opened Similarity

  /** The values a differ class overrides: the ratio to beat and the ratio required. */
  datatype Rule = Rule(best: real, cutOff: real)

  const READABLE := Rule(0.74, 0.75)
  const COLORIZE := Rule(0.0, 0.0)

  /** cut_differ_util_is_space_character, the junk filter of character matchers. */
  const SPACES: char -> bool := (c: char) => c == ' ' || c == '\t'

  /** Line matchers are created without a junk filter. */
  const NO_JUNK: string -> bool := (s: string) => false

  ghost function CharInput(a: string, b: string): Input<char> {
    Input(a, b, SPACES)
  }

  ghost function LineInput(from: seq<string>, to: seq<string>): Input<string> {
    Input(from, to, NO_JUNK)
  }

  ghost function LineRatio(a: string, b: string): real {
    Ratio(CharInput(a, b))
  }

  // ---------------------------------------------------------------- choosing a pair

  datatype Cell = NoCell | Cell(i: nat, j: nat)

  /** The variables of the search loop: the best ratio so far, where it was found, the first identical pair. */
  datatype Search = Search(ratio: real, i: nat, j: nat, equal: Cell)

  ghost function Visit(x: Input<string>, s: Search, i: nat, j: nat): Search
    requires i < |x.from| && j < |x.to|
  {
    if x.from[i] == x.to[j] then
      if s.equal == NoCell then s.(equal := Cell(i, j)) else s
    else if LineRatio(x.from[i], x.to[j]) > s.ratio then
      s.(ratio := LineRatio(x.from[i], x.to[j]), i := i, j := j)
    else s
  }

  /** The search after the first lines up to i of column j. */
  ghost function VisitColumn(x: Input<string>, w: Window, s: Search, i: nat, j: nat): Search
    requires ValidWindow(x, w) && w.fromBegin <= i <= w.fromEnd && w.toBegin <= j < w.toEnd
    decreases i
  {
    if i == w.fromBegin then s else Visit(x, VisitColumn(x, w, s, i - 1, j), i - 1, j)
  }

  /** The search after all columns before j. */
  ghost function VisitColumns(x: Input<string>, rule: Rule, w: Window, j: nat): Search
    requires ValidWindow(x, w) && w.toBegin <= j <= w.toEnd
    decreases j
  {
    if j == w.toBegin then Search(rule.best, w.fromBegin, w.toBegin, NoCell)
    else VisitColumn(x, w, VisitColumns(x, rule, w, j - 1), w.fromEnd, j - 1)
  }

  /** Cell (a, b) is visited before (i, j): columns are lines of `to`. */
  ghost predicate Earlier(a: int, b: int, i: int, j: int) {
    b < j || (b == j && a < i)
  }

  ghost predicate Identical(x: Input<string>, i: nat, j: nat)
    requires i < |x.from| && j < |x.to|
  {
    x.from[i] == x.to[j]
  }

  /** No differing pair visited before (i, j) has a ratio above r (or, if strict, as high as r). */
  ghost predicate NoneBetter(x: Input<string>, w: Window, r: real, strict: bool, i: nat, j: nat)
    requires ValidWindow(x, w)
  {
    forall a, b {:trigger Identical(x, a, b)} :: InWindow(w, a, b) && Earlier(a, b, i, j) && !Identical(x, a, b) ==>
      if strict then LineRatio(x.from[a], x.to[b]) < r else LineRatio(x.from[a], x.to[b]) <= r
  }

  ghost predicate NoneIdentical(x: Input<string>, w: Window, i: nat, j: nat)
    requires ValidWindow(x, w)
  {
    forall a, b {:trigger Identical(x, a, b)} :: InWindow(w, a, b) && Earlier(a, b, i, j) ==> !Identical(x, a, b)
  }

  /** What the search variables mean once the cells before (i, j) have been visited. */
  ghost predicate Searched(x: Input<string>, rule: Rule, w: Window, s: Search, i: nat, j: nat)
    requires ValidWindow(x, w)
  {
    && NoneBetter(x, w, s.ratio, false, i, j)
    && (s.equal == NoCell ==> NoneIdentical(x, w, i, j))
    && (s.equal != NoCell ==>
          && InWindow(w, s.equal.i, s.equal.j) && Earlier(s.equal.i, s.equal.j, i, j)
          && Identical(x, s.equal.i, s.equal.j) && NoneIdentical(x, w, s.equal.i, s.equal.j))
    && (s.ratio <= rule.best ==> s.ratio == rule.best && s.i == w.fromBegin && s.j == w.toBegin)
    && (s.ratio > rule.best ==>
          && InWindow(w, s.i, s.j) && Earlier(s.i, s.j, i, j)
          && !Identical(x, s.i, s.j) && LineRatio(x.from[s.i], x.to[s.j]) == s.ratio
          && NoneBetter(x, w, s.ratio, true, s.i, s.j))
  }

  lemma VisitSearched(x: Input<string>, rule: Rule, w: Window, s: Search, i: nat, j: nat)
    requires ValidWindow(x, w) && InWindow(w, i, j) && Searched(x, rule, w, s, i, j)
    ensures Searched(x, rule, w, Visit(x, s, i, j), i + 1, j)
  {
    hide LineRatio;
    var r := Visit(x, s, i, j);
    assert Identical(x, i, j) <==> x.from[i] == x.to[j];
    assert forall a, b :: InWindow(w, a, b) && Earlier(a, b, i + 1, j) ==> Earlier(a, b, i, j) || (a == i && b == j);
  }

  lemma {:induction false} VisitColumnSearched(x: Input<string>, rule: Rule, w: Window, s: Search, i: nat, j: nat)
    requires ValidWindow(x, w) && w.fromBegin <= i <= w.fromEnd && w.toBegin <= j < w.toEnd
    requires Searched(x, rule, w, s, w.fromBegin, j)
    ensures Searched(x, rule, w, VisitColumn(x, w, s, i, j), i, j)
    decreases i
  {
    hide Searched, Visit;
    if i > w.fromBegin {
      VisitColumnSearched(x, rule, w, s, i - 1, j);
      VisitSearched(x, rule, w, VisitColumn(x, w, s, i - 1, j), i - 1, j);
    }
  }

  lemma NextColumn(x: Input<string>, rule: Rule, w: Window, s: Search, j: nat)
    requires ValidWindow(x, w) && Searched(x, rule, w, s, w.fromEnd, j)
    ensures Searched(x, rule, w, s, w.fromBegin, j + 1)
  {
    hide LineRatio;
    assert forall a, b :: InWindow(w, a, b) && Earlier(a, b, w.fromBegin, j + 1) ==> Earlier(a, b, w.fromEnd, j);
  }

  lemma {:induction false} VisitColumnsSearched(x: Input<string>, rule: Rule, w: Window, j: nat)
    requires ValidWindow(x, w) && w.toBegin <= j <= w.toEnd
    ensures Searched(x, rule, w, VisitColumns(x, rule, w, j), w.fromBegin, j)
    decreases j
  {
    hide *;
    VisitColumnsUnfold(x, rule, w, j);
    if j == w.toBegin {
      NothingSearched(x, rule, w);
    } else {
      VisitColumnsSearched(x, rule, w, j - 1);
      VisitColumnSearched(x, rule, w, VisitColumns(x, rule, w, j - 1), w.fromEnd, j - 1);
      NextColumn(x, rule, w, VisitColumns(x, rule, w, j), j - 1);
    }
  }

  lemma VisitColumnsUnfold(x: Input<string>, rule: Rule, w: Window, j: nat)
    requires ValidWindow(x, w) && w.toBegin <= j <= w.toEnd
    ensures w.fromBegin <= w.fromEnd
    ensures VisitColumns(x, rule, w, j)
            == if j == w.toBegin then Search(rule.best, w.fromBegin, w.toBegin, NoCell)
               else VisitColumn(x, w, VisitColumns(x, rule, w, j - 1), w.fromEnd, j - 1)
  {
    hide VisitColumn;
  }

  lemma NothingSearched(x: Input<string>, rule: Rule, w: Window)
    requires ValidWindow(x, w)
    ensures Searched(x, rule, w, Search(rule.best, w.fromBegin, w.toBegin, NoCell), w.fromBegin, w.toBegin)
  {
    hide LineRatio, Identical;
  }

  /** The pair of lines a replaced block is split around, if any. */
  ghost function Select(x: Input<string>, rule: Rule, w: Window): (c: Cell)
    requires ValidWindow(x, w) && Open(w)
    ensures c != NoCell ==> InWindow(w, c.i, c.j)
  {
    VisitColumnsSearched(x, rule, w, w.toEnd);
    var s := VisitColumns(x, rule, w, w.toEnd);
    if s.ratio < rule.cutOff then s.equal else Cell(s.i, s.j)
  }

  ghost predicate HasIdentical(x: Input<string>, w: Window)
    requires ValidWindow(x, w)
  {
    exists i, j {:trigger Identical(x, i, j)} :: InWindow(w, i, j) && Identical(x, i, j)
  }

  /** Some differing pair of the block is at least this similar. */
  ghost predicate HasSimilar(x: Input<string>, w: Window, r: real)
    requires ValidWindow(x, w)
  {
    exists i, j {:trigger Identical(x, i, j)} ::
      InWindow(w, i, j) && !Identical(x, i, j) && LineRatio(x.from[i], x.to[j]) >= r
  }

  /** A differing pair of the block that no differing pair of the block beats. */
  ghost predicate MostSimilar(x: Input<string>, w: Window, c: Cell)
    requires ValidWindow(x, w)
  {
    && c != NoCell && InWindow(w, c.i, c.j) && !Identical(x, c.i, c.j)
    && forall a, b {:trigger Identical(x, a, b)} :: InWindow(w, a, b) && !Identical(x, a, b) ==>
         LineRatio(x.from[a], x.to[b]) <= LineRatio(x.from[c.i], x.to[c.j])
  }

  /** Of equally similar pairs it is the one met first: by the new line, then by the old one. */
  ghost predicate FirstSimilar(x: Input<string>, w: Window, c: Cell)
    requires ValidWindow(x, w)
  {
    c != NoCell && c.i < |x.from| && c.j < |x.to| && NoneBetter(x, w, LineRatio(x.from[c.i], x.to[c.j]), true, c.i, c.j)
  }

  lemma AllVisited(w: Window)
    ensures forall a, b :: InWindow(w, a, b) ==> Earlier(a, b, w.fromBegin, w.toEnd)
  {
  }

  /**
   The readable differ pairs the most similar differing lines when their ratio is at least
   0.75; failing that it pairs identical lines; it pairs nothing exactly when the block has
   neither.  Of several it takes the first.
   */
  lemma ReadableSelection(x: Input<string>, w: Window)
    requires ValidWindow(x, w) && Open(w)
    ensures HasSimilar(x, w, READABLE.cutOff) ==>
              && MostSimilar(x, w, Select(x, READABLE, w))
              && LineRatio(x.from[Select(x, READABLE, w).i], x.to[Select(x, READABLE, w).j]) >= 0.75
              && FirstSimilar(x, w, Select(x, READABLE, w))
    ensures !HasSimilar(x, w, READABLE.cutOff) && HasIdentical(x, w) ==>
              Select(x, READABLE, w) != NoCell
              && Identical(x, Select(x, READABLE, w).i, Select(x, READABLE, w).j)
              && NoneIdentical(x, w, Select(x, READABLE, w).i, Select(x, READABLE, w).j)
    ensures Select(x, READABLE, w) == NoCell <==> !HasSimilar(x, w, READABLE.cutOff) && !HasIdentical(x, w)
  {
    hide LineRatio;
    VisitColumnsSearched(x, READABLE, w, w.toEnd);
    var s := VisitColumns(x, READABLE, w, w.toEnd);
    hide VisitColumns;
    AllVisited(w);
    if HasSimilar(x, w, READABLE.cutOff) {
      assert s.ratio >= READABLE.cutOff;
    }
  }

  /**
   The colouring differ always pairs two lines of a block: its most similar differing lines
   if any two share something, otherwise its first two lines.
   */
  lemma ColorizeSelection(x: Input<string>, w: Window)
    requires ValidWindow(x, w) && Open(w)
    ensures Select(x, COLORIZE, w) != NoCell
    ensures MostSimilar(x, w, Select(x, COLORIZE, w)) || Select(x, COLORIZE, w) == Cell(w.fromBegin, w.toBegin)
    ensures (exists i, j {:trigger Identical(x, i, j)} ::
               InWindow(w, i, j) && !Identical(x, i, j) && LineRatio(x.from[i], x.to[j]) > 0.0)
            ==> MostSimilar(x, w, Select(x, COLORIZE, w)) && FirstSimilar(x, w, Select(x, COLORIZE, w))
  {
    hide LineRatio;
    VisitColumnsSearched(x, COLORIZE, w, w.toEnd);
    hide VisitColumns;
    AllVisited(w);
  }

  // ---------------------------------------------------------------- the script

  /** One line, or pair of lines, of the diff, by line number. */
  datatype Step = Kept(i: nat, j: nat) | Removed(i: nat) | Added(j: nat) | Paired(i: nat, j: nat)

  ghost function Removes(begin: nat, end: nat): seq<Step>
    requires begin <= end
    decreases end
  {
    if begin == end then [] else Removes(begin, end - 1) + [Removed(end - 1)]
  }

  ghost function Adds(begin: nat, end: nat): seq<Step>
    requires begin <= end
    decreases end
  {
    if begin == end then [] else Adds(begin, end - 1) + [Added(end - 1)]
  }

  ghost function Keeps(i: nat, j: nat, n: nat): seq<Step> {
    if n == 0 then [] else Keeps(i, j, n - 1) + [Kept(i + n - 1, j + n - 1)]
  }

  ghost function Size(w: Window): int {
    (w.fromEnd - w.fromBegin) + (w.toEnd - w.toBegin)
  }

  function Above(w: Window, c: Cell): Window
    requires c != NoCell
  {
    Window(w.fromBegin, c.i, w.toBegin, c.j)
  }

  function Below(w: Window, c: Cell): Window
    requires c != NoCell
  {
    Window(c.i + 1, w.fromEnd, c.j + 1, w.toEnd)
  }

  /** The steps for a replaced block (diff_lines). */
  ghost function DiffScript(x: Input<string>, rule: Rule, w: Window): seq<Step>
    requires ValidWindow(x, w) && Open(w)
    decreases Size(w), 0
  {
    var c := Select(x, rule, w);
    if c == NoCell then
      if w.toEnd - w.toBegin < w.fromEnd - w.fromBegin then
        Adds(w.toBegin, w.toEnd) + Removes(w.fromBegin, w.fromEnd)
      else
        Removes(w.fromBegin, w.fromEnd) + Adds(w.toBegin, w.toEnd)
    else
      MarkScript(x, rule, Above(w, c)) + [Paired(c.i, c.j)] + MarkScript(x, rule, Below(w, c))
  }

  /** The steps for a block either side of which may be empty (mark_diff_lines). */
  ghost function MarkScript(x: Input<string>, rule: Rule, w: Window): seq<Step>
    requires ValidWindow(x, w)
    decreases Size(w), 1
  {
    if w.fromBegin < w.fromEnd then
      if w.toBegin < w.toEnd then DiffScript(x, rule, w) else Removes(w.fromBegin, w.fromEnd)
    else Adds(w.toBegin, w.toEnd)
  }

  ghost function OperationScript(x: Input<string>, rule: Rule, op: Operation): seq<Step>
    requires ValidOperation(x, op)
  {
    match op.kind
    case Equal => Keeps(op.fromBegin, op.toBegin, op.fromEnd - op.fromBegin)
    case Insert => Adds(op.toBegin, op.toEnd)
    case Delete => Removes(op.fromBegin, op.fromEnd)
    case Replace => DiffScript(x, rule, Window(op.fromBegin, op.fromEnd, op.toBegin, op.toEnd))
  }

  ghost predicate AllValid(x: Input<string>, ops: seq<Operation>) {
    ops == [] || (ValidOperation(x, ops[0]) && AllValid(x, ops[1..]))
  }

  /** The steps for a list of operations (diff_operations). */
  ghost function Script(x: Input<string>, rule: Rule, ops: seq<Operation>): seq<Step>
    requires AllValid(x, ops)
  {
    if ops == [] then [] else OperationScript(x, rule, ops[0]) + Script(x, rule, ops[1..])
  }

  lemma {:induction false} TilesAllValid(x: Input<string>, ops: seq<Operation>, i: nat, j: nat, iEnd: nat, jEnd: nat)
    requires Tiles(x, ops, i, j, iEnd, jEnd)
    ensures AllValid(x, ops)
  {
    if ops != [] {
      TilesAllValid(x, ops[1..], ops[0].fromEnd, ops[0].toEnd, iEnd, jEnd);
    }
  }

  // ---------------------------------------------------------------- every line, once, in order

  function Range(begin: nat, end: nat): seq<nat>
    requires begin <= end
    decreases end
  {
    if begin == end then [] else Range(begin, end - 1) + [end - 1]
  }

  /** The lines of `from` a script accounts for. */
  function FromNumbers(steps: seq<Step>): seq<nat> {
    if steps == [] then []
    else (if steps[0].Added? then [] else [steps[0].i]) + FromNumbers(steps[1..])
  }

  /** The lines of `to` a script accounts for. */
  function ToNumbers(steps: seq<Step>): seq<nat> {
    if steps == [] then []
    else (if steps[0].Removed? then [] else [steps[0].j]) + ToNumbers(steps[1..])
  }

  /** Kept lines are the same on both sides. */
  ghost predicate KeptAgree(x: Input<string>, steps: seq<Step>) {
    forall s :: s in steps && s.Kept? ==> s.i < |x.from| && s.j < |x.to| && Identical(x, s.i, s.j)
  }

  lemma {:induction false} NumbersConcat(a: seq<Step>, b: seq<Step>)
    ensures FromNumbers(a + b) == FromNumbers(a) + FromNumbers(b)
    ensures ToNumbers(a + b) == ToNumbers(a) + ToNumbers(b)
  {
    if a == [] {
      assert a + b == b;
    } else {
      var s, t := a[0], a[1..];
      NumbersConcat(t, b);
      NumbersCons(s, t);
      NumbersCons(s, t + b);
      assert a == [s] + t && a + b == [s] + (t + b);
      hide FromNumbers, ToNumbers;
      Associate(if s.Added? then [] else [s.i], FromNumbers(t), FromNumbers(b));
      Associate(if s.Removed? then [] else [s.j], ToNumbers(t), ToNumbers(b));
    }
  }

  lemma NumbersCons(s: Step, rest: seq<Step>)
    ensures FromNumbers([s] + rest) == (if s.Added? then [] else [s.i]) + FromNumbers(rest)
    ensures ToNumbers([s] + rest) == (if s.Removed? then [] else [s.j]) + ToNumbers(rest)
  {
    assert ([s] + rest)[1..] == rest;
  }

  lemma {:induction false} RangeConcat(a: nat, b: nat, c: nat)
    requires a <= b <= c
    ensures Range(a, b) + Range(b, c) == Range(a, c)
    decreases c
  {
    if b < c {
      RangeConcat(a, b, c - 1);
    }
  }

  lemma OneStep(s: Step)
    ensures FromNumbers([s]) == if s.Added? then [] else [s.i]
    ensures ToNumbers([s]) == if s.Removed? then [] else [s.j]
  {
    assert [s][1..] == [];
  }

  lemma NumbersSnoc(steps: seq<Step>, s: Step)
    ensures FromNumbers(steps + [s]) == if s.Added? then FromNumbers(steps) else FromNumbers(steps) + [s.i]
    ensures ToNumbers(steps + [s]) == if s.Removed? then ToNumbers(steps) else ToNumbers(steps) + [s.j]
  {
    hide FromNumbers, ToNumbers;
    NumbersConcat(steps, [s]);
    OneStep(s);
  }

  lemma RangeSnoc(begin: nat, end: nat)
    requires begin <= end
    ensures Range(begin, begin) == [] && Range(begin, end + 1) == Range(begin, end) + [end]
  {
  }

  lemma RangesSnoc(begin: nat, end: nat)
    requires begin <= end
    ensures Removes(begin, begin) == Adds(begin, begin) == []
    ensures Removes(begin, end + 1) == Removes(begin, end) + [Removed(end)]
    ensures Adds(begin, end + 1) == Adds(begin, end) + [Added(end)]
  {
  }

  lemma NoNumbers()
    ensures FromNumbers([]) == [] && ToNumbers([]) == []
  {
  }

  lemma {:induction false} RemovesNumbers(begin: nat, end: nat)
    requires begin <= end
    ensures FromNumbers(Removes(begin, end)) == Range(begin, end)
    ensures ToNumbers(Removes(begin, end)) == []
    decreases end
  {
    hide *;
    NoNumbers();
    RangeSnoc(begin, if begin < end then end - 1 else end);
    RangesSnoc(begin, if begin < end then end - 1 else end);
    if begin < end {
      RemovesNumbers(begin, end - 1);
      NumbersSnoc(Removes(begin, end - 1), Removed(end - 1));
    }
  }

  lemma {:induction false} AddsNumbers(begin: nat, end: nat)
    requires begin <= end
    ensures ToNumbers(Adds(begin, end)) == Range(begin, end)
    ensures FromNumbers(Adds(begin, end)) == []
    decreases end
  {
    hide *;
    NoNumbers();
    RangeSnoc(begin, if begin < end then end - 1 else end);
    RangesSnoc(begin, if begin < end then end - 1 else end);
    if begin < end {
      AddsNumbers(begin, end - 1);
      NumbersSnoc(Adds(begin, end - 1), Added(end - 1));
    }
  }

  lemma KeptSnoc(i: nat, j: nat, n: nat)
    ensures Keeps(i, j, 0) == [] && Keeps(i, j, n + 1) == Keeps(i, j, n) + [Kept(i + n, j + n)]
  {
  }

  lemma {:induction false} KeepsNumbers(i: nat, j: nat, n: nat)
    ensures FromNumbers(Keeps(i, j, n)) == Range(i, i + n) && ToNumbers(Keeps(i, j, n)) == Range(j, j + n)
  {
    hide *;
    NoNumbers();
    var m := if n > 0 then n - 1 else 0;
    RangeSnoc(i, i + m);
    RangeSnoc(j, j + m);
    KeptSnoc(i, j, m);
    if n > 0 {
      KeepsNumbers(i, j, m);
      NumbersSnoc(Keeps(i, j, m), Kept(i + m, j + m));
    }
  }

  /** A script accounts for exactly the lines begin..end of each side, in order. */
  ghost predicate Accounts(steps: seq<Step>, w: Window) {
    && w.fromBegin <= w.fromEnd && w.toBegin <= w.toEnd
    && FromNumbers(steps) == Range(w.fromBegin, w.fromEnd)
    && ToNumbers(steps) == Range(w.toBegin, w.toEnd)
  }

  lemma AccountsConcat(a: seq<Step>, b: seq<Step>, v: Window, w: Window)
    requires Accounts(a, v) && Accounts(b, w) && v.fromEnd == w.fromBegin && v.toEnd == w.toBegin
    ensures Accounts(a + b, Window(v.fromBegin, w.fromEnd, v.toBegin, w.toEnd))
  {
    NumbersConcat(a, b);
    RangeConcat(v.fromBegin, v.fromEnd, w.fromEnd);
    RangeConcat(v.toBegin, v.toEnd, w.toEnd);
  }

  lemma PairAccounts(s: Step)
    requires s.Kept? || s.Paired?
    ensures Accounts([s], Window(s.i, s.i + 1, s.j, s.j + 1))
  {
    OneStep(s);
    assert Range(s.i, s.i) == [] && Range(s.j, s.j) == [];
  }

  lemma RemovesAccounts(begin: nat, end: nat, j: nat)
    requires begin <= end
    ensures Accounts(Removes(begin, end), Window(begin, end, j, j))
  {
    RemovesNumbers(begin, end);
  }

  lemma AddsAccounts(begin: nat, end: nat, i: nat)
    requires begin <= end
    ensures Accounts(Adds(begin, end), Window(i, i, begin, end))
  {
    AddsNumbers(begin, end);
  }

  lemma PairSplit(above: seq<Step>, below: seq<Step>, w: Window, c: Cell)
    requires c != NoCell && InWindow(w, c.i, c.j)
    requires Accounts(above, Above(w, c)) && Accounts(below, Below(w, c))
    ensures Accounts(above + [Paired(c.i, c.j)] + below, w)
  {
    hide Accounts;
    PairAccounts(Paired(c.i, c.j));
    AccountsConcat(above, [Paired(c.i, c.j)], Above(w, c), Window(c.i, c.i + 1, c.j, c.j + 1));
    AccountsConcat(above + [Paired(c.i, c.j)], below, Window(w.fromBegin, c.i + 1, w.toBegin, c.j + 1), Below(w, c));
  }

  /** Through every recursion and both orders of the cut-off branch, no line is lost or moved. */
  lemma {:induction false} DiffScriptAccounts(x: Input<string>, rule: Rule, w: Window)
    requires ValidWindow(x, w) && Open(w)
    ensures Accounts(DiffScript(x, rule, w), w)
    decreases Size(w), 0
  {
    hide Accounts, Select;
    var c := Select(x, rule, w);
    if c == NoCell {
      var removes, adds := Removes(w.fromBegin, w.fromEnd), Adds(w.toBegin, w.toEnd);
      AddsAccounts(w.toBegin, w.toEnd, w.fromBegin);
      AddsAccounts(w.toBegin, w.toEnd, w.fromEnd);
      RemovesAccounts(w.fromBegin, w.fromEnd, w.toBegin);
      RemovesAccounts(w.fromBegin, w.fromEnd, w.toEnd);
      AccountsConcat(removes, adds, Window(w.fromBegin, w.fromEnd, w.toBegin, w.toBegin),
                     Window(w.fromEnd, w.fromEnd, w.toBegin, w.toEnd));
      AccountsConcat(adds, removes, Window(w.fromBegin, w.fromBegin, w.toBegin, w.toEnd),
                     Window(w.fromBegin, w.fromEnd, w.toEnd, w.toEnd));
    } else {
      MarkScriptAccounts(x, rule, Above(w, c));
      MarkScriptAccounts(x, rule, Below(w, c));
      PairSplit(MarkScript(x, rule, Above(w, c)), MarkScript(x, rule, Below(w, c)), w, c);
    }
  }

  lemma {:induction false} MarkScriptAccounts(x: Input<string>, rule: Rule, w: Window)
    requires ValidWindow(x, w)
    ensures Accounts(MarkScript(x, rule, w), w)
    decreases Size(w), 1
  {
    hide Accounts;
    if w.fromBegin < w.fromEnd {
      if w.toBegin < w.toEnd {
        DiffScriptAccounts(x, rule, w);
      } else {
        RemovesAccounts(w.fromBegin, w.fromEnd, w.toBegin);
      }
    } else {
      AddsAccounts(w.toBegin, w.toEnd, w.fromBegin);
    }
  }

  lemma OperationScriptAccounts(x: Input<string>, rule: Rule, op: Operation)
    requires ValidOperation(x, op)
    ensures Accounts(OperationScript(x, rule, op), Window(op.fromBegin, op.fromEnd, op.toBegin, op.toEnd))
  {
    match op.kind
    case Equal => KeepsNumbers(op.fromBegin, op.toBegin, op.fromEnd - op.fromBegin);
    case Insert => AddsAccounts(op.toBegin, op.toEnd, op.fromBegin);
    case Delete => RemovesAccounts(op.fromBegin, op.fromEnd, op.toBegin);
    case Replace => DiffScriptAccounts(x, rule, Window(op.fromBegin, op.fromEnd, op.toBegin, op.toEnd));
  }

  lemma {:induction false} ScriptAccounts(x: Input<string>, rule: Rule, ops: seq<Operation>,
                                          i: nat, j: nat, iEnd: nat, jEnd: nat)
    requires Tiles(x, ops, i, j, iEnd, jEnd) && AllValid(x, ops)
    ensures Accounts(Script(x, rule, ops), Window(i, iEnd, j, jEnd))
  {
    if ops == [] {
      assert Range(i, i) == [] && Range(j, j) == [];
    } else {
      var op := ops[0];
      hide Accounts, OperationScript;
      OperationScriptAccounts(x, rule, op);
      ScriptAccounts(x, rule, ops[1..], op.fromEnd, op.toEnd, iEnd, jEnd);
      AccountsConcat(OperationScript(x, rule, op), Script(x, rule, ops[1..]),
                     Window(op.fromBegin, op.fromEnd, op.toBegin, op.toEnd),
                     Window(op.fromEnd, iEnd, op.toEnd, jEnd));
    }
  }

  // ---------------------------------------------------------------- kept lines and pairs

  /** Lines i and j deserve to be shown as one changed line within the block v. */
  ghost predicate JustifiedIn(x: Input<string>, v: Window, i: nat, j: nat)
    requires ValidWindow(x, v)
  {
    && InWindow(v, i, j)
    && if Identical(x, i, j) then !HasSimilar(x, v, READABLE.cutOff)
       else MostSimilar(x, v, Cell(i, j)) && LineRatio(x.from[i], x.to[j]) >= READABLE.cutOff
  }

  /** The recursion that starts with the block w comes to the block v. */
  ghost predicate Reaches(x: Input<string>, rule: Rule, w: Window, v: Window)
    requires ValidWindow(x, w)
    ensures Reaches(x, rule, w, v) ==> ValidWindow(x, v) && Open(v)
    decreases Size(w)
  {
    && Open(w)
    && (v == w
        || (var c := Select(x, rule, w);
            c != NoCell && (Reaches(x, rule, Above(w, c), v) || Reaches(x, rule, Below(w, c), v))))
  }

  /** The pair is the one selected in a block the recursion comes to. */
  ghost predicate Chosen(x: Input<string>, rule: Rule, w: Window, v: Window, i: nat, j: nat)
    requires ValidWindow(x, w)
  {
    Reaches(x, rule, w, v) && Select(x, rule, v) == Cell(i, j)
  }

  lemma ReachesUnfold(x: Input<string>, rule: Rule, w: Window, v: Window)
    requires ValidWindow(x, w) && Open(w)
    ensures var c := Select(x, rule, w);
            Reaches(x, rule, w, v) <==>
            v == w || (c != NoCell && (Reaches(x, rule, Above(w, c), v) || Reaches(x, rule, Below(w, c), v)))
  {
    hide Select;
  }

  lemma DiffScriptUnfold(x: Input<string>, rule: Rule, w: Window)
    requires ValidWindow(x, w) && Open(w)
    ensures var c := Select(x, rule, w);
            c != NoCell ==>
              DiffScript(x, rule, w)
              == MarkScript(x, rule, Above(w, c)) + [Paired(c.i, c.j)] + MarkScript(x, rule, Below(w, c))
    ensures Select(x, rule, w) == NoCell ==> forall s :: s in DiffScript(x, rule, w) ==> s.Removed? || s.Added?
  {
    NoKeptRange(w.fromBegin, w.fromEnd);
    NoKeptRange(w.toBegin, w.toEnd);
    hide Select, MarkScript, Removes, Adds;
  }

  /** A block without a pair shows its new lines first exactly if there are fewer of them. */
  lemma CutOffOrder(x: Input<string>, rule: Rule, w: Window)
    requires ValidWindow(x, w) && Open(w) && Select(x, rule, w) == NoCell
    ensures DiffScript(x, rule, w) != []
    ensures DiffScript(x, rule, w)[0].Added? <==> w.toEnd - w.toBegin < w.fromEnd - w.fromBegin
    ensures DiffScript(x, rule, w)[0].Removed? <==> w.fromEnd - w.fromBegin <= w.toEnd - w.toBegin
  {
    NoKeptRange(w.fromBegin, w.fromEnd);
    NoKeptRange(w.toBegin, w.toEnd);
    RangesNonEmpty(w.fromBegin, w.fromEnd);
    RangesNonEmpty(w.toBegin, w.toEnd);
    hide Select, Removes, Adds;
  }

  lemma RangesNonEmpty(begin: nat, end: nat)
    requires begin < end
    ensures Removes(begin, end) != [] && Removes(begin, end)[0] in Removes(begin, end)
    ensures Adds(begin, end) != [] && Adds(begin, end)[0] in Adds(begin, end)
  {
  }

  /** The pairs of a block's script are exactly those selected in the blocks the recursion comes to. */
  lemma {:induction false} PairChosenIff(x: Input<string>, rule: Rule, w: Window, i: nat, j: nat)
    requires ValidWindow(x, w)
    ensures Paired(i, j) in MarkScript(x, rule, w) <==> exists v :: Chosen(x, rule, w, v, i, j)
    ensures Open(w) ==> MarkScript(x, rule, w) == DiffScript(x, rule, w)
    decreases Size(w)
  {
    hide Select, DiffScript, Reaches;
    if Open(w) {
      var c := Select(x, rule, w);
      DiffScriptUnfold(x, rule, w);
      if c != NoCell {
        PairChosenIff(x, rule, Above(w, c), i, j);
        PairChosenIff(x, rule, Below(w, c), i, j);
      }
      hide MarkScript;
      ChosenUnfold(x, rule, w, i, j);
    } else {
      ClosedChoosesNothing(x, rule, w, i, j);
      NoKeptRange(w.fromBegin, w.fromEnd);
      NoKeptRange(w.toBegin, w.toEnd);
    }
  }

  lemma ChosenUnfold(x: Input<string>, rule: Rule, w: Window, i: nat, j: nat)
    requires ValidWindow(x, w) && Open(w)
    ensures var c := Select(x, rule, w);
            (exists v :: Chosen(x, rule, w, v, i, j)) <==>
            c != NoCell && (c == Cell(i, j) || (exists v :: Chosen(x, rule, Above(w, c), v, i, j))
                                            || exists v :: Chosen(x, rule, Below(w, c), v, i, j))
  {
    hide Select, Reaches;
    var c := Select(x, rule, w);
    if v :| Chosen(x, rule, w, v, i, j) {
      ReachesUnfold(x, rule, w, v);
      if v != w {
        assert Chosen(x, rule, Above(w, c), v, i, j) || Chosen(x, rule, Below(w, c), v, i, j);
      }
    }
    ReachesUnfold(x, rule, w, w);
    assert c == Cell(i, j) ==> Chosen(x, rule, w, w, i, j);
    if c != NoCell {
      if v :| Chosen(x, rule, Above(w, c), v, i, j) {
        ReachesUnfold(x, rule, w, v);
        assert Chosen(x, rule, w, v, i, j);
      }
      if v :| Chosen(x, rule, Below(w, c), v, i, j) {
        ReachesUnfold(x, rule, w, v);
        assert Chosen(x, rule, w, v, i, j);
      }
    }
  }

  lemma ClosedChoosesNothing(x: Input<string>, rule: Rule, w: Window, i: nat, j: nat)
    requires ValidWindow(x, w) && !Open(w)
    ensures !exists v :: Chosen(x, rule, w, v, i, j)
  {
    hide Select;
  }

  lemma SelectionJustified(x: Input<string>, w: Window)
    requires ValidWindow(x, w) && Open(w) && Select(x, READABLE, w) != NoCell
    ensures JustifiedIn(x, w, Select(x, READABLE, w).i, Select(x, READABLE, w).j)
  {
    var c := Select(x, READABLE, w);
    ReadableSelection(x, w);
    hide Select;
    assert HasSimilar(x, w, READABLE.cutOff) ==> Cell(c.i, c.j) == c;
  }

  /**
   Every pair the readable differ shows as one changed line is the one it selected in a block its
   recursion came to, and is in this block the most similar differing pair, with ratio at least
   0.75, or an identical pair of a block without such a pair.
   */
  lemma ReadablePairsJustified(x: Input<string>, w: Window, i: nat, j: nat)
    requires ValidWindow(x, w) && Open(w) && Paired(i, j) in DiffScript(x, READABLE, w)
    ensures exists v :: Chosen(x, READABLE, w, v, i, j) && JustifiedIn(x, v, i, j)
  {
    PairChosenIff(x, READABLE, w, i, j);
    hide *;
    var v :| Chosen(x, READABLE, w, v, i, j);
    ChosenFacts(x, READABLE, w, v, i, j);
    SelectionJustified(x, v);
  }

  lemma ChosenFacts(x: Input<string>, rule: Rule, w: Window, v: Window, i: nat, j: nat)
    requires ValidWindow(x, w) && Chosen(x, rule, w, v, i, j)
    ensures ValidWindow(x, v) && Open(v) && Select(x, rule, v) == Cell(i, j)
  {
    hide Select;
  }

  /** The pair is selected, and deserves it, in a block reached from the replaced block of an operation. */
  ghost predicate ChosenIn(x: Input<string>, op: Operation, v: Window, i: nat, j: nat) {
    && op.kind == Replace && ValidOperation(x, op)
    && Chosen(x, READABLE, Window(op.fromBegin, op.fromEnd, op.toBegin, op.toEnd), v, i, j)
    && JustifiedIn(x, v, i, j)
  }

  lemma OperationPairJustified(x: Input<string>, op: Operation, i: nat, j: nat)
    requires ValidOperation(x, op) && Paired(i, j) in OperationScript(x, READABLE, op)
    ensures exists v :: ChosenIn(x, op, v, i, j)
  {
    hide DiffScript, Select, Same, JustifiedIn, Reaches;
    match op.kind
    case Equal => NoPairsKept(op.fromBegin, op.toBegin, op.fromEnd - op.fromBegin);
    case Insert => NoKeptRange(op.toBegin, op.toEnd);
    case Delete => NoKeptRange(op.fromBegin, op.fromEnd);
    case Replace =>
      var w := Window(op.fromBegin, op.fromEnd, op.toBegin, op.toEnd);
      ReadablePairsJustified(x, w, i, j);
      var v :| Chosen(x, READABLE, w, v, i, j) && JustifiedIn(x, v, i, j);
      assert ChosenIn(x, op, v, i, j);
  }

  lemma {:induction false} NoPairsKept(i: nat, j: nat, n: nat)
    ensures forall s :: s in Keeps(i, j, n) ==> s.Kept?
  {
    if n > 0 { NoPairsKept(i, j, n - 1); }
  }

  /** So it is for every pair of a whole diff. */
  lemma {:induction false} ScriptPairsJustified(x: Input<string>, ops: seq<Operation>, i: nat, j: nat)
    requires AllValid(x, ops) && Paired(i, j) in Script(x, READABLE, ops)
    ensures exists op, v :: op in ops && ChosenIn(x, op, v, i, j)
  {
    hide OperationScript, ChosenIn;
    if Paired(i, j) in OperationScript(x, READABLE, ops[0]) {
      OperationPairJustified(x, ops[0], i, j);
      assert ops[0] in ops;
    } else {
      ScriptPairsJustified(x, ops[1..], i, j);
      var op, v :| op in ops[1..] && ChosenIn(x, op, v, i, j);
      assert op in ops;
    }
  }

  /** Two lines that differ and are not similar enough to be shown as one changed line. */
  ghost predicate Unlike(x: Input<string>, i: nat, j: nat) {
    && i < |x.from| && j < |x.to|
    && !Identical(x, i, j) && LineRatio(x.from[i], x.to[j]) < READABLE.cutOff
  }

  lemma UnpairedUnlike(x: Input<string>, w: Window, i: nat, j: nat)
    requires ValidWindow(x, w) && Open(w) && Select(x, READABLE, w) == NoCell && InWindow(w, i, j)
    ensures Unlike(x, i, j)
  {
    ReadableSelection(x, w);
    hide Select, LineRatio;
    assert Identical(x, i, j) || !Identical(x, i, j);
  }

  lemma StepsInWindow(x: Input<string>, w: Window)
    requires ValidWindow(x, w) && Open(w) && Select(x, READABLE, w) == NoCell
    ensures forall s :: s in DiffScript(x, READABLE, w) ==>
              && (s.Removed? ==> w.fromBegin <= s.i < w.fromEnd)
              && (s.Added? ==> w.toBegin <= s.j < w.toEnd)
  {
    hide Select;
    NoKeptRange(w.fromBegin, w.fromEnd);
    NoKeptRange(w.toBegin, w.toEnd);
  }

  /** A stretch of a list with one element in the middle, not containing it, lies on one side of it. */
  lemma OneSide(above: seq<Step>, s: Step, below: seq<Step>, p: seq<Step>, q: seq<Step>, r: seq<Step>)
    requires above + [s] + below == p + q + r && s !in q && q != []
    ensures |p| + |q| <= |above| ==> above == p + q + above[|p| + |q|..]
    ensures |p| + |q| > |above| ==>
              |above| + 1 <= |p| && below == p[|above| + 1..] + q + r
  {
    var all := above + [s] + below;
    assert all[|above|] == s;
    if |p| + |q| <= |above| {
      assert above == all[..|above|];
    } else {
      assert forall k :: |p| <= k < |p| + |q| ==> all[k] == q[k - |p|];
      assert |above| < |p|;
      assert below == all[|above| + 1..];
    }
  }

  /**
   Lines that the readable differ removes and adds without a pair between them are neither
   identical nor similar: nothing that should have been paired is torn apart.
   */
  lemma {:induction false} ReadableMissesNoPair(x: Input<string>, w: Window, p: seq<Step>, q: seq<Step>, r: seq<Step>,
                                                i: nat, j: nat)
    requires ValidWindow(x, w) && MarkScript(x, READABLE, w) == p + q + r
    requires (forall s :: s in q ==> !s.Paired?) && Removed(i) in q && Added(j) in q
    ensures Unlike(x, i, j)
    decreases Size(w)
  {
    hide Select, DiffScript, Unlike;
    NoKeptRange(w.fromBegin, w.fromEnd);
    NoKeptRange(w.toBegin, w.toEnd);
    assert forall s :: s in q ==> s in p + q + r;
    if Open(w) {
      var c := Select(x, READABLE, w);
      DiffScriptUnfold(x, READABLE, w);
      if c != NoCell {
        var above, below := MarkScript(x, READABLE, Above(w, c)), MarkScript(x, READABLE, Below(w, c));
        hide MarkScript;
        OneSide(above, Paired(c.i, c.j), below, p, q, r);
        if |p| + |q| <= |above| {
          ReadableMissesNoPair(x, Above(w, c), p, q, above[|p| + |q|..], i, j);
        } else {
          ReadableMissesNoPair(x, Below(w, c), p[|above| + 1..], q, r, i, j);
        }
      } else {
        StepsInWindow(x, w);
        UnpairedUnlike(x, w, i, j);
      }
    }
  }

  lemma {:induction false} NoKept(x: Input<string>, rule: Rule, w: Window)
    requires ValidWindow(x, w)
    ensures KeptAgree(x, MarkScript(x, rule, w))
    ensures Open(w) ==> KeptAgree(x, DiffScript(x, rule, w))
    decreases Size(w)
  {
    hide Select;
    NoKeptRange(w.fromBegin, w.fromEnd);
    NoKeptRange(w.toBegin, w.toEnd);
    if Open(w) {
      var c := Select(x, rule, w);
      if c != NoCell {
        NoKept(x, rule, Above(w, c));
        NoKept(x, rule, Below(w, c));
      }
    }
  }

  lemma {:induction false} NoKeptRange(begin: nat, end: nat)
    requires begin <= end
    ensures forall s :: s in Removes(begin, end) ==> s.Removed? && begin <= s.i < end
    ensures forall s :: s in Adds(begin, end) ==> s.Added? && begin <= s.j < end
    decreases end
  {
    if begin < end { NoKeptRange(begin, end - 1); }
  }

  lemma {:induction false} KeepsAgree(x: Input<string>, i: nat, j: nat, n: nat)
    requires i + n <= |x.from| && j + n <= |x.to| && Same(x, i, j, n)
    ensures KeptAgree(x, Keeps(i, j, n))
    decreases n
  {
    if n > 0 { KeepsAgree(x, i, j, n - 1); }
  }

  lemma OperationKeptAgree(x: Input<string>, rule: Rule, op: Operation)
    requires ValidOperation(x, op)
    ensures KeptAgree(x, OperationScript(x, rule, op))
  {
    hide DiffScript;
    match op.kind
    case Equal => KeepsAgree(x, op.fromBegin, op.toBegin, op.fromEnd - op.fromBegin);
    case Insert => NoKeptRange(op.toBegin, op.toEnd);
    case Delete => NoKeptRange(op.fromBegin, op.fromEnd);
    case Replace => NoKept(x, rule, Window(op.fromBegin, op.fromEnd, op.toBegin, op.toEnd));
  }

  lemma {:induction false} ScriptKeptAgree(x: Input<string>, rule: Rule, ops: seq<Operation>)
    requires AllValid(x, ops)
    ensures KeptAgree(x, Script(x, rule, ops))
  {
    hide OperationScript;
    if ops != [] {
      OperationKeptAgree(x, rule, ops[0]);
      ScriptKeptAgree(x, rule, ops[1..]);
    }
  }

  /** Numbers of a script that accounts for a window ascend from step to step. */
  lemma {:induction false} RangeIndex(begin: nat, end: nat, k: nat)
    requires begin + k < end
    ensures |Range(begin, end)| == end - begin && Range(begin, end)[k] == begin + k
    decreases end
  {
    if begin + k < end - 1 {
      RangeIndex(begin, end - 1, k);
    } else {
      RangeLength(begin, end - 1);
    }
  }

  lemma {:induction false} RangeLength(begin: nat, end: nat)
    requires begin <= end
    ensures |Range(begin, end)| == end - begin
    decreases end
  {
    if begin < end { RangeLength(begin, end - 1); }
  }

  /**
   Pairings never cross: two pairs of a script are in the same strict order on both sides.
   */
  lemma PairsNeverCross(steps: seq<Step>, w: Window, a: nat, b: nat)
    requires Accounts(steps, w) && a < b < |steps|
    requires (steps[a].Paired? || steps[a].Kept?) && (steps[b].Paired? || steps[b].Kept?)
    ensures steps[a].i < steps[b].i && steps[a].j < steps[b].j
  {
    var p, q, r := steps[..a], steps[a..b], steps[b..];
    assert steps == p + (q + r);
    NumbersConcat(p, q + r);
    NumbersConcat(q, r);
    var pf, qf, rf := FromNumbers(p), FromNumbers(q), FromNumbers(r);
    var pt, qt, rt := ToNumbers(p), ToNumbers(q), ToNumbers(r);
    assert qf[0] == steps[a].i && rf[0] == steps[b].i && qt[0] == steps[a].j && rt[0] == steps[b].j;
    RangeLength(w.fromBegin, w.fromEnd);
    RangeLength(w.toBegin, w.toEnd);
    assert FromNumbers(steps) == pf + (qf + rf) && ToNumbers(steps) == pt + (qt + rt);
    RangeIndex(w.fromBegin, w.fromEnd, |pf|);
    RangeIndex(w.fromBegin, w.fromEnd, |pf| + |qf|);
    RangeIndex(w.toBegin, w.toEnd, |pt|);
    RangeIndex(w.toBegin, w.toEnd, |pt| + |qt|);
  }
}
