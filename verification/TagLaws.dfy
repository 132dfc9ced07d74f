/** What widths, blanks and tag lines mean, character by character. */
module TagLaws {
  import opened Seqs
  import opened Edits
  import opened MatchSpec
  import opened CharDiff

  // ---------------------------------------------------------------- widths and blanks

  function Tabs(s: string): nat {
    if s == [] then 0 else Tabs(s[..|s| - 1]) + if s[|s| - 1] == '\t' then 1 else 0
  }

  function Wides(wide: Wide, s: string): nat {
    if s == [] then 0 else Wides(wide, s[..|s| - 1]) + if wide(s[|s| - 1]) then 1 else 0
  }

  /** A tab takes eight columns, a wide character two, any other character one. */
  lemma {:induction false} WidthMeans(wide: Wide, s: string)
    ensures Width(wide, s) == |s| + Wides(wide, s) + 7 * Tabs(s)
  {
    assert '\t' as int < 128;
    if s != [] {
      WidthMeans(wide, s[..|s| - 1]);
    }
  }

  lemma {:induction false} TabsConcat(a: string, b: string)
    ensures Tabs(a + b) == Tabs(a) + Tabs(b)
  {
    if b == [] {
      assert a + b == a;
    } else {
      assert (a + b)[..|a + b| - 1] == a + b[..|b| - 1];
      TabsConcat(a, b[..|b| - 1]);
    }
  }

  lemma BlankMeans(wide: Wide, c: char)
    ensures Tabs(Blank(wide, c)) == if c == '\t' then 1 else 0
  {
    assert '\t' as int < 128;
    assert " "[..0] == "" && "\t"[..0] == "" && "  "[..1] == " ";
  }

  lemma SpacesSnoc(wide: Wide, s: string, c: char)
    ensures Spaces(wide, s + [c]) == Spaces(wide, s) + Blank(wide, c) && Tabs(s + [c]) == Tabs(s) + Tabs([c])
    ensures Tabs([c]) == if c == '\t' then 1 else 0
  {
    hide Blank;
    assert (s + [c])[..|s|] == s && [c][..0] == "";
  }

  lemma {:induction false} SpacesConcat(wide: Wide, a: string, b: string)
    ensures Spaces(wide, a + b) == Spaces(wide, a) + Spaces(wide, b)
    decreases |b|
  {
    hide *;
    if b == [] {
      NoSpaces(wide);
      EmptyTail(a);
      EmptyTail(Spaces(wide, a));
    } else {
      var init, last := b[..|b| - 1], b[|b| - 1];
      SpacesConcat(wide, a, init);
      SpacesSnoc(wide, init, last);
      SpacesSnoc(wide, a + init, last);
      assert b == init + [last];
      Associate(a, init, [last]);
      Associate(Spaces(wide, a), Spaces(wide, init), Blank(wide, last));
    }
  }

  lemma NoSpaces(wide: Wide)
    ensures Spaces(wide, "") == "" && Tabs("") == 0
  {
  }

  lemma {:induction false} SpacesTabs(wide: Wide, s: string)
    ensures Tabs(Spaces(wide, s)) == Tabs(s)
  {
    hide *;
    if s == [] {
      NoSpaces(wide);
    } else {
      var init, last := s[..|s| - 1], s[|s| - 1];
      SpacesTabs(wide, init);
      SpacesSnoc(wide, init, last);
      BlankMeans(wide, last);
      TabsConcat(Spaces(wide, init), Blank(wide, last));
      assert s == init + [last];
    }
  }

  /** The blanks for a text are as wide as it, hold its tabs and otherwise spaces, piece by piece. */
  lemma SpacesMean(wide: Wide, a: string, b: string)
    ensures Spaces(wide, a + b) == Spaces(wide, a) + Spaces(wide, b)
    ensures AllIn(Spaces(wide, a), {' ', '\t'}) && Tabs(Spaces(wide, a)) == Tabs(a)
    ensures Width(wide, Spaces(wide, a)) == Width(wide, a)
  {
    hide *;
    SpacesConcat(wide, a, b);
    SpacesBlank(wide, a);
    SpacesTabs(wide, a);
    SpacesWidth(wide, a);
  }

  // ---------------------------------------------------------------- tag lines

  /** The characters that stand below the parts of a line. */
  function Marks(kind: Kind): set<char> {
    match kind
    case Equal => {' ', '\t'}
    case Insert => {'+'}
    case Delete => {'-'}
    case Replace => {'^'}
  }

  /** In the same columns as line[begin..end] the tags have such characters. */
  ghost predicate Below(wide: Wide, line: string, begin: nat, end: nat, tags: string, chars: set<char>) {
    begin <= end <= |line|
    && exists i, j :: 0 <= i <= j <= |tags| && StandsBelow(wide, line, begin, end, tags, chars, i, j)
  }

  ghost predicate StandsBelow(wide: Wide, line: string, begin: nat, end: nat, tags: string, chars: set<char>,
                              i: nat, j: nat)
    requires begin <= end <= |line| && i <= j <= |tags|
  {
    && Width(wide, tags[..i]) == Width(wide, line[..begin])
    && Width(wide, tags[..j]) == Width(wide, line[..end])
    && AllIn(tags[i..j], chars)
  }

  lemma TagMarks(wide: Wide, side: Side, x: Input<char>, op: Operation)
    requires ValidOperation(x, op)
    ensures AllIn(Tag(wide, side, op, LineOf(side, x)), Marks(op.kind))
  {
    var part := LineOf(side, x)[Begin(side, op)..End(side, op)];
    SpacesBlank(wide, part);
    RepeatWidth(wide, '+', Width(wide, part));
    RepeatWidth(wide, '-', Width(wide, part));
    RepeatWidth(wide, '^', Width(wide, part));
    hide Spaces, Repeat, Width;
  }

  lemma {:induction false} TagsPrefix(wide: Wide, side: Side, ops: seq<Operation>, line: string, k: nat)
    requires k <= |ops| && InLine(side, ops, line)
    ensures InLine(side, ops[..k], line) && Tags(wide, side, ops[..k], line) <= Tags(wide, side, ops, line)
    decreases |ops| - k
  {
    hide *;
    PrefixInLine(side, ops, line, k);
    if k == |ops| {
      assert ops[..k] == ops;
    } else {
      TagsPrefix(wide, side, ops, line, k + 1);
      PrefixInLine(side, ops, line, k + 1);
      LastTag(wide, side, ops, line, k + 1);
    }
  }

  /** Before trimming, each operation's part of a line has its own mark below it, column for column. */
  lemma TagsMark(wide: Wide, side: Side, x: Input<char>, ops: seq<Operation>, k: nat)
    requires ValidScript(x, ops) && k < |ops|
    ensures InLine(side, ops, LineOf(side, x))
    ensures Below(wide, LineOf(side, x), Begin(side, ops[k]), End(side, ops[k]),
                  Tags(wide, side, ops, LineOf(side, x)), Marks(ops[k].kind))
  {
    var line, op := LineOf(side, x), ops[k];
    TilesInLine(x, side, ops, 0, 0, |x.from|, |x.to|);
    TagAlignment(wide, side, x, ops, k);
    TagAlignment(wide, side, x, ops, k + 1);
    TagMarks(wide, side, x, op);
    hide *;
    PrefixInLine(side, ops, line, k);
    PrefixInLine(side, ops, line, k + 1);
    LastTag(wide, side, ops, line, k + 1);
    TagsPrefix(wide, side, ops, line, k + 1);
    StartIs(side, x, ops, k);
    var before, tag, all := Tags(wide, side, ops[..k], line), Tag(wide, side, op, line), Tags(wide, side, ops, line);
    PartOf(all, before, tag);
    BelowFact(wide, line, Begin(side, op), End(side, op), all, Marks(op.kind), |before|, |before + tag|);
  }

  lemma PartOf(all: string, a: string, b: string)
    requires a + b <= all
    ensures all[..|a|] == a && all[..|a + b|] == a + b && all[|a|..|a + b|] == b
  {
    assert all[..|a + b|] == a + b;
    assert all[..|a|] == (a + b)[..|a|];
    assert all[|a|..|a + b|] == (a + b)[|a|..];
  }

  lemma BelowFact(wide: Wide, line: string, begin: nat, end: nat, tags: string, chars: set<char>, i: nat, j: nat)
    requires begin <= end <= |line| && i <= j <= |tags|
    requires Width(wide, tags[..i]) == Width(wide, line[..begin])
    requires Width(wide, tags[..j]) == Width(wide, line[..end]) && AllIn(tags[i..j], chars)
    ensures Below(wide, line, begin, end, tags, chars)
  {
    hide Width, AllIn;
    assert StandsBelow(wide, line, begin, end, tags, chars, i, j);
  }

  /** Where an operation starts and ends is where the next one starts. */
  lemma StartIs(side: Side, x: Input<char>, ops: seq<Operation>, k: nat)
    requires k < |ops| && ValidScript(x, ops)
    ensures Start(side, x, ops, k) == Begin(side, ops[k]) && Start(side, x, ops, k + 1) == End(side, ops[k])
  {
    TilesInLine(x, side, ops, 0, 0, |x.from|, |x.to|);
    hide Tiles, InLine;
    assert k + 1 < |ops| ==> Begin(side, ops[k + 1]) == End(side, ops[k + 1 - 1]);
  }

  /**
   What is printed below a line: without its trailing blanks the tags of all operations, each in the
   columns of its own part; nothing exactly if no operation changes the line.
   */
  ghost predicate Explains(wide: Wide, side: Side, x: Input<char>, ops: seq<Operation>, shown: string) {
    && (shown != "" <==> exists op :: op in ops && (op.kind == Replace
                                                    || op.kind == if side == FromSide then Delete else Insert))
    && (shown != "" ==> shown[|shown| - 1] !in {' ', '\t'})
    && exists blanks :: AllIn(blanks, {' ', '\t'}) && AllBelow(wide, side, x, ops, shown + blanks)
  }

  ghost predicate AllBelow(wide: Wide, side: Side, x: Input<char>, ops: seq<Operation>, tags: string) {
    forall k :: 0 <= k < |ops| ==>
      Below(wide, LineOf(side, x), Begin(side, ops[k]), End(side, ops[k]), tags, Marks(ops[k].kind))
  }

  lemma {:induction false} TouchedIff(side: Side, ops: seq<Operation>)
    ensures Touched(side, ops) <==> exists op :: op in ops && Touches(side, op)
  {
    hide Touches;
    if ops != [] {
      var init, last := ops[..|ops| - 1], ops[|ops| - 1];
      TouchedIff(side, init);
      assert ops == init + [last];
    }
  }

  lemma TrimmedExplains(wide: Wide, side: Side, x: Input<char>, ops: seq<Operation>)
    requires ValidScript(x, ops)
    ensures InLine(side, ops, LineOf(side, x))
    ensures Explains(wide, side, x, ops, Chomp(Tags(wide, side, ops, LineOf(side, x))))
  {
    hide *;
    TrimmedTags(wide, side, x, ops);
    var tags := Tags(wide, side, ops, LineOf(side, x));
    AllMarked(wide, side, x, ops);
    TagsAreTags(wide, side, x, ops);
    ChompParts(tags);
    TouchedIff(side, ops);
    ExplainsFact(wide, side, x, ops, Chomp(tags), tags);
  }

  lemma AllMarked(wide: Wide, side: Side, x: Input<char>, ops: seq<Operation>)
    requires ValidScript(x, ops)
    ensures InLine(side, ops, LineOf(side, x))
    ensures AllBelow(wide, side, x, ops, Tags(wide, side, ops, LineOf(side, x)))
  {
    TrimmedTags(wide, side, x, ops);
    hide Below, Tags, InLine, Marks;
    forall k | 0 <= k < |ops|
      ensures Below(wide, LineOf(side, x), Begin(side, ops[k]), End(side, ops[k]),
                    Tags(wide, side, ops, LineOf(side, x)), Marks(ops[k].kind))
    {
      TagsMark(wide, side, x, ops, k);
    }
  }

  lemma ExplainsFact(wide: Wide, side: Side, x: Input<char>, ops: seq<Operation>, shown: string, tags: string)
    requires AllBelow(wide, side, x, ops, tags)
    requires exists blanks :: AllIn(blanks, {' ', '\t'}) && shown + blanks == tags
    requires shown != "" ==> shown[|shown| - 1] !in {' ', '\t'}
    requires shown != [] <==> exists op :: op in ops && Touches(side, op)
    ensures Explains(wide, side, x, ops, shown)
  {
    hide AllBelow, AllIn;
    assert forall op :: Touches(side, op) <==>
             op.kind == Replace || op.kind == if side == FromSide then Delete else Insert;
    hide Touches;
  }

  lemma TagsAreTags(wide: Wide, side: Side, x: Input<char>, ops: seq<Operation>)
    requires ValidScript(x, ops)
    ensures InLine(side, ops, LineOf(side, x)) && AllIn(Tags(wide, side, ops, LineOf(side, x)), TAG_CHARS)
  {
    hide Tags, AllIn, Tiles;
    TilesInLine(x, side, ops, 0, 0, |x.from|, |x.to|);
    TagsContent(wide, side, x, ops);
  }

  /** Trimming tags cuts off blanks, and no blank is left at the end. */
  lemma ChompParts(tags: string)
    requires AllIn(tags, TAG_CHARS)
    ensures exists blanks :: AllIn(blanks, {' ', '\t'}) && Chomp(tags) + blanks == tags
    ensures Chomp(tags) != "" ==> Chomp(tags)[|Chomp(tags)| - 1] !in {' ', '\t'}
  {
    hide *;
    ChompPrefix(tags);
    BlanksAfter(tags, |Chomp(tags)|);
    LastNoBlank(Chomp(tags));
  }

  lemma LastNoBlank(s: string)
    ensures s != [] && !IsBlank(s[|s| - 1]) ==> s[|s| - 1] !in {' ', '\t'}
  {
  }

  lemma BlanksAfter(tags: string, n: nat)
    requires n <= |tags| && AllIn(tags, TAG_CHARS) && forall k :: n <= k < |tags| ==> IsBlank(tags[k])
    ensures exists blanks :: AllIn(blanks, {' ', '\t'}) && tags[..n] + blanks == tags
  {
    var blanks := tags[n..];
    assert forall k :: 0 <= k < |blanks| ==> blanks[k] == tags[n + k] && IsBlank(tags[n + k]);
    assert forall c :: c in blanks ==> c in tags;
    hide TAG_CHARS;
    BlankTags(tags);
    assert AllIn(blanks, {' ', '\t'}) && tags[..n] + blanks == tags;
  }

  lemma BlankTags(tags: string)
    requires AllIn(tags, TAG_CHARS)
    ensures forall c :: c in tags && IsBlank(c) ==> c in {' ', '\t'}
  {
  }
}
