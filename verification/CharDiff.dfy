/** Column widths and the tag lines printed under a changed pair of lines. */
module CharDiff {
  import opened Edits
  import opened MatchSpec
  import opened Seqs

  /** g_unichar_iswide_cjk: which characters take two columns; no ASCII character does. */
  type Wide = f: char -> bool | (forall c: char :: c as int < 128 ==> !f(c)) witness ((c: char) => false)

  function CharWidth(wide: Wide, c: char): (n: nat)
    ensures 1 <= n <= 8
  {
    if wide(c) then 2 else if c == '\t' then 8 else 1
  }

  /** The number of columns of a string (cut_differ_util_compute_width). */
  function Width(wide: Wide, s: string): nat {
    if s == [] then 0 else Width(wide, s[..|s| - 1]) + CharWidth(wide, s[|s| - 1])
  }

  lemma {:induction false} WidthConcat(wide: Wide, a: string, b: string)
    ensures Width(wide, a + b) == Width(wide, a) + Width(wide, b)
    decreases |b|
  {
    if b == [] {
      assert a + b == a;
    } else {
      assert (a + b)[..|a + b| - 1] == a + b[..|b| - 1];
      WidthConcat(wide, a, b[..|b| - 1]);
    }
  }

  lemma {:induction false} WidthAtLeastLength(wide: Wide, s: string)
    ensures Width(wide, s) >= |s|
  {
    if s != [] {
      WidthAtLeastLength(wide, s[..|s| - 1]);
    }
  }

  function Blank(wide: Wide, c: char): string {
    if wide(c) then "  " else if c == '\t' then "\t" else " "
  }

  /** White space as wide as a string (append_spaces, cut_diff_writer_write_spaces). */
  function Spaces(wide: Wide, s: string): string {
    if s == [] then "" else Spaces(wide, s[..|s| - 1]) + Blank(wide, s[|s| - 1])
  }

  lemma BlankWidth(wide: Wide, c: char)
    ensures Width(wide, Blank(wide, c)) == CharWidth(wide, c)
  {
    assert ' ' as int < 128 && '\t' as int < 128;
    assert " "[..0] == "" && "\t"[..0] == "" && "  "[..1] == " ";
  }

  lemma {:induction false} SpacesWidth(wide: Wide, s: string)
    ensures Width(wide, Spaces(wide, s)) == Width(wide, s)
  {
    if s != [] {
      SpacesWidth(wide, s[..|s| - 1]);
      BlankWidth(wide, s[|s| - 1]);
      WidthConcat(wide, Spaces(wide, s[..|s| - 1]), Blank(wide, s[|s| - 1]));
    }
  }

  ghost predicate AllIn(s: string, chars: set<char>) {
    forall c :: c in s ==> c in chars
  }

  lemma {:induction false} SpacesBlank(wide: Wide, s: string)
    ensures AllIn(Spaces(wide, s), {' ', '\t'})
  {
    if s != [] {
      SpacesBlank(wide, s[..|s| - 1]);
    }
  }

  function Repeat(c: char, n: nat): string {
    if n == 0 then "" else Repeat(c, n - 1) + [c]
  }

  lemma {:induction false} RepeatWidth(wide: Wide, c: char, n: nat)
    requires c as int < 128 && c != '\t'
    ensures Width(wide, Repeat(c, n)) == n && |Repeat(c, n)| == n && AllIn(Repeat(c, n), {c})
  {
    if n > 0 {
      RepeatWidth(wide, c, n - 1);
      assert Repeat(c, n)[..n - 1] == Repeat(c, n - 1);
    }
  }

  /** The loop of cut_differ_util_compute_width. */
  method ComputeWidth(wide: Wide, s: string, begin: nat, end: nat) returns (width: nat)
    requires begin <= end <= |s|
    ensures width == Width(wide, s[begin..end])
  {
    width := 0;
    var i := begin;
    while i < end
      invariant begin <= i <= end && width == Width(wide, s[begin..i])
    {
      SnocSlice(s, begin, i);
      if wide(s[i]) {
        width := width + 2;
      } else if s[i] == '\t' {
        width := width + 8;
      } else {
        width := width + 1;
      }
      i := i + 1;
    }
  }

  lemma SnocSlice(s: string, begin: nat, i: nat)
    requires begin <= i < |s|
    ensures s[begin..i + 1] == s[begin..i] + [s[i]]
    ensures s[begin..i + 1][..i - begin] == s[begin..i] && s[begin..i + 1][i - begin] == s[i]
  {
  }

  /** The loop of append_spaces and of cut_diff_writer_write_spaces; a reversed range adds nothing. */
  method AppendSpaces(wide: Wide, buffer0: string, s: string, begin: nat, end: nat) returns (buffer: string)
    requires end <= |s|
    ensures buffer == buffer0 + if begin <= end then Spaces(wide, s[begin..end]) else ""
  {
    buffer := buffer0;
    if begin > end {
      EmptyTail(buffer);
      return;
    }
    var i := begin;
    NoSpacesYet(wide, buffer, s, begin);
    hide Spaces, Blank;
    while i < end
      invariant begin <= i <= end
      invariant buffer == buffer0 + Spaces(wide, s[begin..i])
    {
      SpacesSnoc(wide, buffer0, s, begin, i);
      BlankCases(wide, s[i]);
      if wide(s[i]) {
        buffer := buffer + "  ";
      } else if s[i] == '\t' {
        buffer := buffer + "\t";
      } else {
        buffer := buffer + " ";
      }
      i := i + 1;
    }
  }

  lemma NoSpacesYet(wide: Wide, buffer: string, s: string, begin: nat)
    requires begin <= |s|
    ensures buffer + Spaces(wide, s[begin..begin]) == buffer
  {
    assert s[begin..begin] == "";
    EmptyTail(buffer);
  }

  lemma BlankCases(wide: Wide, c: char)
    ensures Blank(wide, c) == if wide(c) then "  " else if c == '\t' then "\t" else " "
  {
  }

  lemma SpacesSnoc(wide: Wide, buffer: string, s: string, begin: nat, i: nat)
    requires begin <= i < |s|
    ensures buffer + Spaces(wide, s[begin..i + 1]) == (buffer + Spaces(wide, s[begin..i])) + Blank(wide, s[i])
  {
    SnocSlice(s, begin, i);
    hide Blank;
  }

  /** append_character_n_times */
  method AppendCharacterNTimes(buffer0: string, c: char, n: nat) returns (buffer: string)
    ensures buffer == buffer0 + Repeat(c, n)
  {
    buffer := buffer0;
    var i := 0;
    while i < n
      invariant i <= n && buffer == buffer0 + Repeat(c, i)
    {
      buffer := buffer + [c];
      i := i + 1;
    }
  }

  // ---------------------------------------------------------------- tags

  datatype Side = FromSide | ToSide

  ghost function Begin(side: Side, op: Operation): nat {
    if side == FromSide then op.fromBegin else op.toBegin
  }

  ghost function End(side: Side, op: Operation): nat {
    if side == FromSide then op.fromEnd else op.toEnd
  }

  /** What is printed below the part of a line an operation covers. */
  ghost function Tag(wide: Wide, side: Side, op: Operation, line: string): string
    requires Begin(side, op) <= End(side, op) <= |line|
  {
    var part := line[Begin(side, op)..End(side, op)];
    match op.kind
    case Equal => Spaces(wide, part)
    case Insert => if side == FromSide then "" else Repeat('+', Width(wide, part))
    case Delete => if side == FromSide then Repeat('-', Width(wide, part)) else ""
    case Replace => Repeat('^', Width(wide, part))
  }

  ghost predicate InLine(side: Side, ops: seq<Operation>, line: string) {
    forall k :: 0 <= k < |ops| ==> Begin(side, ops[k]) <= End(side, ops[k]) <= |line|
  }

  ghost function Tags(wide: Wide, side: Side, ops: seq<Operation>, line: string): string
    requires InLine(side, ops, line)
  {
    if ops == [] then ""
    else Tags(wide, side, ops[..|ops| - 1], line) + Tag(wide, side, ops[|ops| - 1], line)
  }

  ghost function LineOf(side: Side, x: Input<char>): string {
    if side == FromSide then x.from else x.to
  }

  lemma {:induction false} TilesInLine(x: Input<char>, side: Side, ops: seq<Operation>, i: nat, j: nat, iEnd: nat,
                                       jEnd: nat)
    requires Tiles(x, ops, i, j, iEnd, jEnd)
    ensures InLine(side, ops, LineOf(side, x))
    ensures forall k :: 0 <= k < |ops| ==> ValidOperation(x, ops[k])
    ensures ops != [] ==> Begin(side, ops[0]) == if side == FromSide then i else j
    ensures forall k :: 0 < k < |ops| ==> Begin(side, ops[k]) == End(side, ops[k - 1])
    ensures ops != [] ==> End(side, ops[|ops| - 1]) == if side == FromSide then iEnd else jEnd
    ensures ops == [] ==> i == iEnd && j == jEnd
  {
    if ops != [] {
      hide ValidOperation;
      TilesInLine(x, side, ops[1..], ops[0].fromEnd, ops[0].toEnd, iEnd, jEnd);
      assert ops == [ops[0]] + ops[1..];
    }
  }

  lemma TagWidth(wide: Wide, side: Side, x: Input<char>, op: Operation)
    requires ValidOperation(x, op)
    ensures Begin(side, op) <= End(side, op) <= |LineOf(side, x)|
    ensures Width(wide, Tag(wide, side, op, LineOf(side, x)))
            == Width(wide, LineOf(side, x)[Begin(side, op)..End(side, op)])
  {
    var part := LineOf(side, x)[Begin(side, op)..End(side, op)];
    SpacesWidth(wide, part);
    RepeatWidth(wide, '+', Width(wide, part));
    RepeatWidth(wide, '-', Width(wide, part));
    RepeatWidth(wide, '^', Width(wide, part));
  }

  /** The column of the line at which operation k starts; for k past the end, the line's end. */
  ghost function Start(side: Side, x: Input<char>, ops: seq<Operation>, k: nat): nat
    requires k <= |ops|
  {
    if k < |ops| then Begin(side, ops[k]) else |LineOf(side, x)|
  }

  /**
   Tag alignment, tabs and wide characters included: on both sides the tags of every operation
   start at the column where that operation starts in the line, and all tags together are as
   wide as the line.
   */
  lemma TagAlignment(wide: Wide, side: Side, x: Input<char>, ops: seq<Operation>, k: nat)
    requires ValidScript(x, ops) && k <= |ops|
    ensures InLine(side, ops[..k], LineOf(side, x)) && Start(side, x, ops, k) <= |LineOf(side, x)|
    ensures Width(wide, Tags(wide, side, ops[..k], LineOf(side, x)))
            == Width(wide, LineOf(side, x)[..Start(side, x, ops, k)])
  {
    TilesInLine(x, side, ops, 0, 0, |x.from|, |x.to|);
    hide Tiles, Width, Tag, ValidOperation, Tags;
    if k == 0 {
      NoTags(wide, side, ops, LineOf(side, x));
    } else {
      AlignedPrefix(wide, side, x, ops, k);
    }
  }

  lemma NoTags(wide: Wide, side: Side, ops: seq<Operation>, line: string)
    requires InLine(side, ops[..0], line)
    ensures Width(wide, Tags(wide, side, ops[..0], line)) == 0 == Width(wide, line[..0])
  {
  }

  lemma {:induction false} AlignedPrefix(wide: Wide, side: Side, x: Input<char>, ops: seq<Operation>, k: nat)
    requires 0 < k <= |ops| && InLine(side, ops, LineOf(side, x))
    requires forall n :: 0 <= n < |ops| ==> ValidOperation(x, ops[n])
    requires Begin(side, ops[0]) == 0
    requires forall n :: 0 < n < |ops| ==> Begin(side, ops[n]) == End(side, ops[n - 1])
    ensures InLine(side, ops[..k], LineOf(side, x))
    ensures Width(wide, Tags(wide, side, ops[..k], LineOf(side, x)))
            == Width(wide, LineOf(side, x)[..End(side, ops[k - 1])])
  {
    var line := LineOf(side, x);
    PrefixInLine(side, ops, line, k);
    PrefixInLine(side, ops, line, k - 1);
    TagWidth(wide, side, x, ops[k - 1]);
    hide Width, Tag, ValidOperation, Tags, InLine;
    if k == 1 {
      NoTags(wide, side, ops, line);
    } else {
      AlignedPrefix(wide, side, x, ops, k - 1);
    }
    OneMoreTag(wide, side, ops, line, k);
  }

  lemma PrefixInLine(side: Side, ops: seq<Operation>, line: string, k: nat)
    requires k <= |ops| && InLine(side, ops, line)
    ensures InLine(side, ops[..k], line)
    ensures k > 0 ==> Begin(side, ops[k - 1]) <= End(side, ops[k - 1]) <= |line|
  {
  }

  /** The tags of the first k operations, one operation at a time. */
  lemma OneMoreTag(wide: Wide, side: Side, ops: seq<Operation>, line: string, k: nat)
    requires 0 < k <= |ops| && InLine(side, ops[..k], line) && InLine(side, ops[..k - 1], line)
    requires Begin(side, ops[k - 1]) <= End(side, ops[k - 1]) <= |line|
    requires Width(wide, Tags(wide, side, ops[..k - 1], line)) == Width(wide, line[..Begin(side, ops[k - 1])])
    requires Width(wide, Tag(wide, side, ops[k - 1], line))
             == Width(wide, line[Begin(side, ops[k - 1])..End(side, ops[k - 1])])
    ensures Width(wide, Tags(wide, side, ops[..k], line)) == Width(wide, line[..End(side, ops[k - 1])])
  {
    var op := ops[k - 1];
    var part := line[Begin(side, op)..End(side, op)];
    LastTag(wide, side, ops, line, k);
    hide Width, Tag, Tags;
    PrefixGrows(line, Begin(side, op), End(side, op));
    WidthConcat(wide, line[..Begin(side, op)], part);
    WidthConcat(wide, Tags(wide, side, ops[..k - 1], line), Tag(wide, side, op, line));
  }

  lemma PrefixGrows(line: string, i: nat, j: nat)
    requires i <= j <= |line|
    ensures line[..j] == line[..i] + line[i..j]
  {
  }

  lemma LastTag(wide: Wide, side: Side, ops: seq<Operation>, line: string, k: nat)
    requires 0 < k <= |ops| && InLine(side, ops[..k], line) && InLine(side, ops[..k - 1], line)
    requires Begin(side, ops[k - 1]) <= End(side, ops[k - 1]) <= |line|
    ensures Tags(wide, side, ops[..k], line) == Tags(wide, side, ops[..k - 1], line) + Tag(wide, side, ops[k - 1], line)
  {
    hide Tag;
    assert ops[..k][..k - 1] == ops[..k - 1];
  }

  /** The loop of diff_line that builds both tag lines. */
  method BuildTags(wide: Wide, ghost x: Input<char>, fromLine: string, toLine: string, operations: seq<Operation>)
    returns (fromTags: string, toTags: string)
    requires x == Input(fromLine, toLine, x.junk) && ValidScript(x, operations)
    ensures InLine(FromSide, operations, fromLine) && fromTags == Tags(wide, FromSide, operations, fromLine)
    ensures InLine(ToSide, operations, toLine) && toTags == Tags(wide, ToSide, operations, toLine)
  {
    hide *;
    ScriptInLines(x, operations);
    fromTags, toTags := "", "";
    var k := 0;
    NoTagsYet(wide, FromSide, operations, fromLine);
    NoTagsYet(wide, ToSide, operations, toLine);
    while k < |operations|
      invariant k <= |operations|
      invariant InLine(FromSide, operations[..k], fromLine)
                && fromTags == Tags(wide, FromSide, operations[..k], fromLine)
      invariant InLine(ToSide, operations[..k], toLine) && toTags == Tags(wide, ToSide, operations[..k], toLine)
    {
      PrefixInLine(FromSide, operations, fromLine, k + 1);
      PrefixInLine(ToSide, operations, toLine, k + 1);
      LastTag(wide, FromSide, operations, fromLine, k + 1);
      LastTag(wide, ToSide, operations, toLine, k + 1);
      fromTags, toTags := TagOperation(wide, x, fromLine, toLine, operations[k], fromTags, toTags);
      k := k + 1;
    }
    assert operations[..k] == operations;
  }

  lemma ScriptInLines(x: Input<char>, ops: seq<Operation>)
    requires ValidScript(x, ops)
    ensures InLine(FromSide, ops, x.from) && InLine(ToSide, ops, x.to)
    ensures forall k :: 0 <= k < |ops| ==> ValidOperation(x, ops[k])
  {
    hide InLine, ValidOperation, Tiles;
    TilesInLine(x, FromSide, ops, 0, 0, |x.from|, |x.to|);
    TilesInLine(x, ToSide, ops, 0, 0, |x.from|, |x.to|);
  }

  lemma NoTagsYet(wide: Wide, side: Side, ops: seq<Operation>, line: string)
    requires InLine(side, ops, line)
    ensures InLine(side, ops[..0], line) && Tags(wide, side, ops[..0], line) == ""
  {
  }

  /** One operation: its tags go below the old line, the new line, or both. */
  method TagOperation(wide: Wide, ghost x: Input<char>, fromLine: string, toLine: string, operation: Operation,
                      fromTags0: string, toTags0: string) returns (fromTags: string, toTags: string)
    requires x == Input(fromLine, toLine, x.junk) && ValidOperation(x, operation)
    ensures fromTags == fromTags0 + Tag(wide, FromSide, operation, fromLine)
    ensures toTags == toTags0 + Tag(wide, ToSide, operation, toLine)
  {
    fromTags, toTags := fromTags0, toTags0;
    var fromWidth := ComputeWidth(wide, fromLine, operation.fromBegin, operation.fromEnd);
    var toWidth := ComputeWidth(wide, toLine, operation.toBegin, operation.toEnd);
    hide Width, Spaces, Repeat, Same;
    match operation.kind {
      case Equal =>
        fromTags := AppendSpaces(wide, fromTags, fromLine, operation.fromBegin, operation.fromEnd);
        toTags := AppendSpaces(wide, toTags, toLine, operation.toBegin, operation.toEnd);
      case Insert =>
        toTags := AppendCharacterNTimes(toTags, '+', toWidth);
      case Delete =>
        fromTags := AppendCharacterNTimes(fromTags, '-', fromWidth);
      case Replace =>
        fromTags := AppendCharacterNTimes(fromTags, '^', fromWidth);
        toTags := AppendCharacterNTimes(toTags, '^', toWidth);
    }
  }

  // ---------------------------------------------------------------- trimming

  /** g_ascii_isspace */
  predicate IsBlank(c: char) {
    c == ' ' || c == '\t' || c == '\n' || c == '\r' || c == 12 as char
  }

  /** g_strchomp */
  function Chomp(s: string): string {
    if s != [] && IsBlank(s[|s| - 1]) then Chomp(s[..|s| - 1]) else s
  }

  lemma {:induction false} ChompPrefix(s: string)
    ensures |Chomp(s)| <= |s| && Chomp(s) == s[..|Chomp(s)|]
    ensures forall k :: |Chomp(s)| <= k < |s| ==> IsBlank(s[k])
    ensures Chomp(s) != [] ==> !IsBlank(Chomp(s)[|Chomp(s)| - 1])
  {
    if s != [] && IsBlank(s[|s| - 1]) {
      ChompPrefix(s[..|s| - 1]);
    }
  }

  /** The operation changes something on this side. */
  ghost predicate Touches(side: Side, op: Operation) {
    op.kind == Replace || op.kind == (if side == FromSide then Delete else Insert)
  }

  /** Some operation changes this side. */
  ghost predicate Touched(side: Side, ops: seq<Operation>) {
    ops != [] && (Touched(side, ops[..|ops| - 1]) || Touches(side, ops[|ops| - 1]))
  }

  ghost predicate HasMark(s: string) {
    exists c :: c in s && !IsBlank(c)
  }

  const TAG_CHARS: set<char> := {' ', '\t', '+', '-', '^'}

  lemma TagContent(wide: Wide, side: Side, x: Input<char>, op: Operation)
    requires ValidOperation(x, op)
    ensures AllIn(Tag(wide, side, op, LineOf(side, x)), TAG_CHARS)
    ensures HasMark(Tag(wide, side, op, LineOf(side, x))) <==> Touches(side, op)
  {
    var part := LineOf(side, x)[Begin(side, op)..End(side, op)];
    WidthAtLeastLength(wide, part);
    hide Width, Spaces, Repeat;
    if Touches(side, op) {
      RepeatContent(wide, '+', Width(wide, part));
      RepeatContent(wide, '-', Width(wide, part));
      RepeatContent(wide, '^', Width(wide, part));
    } else {
      SpacesBlank(wide, part);
    }
  }

  lemma RepeatContent(wide: Wide, c: char, n: nat)
    requires c in {'+', '-', '^'} && n > 0
    ensures AllIn(Repeat(c, n), TAG_CHARS) && HasMark(Repeat(c, n))
  {
    RepeatWidth(wide, c, n);
    hide Repeat;
    assert Repeat(c, n)[0] in Repeat(c, n);
  }

  lemma MarkConcat(a: string, b: string)
    ensures HasMark(a + b) <==> HasMark(a) || HasMark(b)
    ensures AllIn(a, TAG_CHARS) && AllIn(b, TAG_CHARS) ==> AllIn(a + b, TAG_CHARS)
  {
    assert forall c :: c in a + b <==> c in a || c in b;
  }

  lemma {:induction false} TagsContent(wide: Wide, side: Side, x: Input<char>, ops: seq<Operation>)
    requires forall k :: 0 <= k < |ops| ==> ValidOperation(x, ops[k])
    requires InLine(side, ops, LineOf(side, x))
    ensures AllIn(Tags(wide, side, ops, LineOf(side, x)), TAG_CHARS)
    ensures HasMark(Tags(wide, side, ops, LineOf(side, x))) <==> Touched(side, ops)
  {
    hide Tag, ValidOperation, HasMark, Touches;
    if ops == [] {
      assert !HasMark("") by { NoMark(""); }
    } else {
      TagsContent(wide, side, x, ops[..|ops| - 1]);
      TagContent(wide, side, x, ops[|ops| - 1]);
      MarkConcat(Tags(wide, side, ops[..|ops| - 1], LineOf(side, x)), Tag(wide, side, ops[|ops| - 1], LineOf(side, x)));
    }
  }

  lemma NoMark(s: string)
    ensures s == [] ==> !HasMark(s)
  {
  }

  lemma ChompEmpty(s: string)
    ensures Chomp(s) == [] <==> !HasMark(s)
  {
    ChompPrefix(s);
    if Chomp(s) != [] {
      assert Chomp(s)[|Chomp(s)| - 1] in s;
    }
  }

  /**
   A tag line is printed for a side exactly when some operation changes that side; it is a
   prefix of the aligned tags and contains tag characters only.
   */
  lemma TrimmedTags(wide: Wide, side: Side, x: Input<char>, ops: seq<Operation>)
    requires ValidScript(x, ops)
    ensures InLine(side, ops, LineOf(side, x))
    ensures var tags := Tags(wide, side, ops, LineOf(side, x));
            && Chomp(tags) <= tags
            && AllIn(Chomp(tags), TAG_CHARS)
            && (Chomp(tags) != [] <==> Touched(side, ops))
  {
    TilesInLine(x, side, ops, 0, 0, |x.from|, |x.to|);
    TagsContent(wide, side, x, ops);
    ChompPrefix(Tags(wide, side, ops, LineOf(side, x)));
    ChompEmpty(Tags(wide, side, ops, LineOf(side, x)));
  }
}
