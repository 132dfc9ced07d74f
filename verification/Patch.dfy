/**
 A diff with context is a patch: hunk headers, reading them back, and applying the hunks of a
 readable diff to the first input.
 */
module Patch {
  import opened Seqs
  import opened Edits
  import opened MatchSpec
  import opened GroupSpec
  import opened LineDiff
  import opened CharDiff
  import opened Lines
  import opened DiffText
  import opened Decimal

  // ---------------------------------------------------------------- headers

  /** A position, followed by the number of lines if there is more than one. */
  function RangeText(start: nat, count: int): string {
    Numeral(start) + if count > 1 then "," + Numeral(count) else ""
  }

  function HeaderText(fromStart: nat, fromCount: int, toStart: nat, toCount: int): string {
    "@@ -" + RangeText(fromStart, fromCount) + " +" + RangeText(toStart, toCount) + " @@"
  }

  /** From the beginning of the first to the end of the last operation of a group. */
  function GroupWindow(g: seq<Operation>): Window
    requires g != []
  {
    Window(g[0].fromBegin, g[|g| - 1].fromEnd, g[0].toBegin, g[|g| - 1].toEnd)
  }

  function WindowHeader(w: Window): string {
    HeaderText(w.fromBegin + 1, w.fromEnd - w.fromBegin, w.toBegin + 1, w.toEnd - w.toBegin)
  }

  /** The header of a group of operations (cut_differ_write_summary). */
  function Header(g: seq<Operation>): string
    requires g != []
  {
    WindowHeader(GroupWindow(g))
  }

  /** Two headers, spelled out. */
  lemma HeaderExamples()
    ensures HeaderText(1, 3, 1, 4) == "@@ -1,3 +1,4 @@" && HeaderText(2, 1, 3, 0) == "@@ -2 +3 @@"
  {
    assert Numeral(1) == "1" && Numeral(2) == "2" && Numeral(3) == "3" && Numeral(4) == "4";
  }

  datatype Count = Omitted | Given(n: nat)

  /** A header read back: the two positions and the two counts. */
  datatype Position = NoPosition | Position(fromStart: nat, fromCount: Count, toStart: nat, toCount: Count)

  datatype RangeRead = NoRange | RangeRead(start: nat, count: Count, end: nat)

  function ParseRange(s: string, i: nat): RangeRead
    requires i <= |s|
  {
    var e := DigitsEnd(s, i);
    if e == i then NoRange
    else if e < |s| && s[e] == ',' then
      var f := DigitsEnd(s, e + 1);
      if f == e + 1 then NoRange else RangeRead(Value(s[i..e]), Given(Value(s[e + 1..f])), f)
    else RangeRead(Value(s[i..e]), Omitted, e)
  }

  function ParseHeader(s: string): Position {
    if |s| < 4 || s[..4] != "@@ -" then NoPosition else
    var a := ParseRange(s, 4);
    if a == NoRange || a.end + 2 > |s| || s[a.end..a.end + 2] != " +" then NoPosition else
    var b := ParseRange(s, a.end + 2);
    if b == NoRange || s[b.end..] != " @@" then NoPosition else
    Position(a.start, a.count, b.start, b.count)
  }

  function CountOf(n: int): Count {
    if n > 1 then Given(n) else Omitted
  }

  /** A numeral inside a string is a maximal run of digits and stands for its number. */
  lemma NumeralAt(s: string, i: nat, n: nat)
    requires i + |Numeral(n)| <= |s| && s[i..i + |Numeral(n)|] == Numeral(n)
    requires i + |Numeral(n)| < |s| ==> !IsDigit(s[i + |Numeral(n)|])
    ensures DigitsEnd(s, i) == i + |Numeral(n)|
    ensures AllDigits(Numeral(n)) && Numeral(n) != [] && Value(Numeral(n)) == n
  {
    NumeralValue(n);
    hide Numeral, Value;
    assert forall k :: 0 <= k < |Numeral(n)| ==> s[i + k] == Numeral(n)[k];
    DigitsEndAt(s, i, i + |Numeral(n)|);
  }

  lemma ParseRangeText(pre: string, start: nat, count: int, post: string)
    requires post == "" || (!IsDigit(post[0]) && post[0] != ',')
    ensures ParseRange(pre + RangeText(start, count) + post, |pre|)
            == RangeRead(start, CountOf(count), |pre| + |RangeText(start, count)|)
  {
    hide *;
    if count > 1 {
      ParseCounted(pre, start, count, post);
    } else {
      ParseSingle(pre, start, count, post);
    }
  }

  lemma ParseCounted(pre: string, start: nat, count: nat, post: string)
    requires count > 1 && (post == "" || !IsDigit(post[0]))
    ensures ParseRange(pre + RangeText(start, count) + post, |pre|)
            == RangeRead(start, CountOf(count), |pre| + |RangeText(start, count)|)
  {
    hide *;
    var a, b := Numeral(start), Numeral(count);
    var s := pre + RangeText(start, count) + post;
    CountedText(start, count);
    CountedSlices(pre, a, b, post);
    NumeralAt(s, |pre|, start);
    NumeralAt(s, |pre| + |a| + 1, count);
    ParsePair(s, |pre|, |pre| + |a|, |pre| + |a| + 1 + |b|);
    CountGiven(count);
  }

  lemma ParseSingle(pre: string, start: nat, count: int, post: string)
    requires count <= 1 && (post == "" || (!IsDigit(post[0]) && post[0] != ','))
    ensures ParseRange(pre + RangeText(start, count) + post, |pre|)
            == RangeRead(start, CountOf(count), |pre| + |RangeText(start, count)|)
  {
    var a := Numeral(start);
    var s := pre + RangeText(start, count) + post;
    hide Numeral, Value, DigitsEnd;
    assert RangeText(start, count) == a;
    hide RangeText;
    assert s == pre + a + post;
    assert s[|pre|..|pre| + |a|] == a && s[|pre| + |a|..] == post;
    NumeralAt(s, |pre|, start);
  }

  lemma CountGiven(count: int)
    requires count > 1
    ensures CountOf(count) == Given(count)
  {
  }

  lemma CountedText(start: nat, count: nat)
    requires count > 1
    ensures RangeText(start, count) == Numeral(start) + ("," + Numeral(count))
    ensures !IsDigit(',')
  {
    hide Numeral;
  }

  lemma CountedSlices(pre: string, a: string, b: string, post: string)
    ensures var s := pre + (a + ("," + b)) + post;
            && |s| == |pre| + |a| + 1 + |b| + |post|
            && s[|pre|..|pre| + |a|] == a && s[|pre| + |a|] == ','
            && s[|pre| + |a| + 1..|pre| + |a| + 1 + |b|] == b
            && s[|pre| + |a| + 1 + |b|..] == post
            && (post != "" ==> s[|pre| + |a| + 1 + |b|] == post[0])
  {
  }

  lemma ParsePair(s: string, i: nat, e: nat, f: nat)
    requires i < e && e + 1 < f <= |s| && s[e] == ','
    requires DigitsEnd(s, i) == e && DigitsEnd(s, e + 1) == f
    ensures AllDigits(s[i..e]) && AllDigits(s[e + 1..f])
    ensures ParseRange(s, i) == RangeRead(Value(s[i..e]), Given(Value(s[e + 1..f])), f)
  {
    hide DigitsEnd, Value;
  }

  /** A printed header reads back as the positions and, where there is more than one line, the counts. */
  lemma HeaderRoundTrip(fromStart: nat, fromCount: int, toStart: nat, toCount: int)
    ensures ParseHeader(HeaderText(fromStart, fromCount, toStart, toCount))
            == Position(fromStart, CountOf(fromCount), toStart, CountOf(toCount))
  {
    var a, b := RangeText(fromStart, fromCount), RangeText(toStart, toCount);
    hide RangeText, ParseRange;
    var s := HeaderText(fromStart, fromCount, toStart, toCount);
    assert s == "@@ -" + a + (" +" + b + " @@");
    ParseRangeText("@@ -", fromStart, fromCount, " +" + b + " @@");
    var pre := "@@ -" + a + " +";
    assert s == pre + b + " @@";
    ParseRangeText(pre, toStart, toCount, " @@");
    assert s[..4] == "@@ -";
    assert s[4 + |a|..4 + |a| + 2] == " +";
    assert s[|pre| + |b|..] == " @@";
  }

  lemma {:induction false} NumeralPlain(n: nat)
    ensures '\n' !in Numeral(n)
  {
    NumeralValue(n);
    hide Numeral;
    assert forall c :: c in Numeral(n) ==> IsDigit(c);
  }

  lemma HeaderPlain(fromStart: nat, fromCount: int, toStart: nat, toCount: int)
    ensures '\n' !in HeaderText(fromStart, fromCount, toStart, toCount)
    ensures HeaderText(fromStart, fromCount, toStart, toCount) != []
    ensures HeaderText(fromStart, fromCount, toStart, toCount)[0] == '@'
  {
    NumeralPlain(fromStart);
    NumeralPlain(toStart);
    if fromCount > 1 { NumeralPlain(fromCount); }
    if toCount > 1 { NumeralPlain(toCount); }
    hide Numeral;
  }

  // ---------------------------------------------------------------- applying a patch

  /** The number of lines before the next header. */
  function BodyLength(lines: seq<string>): (n: nat)
    ensures n <= |lines|
  {
    if lines == [] || (lines[0] != [] && lines[0][0] == '@') then 0 else 1 + BodyLength(lines[1..])
  }

  predicate CountAgrees(count: Count, n: nat) {
    match count
    case Omitted => n <= 1
    case Given(m) => n == m
  }

  datatype Patched = Rejected | Patched(lines: seq<string>)

  /** A hunk fits at (i, j): positions, counts and every kept or removed line are right. */
  predicate HunkFits(from: seq<string>, p: Position, before: seq<string>, after: seq<string>, i: nat, j: nat)
    requires i <= |from|
  {
    && p != NoPosition
    && i + 1 <= p.fromStart && p.fromStart - 1 + |before| <= |from|
    && from[p.fromStart - 1..p.fromStart - 1 + |before|] == before
    && p.toStart == j + (p.fromStart - i)
    && CountAgrees(p.fromCount, |before|) && CountAgrees(p.toCount, |after|)
  }

  /**
   Apply the hunks of `lines` to `from`, of which the first `i` lines have become the first `j`
   lines of the result.  The patch is rejected unless every hunk fits.
   */
  function Apply(from: seq<string>, lines: seq<string>, i: nat, j: nat): Patched
    requires i <= |from|
    decreases |lines|
  {
    if lines == [] then Patched(from[i..]) else
    var p := ParseHeader(lines[0]);
    var tail := lines[1..];
    var n := BodyLength(tail);
    var before, after := ReadSide(FromSide, tail[..n]), ReadSide(ToSide, tail[..n]);
    if !HunkFits(from, p, before, after, i, j) then Rejected else
    var rest := Apply(from, tail[n..], p.fromStart - 1 + |before|, p.toStart - 1 + |after|);
    if rest == Rejected then Rejected else Patched(from[i..p.fromStart - 1] + after + rest.lines)
  }

  ghost predicate ValidGroups(x: Input<string>, groups: seq<seq<Operation>>) {
    groups == [] || (groups[0] != [] && AllValid(x, groups[0]) && ValidGroups(x, groups[1..]))
  }

  /** The lines printed for one group and for all groups. */
  ghost function GroupLines(wide: Wide, x: Input<string>, g: seq<Operation>): seq<string>
    requires g != [] && AllValid(x, g)
  {
    [Header(g)] + OutTexts(Print(wide, x, Script(x, READABLE, g)))
  }

  ghost function GroupsLines(wide: Wide, x: Input<string>, groups: seq<seq<Operation>>): seq<string>
    requires ValidGroups(x, groups)
  {
    if groups == [] then [] else GroupLines(wide, x, groups[0]) + GroupsLines(wide, x, groups[1..])
  }

  lemma {:induction false} BodyLengthPlain(body: seq<string>, rest: seq<string>)
    requires forall l :: l in body ==> l != [] && l[0] != '@'
    requires rest == [] || (rest[0] != [] && rest[0][0] == '@')
    ensures BodyLength(body + rest) == |body|
  {
    if body == [] {
      assert body + rest == rest;
    } else {
      assert body[0] in body && forall l :: l in body[1..] ==> l in body;
      assert (body + rest)[1..] == body[1..] + rest;
      BodyLengthPlain(body[1..], rest);
    }
  }

  ghost predicate Marked(outs: seq<Out>) {
    forall o :: o in outs ==> o.mark == ' ' || o.mark == '-' || o.mark == '+' || o.mark == '?'
  }

  lemma {:induction false} PrintMarked(wide: Wide, x: Input<string>, steps: seq<Step>)
    ensures Marked(Print(wide, x, steps))
  {
    hide At, TagLine;
    if steps != [] {
      PrintMarked(wide, x, steps[1..]);
    }
  }

  lemma {:induction false} MarkedTexts(outs: seq<Out>)
    requires Marked(outs)
    ensures forall l :: l in OutTexts(outs) ==> l != [] && l[0] != '@'
  {
    if outs != [] {
      assert outs[0] in outs && forall o :: o in outs[1..] ==> o in outs;
      MarkedTexts(outs[1..]);
    }
  }

  /** The printed body of a group reads back as the group's lines on each side. */
  lemma GroupBody(side: Side, wide: Wide, x: Input<string>, g: seq<Operation>, w: Window)
    requires g != [] && AllValid(x, g) && ValidWindow(x, w)
    requires Tiles(x, g, w.fromBegin, w.toBegin, w.fromEnd, w.toEnd)
    ensures ReadSide(side, OutTexts(Print(wide, x, Script(x, READABLE, g))))
            == if side == FromSide then x.from[w.fromBegin..w.fromEnd] else x.to[w.toBegin..w.toEnd]
  {
    ScriptAccounts(x, READABLE, g, w.fromBegin, w.toBegin, w.fromEnd, w.toEnd);
    ScriptKeptAgree(x, READABLE, g);
    hide *;
    ReadAccounted(side, wide, x, Script(x, READABLE, g), w);
  }

  /** Lines that are the body of a hunk for the group: they read as its lines on each side. */
  ghost predicate IsBody(x: Input<string>, g: seq<Operation>, body: seq<string>)
    requires g != []
  {
    var w := GroupWindow(g);
    && ValidWindow(x, w) && (forall l :: l in body ==> l != [] && l[0] != '@')
    && ReadSide(FromSide, body) == x.from[w.fromBegin..w.fromEnd]
    && ReadSide(ToSide, body) == x.to[w.toBegin..w.toEnd]
  }

  /** What the readable differ prints for a group is such a body. */
  lemma PrintIsBody(wide: Wide, x: Input<string>, g: seq<Operation>)
    requires g != [] && AllValid(x, g) && ValidWindow(x, GroupWindow(g))
    requires Tiles(x, g, g[0].fromBegin, g[0].toBegin, g[|g| - 1].fromEnd, g[|g| - 1].toEnd)
    ensures IsBody(x, g, OutTexts(Print(wide, x, Script(x, READABLE, g))))
  {
    var w := GroupWindow(g);
    hide Print, Script, OutTexts, ReadSide, AllValid, Tiles, Marked;
    GroupBody(FromSide, wide, x, g, w);
    GroupBody(ToSide, wide, x, g, w);
    PrintMarked(wide, x, Script(x, READABLE, g));
    MarkedTexts(Print(wide, x, Script(x, READABLE, g)));
  }

  /** Reading and applying the first hunk of what is printed for a group. */
  lemma ApplyGroup(x: Input<string>, g: seq<Operation>, body: seq<string>, rest: seq<string>, i: nat, j: nat)
    requires g != [] && IsBody(x, g, body) && Gap(x, i, j, g[0].fromBegin, g[0].toBegin)
    requires rest == [] || (rest[0] != [] && rest[0][0] == '@')
    requires g[|g| - 1].fromEnd <= |x.from| && g[|g| - 1].toEnd <= |x.to|
    requires Apply(x.from, rest, g[|g| - 1].fromEnd, g[|g| - 1].toEnd) == Patched(x.to[g[|g| - 1].toEnd..])
    ensures Apply(x.from, [Header(g)] + body + rest, i, j) == Patched(x.to[j..])
  {
    hide *;
    var w := GroupWindow(g);
    BodyFacts(x, g, body);
    WindowOfGroup(x, g, i, j);
    HeaderOfGroup(g);
    BodyLengthPlain(body, rest);
    ApplyHunk(x, Header(g), body, rest, w, i, j);
    Associate([Header(g)], body, rest);
  }

  lemma BodyFacts(x: Input<string>, g: seq<Operation>, body: seq<string>)
    requires g != [] && IsBody(x, g, body)
    ensures var w := GroupWindow(g);
            && ValidWindow(x, w) && (forall l :: l in body ==> l != [] && l[0] != '@')
            && w.fromBegin <= w.fromEnd <= |x.from| && w.toBegin <= w.toEnd <= |x.to|
            && ReadSide(FromSide, body) == x.from[w.fromBegin..w.fromEnd]
            && ReadSide(ToSide, body) == x.to[w.toBegin..w.toEnd]
  {
    hide ReadSide;
  }

  lemma WindowOfGroup(x: Input<string>, g: seq<Operation>, i: nat, j: nat)
    requires g != [] && ValidWindow(x, GroupWindow(g)) && Gap(x, i, j, g[0].fromBegin, g[0].toBegin)
    ensures var w := GroupWindow(g);
            && w == Window(g[0].fromBegin, g[|g| - 1].fromEnd, g[0].toBegin, g[|g| - 1].toEnd)
            && i <= w.fromBegin <= w.fromEnd <= |x.from| && j <= w.toBegin <= w.toEnd <= |x.to|
            && w.fromBegin - i == w.toBegin - j
            && x.from[i..w.fromBegin] == x.to[j..w.toBegin]
  {
    SameIsEqualSlices(x, i, j, g[0].fromBegin - i);
  }

  lemma HeaderOfGroup(g: seq<Operation>)
    requires g != []
    ensures var w := GroupWindow(g);
            ParseHeader(Header(g)) == Position(w.fromBegin + 1, CountOf(w.fromEnd - w.fromBegin),
                                               w.toBegin + 1, CountOf(w.toEnd - w.toBegin))
  {
    WindowHeaderRoundTrip(GroupWindow(g));
    hide ParseHeader, WindowHeader, CountOf;
  }

  lemma WindowHeaderRoundTrip(w: Window)
    ensures ParseHeader(WindowHeader(w)) == Position(w.fromBegin + 1, CountOf(w.fromEnd - w.fromBegin),
                                                     w.toBegin + 1, CountOf(w.toEnd - w.toBegin))
  {
    hide ParseHeader, HeaderText, CountOf;
    HeaderRoundTrip(w.fromBegin + 1, w.fromEnd - w.fromBegin, w.toBegin + 1, w.toEnd - w.toBegin);
  }

  lemma SplitLines(header: string, body: seq<string>, rest: seq<string>)
    ensures var lines := [header] + (body + rest);
            lines[0] == header && lines[1..][..|body|] == body && lines[1..][|body|..] == rest
                && lines[1..] == body + rest
  {
  }

  lemma JoinLines(lines: seq<string>, j: nat, b: nat, e: nat)
    requires j <= b <= e <= |lines|
    ensures lines[j..b] + lines[b..e] + lines[e..] == lines[j..]
  {
  }

  lemma ApplyHunk(x: Input<string>, header: string, body: seq<string>, rest: seq<string>, w: Window, i: nat, j: nat)
    requires ValidWindow(x, w) && i <= w.fromBegin && j <= w.toBegin && w.fromBegin - i == w.toBegin - j
    requires x.from[i..w.fromBegin] == x.to[j..w.toBegin]
    requires ParseHeader(header) == Position(w.fromBegin + 1, CountOf(w.fromEnd - w.fromBegin),
                                             w.toBegin + 1, CountOf(w.toEnd - w.toBegin))
    requires BodyLength(body + rest) == |body|
    requires ReadSide(FromSide, body) == x.from[w.fromBegin..w.fromEnd]
    requires ReadSide(ToSide, body) == x.to[w.toBegin..w.toEnd]
    requires Apply(x.from, rest, w.fromEnd, w.toEnd) == Patched(x.to[w.toEnd..])
    ensures Apply(x.from, [header] + (body + rest), i, j) == Patched(x.to[j..])
  {
    hide *;
    var lines := [header] + (body + rest);
    SplitLines(header, body, rest);
    WindowFits(x, ParseHeader(header), w, i, j);
    var before, after := x.from[w.fromBegin..w.fromEnd], x.to[w.toBegin..w.toEnd];
    ApplyTo(x.from, lines, i, j, |body|, before, after, ParseHeader(header), w.fromEnd, w.toEnd, x.to[w.toEnd..]);
    JoinLines(x.to, j, w.toBegin, w.toEnd);
  }

  lemma WindowFits(x: Input<string>, p: Position, w: Window, i: nat, j: nat)
    requires ValidWindow(x, w) && i <= w.fromBegin && j <= w.toBegin && w.fromBegin - i == w.toBegin - j
    requires p == Position(w.fromBegin + 1, CountOf(w.fromEnd - w.fromBegin),
                           w.toBegin + 1, CountOf(w.toEnd - w.toBegin))
    ensures w.fromBegin <= w.fromEnd <= |x.from| && w.toBegin <= w.toEnd <= |x.to|
    ensures HunkFits(x.from, p, x.from[w.fromBegin..w.fromEnd], x.to[w.toBegin..w.toEnd], i, j)
  {
  }

  lemma ApplyUnfold(from: seq<string>, lines: seq<string>, i: nat, j: nat, n: nat, before: seq<string>,
                    after: seq<string>)
    requires i <= |from| && lines != [] && n == BodyLength(lines[1..])
    requires before == ReadSide(FromSide, lines[1..][..n]) && after == ReadSide(ToSide, lines[1..][..n])
    requires HunkFits(from, ParseHeader(lines[0]), before, after, i, j)
    ensures var p := ParseHeader(lines[0]);
            && p != NoPosition && i + 1 <= p.fromStart && p.fromStart - 1 + |before| <= |from| && p.toStart >= 1
            && var rest := Apply(from, lines[1..][n..], p.fromStart - 1 + |before|, p.toStart - 1 + |after|);
               Apply(from, lines, i, j) ==
               if rest == Rejected then Rejected else Patched(from[i..p.fromStart - 1] + after + rest.lines)
  {
    hide ParseHeader, BodyLength, ReadSide;
  }

  lemma ApplyTo(from: seq<string>, lines: seq<string>, i: nat, j: nat, n: nat, before: seq<string>,
                after: seq<string>, p: Position, fromEnd: nat, toEnd: nat, tail: seq<string>)
    requires i <= |from| && lines != [] && n == BodyLength(lines[1..])
    requires before == ReadSide(FromSide, lines[1..][..n]) && after == ReadSide(ToSide, lines[1..][..n])
    requires p == ParseHeader(lines[0]) && HunkFits(from, p, before, after, i, j)
    requires p.Position? && p.fromStart + |before| == fromEnd + 1 && p.toStart + |after| == toEnd + 1
    requires fromEnd <= |from| && Apply(from, lines[1..][n..], fromEnd, toEnd) == Patched(tail)
    ensures i + 1 <= p.fromStart <= |from| + 1
    ensures Apply(from, lines, i, j) == Patched(from[i..p.fromStart - 1] + after + tail)
  {
    hide *;
    ApplyUnfold(from, lines, i, j, n, before, after);
  }

  lemma {:induction false} CoversValid(x: Input<string>, groups: seq<seq<Operation>>, i: nat, j: nat)
    requires Covers(x, groups, i, j)
    ensures ValidGroups(x, groups)
  {
    hide Gap;
    if groups != [] {
      var g := groups[0];
      TilesAllValid(x, g, g[0].fromBegin, g[0].toBegin, g[|g| - 1].fromEnd, g[|g| - 1].toEnd);
      hide Tiles, AllValid;
      CoversValid(x, groups[1..], g[|g| - 1].fromEnd, g[|g| - 1].toEnd);
    }
  }

  lemma {:induction false} TilesAscend(x: Input<string>, ops: seq<Operation>, i: nat, j: nat, iEnd: nat, jEnd: nat)
    requires Tiles(x, ops, i, j, iEnd, jEnd) && i <= |x.from| && j <= |x.to|
    ensures i <= iEnd <= |x.from| && j <= jEnd <= |x.to|
  {
    if ops != [] {
      TilesAscend(x, ops[1..], ops[0].fromEnd, ops[0].toEnd, iEnd, jEnd);
    }
  }

  lemma {:induction false} ApplyGroups(wide: Wide, x: Input<string>, groups: seq<seq<Operation>>, i: nat, j: nat)
    requires i <= |x.from| && j <= |x.to|
    requires Covers(x, groups, i, j) && ValidGroups(x, groups)
    ensures Apply(x.from, GroupsLines(wide, x, groups), i, j) == Patched(x.to[j..])
    ensures groups != [] ==> GroupsLines(wide, x, groups) != [] && GroupsLines(wide, x, groups)[0] != []
                             && GroupsLines(wide, x, groups)[0][0] == '@'
  {
    if groups == [] {
      SameIsEqualSlices(x, i, j, |x.from| - i);
      assert x.from[i..] == x.from[i..|x.from|] && x.to[j..] == x.to[j..|x.to|];
    } else {
      var g, rest := groups[0], groups[1..];
      var last := g[|g| - 1];
      CoversHead(x, groups, i, j);
      HeaderMarked(g);
      assert GroupsLines(wide, x, groups) == GroupLines(wide, x, g) + GroupsLines(wide, x, rest);
      assert GroupLines(wide, x, g) == [Header(g)] + OutTexts(Print(wide, x, Script(x, READABLE, g)));
      hide *;
      PrintIsBody(wide, x, g);
      ApplyGroups(wide, x, rest, last.fromEnd, last.toEnd);
      ApplyGroup(x, g, OutTexts(Print(wide, x, Script(x, READABLE, g))), GroupsLines(wide, x, rest), i, j);
    }
  }

  /** The first of the groups that cover what is left, and what it leaves. */
  lemma CoversHead(x: Input<string>, groups: seq<seq<Operation>>, i: nat, j: nat)
    requires i <= |x.from| && j <= |x.to| && groups != []
    requires Covers(x, groups, i, j) && ValidGroups(x, groups)
    ensures groups[0] != []
    ensures var g, rest := groups[0], groups[1..];
            var last := g[|g| - 1];
            && AllValid(x, g) && ValidGroups(x, rest) && ValidWindow(x, GroupWindow(g))
            && last.fromEnd <= |x.from| && last.toEnd <= |x.to|
            && Gap(x, i, j, g[0].fromBegin, g[0].toBegin)
            && Tiles(x, g, g[0].fromBegin, g[0].toBegin, last.fromEnd, last.toEnd)
            && Covers(x, rest, last.fromEnd, last.toEnd)
  {
    var g := groups[0];
    hide Same, Tiles, AllValid;
    TilesAscend(x, g, g[0].fromBegin, g[0].toBegin, g[|g| - 1].fromEnd, g[|g| - 1].toEnd);
  }

  lemma HeaderMarked(g: seq<Operation>)
    requires g != []
    ensures Header(g) != [] && Header(g)[0] == '@'
  {
    hide RangeText;
  }

  // ---------------------------------------------------------------- as one text

  /** The groups a context diff of two lists of lines prints: none when the lines are the same. */
  ghost function ShownGroups(x: Input<string>, context: nat): (groups: seq<seq<Operation>>)
    ensures ValidGroups(x, groups)
  {
    GroupsCover(x, context);
    CoversValid(x, GroupedOperations(x, context), 0, 0);
    if IsSameContent(GroupedOperations(x, context)) then [] else GroupedOperations(x, context)
  }

  /** The lines of a readable diff with context. */
  ghost function ContextLines(wide: Wide, x: Input<string>, context: nat): seq<string> {
    GroupsLines(wide, x, ShownGroups(x, context))
  }

  ghost function ContextText(wide: Wide, x: Input<string>, context: nat): string {
    DropLastNewline(Unlines(ContextLines(wide, x, context)))
  }

  lemma {:induction false} GroupsPlain(wide: Wide, x: Input<string>, groups: seq<seq<Operation>>)
    requires NewlineFree(x.from) && NewlineFree(x.to)
    requires ValidGroups(x, groups)
    ensures NewlineFree(GroupsLines(wide, x, groups))
    ensures forall l :: l in GroupsLines(wide, x, groups) ==> l != []
  {
    if groups != [] {
      var g, rest := groups[0], groups[1..];
      GroupsPlain(wide, x, rest);
      GroupPlain(wide, x, g);
      hide GroupLines, AllValid;
    }
  }

  lemma GroupPlain(wide: Wide, x: Input<string>, g: seq<Operation>)
    requires NewlineFree(x.from) && NewlineFree(x.to) && g != [] && AllValid(x, g)
    ensures NewlineFree(GroupLines(wide, x, g))
    ensures forall l :: l in GroupLines(wide, x, g) ==> l != []
  {
    hide *;
    var first, last := g[0], g[|g| - 1];
    var outs := Print(wide, x, Script(x, READABLE, g));
    HeaderPlain(first.fromBegin + 1, last.fromEnd - first.fromBegin, first.toBegin + 1, last.toEnd - first.toBegin);
    GroupLinesUnfold(wide, x, g);
    PrintPlain(wide, x, Script(x, READABLE, g));
    PrintMarked(wide, x, Script(x, READABLE, g));
    BodyPlain(outs);
    HeadedPlain(Header(g), OutTexts(outs));
  }

  lemma BodyPlain(outs: seq<Out>)
    requires PlainOuts(outs) && Marked(outs)
    ensures NewlineFree(OutTexts(outs)) && forall l :: l in OutTexts(outs) ==> l != []
  {
    hide *;
    PlainTexts(outs);
    MarkedTexts(outs);
  }

  lemma GroupLinesUnfold(wide: Wide, x: Input<string>, g: seq<Operation>)
    requires g != [] && AllValid(x, g)
    ensures GroupLines(wide, x, g) == [Header(g)] + OutTexts(Print(wide, x, Script(x, READABLE, g)))
    ensures var first, last := g[0], g[|g| - 1];
            Header(g) == HeaderText(first.fromBegin + 1, last.fromEnd - first.fromBegin,
                                    first.toBegin + 1, last.toEnd - first.toBegin)
  {
    hide Print, Script, HeaderText, OutTexts;
  }

  lemma HeadedPlain(header: string, texts: seq<string>)
    requires '\n' !in header && header != [] && NewlineFree(texts) && forall l :: l in texts ==> l != []
    ensures NewlineFree([header] + texts) && forall l :: l in [header] + texts ==> l != []
  {
  }

  /**
   Patch correctness: for all lists of newline-free lines and every size of context, applying the
   hunks of the printed text to `from`, with all positions, counts and context lines checked,
   yields `to`.
   */
  lemma ContextDiffPatches(wide: Wide, x: Input<string>, context: nat)
    requires NewlineFree(x.from) && NewlineFree(x.to) && !HasJunk(x)
    ensures Apply(x.from, ReadLines(ContextText(wide, x, context)), 0, 0) == Patched(x.to)
  {
    var groups := ShownGroups(x, context);
    ShownGroupsCover(x, context);
    hide ShownGroups, Covers, HasJunk;
    GroupsPlain(wide, x, groups);
    var lines := GroupsLines(wide, x, groups);
    assert lines != [] ==> lines[|lines| - 1] in lines;
    ReadFinished(lines);
    ApplyGroups(wide, x, groups, 0, 0);
    assert x.to[0..] == x.to;
  }

  /** The groups shown account for every difference, also when none are shown. */
  lemma ShownGroupsCover(x: Input<string>, context: nat)
    requires !HasJunk(x)
    ensures Covers(x, ShownGroups(x, context), 0, 0)
  {
    GroupsCover(x, context);
    SameContentIff(x, context);
    hide GroupedOperations, HasJunk;
    if x.from == x.to {
      SameIsEqualSlices(x, 0, 0, |x.from|);
    }
  }

  /** The counts of a printed header are the numbers of lines of the hunk's body. */
  lemma HeaderCounts(wide: Wide, x: Input<string>, g: seq<Operation>)
    requires g != [] && AllValid(x, g) && g[0].fromBegin <= |x.from| && g[0].toBegin <= |x.to|
    requires Tiles(x, g, g[0].fromBegin, g[0].toBegin, g[|g| - 1].fromEnd, g[|g| - 1].toEnd)
    ensures var body := OutTexts(Print(wide, x, Script(x, READABLE, g)));
            var p := ParseHeader(Header(g));
            && p != NoPosition
            && p.fromStart == g[0].fromBegin + 1 && p.toStart == g[0].toBegin + 1
            && CountAgrees(p.fromCount, |ReadSide(FromSide, body)|)
            && CountAgrees(p.toCount, |ReadSide(ToSide, body)|)
            && (p.fromCount == Omitted <==> |ReadSide(FromSide, body)| <= 1)
            && (p.toCount == Omitted <==> |ReadSide(ToSide, body)| <= 1)
  {
    hide Print, Script, OutTexts, Header, ParseHeader, ReadSide, AllValid, Tiles;
    var w := GroupWindow(g);
    TilesAscend(x, g, w.fromBegin, w.toBegin, w.fromEnd, w.toEnd);
    GroupBody(FromSide, wide, x, g, w);
    GroupBody(ToSide, wide, x, g, w);
    HeaderOfGroup(g);
  }

  /** A readable diff of two texts with context, as the string writer finishes it. */
  ghost function DiffWithContext(wide: Wide, from: string, to: string, context: nat): string {
    ContextText(wide, LineInput(SplitToLines(from), SplitToLines(to)), context)
  }

  /**
   For all texts the diff printed with a context, of whatever size above 0, patches the first text
   into the second.
   */
  lemma DiffWithContextPatches(wide: Wide, from: string, to: string, context: nat)
    ensures Apply(SplitToLines(from), ReadLines(DiffWithContext(wide, from, to, context)), 0, 0)
            == Patched(SplitToLines(to))
  {
    SplitNewlineFree(from);
    SplitNewlineFree(to);
    ContextDiffPatches(wide, LineInput(SplitToLines(from), SplitToLines(to)), context);
  }

  /** Nothing is printed exactly when the texts have the same lines. */
  lemma NothingShownIff(wide: Wide, from: string, to: string, context: nat)
    ensures DiffWithContext(wide, from, to, context) == "" <==> SplitToLines(from) == SplitToLines(to)
  {
    var x := LineInput(SplitToLines(from), SplitToLines(to));
    DiffWithContextPatches(wide, from, to, context);
    SameContentIff(x, context);
    if SplitToLines(from) == SplitToLines(to) {
      assert ShownGroups(x, context) == [];
      assert ContextLines(wide, x, context) == [];
    }
    if DiffWithContext(wide, from, to, context) == "" {
      assert x.from[0..] == x.from;
    }
  }
}
