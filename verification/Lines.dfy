/** Texts and lines: splitting the inputs into lines, joining output lines, reading them back. */
module Lines {

  /** The position of the first newline, or the length of the text. */
  function FirstNewline(s: string): (k: nat)
    ensures k <= |s| && '\n' !in s[..k] && (k < |s| ==> s[k] == '\n')
  {
    if s == [] || s[0] == '\n' then 0
    else
      var k := 1 + FirstNewline(s[1..]);
      assert s[..k] == [s[0]] + s[1..][..k - 1];
      k
  }

  function DropReturn(line: string): string {
    if line != [] && line[|line| - 1] == '\r' then line[..|line| - 1] else line
  }

  /** g_regex_split_simple with "\r?\n": no line for the empty text, else one more line than newlines. */
  function SplitToLines(text: string): seq<string> {
    if text == [] then [] else SplitRest(text)
  }

  function SplitRest(text: string): (lines: seq<string>)
    ensures lines != []
    decreases |text|
  {
    var k := FirstNewline(text);
    if k == |text| then [text] else [DropReturn(text[..k])] + SplitRest(text[k + 1..])
  }

  ghost predicate NewlineFree(lines: seq<string>) {
    forall l :: l in lines ==> '\n' !in l
  }

  lemma {:induction false} SplitNewlineFree(text: string)
    ensures NewlineFree(SplitRest(text))
    decreases |text|
  {
    var k := FirstNewline(text);
    if k < |text| {
      SplitNewlineFree(text[k + 1..]);
      assert forall c :: c in DropReturn(text[..k]) ==> c in text[..k];
    } else {
      assert text[..k] == text;
    }
  }

  // ---------------------------------------------------------------- what the lines of a text are

  /** The lines with a line end between each two: "\r\n" where `crlf` says so, else "\n". */
  function Join(lines: seq<string>, crlf: seq<bool>): string
    requires |lines| == |crlf| + 1
  {
    if crlf == [] then lines[0]
    else lines[0] + (if crlf[0] then "\r\n" else "\n") + Join(lines[1..], crlf[1..])
  }

  predicate EndsInReturn(line: string) {
    line != [] && line[|line| - 1] == '\r'
  }

  /** The text is the lines joined, and no line keeps a '\r' that belongs to the line end after it. */
  ghost predicate IsJoined(text: string, lines: seq<string>, crlf: seq<bool>) {
    && |lines| == |crlf| + 1 && NewlineFree(lines)
    && (forall k :: 0 <= k < |crlf| && !crlf[k] ==> !EndsInReturn(lines[k]))
    && text == Join(lines, crlf)
  }

  lemma JoinedTail(text: string, lines: seq<string>, crlf: seq<bool>)
    requires IsJoined(text, lines, crlf) && crlf != []
    ensures |lines| == |crlf| + 1 && IsJoined(Join(lines[1..], crlf[1..]), lines[1..], crlf[1..])
    ensures '\n' !in lines[0] && (crlf[0] || !EndsInReturn(lines[0]))
    ensures text == (lines[0] + if crlf[0] then ['\r'] else []) + ['\n'] + Join(lines[1..], crlf[1..])
    ensures lines == [lines[0]] + lines[1..]
  {
    assert text == lines[0] + (if crlf[0] then "\r\n" else "\n") + Join(lines[1..], crlf[1..]);
    hide Join, EndsInReturn;
    assert lines[0] in lines && forall l :: l in lines[1..] ==> l in lines;
    assert forall k :: 0 <= k < |crlf[1..]| ==> crlf[1..][k] == crlf[k + 1] && lines[1..][k] == lines[k + 1];
    LineEnd(lines[0], crlf[0]);
  }

  lemma LineEnd(line: string, crlf: bool)
    ensures line + (if crlf then "\r\n" else "\n") == (line + if crlf then ['\r'] else []) + ['\n']
  {
    assert "\r\n" == ['\r'] + ['\n'];
  }

  lemma JoinedCons(line: string, crlf: bool, text: string, lines: seq<string>, more: seq<bool>)
    requires IsJoined(text, lines, more) && '\n' !in line && (crlf || !EndsInReturn(line))
    ensures IsJoined((line + if crlf then ['\r'] else []) + ['\n'] + text, [line] + lines, [crlf] + more)
  {
    var all, ends := [line] + lines, [crlf] + more;
    assert all[1..] == lines && ends[1..] == more;
    assert Join(all, ends) == line + (if crlf then "\r\n" else "\n") + text;
    hide Join, EndsInReturn;
    LineEnd(line, crlf);
    assert forall k :: 0 < k < |ends| ==> ends[k] == more[k - 1] && all[k] == lines[k - 1];
  }

  lemma JoinedOne(text: string, lines: seq<string>, crlf: seq<bool>)
    requires crlf == []
    ensures IsJoined(text, lines, crlf) <==> lines == [text] && '\n' !in text
  {
    if lines == [text] {
      assert text in lines;
    }
  }

  lemma SplitOne(line: string, rest: string)
    requires '\n' !in line
    ensures SplitRest(line + ['\n'] + rest) == [DropReturn(line)] + SplitRest(rest)
  {
    FirstNewlineAfter(line, rest);
    hide FirstNewline, DropReturn;
    var text := line + ['\n'] + rest;
    assert text[..|line|] == line && text[|line| + 1..] == rest;
  }

  lemma SplitNone(text: string)
    requires '\n' !in text
    ensures SplitRest(text) == [text]
  {
    FirstNewlineNone(text);
  }

  lemma ReturnDropped(line: string)
    ensures !EndsInReturn(line) ==> DropReturn(line + []) == line == line + []
    ensures DropReturn(line + ['\r']) == line
    ensures EndsInReturn(line) ==> line == DropReturn(line) + ['\r']
    ensures !EndsInReturn(line) ==> DropReturn(line) == line
    ensures forall c :: c in DropReturn(line) ==> c in line
  {
  }

  /** Splitting a text that is some lines joined gives these lines. */
  lemma {:induction false} SplitJoined(text: string, lines: seq<string>, crlf: seq<bool>)
    requires IsJoined(text, lines, crlf)
    ensures SplitRest(text) == lines
    decreases |crlf|
  {
    hide *;
    if crlf == [] {
      JoinedOne(text, lines, crlf);
      SplitNone(text);
    } else {
      JoinedTail(text, lines, crlf);
      var line, rest := lines[0] + (if crlf[0] then ['\r'] else []), Join(lines[1..], crlf[1..]);
      SplitJoined(rest, lines[1..], crlf[1..]);
      SplitOne(line, rest);
      ReturnDropped(lines[0]);
    }
  }

  lemma AtNewline(text: string)
    ensures var k := FirstNewline(text);
            && '\n' !in text[..k] && (k == |text| ==> text == text[..k])
            && (k < |text| ==> text == text[..k] + ['\n'] + text[k + 1..])
  {
    hide FirstNewline;
    var k := FirstNewline(text);
    if k < |text| {
      CutAt(text, k);
    } else {
      assert text[..k] == text;
    }
  }

  lemma CutAt(s: string, k: nat)
    requires k < |s|
    ensures s == s[..k] + [s[k]] + s[k + 1..]
  {
  }

  /** Every text is the lines it is split into, joined. */
  lemma {:induction false} JoinSplit(text: string) returns (crlf: seq<bool>)
    ensures IsJoined(text, SplitRest(text), crlf)
    decreases |text|
  {
    hide *;
    AtNewline(text);
    var k := FirstNewline(text);
    if k == |text| {
      crlf := [];
      SplitNone(text);
      JoinedOne(text, [text], crlf);
    } else {
      var line, rest := text[..k], text[k + 1..];
      var more := JoinSplit(rest);
      SplitOne(line, rest);
      ReturnDropped(line);
      ReturnDropped(DropReturn(line));
      JoinedCons(DropReturn(line), EndsInReturn(line), rest, SplitRest(rest), more);
      crlf := [EndsInReturn(line)] + more;
    }
  }

  /**
   What splitting means, for every text: the empty text has no lines; the lines of any other text
   are those of which it is the joining, with "\n" or "\r\n" between them and no "\r" left in front
   of a bare "\n".
   */
  lemma SplitIff(text: string, lines: seq<string>)
    ensures text == "" ==> SplitToLines(text) == []
    ensures text != "" ==>
              (SplitToLines(text) == lines <==> exists crlf :: IsJoined(text, lines, crlf))
  {
    if text != "" {
      hide Join, SplitRest, IsJoined;
      if SplitToLines(text) == lines {
        var crlf := JoinSplit(text);
        assert IsJoined(text, lines, crlf);
      }
      if crlf :| IsJoined(text, lines, crlf) {
        SplitJoined(text, lines, crlf);
      }
    }
  }

  /** The lines as written, each followed by a newline. */
  function Unlines(lines: seq<string>): string {
    if lines == [] then [] else lines[0] + ['\n'] + Unlines(lines[1..])
  }

  /** Read a text back as lines; a newline ends a line. */
  function ReadLines(text: string): seq<string>
    decreases |text|
  {
    if text == [] then [] else
      var k := FirstNewline(text);
      [text[..k]] + if k == |text| then [] else ReadLines(text[k + 1..])
  }

  lemma {:induction false} FirstNewlineAfter(line: string, rest: string)
    requires '\n' !in line
    ensures FirstNewline(line + ['\n'] + rest) == |line|
  {
    var s := line + ['\n'] + rest;
    if line != [] {
      assert s[1..] == line[1..] + ['\n'] + rest;
      FirstNewlineAfter(line[1..], rest);
    }
  }

  lemma {:induction false} FirstNewlineNone(line: string)
    requires '\n' !in line
    ensures FirstNewline(line) == |line|
  {
    if line != [] {
      FirstNewlineNone(line[1..]);
    }
  }

  lemma {:induction false} ReadUnlines(lines: seq<string>)
    requires NewlineFree(lines)
    ensures ReadLines(Unlines(lines)) == lines
  {
    if lines != [] {
      var rest := Unlines(lines[1..]);
      var text := Unlines(lines);
      FirstNewlineAfter(lines[0], rest);
      assert text[..|lines[0]|] == lines[0] && text[|lines[0]| + 1..] == rest;
      ReadUnlines(lines[1..]);
    }
  }

  /** The string writer's finish: the last newline is cut off. */
  function DropLastNewline(text: string): string {
    if text != [] && text[|text| - 1] == '\n' then text[..|text| - 1] else text
  }

  lemma {:induction false} UnlinesConcat(a: seq<string>, b: seq<string>)
    ensures Unlines(a + b) == Unlines(a) + Unlines(b)
  {
    if a == [] {
      assert a + b == b;
    } else {
      assert (a + b)[1..] == a[1..] + b;
      UnlinesConcat(a[1..], b);
    }
  }

  /** Cutting the last newline loses nothing as long as the last line is not empty. */
  lemma {:induction false} ReadFinished(lines: seq<string>)
    requires NewlineFree(lines) && (lines != [] ==> lines[|lines| - 1] != [])
    ensures ReadLines(DropLastNewline(Unlines(lines))) == lines
  {
    if lines == [] {
    } else if |lines| == 1 {
      ReadLast(lines);
    } else {
      ReadFinished(lines[1..]);
      UnlinesEnd(lines[1..]);
      ReadFirst(lines, DropLastNewline(Unlines(lines[1..])));
    }
  }

  lemma ReadLast(lines: seq<string>)
    requires NewlineFree(lines) && |lines| == 1 && lines[0] != []
    ensures ReadLines(DropLastNewline(Unlines(lines))) == lines
  {
    var line := lines[0];
    assert lines[1..] == [] && Unlines(lines) == line + ['\n'];
    assert DropLastNewline(line + ['\n']) == line;
    FirstNewlineNone(line);
    hide FirstNewline, Unlines, DropLastNewline;
    assert line[..|line|] == line && lines == [line];
  }

  lemma ReadFirst(lines: seq<string>, cut: string)
    requires NewlineFree(lines) && |lines| > 1 && ReadLines(cut) == lines[1..]
    requires var rest := Unlines(lines[1..]);
             rest != [] && rest[|rest| - 1] == '\n' && cut == DropLastNewline(rest)
    ensures ReadLines(DropLastNewline(Unlines(lines))) == lines
  {
    var line, rest := lines[0], Unlines(lines[1..]);
    assert Unlines(lines) == line + ['\n'] + rest;
    hide Unlines, ReadLines;
    assert DropLastNewline(line + ['\n'] + rest) == line + ['\n'] + cut;
    hide DropLastNewline;
    ReadOne(line, cut);
    assert lines == [line] + lines[1..];
  }

  lemma ReadOne(line: string, more: string)
    requires '\n' !in line && more != []
    ensures ReadLines(line + ['\n'] + more) == [line] + ReadLines(more)
  {
    FirstNewlineAfter(line, more);
    hide FirstNewline;
    var text := line + ['\n'] + more;
    assert text[..|line|] == line && text[|line| + 1..] == more;
  }

  lemma {:induction false} UnlinesEnd(lines: seq<string>)
    requires lines != []
    ensures Unlines(lines) != [] && Unlines(lines)[|Unlines(lines)| - 1] == '\n'
  {
    if |lines| > 1 {
      UnlinesEnd(lines[1..]);
    }
  }
}
