/** The diff writer: a sink of tagged strings (cut-diff-writer.c). */
module DiffWriter {
  import opened CharDiff

  datatype WriterTag =
    | NoTag | Summary | DifferenceMark
    | EqualLine | DeletedLine | InsertedLine | DifferenceLine
    | EqualSegment | DeletedSegment | InsertedSegment | DifferenceSegment

  /** One call of the writer's `write`. */
  datatype Event = Event(text: string, tag: WriterTag)

  /** What a writer without colours prints. */
  function Text(events: seq<Event>): string {
    if events == [] then "" else events[0].text + Text(events[1..])
  }

  lemma {:induction false} TextConcat(a: seq<Event>, b: seq<Event>)
    ensures Text(a + b) == Text(a) + Text(b)
  {
    if a == [] {
      assert a + b == b;
    } else {
      assert (a + b)[1..] == a[1..] + b;
      TextConcat(a[1..], b);
    }
  }

  function MarkEvents(mark: string, separator: string, tag: WriterTag): seq<Event> {
    [Event(mark, tag)] + if separator != "" then [Event(separator, NoTag)] else []
  }

  function MarkLineEvents(mark: string, separator: string, line: string, tag: WriterTag): seq<Event> {
    MarkEvents(mark, separator, tag) + [Event(line, tag), Event("\n", NoTag)]
  }

  function MarkLinesEvents(mark: string, separator: string, lines: seq<string>, begin: nat, end: nat,
                           tag: WriterTag): seq<Event>
    requires end <= |lines|
    decreases end
  {
    if begin >= end then []
    else
      MarkLinesEvents(mark, separator, lines, begin, end - 1, tag)
      + MarkLineEvents(mark, separator, lines[end - 1], tag)
  }

  class DiffWriter {
    var events: seq<Event>

    constructor ()
      ensures events == []
    {
      events := [];
    }

    method Write(s: string, tag: WriterTag)
      modifies this
      ensures events == old(events) + [Event(s, tag)]
    {
      events := events + [Event(s, tag)];
    }

    method WriteSegment(s: string, begin: nat, end: nat, tag: WriterTag)
      requires begin <= end <= |s|
      modifies this
      ensures events == old(events) + [Event(s[begin..end], tag)]
    {
      Write(s[begin..end], tag);
    }

    method WriteMark(mark: string, separator: string, tag: WriterTag)
      modifies this
      ensures events == old(events) + MarkEvents(mark, separator, tag)
    {
      Write(mark, tag);
      if separator != "" {
        Write(separator, NoTag);
      }
    }

    /** Both the console and the string writer follow a line with a newline. */
    method WriteLine(line: string, tag: WriterTag)
      modifies this
      ensures events == old(events) + [Event(line, tag), Event("\n", NoTag)]
    {
      Write(line, tag);
      Write("\n", NoTag);
    }

    method MarkLine(mark: string, separator: string, line: string, tag: WriterTag)
      modifies this
      ensures events == old(events) + MarkLineEvents(mark, separator, line, tag)
    {
      WriteMark(mark, separator, tag);
      WriteLine(line, tag);
    }

    method MarkLines(mark: string, separator: string, lines: seq<string>, begin: nat, end: nat, tag: WriterTag)
      requires end <= |lines|
      modifies this
      ensures events == old(events) + MarkLinesEvents(mark, separator, lines, begin, end, tag)
    {
      hide MarkLineEvents;
      var i := begin;
      while i < end
        invariant begin <= i && (begin <= end ==> i <= end)
        invariant begin <= end ==> events == old(events) + MarkLinesEvents(mark, separator, lines, begin, i, tag)
        invariant begin > end ==> events == old(events)
      {
        ghost var before := MarkLinesEvents(mark, separator, lines, begin, i, tag);
        MarkLine(mark, separator, lines[i], tag);
        assert (old(events) + before) + MarkLineEvents(mark, separator, lines[i], tag)
            == old(events) + (before + MarkLineEvents(mark, separator, lines[i], tag));
        i := i + 1;
      }
    }

    /** White space in place of the characters from begin on; none if begin is past the end. */
    method WriteSpaces(wide: Wide, s: string, begin: nat, end: nat, tag: WriterTag)
      requires end <= |s|
      modifies this
      ensures events == old(events) + [Event(if begin <= end then Spaces(wide, s[begin..end]) else "", tag)]
    {
      var buffer := AppendSpaces(wide, "", s, begin, end);
      hide Spaces;
      assert buffer == if begin <= end then Spaces(wide, s[begin..end]) else "";
      Write(buffer, tag);
    }
  }
}
