/**
Any stream of server-sent events as the client's parser reads it (packages/client/src/sse.ts):
comments, fields with and without a space, fields without a colon, unknown fields, either line
ending and data of many lines.
*/
module EventBlocks {
  import opened Prelude
  import opened ServerSentEvents

  /** One line that is not blank. */
  datatype Line = Comment(text: string) | Field(name: string, value: string, spaced: bool) | Bare(name: string)

  /** A line and how it ends. */
  datatype Ended = Ended(line: Line, crlf: bool)

  function TextOf(line: Line): string {
    match line
    case Comment(text) => ":" + text
    case Field(name, value, spaced) => name + (if spaced then ": " else ":") + value
    case Bare(name) => name
  }

  function Ending(crlf: bool): string {
    if crlf then "\r\n" else "\n"
  }

  function TextAll(lines: seq<Ended>): string {
    if lines == [] then ""
    else TextOf(lines[0].line) + Ending(lines[0].crlf) + TextAll(lines[1..])
  }

  /** A line that says what it is: one line of text, with a name if it is a field, and no space the parser would drop. */
  predicate Plain(line: Line) {
    && OneLine(TextOf(line))
    && match line
       case Comment(_) => true
       case Field(name, value, spaced) =>
         name != "" && ':' !in name && (!spaced && value != "" ==> value[0] != ' ')
       case Bare(name) => name != "" && ':' !in name
  }

  /** The values of the lines that are this field, in order. A field without a colon has an empty one. */
  function Values(lines: seq<Ended>, name: string): seq<string> {
    if lines == [] then []
    else
      (match lines[0].line
       case Comment(_) => []
       case Field(n, value, _) => if n == name then [value] else []
       case Bare(n) => if n == name then [""] else [])
      + Values(lines[1..], name)
  }

  function LastOr(values: seq<string>, before: Option<string>): Option<string> {
    if values == [] then before else Some(values[|values| - 1])
  }

  /** What some lines add to an event: the last event name, every line of data, the last id. */
  function With(f: Fields, lines: seq<Ended>): Fields {
    Fields(LastOr(Values(lines, "event"), f.event), f.data + Values(lines, "data"), LastOr(Values(lines, "id"), f.id))
  }

  // ---------------------------------------------------------------- one line

  /** A name, a colon and what follows it. */
  lemma CutAtColon(name: string, after: string)
    requires name != "" && ':' !in name
    ensures var text := name + ":" + after;
      text[0] == name[0] && IndexOf(text, ':') == |name| && text[..|name|] == name && text[|name| + 1..] == after
  {
    var text := name + ":" + after;
    assert forall i :: 0 <= i < |name| ==> text[i] == name[i];
    IndexIs(text, ':', |name|);
  }

  lemma FieldParts(name: string, after: string)
    requires name != "" && ':' !in name
    ensures var text := name + ":" + after;
      FieldName(text) == name && FieldValue(text) == if after != "" && after[0] == ' ' then after[1..] else after
  {
    hide IndexOf;
    CutAtColon(name, after);
  }

  lemma FieldIs(name: string, value: string, spaced: bool)
    requires Plain(Field(name, value, spaced))
    ensures var text := TextOf(Field(name, value, spaced));
      text != "" && text[0] != ':' && FieldName(text) == name && FieldValue(text) == value
  {
    hide IndexOf, OneLine, FieldName, FieldValue;
    if spaced {
      FieldParts(name, " " + value);
      assert (" " + value)[1..] == value;
      assert name + ":" + (" " + value) == name + ": " + value;
    } else {
      FieldParts(name, value);
    }
    assert TextOf(Field(name, value, spaced))[0] == name[0];
  }

  lemma BareIs(name: string)
    requires Plain(Bare(name))
    ensures name[0] != ':' && FieldName(name) == name && FieldValue(name) == ""
  {
    assert name[..|name|] == name;
  }

  /** What one line says of a field. */
  function Said(line: Line, name: string): seq<string> {
    match line
    case Comment(_) => []
    case Field(n, value, _) => if n == name then [value] else []
    case Bare(n) => if n == name then [""] else []
  }

  lemma ValuesOne(e: Ended, name: string)
    ensures Values([e], name) == Said(e.line, name)
  {
    assert [e][1..] == [];
    ConcatUnit(Said(e.line, name));
  }

  /** One line, as the parser takes it. */
  lemma TakesLine(f: Fields, e: Ended)
    requires Plain(e.line)
    ensures Take(f, TextOf(e.line)) == (With(f, [e]), [])
  {
    ValuesOne(e, "event");
    ValuesOne(e, "data");
    ValuesOne(e, "id");
    ConcatUnit(f.data);
    hide FieldName, FieldValue, IndexOf, OneLine, Values;
    match e.line
    case Comment(text) =>
      assert (":" + text)[0] == ':';
      assert f == Fields(f.event, f.data, f.id);
    case Field(name, value, spaced) => FieldIs(name, value, spaced);
    case Bare(name) => BareIs(name);
  }

  /** A line's ending is not part of it. */
  lemma EndsOff(text: string, crlf: bool)
    requires OneLine(text)
    ensures var line := if crlf then text + "\r" else text;
      '\n' !in line && Stripped(line) == text
  {
    if crlf {
      assert (text + "\r")[..|text|] == text;
    }
  }

  lemma LineReads(f: Fields, text: string, crlf: bool, rest: string)
    requires OneLine(text)
    ensures var (next, completed) := Take(f, text);
      Read(f, text + Ending(crlf) + rest) == Then(completed, Read(next, rest))
  {
    var line := if crlf then text + "\r" else text;
    EndsOff(text, crlf);
    assert text + Ending(crlf) + rest == line + "\n" + rest;
    hide Read, Take, Then, Stripped, OneLine;
    ReadLine(f, line, rest);
  }

  // ---------------------------------------------------------------- a block

  lemma {:induction false} ValuesJoin(first: Ended, rest: seq<Ended>, name: string)
    ensures Values([first] + rest, name) == Values([first], name) + Values(rest, name)
  {
    assert ([first] + rest)[1..] == rest && [first][1..] == [];
  }

  lemma LastOfBoth(a: seq<string>, b: seq<string>, before: Option<string>)
    ensures LastOr(a + b, before) == LastOr(b, LastOr(a, before))
  {
  }

  lemma {:induction false} WithJoins(f: Fields, first: Ended, rest: seq<Ended>)
    ensures With(With(f, [first]), rest) == With(f, [first] + rest)
  {
    hide Values, LastOr;
    ValuesJoin(first, rest, "event");
    ValuesJoin(first, rest, "data");
    ValuesJoin(first, rest, "id");
    LastOfBoth(Values([first], "event"), Values(rest, "event"), f.event);
    LastOfBoth(Values([first], "id"), Values(rest, "id"), f.id);
    ConcatAssociates(f.data, Values([first], "data"), Values(rest, "data"));
  }

  /** Lines that are not blank complete nothing, and add to the event what they say. */
  lemma {:induction false} LinesRead(f: Fields, lines: seq<Ended>, rest: string)
    requires forall i :: 0 <= i < |lines| ==> Plain(lines[i].line)
    ensures Read(f, TextAll(lines) + rest) == Read(With(f, lines), rest)
    decreases |lines|
  {
    if lines == [] {
      assert TextAll(lines) + rest == rest;
      ConcatUnit(f.data);
    } else {
      var first, others := lines[0], lines[1..];
      var text := TextOf(first.line);
      assert lines == [first] + others;
      assert TextAll(lines) + rest == text + Ending(first.crlf) + (TextAll(others) + rest);
      hide Read, Take, With, TextAll, TextOf, Ending;
      PlainIsOneLine(first.line);
      TakesLine(f, first);
      LineReads(f, text, first.crlf, TextAll(others) + rest);
      ThenJoins([], [], Read(With(f, [first]), TextAll(others) + rest));
      LinesRead(With(f, [first]), others, rest);
      WithJoins(f, first, others);
    }
  }

  lemma PlainIsOneLine(line: Line)
    requires Plain(line)
    ensures OneLine(TextOf(line))
  {
  }

  /** What a blank line makes of the lines before it: an event, unless they gave neither data nor a name. */
  function Completed(f: Fields): seq<SseEvent> {
    if f.data == [] && f.event.None? then [] else [SseEvent(f.event, Join(f.data), f.id)]
  }

  lemma BlankTakes(f: Fields)
    requires f.data == [] && f.event.None? ==> f == Fields(None, [], f.id)
    ensures Take(f, "") == (Fields(None, [], f.id), Completed(f))
  {
    hide Join;
  }

  lemma BlankReads(f: Fields, crlf: bool, rest: string)
    ensures Read(f, Ending(crlf) + rest) == Then(Completed(f), Read(Fields(None, [], f.id), rest))
  {
    NothingYet(f);
    BlankIsOneLine();
    BlankTakes(f);
    ConcatUnit(Ending(crlf));
    hide *;
    LineReads(f, "", crlf, rest);
  }

  lemma NothingYet(f: Fields)
    ensures f.data == [] && f.event.None? ==> f == Fields(None, [], f.id)
  {
  }

  /**
  Any block of lines from a clean parser, whatever its endings: one event with the last event name,
  every line of data and the last id seen, or none where the block gives neither data nor a name; and
  a clean parser again, which remembers the id.
  */
  lemma {:induction false} BlockReads(id: Option<string>, lines: seq<Ended>, crlf: bool, rest: string)
    requires forall i :: 0 <= i < |lines| ==> Plain(lines[i].line)
    ensures var f := With(Fields(None, [], id), lines);
      Read(Fields(None, [], id), TextAll(lines) + (Ending(crlf) + rest))
        == Then(Completed(f), Read(Fields(None, [], f.id), rest))
  {
    hide *;
    var f := With(Fields(None, [], id), lines);
    LinesRead(Fields(None, [], id), lines, Ending(crlf) + rest);
    BlankReads(f, crlf, rest);
  }

  lemma BlankIsOneLine()
    ensures OneLine("")
  {
  }

  // ---------------------------------------------------------------- data of many lines

  /** A text cut at its line feeds. */
  function SplitLines(text: string): (lines: seq<string>)
    ensures lines != []
    decreases |text|
  {
    var at := IndexOf(text, '\n');
    if at == |text| then [text] else [text[..at]] + SplitLines(text[at + 1..])
  }

  lemma JoinLast(front: seq<string>, last: string)
    ensures Join(front + [last]) == if front == [] then last else Join(front) + "\n" + last
  {
    assert (front + [last])[..|front|] == front;
  }

  lemma FourParts(a: string, b: string, c: string, d: string)
    ensures a + b + (c + d) == a + (b + c) + d && a + (b + c) + d == a + b + c + d
  {
  }

  lemma {:induction false} JoinFirst(first: string, rest: seq<string>)
    requires rest != []
    ensures Join([first] + rest) == first + "\n" + Join(rest)
    decreases |rest|
  {
    hide Join;
    var n := |rest| - 1;
    var front, last := rest[..n], rest[n];
    assert rest == front + [last];
    assert [first] + rest == ([first] + front) + [last];
    JoinLast([first] + front, last);
    JoinLast(front, last);
    if n == 0 {
      JoinLast([], first);
      assert [first] + front == [] + [first];
    } else {
      JoinFirst(first, front);
      FourParts(first + "\n", Join(front), "\n", last);
    }
  }

  lemma SplitStep(text: string)
    ensures var at := IndexOf(text, '\n');
      SplitLines(text) == if at == |text| then [text] else [text[..at]] + SplitLines(text[at + 1..])
  {
    hide IndexOf;
  }

  lemma CutAtFeed(text: string, at: nat)
    requires at < |text| && text[at] == '\n'
    ensures text == text[..at] + "\n" + text[at + 1..]
  {
  }

  /** Joined again, the lines are the text. */
  lemma {:induction false} JoinsBack(text: string)
    ensures Join(SplitLines(text)) == text
    decreases |text|
  {
    var at := IndexOf(text, '\n');
    SplitStep(text);
    hide SplitLines, IndexOf;
    if at < |text| {
      JoinsBack(text[at + 1..]);
      hide Join;
      JoinFirst(text[..at], SplitLines(text[at + 1..]));
      CutAtFeed(text, at);
    }
  }

  /** A text as lines of data. */
  function DataLines(lines: seq<string>): (written: seq<Ended>)
    ensures |written| == |lines|
  {
    if lines == [] then [] else [Ended(Field("data", lines[0], true), false)] + DataLines(lines[1..])
  }

  lemma {:induction false} DataLinesPlain(lines: seq<string>)
    requires forall i :: 0 <= i < |lines| ==> OneLine(lines[i])
    ensures forall i :: 0 <= i < |lines| ==> Plain(DataLines(lines)[i].line)
    decreases |lines|
  {
    hide Plain, OneLine;
    if lines != [] {
      DataLinesPlain(lines[1..]);
      DataIsPlain(lines[0]);
      forall i | 0 <= i < |lines|
        ensures Plain(DataLines(lines)[i].line)
      {
        assert i > 0 ==> DataLines(lines)[i] == DataLines(lines[1..])[i - 1];
      }
    }
  }

  lemma {:induction false} DataLinesSay(lines: seq<string>)
    ensures Values(DataLines(lines), "data") == lines
    ensures Values(DataLines(lines), "event") == [] && Values(DataLines(lines), "id") == []
    decreases |lines|
  {
    if lines != [] {
      DataLinesSay(lines[1..]);
      assert DataLines(lines)[1..] == DataLines(lines[1..]);
      assert [lines[0]] + lines[1..] == lines;
    }
  }

  lemma {:induction false} WithData(id: Option<string>, lines: seq<string>)
    ensures With(Fields(None, [], id), DataLines(lines)) == Fields(None, lines, id)
  {
    DataLinesSay(lines);
    ConcatUnit(lines);
    hide Values, DataLines;
  }

  lemma DataIsPlain(value: string)
    requires OneLine(value)
    ensures Plain(Field("data", value, true))
  {
    var text := "data" + ": " + value;
    assert TextOf(Field("data", value, true)) == text;
    assert text[|text| - 1] == if value == "" then ' ' else value[|value| - 1];
  }

  /** Data of any number of lines comes back whole, line feeds and all, when no line of it ends in a carriage return. */
  lemma {:induction false} ManyLinesComeBack(id: Option<string>, data: string)
    requires forall i :: 0 <= i < |SplitLines(data)| ==> OneLine(SplitLines(data)[i])
    ensures Read(Fields(None, [], id), TextAll(DataLines(SplitLines(data))) + "\n")
      == Reading(State("", Fields(None, [], id)), [SseEvent(None, data, id)])
  {
    var lines := SplitLines(data);
    DataLinesPlain(lines);
    WithData(id, lines);
    BlockReads(id, DataLines(lines), false, "");
    JoinsBack(data);
    ReadsNothing(Fields(None, [], id));
    assert Ending(false) + "" == "\n";
    hide Read, TextAll, DataLines, SplitLines, Plain, Join, With, Then;
    ThenIs([SseEvent(None, data, id)], Reading(State("", Fields(None, [], id)), []));
    ConcatUnit([SseEvent(None, data, id)]);
  }

  lemma ReadsNothing(f: Fields)
    ensures Read(f, "") == Reading(State("", f), [])
  {
  }
}
