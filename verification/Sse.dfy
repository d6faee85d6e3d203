/**
The client's parser for server-sent events (packages/client/src/sse.ts), against the frames
the venue writes (apps/api/src/market.controller.ts).
*/
module ServerSentEvents {
  import opened Prelude

  datatype SseEvent = SseEvent(event: Option<string>, data: string, id: Option<string>)

  /** The fields of the event being read. The id outlives the event. */
  datatype Fields = Fields(event: Option<string>, data: seq<string>, id: Option<string>)

  /** The parser between two chunks. */
  datatype State = State(carry: string, fields: Fields)

  /** What reading some text leaves, and the events it completed. */
  datatype Reading = Reading(state: State, events: seq<SseEvent>)

  const EMPTY := Fields(None, [], None)
  const START := State("", EMPTY)

  // ---------------------------------------------------------------- one line

  /** `indexOf`: the first place of a character, or the length. */
  function IndexOf(text: string, c: char): (at: nat)
    ensures at <= |text|
    ensures forall i :: 0 <= i < at ==> text[i] != c
    ensures at < |text| ==> text[at] == c
    ensures at == |text| <==> c !in text
  {
    if text == "" then 0
    else if text[0] == c then 0
    else
      var at := 1 + IndexOf(text[1..], c);
      assert text == [text[0]] + text[1..];
      assert forall i :: 1 <= i < at ==> text[i] == text[1..][i - 1];
      at
  }

  /** A line without the CR of its CRLF. */
  function Stripped(line: string): string {
    if line != "" && line[|line| - 1] == '\r' then line[..|line| - 1] else line
  }

  function FieldName(line: string): string {
    line[..IndexOf(line, ':')]
  }

  /** What follows the colon, less one leading space. */
  function FieldValue(line: string): string {
    var colon := IndexOf(line, ':');
    if colon == |line| then ""
    else
      var value := line[colon + 1..];
      if value != "" && value[0] == ' ' then value[1..] else value
  }

  function Join(lines: seq<string>): string {
    if lines == [] then ""
    else if |lines| == 1 then lines[0]
    else Join(lines[..|lines| - 1]) + "\n" + lines[|lines| - 1]
  }

  /** A blank line: what has been read is an event, unless nothing has. */
  function Dispatch(f: Fields): (Fields, seq<SseEvent>) {
    if f.data == [] && f.event.None? then (f, [])
    else (Fields(None, [], f.id), [SseEvent(f.event, Join(f.data), f.id)])
  }

  function Take(f: Fields, line: string): (Fields, seq<SseEvent>) {
    if line == "" then Dispatch(f)
    else if line[0] == ':' then (f, [])
    else if FieldName(line) == "event" then (f.(event := Some(FieldValue(line))), [])
    else if FieldName(line) == "data" then (f.(data := f.data + [FieldValue(line)]), [])
    else if FieldName(line) == "id" then (f.(id := Some(FieldValue(line))), [])
    else (f, [])
  }

  // ---------------------------------------------------------------- a stretch of text

  function Read(f: Fields, text: string): Reading
    decreases |text|
  {
    var lf := IndexOf(text, '\n');
    if lf == |text| then Reading(State(text, f), [])
    else
      var (next, completed) := Take(f, Stripped(text[..lf]));
      var rest := Read(next, text[lf + 1..]);
      Reading(rest.state, completed + rest.events)
  }

  /** What the first whole line gives, and then the rest. */
  function Then(completed: seq<SseEvent>, rest: Reading): Reading {
    Reading(rest.state, completed + rest.events)
  }

  lemma ReadStep(f: Fields, text: string)
    ensures var lf := IndexOf(text, '\n');
      Read(f, text) ==
        if lf == |text| then Reading(State(text, f), [])
        else
          var (next, completed) := Take(f, Stripped(text[..lf]));
          Then(completed, Read(next, text[lf + 1..]))
  {
  }

  lemma ThenJoins(a: seq<SseEvent>, b: seq<SseEvent>, rest: Reading)
    ensures Then(a, Then(b, rest)) == Then(a + b, rest)
    ensures Then([], rest) == rest
  {
    ConcatAssociates(a, b, rest.events);
    ConcatUnit(rest.events);
  }

  function ReadChunk(s: State, chunk: string): Reading {
    Read(s.fields, s.carry + chunk)
  }

  class SseParser {
    var carry: string
    var event: Option<string>
    var data: seq<string>
    var id: Option<string>

    ghost function Now(): State
      reads this
    {
      State(carry, Fields(event, data, id))
    }

    constructor ()
      ensures Now() == START
    {
      carry, event, data, id := "", None, [], None;
    }

    method Push(chunk: string) returns (completed: seq<SseEvent>)
      modifies this
      ensures Reading(Now(), completed) == ReadChunk(old(Now()), chunk)
    {
      hide Take, Read, Then, IndexOf, Stripped;
      completed := [];
      var text := carry + chunk;
      var start := 0;
      ghost var whole := Read(Fields(event, data, id), text);
      ThenJoins([], [], whole);
      while true
        invariant 0 <= start <= |text|
        invariant whole == Then(completed, Read(Fields(event, data, id), text[start..]))
        decreases |text| - start
      {
        ReadStep(Fields(event, data, id), text[start..]);
        var at := IndexOf(text[start..], '\n');
        if at == |text| - start {
          break;
        }
        ghost var rest := LineAt(text, start, at);
        var lf := start + at;
        var line := if lf > start && text[lf - 1] == '\r' then text[start..lf - 1] else text[start..lf];
        start := lf + 1;
        var e := Line(line);
        ThenJoins(completed, e, Read(Fields(event, data, id), rest));
        completed := completed + e;
      }
      carry := text[start..];
      ThenEnds(completed, carry, Fields(event, data, id));
    }

    /** One line into the event being read; the event it completes, if it does. */
    method Line(line: string) returns (completed: seq<SseEvent>)
      modifies this`event, this`data, this`id
      ensures (Fields(event, data, id), completed) == Take(old(Fields(event, data, id)), line)
    {
      if line == "" {
        completed := Complete();
        return;
      }
      completed := [];
      if line[0] == ':' {
        return;
      }
      var field, value := FieldName(line), FieldValue(line);
      if field == "event" {
        event := Some(value);
      } else if field == "data" {
        data := data + [value];
      } else if field == "id" {
        id := Some(value);
      }
    }

    method Complete() returns (completed: seq<SseEvent>)
      modifies this`event, this`data
      ensures (Fields(event, data, id), completed) == Dispatch(old(Fields(event, data, id)))
    {
      if |data| == 0 && event.None? {
        return [];
      }
      completed := [SseEvent(event, Join(data), id)];
      event, data := None, [];
    }
  }

  lemma ThenEnds(completed: seq<SseEvent>, carry: string, f: Fields)
    ensures Then(completed, Reading(State(carry, f), [])) == Reading(State(carry, f), completed)
  {
    ConcatUnit(completed);
  }

  /** The line the scan cuts out, and the text after it. */
  lemma LineAt(text: string, start: nat, at: nat) returns (rest: string)
    requires start + at < |text|
    ensures rest == text[start + at + 1..] == text[start..][at + 1..]
    ensures var lf := start + at;
      Stripped(text[start..][..at]) == if lf > start && text[lf - 1] == '\r' then text[start..lf - 1] else text[start..lf]
  {
    DropDrop(text, start, at + 1);
    DropTake(text, start, at);
    StripsCr(text, start, start + at);
    rest := text[start + at + 1..];
  }

  lemma StripsCr(text: string, start: nat, lf: nat)
    requires start <= lf < |text|
    ensures Stripped(text[start..lf]) == if lf > start && text[lf - 1] == '\r' then text[start..lf - 1] else text[start..lf]
  {
    if lf > start {
      assert text[start..lf][lf - start - 1] == text[lf - 1];
      assert text[start..lf][..lf - start - 1] == text[start..lf - 1];
    }
  }

  // ---------------------------------------------------------------- chunks do not matter

  lemma IndexInPrefix(a: string, b: string, c: char)
    requires IndexOf(a, c) < |a|
    ensures IndexOf(a + b, c) == IndexOf(a, c)
  {
    IndexIs(a + b, c, IndexOf(a, c));
  }

  lemma IndexIs(text: string, c: char, at: nat)
    requires at < |text| && text[at] == c
    requires forall i :: 0 <= i < at ==> text[i] != c
    ensures IndexOf(text, c) == at
  {
    assert c in text;
  }

  /** Reading two texts one after the other is reading them as one. */
  lemma {:induction false} ReadSplits(f: Fields, a: string, b: string)
    ensures
      var first := Read(f, a);
      var second := Read(first.state.fields, first.state.carry + b);
      Read(f, a + b) == Reading(second.state, first.events + second.events)
    decreases |a|
  {
    hide Take, Read, Then, IndexOf, Stripped;
    var lf := IndexOf(a, '\n');
    ReadStep(f, a);
    if lf == |a| {
      ThenJoins([], [], Read(f, a + b));
      ThenIs([], Read(f, a + b));
    } else {
      ReadStep(f, a + b);
      IndexInPrefix(a, b, '\n');
      assert (a + b)[..lf] == a[..lf] && (a + b)[lf + 1..] == a[lf + 1..] + b;
      var (next, completed) := Take(f, Stripped(a[..lf]));
      ReadSplits(next, a[lf + 1..], b);
      var first := Read(next, a[lf + 1..]);
      var second := Read(first.state.fields, first.state.carry + b);
      ThenIs(first.events, second);
      ThenIs(completed, first);
      ThenJoins(completed, first.events, second);
      ThenIs(completed + first.events, second);
    }
  }

  lemma ThenIs(completed: seq<SseEvent>, rest: Reading)
    ensures Then(completed, rest) == Reading(rest.state, completed + rest.events)
  {
  }

  lemma ChunkSplits(s: State, a: string, b: string)
    ensures
      var first := ReadChunk(s, a);
      var second := ReadChunk(first.state, b);
      ReadChunk(s, a + b) == Reading(second.state, first.events + second.events)
  {
    ConcatAssociates(s.carry, a, b);
    ReadSplits(s.fields, s.carry + a, b);
  }

  function ReadChunks(s: State, chunks: seq<string>): Reading {
    if chunks == [] then Reading(s, [])
    else
      var before := ReadChunks(s, chunks[..|chunks| - 1]);
      var last := ReadChunk(before.state, chunks[|chunks| - 1]);
      Reading(last.state, before.events + last.events)
  }

  /** What a parser can be between two chunks: what it carries has no line feed. */
  predicate Between(s: State) {
    '\n' !in s.carry
  }

  /** Reading always leaves the parser between chunks. */
  lemma {:induction false} ReadingEndsBetween(f: Fields, text: string)
    ensures Between(Read(f, text).state)
    decreases |text|
  {
    hide Take, Stripped;
    var lf := IndexOf(text, '\n');
    if lf < |text| {
      ReadingEndsBetween(Take(f, Stripped(text[..lf])).0, text[lf + 1..]);
    }
  }

  /** However the text is cut, a CRLF split across chunks included, the events and the state are the same. */
  lemma {:induction false} ChunksDoNotMatter(s: State, chunks: seq<string>)
    requires Between(s)
    ensures ReadChunks(s, chunks) == ReadChunk(s, Flatten(chunks))
    decreases |chunks|
  {
    if chunks == [] {
      ConcatUnit(s.carry);
    } else {
      var front := chunks[..|chunks| - 1];
      ChunksDoNotMatter(s, front);
      ChunkSplits(s, Flatten(front), chunks[|chunks| - 1]);
    }
  }

  // ---------------------------------------------------------------- the venue's frames

  /** A frame as the venue writes it: a tick with its sequence as the id, or a named event. */
  datatype Frame = TickFrame(id: string, data: string) | NamedFrame(event: string, data: string)

  function Written(frame: Frame): string {
    match frame
    case TickFrame(id, data) => "id: " + id + "\n" + ("data: " + data + "\n" + "\n")
    case NamedFrame(event, data) => "event: " + event + "\n" + ("data: " + data + "\n" + "\n")
  }

  /** One line of text that a line carries whole. */
  predicate OneLine(text: string) {
    '\n' !in text && (text == "" || text[|text| - 1] != '\r')
  }

  predicate Writable(frame: Frame) {
    OneLine(frame.data) && OneLine(if frame.TickFrame? then frame.id else frame.event)
  }

  /** What a client makes of a frame, the last id it saw being `id`. */
  function Meaning(frame: Frame, id: Option<string>): SseEvent {
    match frame
    case TickFrame(sequence, data) => SseEvent(None, data, Some(sequence))
    case NamedFrame(event, data) => SseEvent(Some(event), data, id)
  }

  function LastId(frame: Frame, id: Option<string>): Option<string> {
    if frame.TickFrame? then Some(frame.id) else id
  }

  function WrittenAll(frames: seq<Frame>): string {
    if frames == [] then "" else Written(frames[0]) + WrittenAll(frames[1..])
  }

  function Meanings(frames: seq<Frame>, id: Option<string>): seq<SseEvent> {
    if frames == [] then [] else [Meaning(frames[0], id)] + Meanings(frames[1..], LastId(frames[0], id))
  }

  function IdAfter(frames: seq<Frame>, id: Option<string>): Option<string> {
    if frames == [] then id else IdAfter(frames[1..], LastId(frames[0], id))
  }

  /** Reading one line, and then the rest. */
  lemma ReadLine(f: Fields, line: string, rest: string)
    requires '\n' !in line
    ensures
      var (next, completed) := Take(f, Stripped(line));
      Read(f, line + "\n" + rest) == Then(completed, Read(next, rest))
  {
    var text := line + "\n" + rest;
    assert text[|line|] == '\n';
    forall i | 0 <= i < |line|
      ensures text[i] != '\n'
    {
      assert text[i] == line[i];
    }
    IndexIs(text, '\n', |line|);
    assert text[..|line|] == line && text[|line| + 1..] == rest;
  }

  lemma FieldLine(name: string, value: string)
    requires name != "" && ':' !in name
    ensures var line := name + ": " + value;
      line != "" && line[0] == name[0] && FieldName(line) == name && FieldValue(line) == value
  {
    var line := name + ": " + value;
    IndexIs(line, ':', |name|);
    assert line[..|name|] == name;
    assert line[|name| + 1..] == " " + value;
    assert (" " + value)[1..] == value;
  }

  lemma StrippedLine(name: string, value: string)
    ensures Stripped(name + ": " + value) == name + ": " + Stripped(value)
  {
    var line := name + ": " + value;
    if value != "" {
      assert line[|line| - 1] == value[|value| - 1];
      assert line[..|line| - 1] == name + ": " + value[..|value| - 1];
    } else {
      assert line[|line| - 1] == ' ';
      assert line == name + ": ";
    }
  }

  /** A field line the venue writes reads as that field with its value, less a trailing CR. */
  lemma TakeField(f: Fields, name: string, value: string)
    requires name == "id" || name == "event" || name == "data"
    ensures Take(f, Stripped(name + ": " + value)) == (WithField(f, name, Stripped(value)), [])
  {
    StrippedLine(name, value);
    FieldLine(name, Stripped(value));
    hide FieldName, FieldValue, Stripped;
  }

  function WithField(f: Fields, name: string, value: string): Fields {
    if name == "id" then f.(id := Some(value))
    else if name == "event" then f.(event := Some(value))
    else f.(data := f.data + [value])
  }

  /** A frame as a parser that drops trailing CRs sees it. */
  function Seen(frame: Frame): Frame {
    match frame
    case TickFrame(id, data) => TickFrame(Stripped(id), Stripped(data))
    case NamedFrame(event, data) => NamedFrame(Stripped(event), Stripped(data))
  }

  /** One frame read from a clean parser: exactly one event, and a clean parser again. */
  lemma ReadFrame(frame: Frame, id: Option<string>, rest: string)
    requires '\n' !in frame.data && '\n' !in (if frame.TickFrame? then frame.id else frame.event)
    ensures
      var seen := Seen(frame);
      var f := Fields(None, [], LastId(seen, id));
      Read(Fields(None, [], id), Written(frame) + rest)
        == Reading(Read(f, rest).state, [Meaning(seen, id)] + Read(f, rest).events)
  {
    hide Take, Read, Then, Stripped, Dispatch, LastId, Meaning, Written;
    var start := Fields(None, [], id);
    var name := if frame.TickFrame? then "id" else "event";
    var value := if frame.TickFrame? then frame.id else frame.event;
    var tail := "" + "\n" + rest;
    var lines := LinesOf(frame, rest);
    TakeField(start, name, value);
    NoFeed(name, value);
    ReadLine(start, name + ": " + value, lines);
    var named := WithField(start, name, Stripped(value));
    TakeField(named, "data", frame.data);
    NoFeed("data", frame.data);
    ReadLine(named, "data" + ": " + frame.data, tail);
    var full := WithField(named, "data", Stripped(frame.data));
    ReadLine(full, "", rest);
    EndOfFrame(full);
    FrameMeans(frame, id, full);
    ThenJoins([], [], Read(named, lines));
    ThenJoins([], [], Read(full, tail));
    ThenIs([Meaning(Seen(frame), id)], Read(Fields(None, [], LastId(Seen(frame), id)), rest));
  }

  lemma NoFeed(name: string, value: string)
    requires '\n' !in name && '\n' !in value
    ensures '\n' !in name + ": " + value
  {
  }

  lemma LinesOf(frame: Frame, rest: string) returns (lines: string)
    ensures
      var name := if frame.TickFrame? then "id" else "event";
      var value := if frame.TickFrame? then frame.id else frame.event;
      && Written(frame) + rest == name + ": " + value + "\n" + lines
      && lines == "data" + ": " + frame.data + "\n" + ("" + "\n" + rest)
  {
    lines := "data" + ": " + frame.data + "\n" + ("" + "\n" + rest);
    assert "data" + ": " == "data: " && "id" + ": " == "id: " && "event" + ": " == "event: ";
    var value := if frame.TickFrame? then frame.id else frame.event;
    var head := (if frame.TickFrame? then "id: " else "event: ") + value + "\n";
    var body := "data: " + frame.data + "\n" + "\n";
    assert Written(frame) == head + body;
    ConcatAssociates(head, body, rest);
    assert body + rest == lines;
  }

  lemma EndOfFrame(full: Fields)
    requires |full.data| == 1
    ensures Take(full, Stripped("")) == (Fields(None, [], full.id), [SseEvent(full.event, full.data[0], full.id)])
  {
  }

  lemma FrameMeans(frame: Frame, id: Option<string>, full: Fields)
    requires full.data == [Stripped(frame.data)]
    requires frame.TickFrame? ==> full.event == None && full.id == Some(Stripped(frame.id))
    requires frame.NamedFrame? ==> full.event == Some(Stripped(frame.event)) && full.id == id
    ensures
      var seen := Seen(frame);
      && SseEvent(full.event, full.data[0], full.id) == Meaning(seen, id)
      && full.id == LastId(seen, id)
  {
  }

  /** The parser inverts the writer: every frame comes back as one event with its own id and data. */
  lemma {:induction false} FramesComeBack(frames: seq<Frame>, id: Option<string>)
    requires forall i :: 0 <= i < |frames| ==> Writable(frames[i])
    ensures Read(Fields(None, [], id), WrittenAll(frames))
      == Reading(State("", Fields(None, [], IdAfter(frames, id))), Meanings(frames, id))
    decreases |frames|
  {
    if frames != [] {
      hide Written, Meaning, Take;
      ReadFrame(frames[0], id, WrittenAll(frames[1..]));
      OneLineKept(frames[0].data);
      OneLineKept(if frames[0].TickFrame? then frames[0].id else frames[0].event);
      FramesComeBack(frames[1..], LastId(frames[0], id));
    }
  }

  lemma OneLineKept(text: string)
    requires OneLine(text)
    ensures Stripped(text) == text && '\n' !in text
  {
  }

  /** Under every chunking, the frames the venue wrote are the events the client reads. */
  lemma EveryChunkingReadsTheFrames(frames: seq<Frame>, chunks: seq<string>)
    requires forall i :: 0 <= i < |frames| ==> Writable(frames[i])
    requires Flatten(chunks) == WrittenAll(frames)
    ensures ReadChunks(START, chunks)
      == Reading(State("", Fields(None, [], IdAfter(frames, None))), Meanings(frames, None))
  {
    ChunksDoNotMatter(START, chunks);
    ConcatUnit(WrittenAll(frames));
    FramesComeBack(frames, None);
  }

  /** The condition is exact: data of one line comes back unchanged unless it ends in a carriage return. */
  lemma DataComesBackIff(id: string, data: string)
    requires OneLine(id) && '\n' !in data
    ensures |Read(EMPTY, Written(TickFrame(id, data))).events| == 1
    ensures Read(EMPTY, Written(TickFrame(id, data))).events[0].data == data
      <==> (data == "" || data[|data| - 1] != '\r')
  {
    ReadFrame(TickFrame(id, data), None, "");
    ConcatUnit(Written(TickFrame(id, data)));
    OneLineKept(id);
  }
}
