/**
Where a chain is taken up again: `chainTipOf` of packages/distribution/src/commitmentsFile.ts
reads the tail of a commitments file, and refuses one that was cut in the middle of an append.

A file is its characters, one byte each: a signed commitment is ASCII.
*/
module ChainTips {
  import opened Prelude

  datatype Tip =
    | NoTip
    | TipLine(line: string)
    /** More than blanks after the last line feed; the offset is where that line starts. */
    | Unfinished(truncateTo: nat)

  const LF := '\n'

  predicate IsSpace(c: char) {
    c == ' ' || c == '\t' || c == '\r' || c == '\n' || c == 11 as char || c == 12 as char
  }

  /** `line.trim().length === 0`. */
  predicate Blank(line: string) {
    forall i :: 0 <= i < |line| ==> IsSpace(line[i])
  }

  /** `lastIndexOf('\n') + 1`: where the last, possibly unfinished, line starts. */
  function LineStart(text: string): (at: nat)
    ensures at <= |text|
    ensures at > 0 ==> text[at - 1] == LF
    ensures forall i :: at <= i < |text| ==> text[i] != LF
  {
    if text == "" then 0
    else if text[|text| - 1] == LF then |text|
    else LineStart(text[..|text| - 1])
  }

  lemma LineStartIs(text: string, at: nat)
    requires at <= |text| && (at > 0 ==> text[at - 1] == LF)
    requires forall i :: at <= i < |text| ==> text[i] != LF
    ensures LineStart(text) == at
  {
  }

  /** Whole lines: nothing, or text that ends in a line feed. */
  predicate WholeLines(text: string) {
    text == "" || text[|text| - 1] == LF
  }

  /** The last line of whole lines that is not blank. */
  function LastLine(text: string): Option<string>
    requires WholeLines(text)
    decreases |text|
  {
    if text == "" then None
    else
      var body := text[..|text| - 1];
      var start := LineStart(body);
      if !Blank(body[start..]) then Some(body[start..]) else LastLine(body[..start])
  }

  /** The tip of a file: its last line that is not blank, unless what follows its last line feed is more than blank. */
  function TipOf(file: string): Tip {
    var end := LineStart(file);
    if !Blank(file[end..]) then Unfinished(end)
    else
      match LastLine(file[..end])
      case None => NoTip
      case Some(line) => TipLine(line)
  }

  method IsBlank(line: string) returns (blank: bool)
    ensures blank <==> Blank(line)
  {
    var i := 0;
    while i < |line|
      invariant 0 <= i <= |line|
      invariant forall k :: 0 <= k < i ==> IsSpace(line[k])
    {
      if !IsSpace(line[i]) {
        return false;
      }
      i := i + 1;
    }
    return true;
  }

  // ---------------------------------------------------------------- a tail of the file

  lemma NoFeedAfter(file: string, from: nat, at: nat)
    requires from <= |file| && 0 < at <= |file[from..]| && file[from..][at - 1] == LF
    requires forall i :: at <= i < |file[from..]| ==> file[from..][i] != LF
    ensures file[from + at - 1] == LF
    ensures forall i :: from + at <= i < |file| ==> file[i] != LF
  {
    forall i | from + at <= i < |file|
      ensures file[i] != LF
    {
      assert file[i] == file[from..][i - from];
    }
  }

  /** A line that starts inside a tail starts at the same place of the file. */
  lemma StartInTail(file: string, from: nat)
    requires from <= |file|
    ensures LineStart(file[from..]) > 0 ==> LineStart(file) == from + LineStart(file[from..])
  {
    hide LineStart;
    var tail := file[from..];
    var at := LineStart(tail);
    if at > 0 {
      NoFeedAfter(file, from, at);
      LineStartIs(file, from + at);
    }
  }

  /** What stepping back over blank lines from `stop` finds: all that is left below it decides. */
  predicate SteppedBack(file: string, end: nat, stop: nat)
    requires stop <= end <= |file|
  {
    && WholeLines(file[..end]) && WholeLines(file[..stop])
    && LastLine(file[..end]) == LastLine(file[..stop])
  }

  /** The line that ends just before `stop`, read in the tail that starts at `from`. */
  lemma LineBefore(file: string, from: nat, end: nat, stop: nat, start: nat)
    requires from < stop <= end <= |file| && SteppedBack(file, end, stop)
    requires start == LineStart(file[from..stop - 1]) && (start > 0 || from == 0)
    ensures from + start < stop && SteppedBack(file, end, stop)
    ensures Blank(file[from + start..stop - 1]) ==> SteppedBack(file, end, from + start)
    ensures !Blank(file[from + start..stop - 1]) ==> LastLine(file[..end]) == Some(file[from + start..stop - 1])
  {
    hide LineStart, Blank;
    var text := file[..stop];
    var body := file[..stop - 1];
    assert text[..stop - 1] == body && text[|text| - 1] == LF;
    assert body[from..] == file[from..stop - 1];
    StartInTail(body, from);
    var at := from + start;
    assert LineStart(body) == at by {
      if from == 0 {
        assert body[from..] == body;
      }
    }
    assert body[at..] == file[at..stop - 1] && body[..at] == file[..at];
  }

  /**
  One window's lines from the last back: the answer, or None where the window is too short to
  hold the line whole.
  */
  method StepBack(file: string, from: nat, end: nat) returns (answer: Option<Tip>)
    requires from <= end <= |file| && WholeLines(file[..end])
    ensures answer.Some? ==> answer.value == (if LastLine(file[..end]).None? then NoTip else TipLine(LastLine(file[..end]).value))
    ensures from == 0 ==> answer.Some?
  {
    hide LastLine, LineStart, WholeLines, Blank;
    var stop := end;
    while stop > from
      invariant from <= stop <= end && SteppedBack(file, end, stop)
    {
      var start := LineStart(file[from..stop - 1]);
      var line := file[from..stop - 1][start..];
      DropDropTake(file, from, start, stop - 1);
      var blank := IsBlank(line);
      if start == 0 && from > 0 {
        return None;
      }
      LineBefore(file, from, end, stop, start);
      if !blank {
        return Some(TipLine(line));
      }
      stop := from + start;
    }
    if from > 0 {
      return None;
    }
    NothingLeft(file);
    return Some(NoTip);
  }

  lemma DropDropTake(file: string, from: nat, start: nat, stop: nat)
    requires from + start <= stop <= |file|
    ensures file[from..stop][start..] == file[from + start..stop]
  {
  }

  lemma NothingLeft(file: string)
    ensures WholeLines(file[..0]) && LastLine(file[..0]) == None
  {
  }

  /** `chainTipOf`: read a tail, four times as much of it each time, until it holds the tip whole. */
  method ChainTipOf(file: string) returns (tip: Tip)
    ensures tip == TipOf(file)
  {
    var size := |file|;
    if size == 0 {
      return NoTip;
    }
    hide LineStart, LastLine, Blank;
    var span := if size < 4096 then size else 4096;
    while true
      invariant 0 < span <= size
      decreases size - span
    {
      var from := size - span;
      var whole := span == size;
      var text := file[from..];
      var end := LineStart(text);
      var blank := IsBlank(text[end..]);
      if end > 0 || whole {
        TailEnd(file, from, end);
        if !blank {
          return Unfinished(from + end);
        }
        var answer := StepBack(file, from, from + end);
        if answer.Some? {
          return answer.value;
        }
      }
      span := if span * 4 < size then span * 4 else size;
    }
  }

  lemma TailEnd(file: string, from: nat, end: nat)
    requires from <= |file| && end == LineStart(file[from..]) && (end > 0 || from == 0)
    ensures from + end <= |file| && LineStart(file) == from + end
    ensures file[from..][end..] == file[from + end..]
    ensures WholeLines(file[..from + end])
  {
    StartInTail(file, from);
    if from == 0 {
      assert file[from..] == file;
    }
  }

  // ---------------------------------------------------------------- the tip is the last link

  /** The lines a reader of the whole file sees, blank ones skipped. */
  function Lines(text: string): seq<string>
    requires WholeLines(text)
    decreases |text|
  {
    if text == "" then []
    else
      var body := text[..|text| - 1];
      var start := LineStart(body);
      Lines(body[..start]) + (if Blank(body[start..]) then [] else [body[start..]])
  }

  /** The tip is the last line a reader of the whole file sees. */
  lemma {:induction false} TipIsLastLine(text: string)
    requires WholeLines(text)
    ensures LastLine(text) == if Lines(text) == [] then None else Some(Lines(text)[|Lines(text)| - 1])
    decreases |text|
  {
    if text != "" {
      var body := text[..|text| - 1];
      TipIsLastLine(body[..LineStart(body)]);
    }
  }

  /** What the writer appends is one line, and no part of it is blank but in a finished append. */
  predicate IsRecord(json: string) {
    json != "" && !IsSpace(json[0]) && forall i :: 0 <= i < |json| ==> json[i] != LF
  }

  /** A finished append is the new tip. */
  lemma AppendIsTip(file: string, json: string)
    requires WholeLines(file) && IsRecord(json)
    ensures WholeLines(file + (json + [LF])) && Lines(file + (json + [LF])) == Lines(file) + [json]
    ensures TipOf(file + (json + [LF])) == TipLine(json)
  {
    hide LineStart, Lines, LastLine, Blank;
    var longer := file + (json + [LF]);
    AppendedLine(file, json);
    LinesStep(longer, |file|);
    assert longer[..|longer|] == longer && longer[|longer|..] == "";
    BlankFacts(json);
  }

  lemma AppendedLine(file: string, json: string)
    requires WholeLines(file) && IsRecord(json)
    ensures var longer := file + (json + [LF]);
      var body := longer[..|longer| - 1];
      && LineStart(longer) == |longer| && LineStart(body) == |file|
      && body[|file|..] == json && body[..|file|] == file
  {
    hide LineStart;
    var longer := file + (json + [LF]);
    var body := file + json;
    assert longer[..|longer| - 1] == body;
    LineStartIs(body, |file|);
    LineStartIs(longer, |longer|);
  }

  lemma LinesStep(text: string, start: nat)
    requires WholeLines(text) && text != "" && start == LineStart(text[..|text| - 1])
    ensures var body := text[..|text| - 1];
      && Lines(text) == Lines(body[..start]) + (if Blank(body[start..]) then [] else [body[start..]])
      && LastLine(text) == if !Blank(body[start..]) then Some(body[start..]) else LastLine(body[..start])
  {
  }

  lemma BlankFacts(json: string)
    requires IsRecord(json)
    ensures !Blank(json) && Blank("")
  {
  }

  /**
  An append cut anywhere is found: every proper non-empty prefix of the line leaves a file that is
  refused, and the offset named is where the file ended before the append.
  */
  lemma CutAppendIsRefused(file: string, json: string, n: nat)
    requires WholeLines(file) && IsRecord(json) && 0 < n <= |json|
    ensures (json + [LF])[..n] == json[..n]
    ensures TipOf(file + json[..n]) == Unfinished(|file|)
  {
    hide LineStart;
    var torn := file + json[..n];
    LineStartIs(torn, |file|);
    assert torn[|file|..] == json[..n];
    assert json[..n][0] == json[0];
  }

  /** Truncating where the refusal says restores the file, and the chain takes up where it was. */
  lemma TruncationRestores(file: string, json: string, n: nat)
    requires WholeLines(file) && IsRecord(json) && 0 < n <= |json|
    ensures var torn := file + json[..n];
      TipOf(torn).Unfinished? && torn[..TipOf(torn).truncateTo] == file
  {
    CutAppendIsRefused(file, json, n);
    assert (file + json[..n])[..|file|] == file;
  }
}
