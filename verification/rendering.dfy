/** The text selpg writes for the kept lines: every line followed by exactly
    one newline, and the reading of such text back into lines. */
module Rendering {

  /** A line as the line readers deliver it: without its terminating newline. */
  ghost predicate IsLine(line: string) {
    forall j :: 0 <= j < |line| ==> line[j] != '\n'
  }

  ghost predicate AllLines(lines: seq<string>) {
    forall k :: 0 <= k < |lines| ==> IsLine(lines[k])
  }

  /** The concatenation of `line + "\n"` over `lines`. */
  function Render(lines: seq<string>): (text: string)
    ensures |text| >= |lines|
    ensures |lines| > 0 ==> |text| > 0 && text[|text| - 1] == '\n'
    decreases |lines|
  {
    if |lines| == 0 then "" else lines[0] + "\n" + Render(lines[1..])
  }

  /** The concatenation of a sequence of separate writes. */
  function Concat(writes: seq<string>): (text: string)
    ensures |writes| == 0 ==> text == ""
    decreases |writes|
  {
    if |writes| == 0 then "" else writes[0] + Concat(writes[1..])
  }

  /** Emitting one more line extends the text by that line and a newline. */
  lemma {:induction false} RenderAppend(lines: seq<string>, line: string)
    ensures Render(lines + [line]) == Render(lines) + (line + "\n")
    decreases |lines|
  {
    if |lines| > 0 {
      assert (lines + [line])[1..] == lines[1..] + [line];
      RenderAppend(lines[1..], line);
    }
  }

  /** One more write extends the written text by exactly that write. */
  lemma {:induction false} ConcatAppend(writes: seq<string>, w: string)
    ensures Concat(writes + [w]) == Concat(writes) + w
    decreases |writes|
  {
    if |writes| > 0 {
      assert (writes + [w])[1..] == writes[1..] + [w];
      ConcatAppend(writes[1..], w);
    }
  }

  /** Position of the first newline in `text`, or |text| when there is none. */
  function FirstNewline(text: string): (k: nat)
    ensures k <= |text|
    ensures k < |text| ==> text[k] == '\n'
    ensures forall j :: 0 <= j < k ==> text[j] != '\n'
    decreases |text|
  {
    if |text| == 0 then 0
    else if text[0] == '\n' then 0
    else 1 + FirstNewline(text[1..])
  }

  /** Reads newline-terminated text back into its lines; a last line without
      a newline is kept as it is. */
  function SplitLines(text: string): (lines: seq<string>)
    ensures AllLines(lines)
    decreases |text|
  {
    if |text| == 0 then []
    else
      var k := FirstNewline(text);
      if k == |text| then [text]
      else [text[..k]] + SplitLines(text[k + 1..])
  }

  /** Reading the emitted text line by line gives back exactly the kept
      lines, so each line is emitted followed by exactly one newline. */
  lemma {:induction false} SplitRender(lines: seq<string>)
    requires AllLines(lines)
    ensures SplitLines(Render(lines)) == lines
    decreases |lines|
  {
    if |lines| > 0 {
      var text := Render(lines);
      var rest := Render(lines[1..]);
      assert text == lines[0] + "\n" + rest;
      assert IsLine(lines[0]);
      FirstNewlineAfterLine(lines[0], rest);
      assert text[..|lines[0]|] == lines[0];
      assert text[|lines[0]| + 1..] == rest;
      SplitRender(lines[1..]);
    }
  }

  lemma FirstNewlineAfterLine(line: string, rest: string)
    requires IsLine(line)
    ensures FirstNewline(line + "\n" + rest) == |line|
  {
    var text := line + "\n" + rest;
    assert text[|line|] == '\n';
    assert forall j :: 0 <= j < |line| ==> text[j] == line[j];
  }
}
