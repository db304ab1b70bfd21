/** The input loops of selpg and where their text goes.

    A named input file is read line by line and every kept line is written
    at once with its newline; standard input is read line by line into one
    buffer that is written once at the end. Both loops use the same counter
    and the same page test. The text goes to standard output, or to the
    input of the destination command when `-d` was given. */
module Process {
  import opened Config
  import opened Selection
  import opened Rendering
  import opened Validation

  /** The file loop: each kept line is one separate write of the line and
      its newline, in reading order. */
  method EmitFromFile(lines: seq<string>, startPage: int, endPage: int, pageLen: int)
    returns (writes: seq<string>)
    requires pageLen > 0
    ensures var kept := Select(lines, startPage, endPage, pageLen);
            && |writes| == |kept|
            && (forall k :: 0 <= k < |writes| ==> writes[k] == kept[k] + "\n")
            && Concat(writes) == Render(kept)
  {
    writes := [];
    var count := 0;
    while count < |lines|
      invariant 0 <= count <= |lines|
      invariant var kept := Select(lines[..count], startPage, endPage, pageLen);
                && |writes| == |kept|
                && (forall k :: 0 <= k < |writes| ==> writes[k] == kept[k] + "\n")
                && Concat(writes) == Render(kept)
    {
      var line := lines[count];
      ghost var kept := Select(lines[..count], startPage, endPage, pageLen);
      SelectExtend(lines, count, startPage, endPage, pageLen);
      if OnSelectedPage(count, startPage, endPage, pageLen) {
        assert Select(lines[..count + 1], startPage, endPage, pageLen) == kept + [line];
        ConcatAppend(writes, line + "\n");
        RenderAppend(kept, line);
        writes := writes + [line + "\n"];
      } else {
        assert Select(lines[..count + 1], startPage, endPage, pageLen) == kept;
      }
      count := count + 1;
    }
    assert lines[..count] == lines;
  }

  /** The standard-input loop: kept lines, each with its newline, are
      appended to one buffer. */
  method EmitFromStdin(lines: seq<string>, startPage: int, endPage: int, pageLen: int)
    returns (target: string)
    requires pageLen > 0
    ensures target == Render(Select(lines, startPage, endPage, pageLen))
    ensures |lines| == 0 ==> target == ""
  {
    var count := 0;
    target := "";
    while count < |lines|
      invariant 0 <= count <= |lines|
      invariant target == Render(Select(lines[..count], startPage, endPage, pageLen))
    {
      var line := lines[count];
      ghost var kept := Select(lines[..count], startPage, endPage, pageLen);
      SelectExtend(lines, count, startPage, endPage, pageLen);
      RenderAppend(kept, line);
      line := line + "\n";
      if OnSelectedPage(count, startPage, endPage, pageLen) {
        assert Select(lines[..count + 1], startPage, endPage, pageLen) == kept + [lines[count]];
        target := target + line;
      } else {
        assert Select(lines[..count + 1], startPage, endPage, pageLen) == kept;
      }
      count := count + 1;
    }
    assert lines[..count] == lines;
  }

  /** Where the selected text is written. */
  datatype Sink = Stdout | CommandInput(command: string)

  /** The text written and where it was written to. */
  datatype Delivery = Delivery(sink: Sink, text: string)

  /** Reads `lines` from the file named by the first positional argument, or
      from standard input when there is none, and writes the kept lines to
      the chosen sink. Both sources deliver the same text. */
  method ProcessInput(a: SelpgArgs, positional: seq<string>, lines: seq<string>)
    returns (input: SelpgArgs, d: Delivery)
    requires a.pageLen > 0
    ensures d.text == Render(Select(lines, a.startPage, a.endPage, a.pageLen))
    ensures d.text == Render(lines[WindowStart(|lines|, a.startPage, a.pageLen)
                                  ..WindowEnd(|lines|, a.startPage, a.endPage, a.pageLen)])
    ensures d.sink == Stdout <==> a.dest == ""
    ensures d.sink.CommandInput? ==> d.sink.command == a.dest
    ensures |positional| > 0 ==> input == a.(inputFilename := positional[0])
    ensures |positional| == 0 ==> input == a
  {
    SelectIsWindow(lines, a.startPage, a.endPage, a.pageLen);
    var sink := if a.dest != "" then CommandInput(a.dest) else Stdout;
    input := a;
    if |positional| > 0 {
      input := a.(inputFilename := positional[0]);
      var writes := EmitFromFile(lines, a.startPage, a.endPage, a.pageLen);
      d := Delivery(sink, Concat(writes));
    } else {
      var target := EmitFromStdin(lines, a.startPage, a.endPage, a.pageLen);
      d := Delivery(sink, target);
    }
  }

  /** The outcome of one invocation: exit status 1 with an argument error,
      or the delivered text. */
  datatype Outcome = Exit(error: ArgError) | Delivered(delivery: Delivery)

  /** Validates the command line, then selects and delivers. No input is
      read and no selected text is delivered when validation fails. */
  method Run(a: SelpgArgs, osArgs: seq<string>, positional: seq<string>, lines: seq<string>)
    returns (r: Outcome)
    requires a.pageLen > 0
    requires BothPagesGiven(a) ==> PositionalReadable(osArgs)
    ensures r.Exit? <==> ProcessArgs(a, osArgs) != Accepted
    ensures r.Exit? ==> ProcessArgs(a, osArgs) == Rejected(r.error)
    ensures r.Delivered? ==>
      && 0 <= a.startPage <= a.endPage
      && r.delivery.text == Render(Select(lines, a.startPage, a.endPage, a.pageLen))
    ensures r.Delivered? && AllLines(lines) ==>
      SplitLines(r.delivery.text)
        == lines[WindowStart(|lines|, a.startPage, a.pageLen)..WindowEnd(|lines|, a.startPage, a.endPage, a.pageLen)]
  {
    var verdict := ProcessArgs(a, osArgs);
    if verdict.Rejected? {
      return Exit(verdict.error);
    }
    var _, d := ProcessInput(a, positional, lines);
    if AllLines(lines) {
      ghost var kept := Select(lines, a.startPage, a.endPage, a.pageLen);
      ghost var lo := WindowStart(|lines|, a.startPage, a.pageLen);
      SelectIsWindow(lines, a.startPage, a.endPage, a.pageLen);
      assert forall k :: 0 <= k < |kept| ==> kept[k] == lines[lo + k];
      SplitRender(kept);
    }
    r := Delivered(d);
  }
}
