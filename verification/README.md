# selpg page selection, modelled in Dafny

selpg is a command-line tool that copies a range of pages from its input to
its output. A page is `page_len` consecutive lines (72 by default). Pages are
numbered from 0. The tool keeps the lines whose page index lies in
`[start_page, end_page]`. The input is a named file or standard input. The
output goes to standard output, or to the input of a shell command given
with `-d`.

This project models the core of `selpg.go`:

- `Config`: the `Selpg_args` record and the defaults the flags leave in it.
  The `-1` sentinel marks a page flag that was not given.
- `Selection`: the page test `start_page <= count / page_len <= end_page`
  and `Select`, the lines the input loop has kept after reading a sequence
  of lines. Lemmas characterise `Select` as one contiguous slice of the
  input. They also give the exact membership, the count and the size
  bounds.
- `Rendering`: the emitted text. Each kept line is followed by exactly one
  newline. `SplitLines` reads such text back into lines. `Concat` joins
  separate writes.
- `Validation`: `Process_args`. It checks that both pages are given, that
  the first raw argument begins with `-s`, and that `-e` follows at the
  expected position. That is index 2 after a joined `-s=N`, or index 3 after
  a bare `-s` whose value is the next argument. It then checks that
  `0 <= start_page <= end_page`.
- `Process`: the two input loops as methods with loop invariants. The file
  loop makes one write per kept line. The standard-input loop builds one
  buffer. Both methods are proved to produce the same text. `ProcessInput`
  picks the loop and the sink. `Run` validates first and then delivers.

Three behaviours of `selpg.go` shape the model:

- The `-f` flag is stored but never read. The usage text advertises pages
  separated by `\f` (selpg.go:56), yet the input loops always count pages
  in lines. The model does the same.
- `page_len` is never checked before it is used as a divisor
  (selpg.go:126, 151). A positive page length is therefore a precondition.
- The positional check reads the raw arguments at fixed indices
  (selpg.go:70-85). It is modelled index for index. So a flag such as `-l`
  written between `-s` and `-e` is rejected, even though flag parsing
  accepts it.

## Model

| member | source | states |
|---|---|---|
| Config.FlagDefaults | selpg.go:37-42 | with no flags, neither page is a valid (non-negative) page, the default page length is positive, `-f` is off and there is no destination |
| Selection.OnSelectedPage | selpg.go:151-152 | the page test `start <= count/len <= end`: no line is kept from an inverted range or from one ending before page 0, and the first `len` lines are page 0, kept exactly when `start <= 0 <= end` |
| Selection.Select | selpg.go:146-156 | the loop never keeps more lines than it reads |
| Selection.SelectExtend | selpg.go:148-155 | reading the line at position `count` appends that line to the kept lines exactly when its page is selected, and otherwise leaves them unchanged |
| Selection.PageBounds | selpg.go:126-127 | the page test `start <= count/len <= end` holds exactly when `start*len <= count < (end+1)*len` |
| Selection.WindowIsSelectedPages | selpg.go:151-152 | a position lies in the window exactly when its line is on a selected page (both directions) |
| Selection.SelectIsKeepPositions | selpg.go:116-135 | filtering by page index equals filtering by position in `[start*len, (end+1)*len)` |
| Selection.SelectIsWindow | selpg.go:146-156 | the kept lines are exactly the contiguous slice `lines[start*len .. min(n, (end+1)*len))`, clamped to the input |
| Selection.SelectKeepsExactlySelectedLines | selpg.go:126-135 | output position k holds input line `lo+k`, which is on a selected page; every selected input line appears exactly once, at position `i-lo`, so order is preserved |
| Selection.SelectCountsSelectedPositions | selpg.go:151-155 | the number of kept lines equals the number of input positions whose page index lies in the range |
| Selection.SelectSizeBounds | selpg.go:151-152 | at most `(end-start+1)*len` lines are kept; at most `len` when start equals end; none when the range is inverted or `start*len >= n` |
| Selection.SelectWholeInput | selpg.go:151-155 | a range from page 0 or below through a page reaching the end of the input returns the input unchanged |
| Selection.SelectFromFirstToLastPage | selpg.go:151-155 | `start = 0` with `end >= (n-1)/len` returns the whole input |
| Selection.SelectSecondPageOf150 | selpg.go:126-127 | with 150 lines, 72 lines per page and page 1 only, exactly lines 72..143 are kept, 72 lines in all |
| Rendering.Render | selpg.go:150-153 | the text is at least one character per kept line, and non-empty output ends with a newline |
| Rendering.RenderAppend | selpg.go:150-153 | keeping one more line extends the buffer by that line followed by one newline |
| Rendering.ConcatAppend | selpg.go:129-131 | one more per-line write extends the written text by exactly that write |
| Rendering.SplitRender | selpg.go:164 | reading the emitted text back line by line gives exactly the kept lines, so every line carries exactly one newline |
| Validation.BothPagesGiven | selpg.go:64 | neither page still holds the -1 sentinel: every non-negative pair counts as given, and the flag defaults do not |
| Validation.HasFlagPrefix | selpg.go:70 | the character-by-character test of line 70 (and of line 81 for `e`) passes exactly when the argument begins with `-` followed by the flag letter |
| Validation.EndIndex | selpg.go:76-79 | `-e` is looked for at index 2 or 3; when the first argument begins with `-s`, it is index 3 exactly when that argument is the bare `-s` |
| Validation.RangeInOrder | selpg.go:87-88 | the numeric check passes exactly when `0 <= start <= end` |
| Validation.CheckPositions | selpg.go:70-85 | accepts exactly when the first argument begins with "-s" and the argument at EndIndex begins with "-e"; a bad first argument is reported as such, and a bad -e argument otherwise |
| Validation.ProcessArgs | selpg.go:63-93 | accepts exactly when `0 <= start <= end` and the positional check passes; a missing page flag is reported first; then the positional check's own error, which tells a bad `-s` argument from a bad `-e` argument; then the invalid range |
| Validation.RangeAcceptsExactly | selpg.go:87-88 | the sentinel test and the range test together accept exactly `0 <= start <= end` |
| Validation.DefaultsRejected | selpg.go:64-67 | with neither page flag given, every command line is rejected for missing arguments |
| Validation.JoinedFlagsAccepted | selpg.go:76-85 | `prog -s=N -e=M ...` passes the positional check for any values |
| Validation.SeparateStartValueAccepted | selpg.go:76-85 | `prog -s N -e... ...` passes the positional check |
| Validation.FlagBetweenRejected | selpg.go:81-85 | any other flag written right after `-s=N` is rejected as a misplaced `-e` |
| Validation.InvertedRangeRejected | selpg.go:87-92 | `-s 5 -e 2` is rejected as an invalid range |
| Process.EmitFromFile | selpg.go:116-135 | the file loop makes one write per kept line, in order, each being the line plus a newline; together they are the rendered kept lines |
| Process.EmitFromStdin | selpg.go:144-156 | the standard-input buffer is the rendered kept lines, and is empty for empty input |
| Process.ProcessInput | selpg.go:100-167 | both input sources deliver the same text, the rendered window of selected lines; it goes to the destination command exactly when `-d` is non-empty; a positional argument names the input file |
| Process.Run | selpg.go:24-33 | the run exits exactly when validation rejects, with that error; otherwise the range is valid and reading the delivered text back gives the selected window |

## Left out

- The destination command's process lifecycle is left out. This covers `bash -c`, the pipes, `Start`, `Close`, `ReadAll`, `Wait` and the relay of the command's output to standard output (selpg.go:100-105, 136-141, 157-163). That output comes from a process outside the model. The model only records which sink receives the selected text.
- Opening the input file and reporting read errors (selpg.go:110-114, 118-122) are left out. This is I/O. The input is the sequence of lines already read.
- Line splitting by `bufio.Reader.ReadLine` and `bufio.Scanner` is left out. This covers long-line splitting, `\r` stripping and token limits. It is library behaviour. `Rendering.SplitLines` is a plain newline splitter that serves as the inverse of the output format only.
- Flag parsing and the usage text (selpg.go:35-60) are left out. The parsed record is an input.
- The text written for each argument error (selpg.go:65-66, 71-72, 82-83, 89-90) is left out. This covers the message on standard error and the usage text on standard output. `Validation.ArgError` records which of the four errors occurred.
- Form-feed pages are left out. The `-f` flag is stored but never used by the code.
- A page length of zero or less is left out. The code divides by it unguarded, so `pageLen > 0` is a precondition.
- Index-out-of-range panics in the positional check are left out. `Validation.PositionalReadable` states the lengths the Go code silently relies on, honouring its `||` short-circuit, as a precondition.
- Selection.Select: its own contract only bounds the number of kept lines. Membership, order and the slice shape are stated by the lemmas about it (`SelectIsWindow`, `SelectKeepsExactlySelectedLines`).
- Running the selector twice gives the same output. This holds trivially because every operation here is a pure function of its inputs, so no lemma states it.
