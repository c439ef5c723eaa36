# Folder watcher: blank-line remover, modelled in Dafny

The watcher reacts to a "file created" event in an input folder. It ignores
directories and files whose lower-cased name does not end in `.txt`, `.doc` or
`.docx`. For any other file it derives the output path
`<output folder>/cleaned_<basename>.txt` and calls `remove_blank_lines`, which:

- sends `.txt` files down a single pass that writes every line whose stripped
  form is non-empty, unchanged and in order;
- sends `.doc`/`.docx` files to the document parser, up to three times. The
  non-blank paragraph texts of the first successful parse are joined with
  `'\n'` and written out;
- turns every other file away with a warning;
- returns `True` or `False`, and catches I/O errors at its outer boundary.

The model covers that pipeline:

- `text.dfy` (module `Text`): Python's `str.strip()` over its exact whitespace
  set, `lower()`, `endswith()`, the lines a text-mode file yields, and
  `'\n'.join` with its inverse `split('\n')`.
- `cleaning.dfy` (module `Cleaning`): the blank-line filter `NonBlank` and its
  properties. `CleanText` is the filter seen at the level of a file's text.
- `logging.dfy` (module `Logging`): the log as a trace of entries, each with a
  severity.
- `processor.dfy` (module `Processor`): the format dispatch `Classify` and the
  declarative specification `Process` of one call. The methods `FilterLines`,
  `CleanParagraphs`, `ExtractWithRetry` and `RemoveBlankLines` keep the loops of
  the source and are proved equal to that specification.
- `handler.dfy` (module `Handler`): POSIX `basename`/`join`, the output-name
  rule, and the class `FileEventHandler` with `OnCreated`.
- `wrappers.dfy` (module `Wrappers`): `Option`.

The environment is passed in as parameters:

- `TextInput` says what opening and reading the text file does. Either opening
  raises (`Unreadable`), or both files open and iteration yields `lines`. With
  `interrupted`, iteration raises after those lines.
- `attempts[i]` is what the parser does on attempt `i + 1`: it raises
  (`Failed`) or yields paragraph texts (`Parsed`). A call past the end of the
  sequence fails.
- A call returns a `Report`: the boolean result, the final output file
  (`Untouched` or `Written(content)`), the log entries and the number of parser
  calls.

Three behaviours of the code deserve a note, and the model keeps each of them:

- The text branch opens, and so truncates, the output before reading. A read
  error part-way through leaves the lines cleaned so far in the output and
  returns `False`.
- When all attempts fail, `remove_blank_lines` logs only the three attempt
  errors. The overall "Processing failed" entry comes from the handler.
- The output name keeps the source's extension and appends `.txt`
  (`notes.txt` becomes `cleaned_notes.txt.txt`).

## Model

| member | source | states |
|---|---|---|
| Text.TrimStartSpec | folder_watcher.py:20 | left stripping removes exactly the longest whitespace prefix |
| Text.TrimEndSpec | folder_watcher.py:20 | right stripping removes exactly the longest whitespace suffix |
| Text.StripSpec | folder_watcher.py:20 | the stripped string is a contiguous slice of the input and neither starts nor ends with whitespace |
| Text.BlankIffAllWhitespace | folder_watcher.py:20 | `x.strip()` is empty exactly when `x` consists of whitespace only |
| Text.NotBlankWhenVisible | folder_watcher.py:31 | a string with a non-whitespace character is kept and is not empty |
| Text.Lower | folder_watcher.py:17 | lower-casing keeps the length and maps each character on its own |
| Text.LowerIdempotent | folder_watcher.py:17 | lower-casing twice equals lower-casing once |
| Text.LowerSuffix | folder_watcher.py:17 | lower-casing commutes with taking a suffix |
| Text.LowerEndsWith | folder_watcher.py:17 | `p.lower().endswith(s)` depends only on the last `len(s)` characters of `p`, lowered |
| Text.ConcatAppend | folder_watcher.py:21 | writing two runs of lines one after the other writes their concatenation |
| Text.SplitLines | folder_watcher.py:19 | the lines a file yields are non-empty, hold a line break only at their end, and all but the last end with one |
| Text.ConcatSplitLines | folder_watcher.py:19 | concatenating the lines a file yields gives back the file's text |
| Text.FirstLineOf | folder_watcher.py:19 | a text that starts with a complete line yields that line first |
| Text.SplitLinesConcat | folder_watcher.py:19-21 | well-formed lines written one after another are read back as the same lines |
| Text.JoinLines | folder_watcher.py:34 | a join of one part is that part, and a join always starts with its first part |
| Text.SplitJoinLines | folder_watcher.py:34 | if no part holds a line break, splitting the joined text at line breaks gives back the parts |
| Cleaning.NonBlank | folder_watcher.py:19-21 | the filter never outputs a blank line and is never longer than its input |
| Cleaning.NonBlankAtKeptIndices | folder_watcher.py:19-21 | each output line is the input line at the matching kept position, unchanged |
| Cleaning.KeptIndicesIncrease | folder_watcher.py:19-21 | the kept positions increase, so the original order is preserved |
| Cleaning.KeptIndicesExact | folder_watcher.py:19-21 | a position is kept exactly when its line is not blank |
| Cleaning.NonBlankAppend | folder_watcher.py:19-21 | filtering a concatenation is the concatenation of the filtered parts |
| Cleaning.NonBlankIdentityIff | folder_watcher.py:19-21 | the input comes out unchanged exactly when it has no blank line |
| Cleaning.NonBlankIdempotent | folder_watcher.py:19-21 | filtering the output again changes nothing |
| Cleaning.NonBlankLength | folder_watcher.py:19-21 | N lines of which B are blank give exactly N - B output lines |
| Cleaning.NonBlankEmptyIff | folder_watcher.py:30-32 | nothing is kept exactly when every element is blank |
| Cleaning.NonBlankWellFormed | folder_watcher.py:19-21 | the kept lines still form the lines of a file |
| Cleaning.CleanTextLines | folder_watcher.py:18-21 | the written text, read back line by line, is exactly the non-blank input lines |
| Cleaning.CleanTextIdempotent | folder_watcher.py:18-21 | cleaning the cleaned text of a file changes nothing |
| Cleaning.CleanTextRoundTrip | folder_watcher.py:18-21 | a file with no blank lines is written out character for character |
| Cleaning.CleanTextExample | folder_watcher.py:18-21 | `"Hello\n\n\nWorld\n"` is written as `"Hello\nWorld\n"` |
| Text.TrimStart | folder_watcher.py:20 | definition only, no contract; its properties are in `Text.TrimStartSpec` |
| Text.TrimEnd | folder_watcher.py:20 | definition only, no contract; its properties are in `Text.TrimEndSpec` |
| Text.Strip | folder_watcher.py:20 | definition only, no contract; its properties are in `Text.StripSpec` |
| Text.IsBlank | folder_watcher.py:20 | definition only, no contract; its properties are in `Text.BlankIffAllWhitespace` and `Text.NotBlankWhenVisible` |
| Text.EndsWith | folder_watcher.py:17 | definition only, no contract; its properties are in `Text.LowerEndsWith` and `Processor.ClassifyBySuffix` |
| Text.Concat | folder_watcher.py:21 | definition only, no contract; its properties are in `Text.ConcatAppend`, `Text.ConcatSplitLines` and `Text.SplitLinesConcat` |
| Cleaning.CleanText | folder_watcher.py:18-21 | definition only, no contract; its properties are in `Cleaning.CleanTextLines`, `Cleaning.CleanTextIdempotent` and `Cleaning.CleanTextRoundTrip` |
| Logging.LogEntry.Severity | folder_watcher.py:15-45 | definition only, no contract: each entry's level, as the logging call for it uses; its properties are in `Processor.FailureTrailErrors` and `Handler.NoWarningForSupported` |
| Logging.ErrorCount | folder_watcher.py:38 | never more than the number of entries; its properties are in `Logging.ErrorCountAppend` |
| Logging.ErrorCountAppend | folder_watcher.py:38 | error entries of two stretches of log add up |
| Processor.Classify | folder_watcher.py:17-24 | definition only, no contract; its properties are in `Processor.ClassifyBySuffix` and `Processor.ClassifyIgnoresCase` |
| Processor.ClassifyIgnoresCase | folder_watcher.py:17-24 | a path and its lower-cased form are classified the same |
| Processor.ClassifyBySuffix | folder_watcher.py:17-24 | text exactly for a lowered `.txt` ending; otherwise document exactly for a lowered `.doc` or `.docx` ending |
| Processor.LowerCaseTxtIsPlainText | folder_watcher.py:17 | a path ending in `.txt` takes the text branch |
| Processor.FirstParsed | folder_watcher.py:26-36 | gives the first successful attempt among the first n, or says that all n fail |
| Processor.FailureTrailErrors | folder_watcher.py:37-38 | the failed attempts log one error each, numbered from 1 |
| Processor.FailureTrail | folder_watcher.py:37-38 | one entry per failed attempt; its contents are in `Processor.FailureTrailErrors` |
| Processor.DocumentText | folder_watcher.py:29-34 | definition only, no contract; its properties are in `Processor.DocumentTextEmptyIff` and `Processor.DocumentTextLines` |
| Processor.TextBranch | folder_watcher.py:17-23 | definition only, no contract; its properties are in `Processor.TextBranchOutcome` and `Processor.TextFileCleaned` |
| Processor.DocumentBranch | folder_watcher.py:24-40 | definition only, no contract; its properties are in `Processor.DocumentBranchLog`, `Processor.DocumentSuccessIff` and `Processor.FirstSuccessDecides` |
| Processor.Process | folder_watcher.py:13-46 | definition only, no contract: the specification of one call; its properties are in the lemmas below and `Processor.RemoveBlankLines` is proved equal to it |
| Processor.FilterLines | folder_watcher.py:19-21 | the line loop writes the concatenation of the non-blank lines |
| Processor.CleanParagraphs | folder_watcher.py:29-32 | the paragraph loop collects the non-blank paragraph texts in order |
| Processor.ExtractWithRetry | folder_watcher.py:25-40 | the retry loop produces the document branch's specified report |
| Processor.RemoveBlankLines | folder_watcher.py:13-46 | the processor produces the report `Process` specifies, for every path and environment |
| Processor.UnsupportedIsRejected | folder_watcher.py:41-43 | another extension returns `False`: no parser call, output untouched, a warning last |
| Processor.OnlyDocumentsAreParsed | folder_watcher.py:17-43 | the parser is called exactly for `.doc`/`.docx` paths |
| Processor.TextBranchOutcome | folder_watcher.py:17-23 | text: no retry; success exactly without I/O error; the output holds the cleaned lines read (partial on a read error) and stays untouched if opening fails |
| Processor.TextFileCleaned | folder_watcher.py:17-23 | a text file read without error is written cleaned; one with no blank line is copied unchanged |
| Processor.RetryBound | folder_watcher.py:25-26 | a document is parsed at least once and at most three times |
| Processor.DocumentSuccessIff | folder_watcher.py:25-40 | `True` exactly when one of the first three attempts succeeds |
| Processor.FirstSuccessDecides | folder_watcher.py:26-36 | on success the last attempt made is the first successful one, and its cleaned paragraphs are written |
| Processor.DocumentBranchLog | folder_watcher.py:25-40 | one error per failed attempt, then the success entry; on exhaustion three attempts and output untouched |
| Processor.DocumentLog | folder_watcher.py:15-40 | the log starts with the processing entry and holds as many errors as failed attempts; on success they all precede the final success entry; on exhaustion the output is untouched |
| Processor.ThirdAttemptSucceeds | folder_watcher.py:25-40 | fail, fail, success: `True`, three parser calls, the third attempt's output alone, two errors before the success entry |
| Processor.DocumentTextEmptyIff | folder_watcher.py:29-34 | the document output is empty exactly when every paragraph is blank |
| Processor.DocumentTextLines | folder_watcher.py:29-34 | if no paragraph holds a line break and some paragraph is not blank, splitting the output at line breaks gives the non-blank paragraphs |
| Processor.SuccessMatchesLog | folder_watcher.py:13-46 | every call logs its start first and ends with a success entry exactly when it returns `True` |
| Handler.Basename | folder_watcher.py:61 | definition only, no contract; its properties are in `Handler.BasenameSpec` and `Handler.BasenameAfterSeparator` |
| Handler.PathJoin | folder_watcher.py:62 | definition only, no contract; its properties are in `Handler.JoinPlacesInFolder` |
| Handler.OutputName | folder_watcher.py:62 | definition only, no contract; its properties are in `Handler.OutputNameIsPlain` |
| Handler.OutputPath | folder_watcher.py:62 | definition only, no contract; its properties are in `Handler.OutputPathShape`, `Handler.OutputEndsWithTxt` and `Handler.OutputIsPlainText` |
| Handler.HasSupportedExtension | folder_watcher.py:59 | definition only, no contract; its properties are in `Handler.FilterMatchesProcessor` |
| Handler.BasenameSpec | folder_watcher.py:61 | the basename is the longest suffix without `/` |
| Handler.BasenameAfterSeparator | folder_watcher.py:61 | a `/`-free name after a directory prefix is that path's basename |
| Handler.JoinPlacesInFolder | folder_watcher.py:62 | joining a folder with a relative name gives the folder, at most one `/`, then the name, so the name is its basename |
| Handler.OutputNameIsPlain | folder_watcher.py:62 | `cleaned_<basename>.txt` contains no `/` and ends in `.txt` |
| Handler.OutputPathShape | folder_watcher.py:61-62 | the output path is the output folder, at most one `/`, then `cleaned_` + source basename + `.txt`, which is its basename |
| Handler.OutputPathInFolder | folder_watcher.py:61-62 | a file `dir/name` is written to `folder/cleaned_name.txt` when `folder` does not end in `/` |
| Handler.OutputEndsWithTxt | folder_watcher.py:62 | the output path ends in `.txt` whatever the source extension |
| Handler.OutputIsPlainText | folder_watcher.py:62 | the output path itself takes the text branch |
| Handler.OutputPathExample | folder_watcher.py:61-62 | `input_folder/notes.txt` maps to `output_folder/cleaned_notes.txt.txt` |
| Handler.FilterMatchesProcessor | folder_watcher.py:59 | the handler accepts a path exactly when the processor does not reject it as unsupported |
| Handler.DocumentBranchNoWarning | folder_watcher.py:25-40 | the document branch never logs a warning |
| Handler.NoWarningForSupported | folder_watcher.py:41-43 | a supported path never gets the unsupported-type warning, so the handler cannot reach that branch |
| Handler.FileEventHandler.constructor | folder_watcher.py:49-52 | the handler keeps the given input and output folders |
| Handler.FileEventHandler.OnCreated | folder_watcher.py:54-66 | ignores directories and unsupported extensions with no log; otherwise processes into the derived output path and logs detection, the processor's entries and the outcome |

## Left out

- The watchdog observer, its scheduling and thread, and the `while True: sleep(1)` main loop. These deliver events; the model takes one event as input.
- Logging configuration, timestamps and message texts. Exception texts are dropped too. The log is a trace of tagged entries.
- Real file I/O and `os.makedirs`. `TextInput` and `Attempt` stand in for what the file system and the parser do.
- Newline translation on read and write (universal newlines, `os.linesep`). The UTF-8 encoding of the document output is left out too. Text is modelled after decoding.
- `docx.Document` parsing. Each attempt is abstracted to a failure or the list of paragraph texts.
- A document attempt that fails while writing the output, after truncating it. In the model a failed attempt raises before the output is opened, so the output of a failed attempt stays untouched.
- The outer `except` in the document branch, and any exception that is not an `Exception` (e.g. `KeyboardInterrupt`). The inner `except Exception` catches everything an attempt raises, so the outer handler is never reached from that branch.
- `time.sleep(2)` after each failed attempt. It has no logical effect.
- Text.Lower: folds only ASCII letters, because full Unicode lower-casing (which can change a string's length) is not modelled. The three extensions are ASCII, but a non-ASCII character that lower-cases to ASCII is not covered.
- Handler.Basename: POSIX `basename` and `join` only. The Windows separators and drive letters of `ntpath` are not modelled.
- Concurrent or repeated delivery of events, and two source files that map to the same output name (last write wins).
