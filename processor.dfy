/**
 `remove_blank_lines`: classify the input path by extension, then clean a text
 file line by line, or extract and clean a document's paragraphs with up to
 three attempts, and report success as a boolean.

 The file system and the document parser are parameters: `TextInput` says what
 opening and reading the text file does, and `attempts[i]` what the parser does
 on attempt `i + 1`.
 */
module Processor {
  import opened Wrappers
  import opened Text
  import opened Cleaning
  import opened Logging

  /** The three ways an input path is handled. */
  datatype Format = PlainText | Document | Unsupported

  /** The case-insensitive extension test: `.txt` first, then `.doc` or `.docx`. */
  function Classify(path: string): Format {
    var p := Lower(path);
    if EndsWith(p, ".txt") then PlainText
    else if EndsWith(p, ".doc") || EndsWith(p, ".docx") then Document
    else Unsupported
  }

  /** Whatever the case of the path, its format is that of the lower-cased path. */
  lemma ClassifyIgnoresCase(path: string)
    ensures Classify(Lower(path)) == Classify(path)
  {
    LowerIdempotent(path);
  }

  /** The format depends only on the last four or five characters, lowered. */
  lemma ClassifyBySuffix(path: string)
    ensures Classify(path) == PlainText <==> |path| >= 4 && Lower(path[|path| - 4..]) == ".txt"
    ensures Classify(path) == Document <==>
              !(|path| >= 4 && Lower(path[|path| - 4..]) == ".txt")
              && ((|path| >= 4 && Lower(path[|path| - 4..]) == ".doc")
                  || (|path| >= 5 && Lower(path[|path| - 5..]) == ".docx"))
  {
    LowerEndsWith(path, ".txt");
    LowerEndsWith(path, ".doc");
    LowerEndsWith(path, ".docx");
  }

  /** A path ending in a lower-case `.txt` is a text file. */
  lemma LowerCaseTxtIsPlainText(path: string)
    requires EndsWith(path, ".txt")
    ensures Classify(path) == PlainText
  {
    LowerEndsWith(path, ".txt");
    assert Lower(".txt") == ".txt";
  }

  /** What the output file holds after processing. */
  datatype Output = Untouched | Written(content: string)

  /**
   What the text branch meets: opening the input or the output raises before
   anything is written, or both open, the output is truncated, and iteration
   yields `lines`, raising afterwards when `interrupted`.
   */
  datatype TextInput = Unreadable | Opened(lines: seq<string>, interrupted: bool)

  /** One call to the document parser: it raises, or it yields the paragraph texts. */
  datatype Attempt = Failed | Parsed(paragraphs: seq<string>)

  /** The outcome of one call: the returned flag, the output file, the log entries, the parser calls made. */
  datatype Report = Report(success: bool, output: Output, log: seq<LogEntry>, parses: nat)

  /** The number of document extraction attempts. */
  const MaxRetries: nat := 3

  /** The parser's behaviour on attempt `i + 1`; past the end of `attempts` it fails. */
  function AttemptAt(attempts: seq<Attempt>, i: nat): Attempt {
    if i < |attempts| then attempts[i] else Failed
  }

  /** The first of the first `n` attempts that succeeds, if any. */
  function FirstParsed(attempts: seq<Attempt>, n: nat): (r: Option<nat>)
    ensures r.Some? ==> r.value < n && AttemptAt(attempts, r.value).Parsed?
    ensures r.Some? ==> forall j :: 0 <= j < r.value ==> AttemptAt(attempts, j).Failed?
    ensures r.None? ==> forall j :: 0 <= j < n ==> AttemptAt(attempts, j).Failed?
  {
    if n == 0 then None
    else
      match FirstParsed(attempts, n - 1)
      case Some(k) => Some(k)
      case None => if AttemptAt(attempts, n - 1).Parsed? then Some(n - 1) else None
  }

  /** What the document branch writes: the non-blank paragraphs joined with line breaks. */
  function DocumentText(paragraphs: seq<string>): string {
    JoinLines(NonBlank(paragraphs))
  }

  /** The error entries of the first `n` failed attempts. */
  function FailureTrail(path: string, n: nat): (trail: seq<LogEntry>)
    ensures |trail| == n
  {
    if n == 0 then [] else FailureTrail(path, n - 1) + [AttemptFailed(n, path)]
  }

  /** The text branch, after the start entry. */
  function TextBranch(inputPath: string, outputPath: string, text: TextInput): Report {
    match text
    case Unreadable => Report(false, Untouched, [ProcessingError(inputPath)], 0)
    case Opened(lines, interrupted) =>
      Report(!interrupted, Written(Concat(NonBlank(lines))),
             [if interrupted then ProcessingError(inputPath) else TextProcessed(outputPath)], 0)
  }

  /** The document branch, after the start entry: the first successful attempt decides. */
  function DocumentBranch(inputPath: string, outputPath: string, attempts: seq<Attempt>): Report {
    match FirstParsed(attempts, MaxRetries)
    case Some(k) =>
      Report(true, Written(DocumentText(AttemptAt(attempts, k).paragraphs)),
             FailureTrail(inputPath, k) + [DocumentProcessed(outputPath)], k + 1)
    case None => Report(false, Untouched, FailureTrail(inputPath, MaxRetries), MaxRetries)
  }

  /** What one call of the processor does. */
  function Process(inputPath: string, outputPath: string, text: TextInput, attempts: seq<Attempt>): Report {
    var branch := match Classify(inputPath)
      case PlainText => TextBranch(inputPath, outputPath, text)
      case Document => DocumentBranch(inputPath, outputPath, attempts)
      case Unsupported => Report(false, Untouched, [UnsupportedType(inputPath)], 0);
    branch.(log := [ProcessingFile(inputPath)] + branch.log)
  }

  /** The text loop: every line whose stripped form is non-empty is written, unchanged, in order. */
  method FilterLines(lines: seq<string>) returns (written: string)
    ensures written == Concat(NonBlank(lines))
  {
    written := "";
    for i := 0 to |lines|
      invariant written == Concat(NonBlank(lines[..i]))
    {
      var line := lines[i];
      ghost var kept := NonBlank(lines[..i]);
      assert lines[..i + 1][..i] == lines[..i];
      assert NonBlank(lines[..i + 1]) == kept + if IsBlank(line) then [] else [line];
      if Strip(line) != [] {
        assert (kept + [line])[..|kept|] == kept;
        assert Concat(kept + [line]) == Concat(kept) + line;
        written := written + line;
      } else {
        assert NonBlank(lines[..i + 1]) == kept;
      }
    }
    assert lines[..|lines|] == lines;
  }

  /** The paragraph loop: the texts of the non-blank paragraphs, in order. */
  method CleanParagraphs(paragraphs: seq<string>) returns (cleaned: seq<string>)
    ensures cleaned == NonBlank(paragraphs)
  {
    cleaned := [];
    for i := 0 to |paragraphs|
      invariant cleaned == NonBlank(paragraphs[..i])
    {
      assert paragraphs[..i + 1][..i] == paragraphs[..i];
      if Strip(paragraphs[i]) != [] {
        cleaned := cleaned + [paragraphs[i]];
      }
    }
    assert paragraphs[..|paragraphs|] == paragraphs;
  }

  /** The retry loop of the document branch. */
  method ExtractWithRetry(inputPath: string, outputPath: string, attempts: seq<Attempt>) returns (r: Report)
    ensures r == DocumentBranch(inputPath, outputPath, attempts)
  {
    var log: seq<LogEntry> := [];
    for attempt := 0 to MaxRetries
      invariant log == FailureTrail(inputPath, attempt)
      invariant forall j :: 0 <= j < attempt ==> AttemptAt(attempts, j).Failed?
    {
      match AttemptAt(attempts, attempt) {
        case Parsed(paragraphs) =>
          var cleaned := CleanParagraphs(paragraphs);
          r := Report(true, Written(JoinLines(cleaned)), log + [DocumentProcessed(outputPath)], attempt + 1);
          return;
        case Failed =>
          log := log + [AttemptFailed(attempt + 1, inputPath)];
      }
    }
    r := Report(false, Untouched, log, MaxRetries);
  }

  /** `remove_blank_lines(input_filepath, output_filepath)`. */
  method RemoveBlankLines(inputPath: string, outputPath: string, text: TextInput, attempts: seq<Attempt>)
    returns (r: Report)
    ensures r == Process(inputPath, outputPath, text, attempts)
  {
    var log := [ProcessingFile(inputPath)];
    var format := Classify(inputPath);
    if format == PlainText {
      match text {
        case Unreadable =>
          r := Report(false, Untouched, log + [ProcessingError(inputPath)], 0);
        case Opened(lines, interrupted) =>
          var written := FilterLines(lines);
          if interrupted {
            r := Report(false, Written(written), log + [ProcessingError(inputPath)], 0);
          } else {
            r := Report(true, Written(written), log + [TextProcessed(outputPath)], 0);
          }
      }
    } else if format == Document {
      var branch := ExtractWithRetry(inputPath, outputPath, attempts);
      r := branch.(log := log + branch.log);
    } else {
      r := Report(false, Untouched, log + [UnsupportedType(inputPath)], 0);
    }
  }

  /** A file of another type is turned away: no parser call, no output, a warning, `False`. */
  lemma UnsupportedIsRejected(inputPath: string, outputPath: string, text: TextInput, attempts: seq<Attempt>)
    requires Classify(inputPath) == Unsupported
    ensures var r := Process(inputPath, outputPath, text, attempts);
      !r.success && r.output == Untouched && r.parses == 0
      && r.log[|r.log| - 1] == UnsupportedType(inputPath) && r.log[|r.log| - 1].Severity() == Warning
  {
  }

  /** Only documents reach the parser, and only documents are retried. */
  lemma OnlyDocumentsAreParsed(inputPath: string, outputPath: string, text: TextInput, attempts: seq<Attempt>)
    ensures Process(inputPath, outputPath, text, attempts).parses > 0 <==> Classify(inputPath) == Document
  {
  }

  /** The text branch: one pass, the non-blank lines written in order, success unless an I/O error is raised. */
  lemma TextBranchOutcome(inputPath: string, outputPath: string, text: TextInput, attempts: seq<Attempt>)
    requires Classify(inputPath) == PlainText
    ensures var r := Process(inputPath, outputPath, text, attempts);
      && r.parses == 0
      && (r.success <==> text.Opened? && !text.interrupted)
      && (text.Unreadable? ==> r.output == Untouched)
      && (text.Opened? ==> r.output == Written(Concat(NonBlank(text.lines))))
  {
  }

  /** A text file read without error is written out cleaned; one without blank lines is copied unchanged. */
  lemma TextFileCleaned(inputPath: string, outputPath: string, content: string, attempts: seq<Attempt>)
    requires Classify(inputPath) == PlainText
    ensures var r := Process(inputPath, outputPath, Opened(SplitLines(content), false), attempts);
      && r.success && r.output == Written(CleanText(content))
      && ((forall k :: 0 <= k < |SplitLines(content)| ==> !IsBlank(SplitLines(content)[k]))
          ==> r.output == Written(content))
  {
    if forall k :: 0 <= k < |SplitLines(content)| ==> !IsBlank(SplitLines(content)[k]) {
      CleanTextRoundTrip(content);
    }
  }

  /** A document is parsed at least once and at most `MaxRetries` times. */
  lemma RetryBound(inputPath: string, outputPath: string, text: TextInput, attempts: seq<Attempt>)
    requires Classify(inputPath) == Document
    ensures 1 <= Process(inputPath, outputPath, text, attempts).parses <= MaxRetries
  {
  }

  /** A document succeeds exactly when one of the first `MaxRetries` parser calls succeeds. */
  lemma DocumentSuccessIff(inputPath: string, outputPath: string, text: TextInput, attempts: seq<Attempt>)
    requires Classify(inputPath) == Document
    ensures Process(inputPath, outputPath, text, attempts).success
            <==> exists i :: 0 <= i < MaxRetries && AttemptAt(attempts, i).Parsed?
  {
  }

  /** On success, the last parser call made is the first that succeeded, and its paragraphs are what is written. */
  lemma FirstSuccessDecides(inputPath: string, outputPath: string, text: TextInput, attempts: seq<Attempt>)
    requires Classify(inputPath) == Document
    requires Process(inputPath, outputPath, text, attempts).success
    ensures var r := Process(inputPath, outputPath, text, attempts);
      var k := r.parses - 1;
      && AttemptAt(attempts, k).Parsed?
      && (forall j :: 0 <= j < k ==> AttemptAt(attempts, j).Failed?)
      && r.output == Written(DocumentText(AttemptAt(attempts, k).paragraphs))
  {
  }

  /** Every entry of the failure trail is an error, one per failed attempt. */
  lemma {:induction false} FailureTrailErrors(path: string, n: nat)
    ensures ErrorCount(FailureTrail(path, n)) == n
    ensures forall k :: 0 <= k < n ==> FailureTrail(path, n)[k] == AttemptFailed(k + 1, path)
    ensures forall k :: 0 <= k < n ==> FailureTrail(path, n)[k].Severity() == Error
  {
    if n > 0 {
      FailureTrailErrors(path, n - 1);
      var t, init := FailureTrail(path, n), FailureTrail(path, n - 1);
      assert t == init + [AttemptFailed(n, path)];
      assert t[..|t| - 1] == init;
      assert t[|t| - 1].Severity() == Error;
      forall k | 0 <= k < n
        ensures t[k] == AttemptFailed(k + 1, path) && t[k].Severity() == Error
      {
        if k < n - 1 {
          assert t[k] == init[k];
        }
      }
    }
  }

  /** The document branch logs one error per failed attempt, then the success entry if there is one. */
  lemma DocumentBranchLog(inputPath: string, outputPath: string, attempts: seq<Attempt>)
    ensures var b := DocumentBranch(inputPath, outputPath, attempts);
      && ErrorCount(b.log) == (if b.success then b.parses - 1 else b.parses)
      && (b.success ==> |b.log| == b.parses && b.log[|b.log| - 1] == DocumentProcessed(outputPath))
      && (!b.success ==> b.output == Untouched && b.parses == MaxRetries)
  {
    match FirstParsed(attempts, MaxRetries)
    case Some(k) =>
      var trail := FailureTrail(inputPath, k);
      FailureTrailErrors(inputPath, k);
      var done := [DocumentProcessed(outputPath)];
      assert ErrorCount(done) == 0 by {
        assert done[..0] == [];
      }
      ErrorCountAppend(trail, done);
    case None =>
      FailureTrailErrors(inputPath, MaxRetries);
  }

  /** For a document the processor runs the document branch after its first log entry. */
  lemma ProcessDocument(inputPath: string, outputPath: string, text: TextInput, attempts: seq<Attempt>)
    requires Classify(inputPath) == Document
    ensures var b := DocumentBranch(inputPath, outputPath, attempts);
      Process(inputPath, outputPath, text, attempts) == b.(log := [ProcessingFile(inputPath)] + b.log)
  {
  }

  /**
   The log of a document holds one error per failed attempt. On success the
   success entry is the last one, after those errors; when every attempt fails
   there are `MaxRetries` errors and the output file is left as it was.
   */
  lemma DocumentLog(inputPath: string, outputPath: string, text: TextInput, attempts: seq<Attempt>)
    requires Classify(inputPath) == Document
    ensures var r := Process(inputPath, outputPath, text, attempts);
      && r.log[0] == ProcessingFile(inputPath)
      && ErrorCount(r.log) == (if r.success then r.parses - 1 else r.parses)
      && (r.success ==> r.log[|r.log| - 1] == DocumentProcessed(outputPath)
                        && ErrorCount(r.log[..|r.log| - 1]) == r.parses - 1)
      && (!r.success ==> r.output == Untouched && ErrorCount(r.log) == MaxRetries)
  {
    ProcessDocument(inputPath, outputPath, text, attempts);
    var start := [ProcessingFile(inputPath)];
    assert ErrorCount(start) == 0 by {
      assert start[..0] == [];
    }
    match FirstParsed(attempts, MaxRetries)
    case Some(k) =>
      var trail := FailureTrail(inputPath, k);
      var done := [DocumentProcessed(outputPath)];
      var log := start + trail + done;
      assert DocumentBranch(inputPath, outputPath, attempts).log == trail + done;
      assert start + (trail + done) == log;
      FailureTrailErrors(inputPath, k);
      ErrorCountAppend(start, trail);
      assert ErrorCount(done) == 0 by {
        assert done[..0] == [];
      }
      ErrorCountAppend(start + trail, done);
      assert log[..|log| - 1] == start + trail;
    case None =>
      var trail := FailureTrail(inputPath, MaxRetries);
      assert DocumentBranch(inputPath, outputPath, attempts).log == trail;
      FailureTrailErrors(inputPath, MaxRetries);
      ErrorCountAppend(start, trail);
  }

  /**
   A document whose first two parser calls fail and whose third succeeds is
   processed successfully, with exactly what the third call alone would have
   produced, after exactly two error entries.
   */
  lemma ThirdAttemptSucceeds(inputPath: string, outputPath: string, text: TextInput, paragraphs: seq<string>)
    requires Classify(inputPath) == Document
    ensures var r := Process(inputPath, outputPath, text, [Failed, Failed, Parsed(paragraphs)]);
      && r.success && r.parses == 3
      && r.output == Process(inputPath, outputPath, text, [Parsed(paragraphs)]).output
      && ErrorCount(r.log) == 2 && r.log[|r.log| - 1] == DocumentProcessed(outputPath)
  {
    var attempts := [Failed, Failed, Parsed(paragraphs)];
    assert AttemptAt(attempts, 0).Failed? && AttemptAt(attempts, 1).Failed?;
    assert FirstParsed(attempts, MaxRetries) == Some(2);
    var alone := [Parsed(paragraphs)];
    assert AttemptAt(alone, 0).Parsed? && AttemptAt(alone, 1).Failed? && AttemptAt(alone, 2).Failed?;
    assert FirstParsed(alone, MaxRetries) == Some(0);
    DocumentLog(inputPath, outputPath, text, attempts);
  }

  /** The document output is empty exactly when every paragraph is blank. */
  lemma DocumentTextEmptyIff(paragraphs: seq<string>)
    ensures DocumentText(paragraphs) == [] <==> forall k :: 0 <= k < |paragraphs| ==> IsBlank(paragraphs[k])
  {
    NonBlankEmptyIff(paragraphs);
    var kept := NonBlank(paragraphs);
    if kept != [] {
      assert IsBlank([]);
      assert kept[0] != [];
    }
  }

  /**
   When no paragraph holds a line break and some paragraph is not blank, the
   written text, split at line breaks, gives back the non-blank paragraphs.
   */
  lemma DocumentTextLines(paragraphs: seq<string>)
    requires forall k :: 0 <= k < |paragraphs| ==> '\n' !in paragraphs[k]
    requires exists k :: 0 <= k < |paragraphs| && !IsBlank(paragraphs[k])
    ensures SplitAtBreaks(DocumentText(paragraphs)) == NonBlank(paragraphs)
  {
    NonBlankEmptyIff(paragraphs);
    NonBlankAtKeptIndices(paragraphs);
    SplitJoinLines(NonBlank(paragraphs));
  }

  /** Success is reported exactly when the last log entry of the call is a success entry. */
  lemma SuccessMatchesLog(inputPath: string, outputPath: string, text: TextInput, attempts: seq<Attempt>)
    ensures var r := Process(inputPath, outputPath, text, attempts);
      && |r.log| >= 2 && r.log[0] == ProcessingFile(inputPath)
      && (r.success <==> r.log[|r.log| - 1] in {TextProcessed(outputPath), DocumentProcessed(outputPath)})
  {
    if Classify(inputPath) == Document && FirstParsed(attempts, MaxRetries).None? {
      FailureTrailErrors(inputPath, MaxRetries);
    }
  }
}
