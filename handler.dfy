/**
 `FileEventHandler.on_created`: ignore directories and files without a
 supported extension, derive the output path in the output folder, run the
 processor and log its outcome. Paths are POSIX paths.
 */
module Handler {
  import opened Wrappers
  import opened Text
  import opened Logging
  import opened Processor

  /** `os.path.basename`: what follows the last `/`. */
  function Basename(path: string): string {
    if path == [] || path[|path| - 1] == '/' then []
    else Basename(path[..|path| - 1]) + [path[|path| - 1]]
  }

  /** The basename is the longest suffix without a `/`. */
  lemma {:induction false} BasenameSpec(path: string)
    ensures '/' !in Basename(path)
    ensures |Basename(path)| <= |path| && Basename(path) == path[|path| - |Basename(path)|..]
    ensures |Basename(path)| < |path| ==> path[|path| - |Basename(path)| - 1] == '/'
    decreases |path|
  {
    if path != [] && path[|path| - 1] != '/' {
      var init := path[..|path| - 1];
      BasenameSpec(init);
      var b := Basename(init);
      assert Basename(path) == b + [path[|path| - 1]];
      assert path[|path| - |b| - 1..] == init[|init| - |b|..] + [path[|path| - 1]];
      if |b| < |init| {
        assert path[|path| - |b| - 2] == init[|init| - |b| - 1];
      }
    }
  }

  /** `os.path.join(folder, name)`. */
  function PathJoin(folder: string, name: string): string {
    if name != [] && name[0] == '/' then name
    else if folder == [] || folder[|folder| - 1] == '/' then folder + name
    else folder + "/" + name
  }

  /** A name without `/` placed after a directory prefix is that path's basename. */
  lemma {:induction false} BasenameAfterSeparator(prefix: string, name: string)
    requires prefix == [] || prefix[|prefix| - 1] == '/'
    requires '/' !in name
    ensures Basename(prefix + name) == name
    decreases |name|
  {
    if name == [] {
      assert prefix + name == prefix;
    } else {
      var init := name[..|name| - 1];
      assert (prefix + name)[..|prefix + name| - 1] == prefix + init;
      BasenameAfterSeparator(prefix, init);
      assert init + [name[|name| - 1]] == name;
    }
  }

  /** Joining a folder and a relative name without `/`: the result lies in the folder and has that basename. */
  lemma JoinPlacesInFolder(folder: string, name: string)
    requires name != [] && '/' !in name
    ensures Basename(PathJoin(folder, name)) == name
    ensures |folder| < |PathJoin(folder, name)| && PathJoin(folder, name)[..|folder|] == folder
    ensures PathJoin(folder, name) == folder + name || PathJoin(folder, name) == folder + "/" + name
  {
    if folder == [] || folder[|folder| - 1] == '/' {
      BasenameAfterSeparator(folder, name);
    } else {
      BasenameAfterSeparator(folder + "/", name);
      assert folder + "/" + name == (folder + "/") + name;
    }
  }

  /** `f"cleaned_{filename}.txt"`. */
  function OutputName(srcPath: string): string {
    "cleaned_" + Basename(srcPath) + ".txt"
  }

  /** `os.path.join(self.output_folder, f"cleaned_{filename}.txt")`. */
  function OutputPath(outputFolder: string, srcPath: string): string {
    PathJoin(outputFolder, OutputName(srcPath))
  }

  /** The output name is a plain name (no `/`) ending in `.txt`. */
  lemma OutputNameIsPlain(srcPath: string)
    ensures '/' !in OutputName(srcPath)
    ensures |OutputName(srcPath)| >= 4 && OutputName(srcPath)[|OutputName(srcPath)| - 4..] == ".txt"
  {
    BasenameSpec(srcPath);
    var base := Basename(srcPath);
    var name := OutputName(srcPath);
    assert name == "cleaned_" + base + ".txt";
    forall i | 0 <= i < |name|
      ensures name[i] != '/'
    {
      if 8 <= i < |name| - 4 {
        assert name[i] == base[i - 8];
      }
    }
  }

  /**
   The output file is `cleaned_<basename>.txt` inside the output folder: the
   original extension is kept and `.txt` is appended.
   */
  lemma OutputPathShape(outputFolder: string, srcPath: string)
    ensures Basename(OutputPath(outputFolder, srcPath)) == "cleaned_" + Basename(srcPath) + ".txt"
    ensures OutputPath(outputFolder, srcPath)[..|outputFolder|] == outputFolder
    ensures OutputPath(outputFolder, srcPath) == outputFolder + OutputName(srcPath)
            || OutputPath(outputFolder, srcPath) == outputFolder + "/" + OutputName(srcPath)
  {
    OutputNameIsPlain(srcPath);
    JoinPlacesInFolder(outputFolder, OutputName(srcPath));
  }

  /** The output path ends in `.txt`, so the processor would treat the output as a text file. */
  lemma OutputIsPlainText(outputFolder: string, srcPath: string)
    ensures Classify(OutputPath(outputFolder, srcPath)) == PlainText
  {
    OutputEndsWithTxt(outputFolder, srcPath);
    LowerCaseTxtIsPlainText(OutputPath(outputFolder, srcPath));
  }

  /** The output path ends in `.txt`, whatever the source path's extension. */
  lemma OutputEndsWithTxt(outputFolder: string, srcPath: string)
    ensures EndsWith(OutputPath(outputFolder, srcPath), ".txt")
  {
    var name := OutputName(srcPath);
    var out := OutputPath(outputFolder, srcPath);
    OutputNameIsPlain(srcPath);
    JoinPlacesInFolder(outputFolder, name);
    BasenameSpec(out);
    assert out[|out| - 4..] == name[|name| - 4..];
  }

  /** `notes.txt` in the input folder becomes `cleaned_notes.txt.txt` in the output folder. */
  lemma OutputPathExample(outputFolder: string, srcPath: string)
    requires outputFolder == "output_folder" && srcPath == "input_folder/notes.txt"
    ensures OutputPath(outputFolder, srcPath) == "output_folder/cleaned_notes.txt.txt"
  {
    assert srcPath == "input_folder/" + "notes.txt";
    OutputPathInFolder(outputFolder, "input_folder/", "notes.txt");
  }

  /** A file `dir/name` is written to `folder/cleaned_name.txt` when `folder` does not end in `/`. */
  lemma OutputPathInFolder(folder: string, dir: string, name: string)
    requires folder != [] && folder[|folder| - 1] != '/'
    requires dir == [] || dir[|dir| - 1] == '/'
    requires '/' !in name
    ensures OutputPath(folder, dir + name) == folder + "/" + "cleaned_" + name + ".txt"
  {
    BasenameAfterSeparator(dir, name);
  }

  /** `filepath.lower().endswith(('.txt', '.doc', '.docx'))`. */
  predicate HasSupportedExtension(path: string) {
    var p := Lower(path);
    EndsWith(p, ".txt") || EndsWith(p, ".doc") || EndsWith(p, ".docx")
  }

  /** The handler's extension filter accepts exactly the paths the processor does not turn away. */
  lemma FilterMatchesProcessor(path: string)
    ensures HasSupportedExtension(path) <==> Classify(path) != Unsupported
  {
  }

  /** The document branch logs only errors and the success entry. */
  lemma DocumentBranchNoWarning(inputPath: string, outputPath: string, attempts: seq<Attempt>)
    ensures var b := DocumentBranch(inputPath, outputPath, attempts);
      forall k :: 0 <= k < |b.log| ==> b.log[k].Severity() != Warning
  {
    match FirstParsed(attempts, MaxRetries)
    case Some(j) =>
      var done := [DocumentProcessed(outputPath)];
      assert done[0].Severity() == Info;
      NoWarningAfterTrail(inputPath, j, done);
      assert DocumentBranch(inputPath, outputPath, attempts).log == FailureTrail(inputPath, j) + done;
    case None =>
      NoWarningAfterTrail(inputPath, MaxRetries, []);
      assert FailureTrail(inputPath, MaxRetries) + [] == FailureTrail(inputPath, MaxRetries);
  }

  /** Failure entries followed by entries that are not warnings hold no warning. */
  lemma NoWarningAfterTrail(path: string, n: nat, tail: seq<LogEntry>)
    requires forall k :: 0 <= k < |tail| ==> tail[k].Severity() != Warning
    ensures var log := FailureTrail(path, n) + tail;
      forall k :: 0 <= k < |log| ==> log[k].Severity() != Warning
  {
    var trail := FailureTrail(path, n);
    FailureTrailErrors(path, n);
    forall k | 0 <= k < |trail + tail|
      ensures (trail + tail)[k].Severity() != Warning
    {
      if k < |trail| {
        assert (trail + tail)[k] == trail[k];
      } else {
        assert (trail + tail)[k] == tail[k - |trail|];
      }
    }
  }

  /** A processor call on a supported path never logs a warning, so the unsupported-type warning cannot come from the handler. */
  lemma NoWarningForSupported(inputPath: string, outputPath: string, text: TextInput, attempts: seq<Attempt>)
    requires Classify(inputPath) != Unsupported
    ensures var r := Process(inputPath, outputPath, text, attempts);
      forall k :: 0 <= k < |r.log| ==> r.log[k].Severity() != Warning
  {
    var branch := if Classify(inputPath) == PlainText then TextBranch(inputPath, outputPath, text)
                  else DocumentBranch(inputPath, outputPath, attempts);
    assert Process(inputPath, outputPath, text, attempts).log == [ProcessingFile(inputPath)] + branch.log;
    DocumentBranchNoWarning(inputPath, outputPath, attempts);
  }

  /** A creation notification: the new entry's path and whether it is a directory. */
  datatype CreatedEvent = CreatedEvent(srcPath: string, isDirectory: bool)

  /** A processor call made by the handler: the output path it derived and the processor's report. */
  datatype Invocation = Invocation(outputPath: string, report: Report)

  class FileEventHandler {
    const inputFolder: string
    const outputFolder: string

    constructor (inputFolder: string, outputFolder: string)
      ensures this.inputFolder == inputFolder && this.outputFolder == outputFolder
    {
      this.inputFolder := inputFolder;
      this.outputFolder := outputFolder;
    }

    /**
     `on_created(event)`: the processor runs exactly for a non-directory with a
     supported extension, on the derived output path; ignored events log nothing.
     */
    method OnCreated(event: CreatedEvent, text: TextInput, attempts: seq<Attempt>)
      returns (call: Option<Invocation>, log: seq<LogEntry>)
      ensures call.Some? <==> !event.isDirectory && HasSupportedExtension(event.srcPath)
      ensures call.None? ==> log == []
      ensures call.Some? ==>
        var out := OutputPath(outputFolder, event.srcPath);
        var r := Process(event.srcPath, out, text, attempts);
        && call.value == Invocation(out, r)
        && log == [EventDetected(event.srcPath)] + r.log
                  + [if r.success then Saved(out) else ProcessingFailed(event.srcPath)]
        && forall k :: 0 <= k < |r.log| ==> r.log[k].Severity() != Warning
    {
      if event.isDirectory {
        return None, [];
      }
      var path := event.srcPath;
      if !HasSupportedExtension(path) {
        return None, [];
      }
      log := [EventDetected(path)];
      var filename := Basename(path);
      var out := PathJoin(outputFolder, "cleaned_" + filename + ".txt");
      var r := RemoveBlankLines(path, out, text, attempts);
      NoWarningForSupported(path, out, text, attempts);
      if r.success {
        log := log + r.log + [Saved(out)];
      } else {
        log := log + r.log + [ProcessingFailed(path)];
      }
      call := Some(Invocation(out, r));
    }
  }
}
