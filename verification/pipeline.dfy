/** Converting input files to summary files on disk (`process_daily_papers`,
    `process_all_files`).

    The disk is a map from path to contents plus a set of directory paths; a path
    exists when it is either. Parsing a file's JSON text is the parameter `decode`,
    a function from contents to the batch of records it holds. */
module Pipeline {
  import opened Wrappers
  import opened FileNames
  import opened Markdown
  import opened Text

  datatype FsState = FsState(files: map<string, string>, dirs: set<string>)

  /** `os.path.exists(path)`. */
  predicate Exists(fs: FsState, path: string) {
    path in fs.files || path in fs.dirs
  }

  /** `os.makedirs('data/output', exist_ok=True)` succeeds: no plain file stands
      where one of the two directories belongs. */
  predicate CanMakeOutputDir(fs: FsState) {
    "data" !in fs.files && OutputDir !in fs.files
  }

  /** The message returned for an empty batch. */
  function WarningMessage(inputFile: string): string {
    "Warning: " + inputFile + " is empty. No markdown file will be created."
  }

  /** The warning names the file right after `Warning: `, so warnings about
      different files differ. */
  lemma WarningNamesFile(inputFile: string, other: string)
    ensures OccursAt(WarningMessage(inputFile), inputFile, 9)
    ensures WarningMessage(inputFile) == WarningMessage(other) ==> inputFile == other
  {
    var w, v := WarningMessage(inputFile), WarningMessage(other);
    assert w[9..9 + |inputFile|] == inputFile;
    if w == v {
      assert |inputFile| == |other|;
      assert v[9..9 + |other|] == other;
    }
  }

  /** The disk after `process_daily_papers(inputFile)` on a file holding `batch`,
      and what the call returns. */
  function Process(fs: FsState, inputFile: string, batch: seq<Article>): (r: (FsState, Option<string>))
    requires inputFile in fs.files && WellFormedBatch(batch)
    requires batch != [] ==> CanMakeOutputDir(fs)
    ensures CanMakeOutputDir(fs) ==> CanMakeOutputDir(r.0)
    ensures fs.dirs <= r.0.dirs
    ensures r.1.Some? <==> batch == []
  {
    OutputPathIsNoDir(inputFile);
    Outcome(fs, inputFile, OutputPath(inputFile), Render(batch))
  }

  /** The same, given the rendered document (`None` for an empty batch) and the
      output path. */
  function Outcome(fs: FsState, inputFile: string, out: string, rendered: Option<string>): (r: (FsState, Option<string>))
    requires inputFile in fs.files
    requires out != "data" && out != OutputDir
    requires rendered.Some? ==> CanMakeOutputDir(fs)
    ensures CanMakeOutputDir(fs) ==> CanMakeOutputDir(r.0)
    ensures fs.dirs <= r.0.dirs
    ensures r.1.Some? <==> rendered.None?
  {
    match rendered
    case None =>
      (FsState(fs.files - {inputFile}, fs.dirs), Some(WarningMessage(inputFile)))
    case Some(md) =>
      var dirs := fs.dirs + {"data", OutputDir};
      if out in fs.files || out in dirs then (FsState(fs.files, dirs), None)
      else (FsState(fs.files[out := md], dirs), None)
  }

  lemma OutputPathIsNoDir(inputFile: string)
    ensures OutputPath(inputFile) != "data" && OutputPath(inputFile) != OutputDir
  {
    assert |OutputPath(inputFile)| > |OutputDir|;
  }

  /** A disk whose files and directories can be changed in place. */
  class FileSystem {
    var files: map<string, string>
    var dirs: set<string>

    constructor (files: map<string, string>, dirs: set<string>)
      ensures State() == FsState(files, dirs)
    {
      this.files := files;
      this.dirs := dirs;
    }

    function State(): FsState
      reads this
    {
      FsState(files, dirs)
    }

    /** `process_daily_papers(inputFile)`. */
    method ProcessDailyPapers(inputFile: string, decode: string -> seq<Article>) returns (msg: Option<string>)
      requires inputFile in files && WellFormedBatch(decode(files[inputFile]))
      requires decode(files[inputFile]) != [] ==> CanMakeOutputDir(State())
      modifies this
      ensures (State(), msg) == Process(old(State()), inputFile, decode(old(files[inputFile])))
    {
      var data := decode(files[inputFile]);
      var markdownOutput := JsonToMarkdown(data);
      if markdownOutput == None {
        var warning := "Warning: " + inputFile + " is empty. No markdown file will be created.";
        files := files - {inputFile};
        return Some(warning);
      }
      var outputFilename := OutputFilename(Basename(inputFile));
      dirs := dirs + {"data", OutputDir};
      var outputPath := OutputDir + "/" + outputFilename;
      if outputPath in files || outputPath in dirs {
        return None;
      }
      files := files[outputPath := markdownOutput.value];
      return None;
    }

    /** `process_all_files()`, given the listing of `data/input`. */
    method ProcessAllFiles(names: seq<string>, decode: string -> seq<Article>)
      requires Listing(State(), names)
      requires Ready(State(), names, decode)
      modifies this
      ensures State() == ProcessAll(old(State()), names, decode)
    {
      if names == [] {
        return;
      }
      for i := 0 to |names|
        invariant Ready(State(), names[i..], decode)
        invariant ProcessAll(State(), names[i..], decode) == ProcessAll(old(State()), names, decode)
      {
        var inputPath := InputDir + "/" + names[i];
        assert names[i..][0] == names[i] && names[i..][1..] == names[i + 1..];
        ProcessKeepsReady(State(), names[i..], decode);
        var _ := ProcessDailyPapers(inputPath, decode);
      }
    }
  }

  // ---------------------------------------------------------------------------
  // One file

  /** What one call does to the disk, for any rendered document and output path. */
  lemma OutcomeFacts(fs: FsState, inputFile: string, out: string, rendered: Option<string>)
    requires inputFile in fs.files && out != "data" && out != OutputDir
    requires rendered.Some? ==> CanMakeOutputDir(fs)
    ensures var (fs', msg) := Outcome(fs, inputFile, out, rendered);
      && fs.dirs <= fs'.dirs
      && (forall q :: q in fs'.files ==> q in fs.files || q == out)
      && (forall q :: q in fs.files && q != inputFile ==> q in fs'.files && fs'.files[q] == fs.files[q])
      && (rendered.None? ==>
            inputFile !in fs'.files && fs'.dirs == fs.dirs && msg == Some(WarningMessage(inputFile)))
      && (rendered.Some? ==>
            && inputFile in fs'.files && fs'.files[inputFile] == fs.files[inputFile]
            && Exists(fs', out) && fs'.dirs == fs.dirs + {"data", OutputDir} && msg == None)
      && (rendered.Some? && !Exists(fs, out) ==> out in fs'.files && fs'.files[out] == rendered.value)
  {
  }

  /** An empty batch: the input file is deleted, nothing else changes, and the
      warning naming the file is returned. */
  lemma ProcessEmptyBatch(fs: FsState, inputFile: string)
    requires inputFile in fs.files
    ensures var (fs', msg) := Process(fs, inputFile, []);
      && fs'.files == fs.files - {inputFile}
      && fs'.dirs == fs.dirs
      && msg == Some("Warning: " + inputFile + " is empty. No markdown file will be created.")
  {
    OutputPathIsNoDir(inputFile);
    OutcomeFacts(fs, inputFile, OutputPath(inputFile), None);
    var fs' := Process(fs, inputFile, []).0;
    assert fs'.files == fs.files - {inputFile};
  }

  /** A non-empty batch: the input file stays as it was, both output directories
      exist afterwards, and nothing is returned. */
  lemma ProcessKeepsInput(fs: FsState, inputFile: string, batch: seq<Article>)
    requires inputFile in fs.files && WellFormedBatch(batch) && CanMakeOutputDir(fs)
    requires batch != []
    ensures var (fs', msg) := Process(fs, inputFile, batch);
      && inputFile in fs'.files && fs'.files[inputFile] == fs.files[inputFile]
      && "data" in fs'.dirs && OutputDir in fs'.dirs
      && msg == None
  {
    OutputPathIsNoDir(inputFile);
    OutcomeFacts(fs, inputFile, OutputPath(inputFile), Render(batch));
  }

  /** No file that was on the disk is ever overwritten, and apart from the input
      file of an empty batch none disappears. */
  lemma ProcessNeverOverwrites(fs: FsState, inputFile: string, batch: seq<Article>)
    requires inputFile in fs.files && WellFormedBatch(batch)
    requires batch != [] ==> CanMakeOutputDir(fs)
    ensures var fs' := Process(fs, inputFile, batch).0;
      forall q :: q in fs.files && (q != inputFile || batch != []) ==> q in fs'.files && fs'.files[q] == fs.files[q]
    ensures batch != [] && Exists(fs, OutputPath(inputFile)) ==> Process(fs, inputFile, batch).0.files == fs.files
  {
    OutputPathIsNoDir(inputFile);
    OutcomeFacts(fs, inputFile, OutputPath(inputFile), Render(batch));
  }

  /** `os.path.exists` is true for a directory too: a directory standing at the
      output path blocks the write just as a file does. */
  lemma DirectoryAtOutputBlocksWrite(fs: FsState, inputFile: string, batch: seq<Article>)
    requires inputFile in fs.files && WellFormedBatch(batch) && CanMakeOutputDir(fs)
    requires batch != [] && OutputPath(inputFile) in fs.dirs
    ensures Exists(fs, OutputPath(inputFile))
    ensures Process(fs, inputFile, batch).0.files == fs.files && Process(fs, inputFile, batch).1 == None
  {
    OutputPathIsNoDir(inputFile);
    OutcomeFacts(fs, inputFile, OutputPath(inputFile), Render(batch));
  }

  /** A non-empty batch whose output path is free: the document is written there. */
  lemma ProcessWritesSummary(fs: FsState, inputFile: string, batch: seq<Article>)
    requires inputFile in fs.files && WellFormedBatch(batch) && CanMakeOutputDir(fs)
    requires batch != [] && !Exists(fs, OutputPath(inputFile))
    ensures var fs' := Process(fs, inputFile, batch).0;
      && fs'.files == fs.files[OutputPath(inputFile) := Render(batch).value]
      && fs'.files[OutputPath(inputFile)]
         == Header(batch[0].paper.publishedAt[..10]) + Sections(batch)
  {
    OutputPathIsNoDir(inputFile);
    OutcomeFacts(fs, inputFile, OutputPath(inputFile), Render(batch));
  }

  /** Processing one input file touches nothing but that file and its output path. */
  lemma ProcessFrame(fs: FsState, inputFile: string, batch: seq<Article>, p: string)
    requires inputFile in fs.files && WellFormedBatch(batch)
    requires batch != [] ==> CanMakeOutputDir(fs)
    requires p != inputFile && p != OutputPath(inputFile)
    ensures var fs' := Process(fs, inputFile, batch).0;
      (p in fs'.files <==> p in fs.files) && (p in fs.files ==> fs'.files[p] == fs.files[p])
  {
    OutputPathIsNoDir(inputFile);
    OutcomeFrame(fs, inputFile, OutputPath(inputFile), Render(batch), p);
  }

  lemma OutcomeFrame(fs: FsState, inputFile: string, out: string, rendered: Option<string>, p: string)
    requires inputFile in fs.files && out != "data" && out != OutputDir
    requires rendered.Some? ==> CanMakeOutputDir(fs)
    requires p != inputFile && p != out
    ensures var fs' := Outcome(fs, inputFile, out, rendered).0;
      (p in fs'.files <==> p in fs.files) && (p in fs.files ==> fs'.files[p] == fs.files[p])
  {
  }

  /** Running the same file a second time changes nothing more. */
  lemma ProcessIdempotent(fs: FsState, inputFile: string, batch: seq<Article>)
    requires inputFile in fs.files && WellFormedBatch(batch) && CanMakeOutputDir(fs)
    requires batch != []
    ensures var fs' := Process(fs, inputFile, batch).0;
      inputFile in fs'.files && Process(fs', inputFile, batch) == (fs', None)
  {
    OutputPathIsNoDir(inputFile);
    var out := OutputPath(inputFile);
    OutcomeAgain(fs, inputFile, out, Render(batch));
  }

  lemma OutcomeAgain(fs: FsState, inputFile: string, out: string, rendered: Option<string>)
    requires inputFile in fs.files && out != "data" && out != OutputDir && CanMakeOutputDir(fs)
    requires rendered.Some?
    ensures var fs' := Outcome(fs, inputFile, out, rendered).0;
      inputFile in fs'.files && CanMakeOutputDir(fs') && Outcome(fs', inputFile, out, rendered) == (fs', None)
  {
    OutcomeFacts(fs, inputFile, out, rendered);
    var fs' := Outcome(fs, inputFile, out, rendered).0;
    assert fs'.dirs + {"data", OutputDir} == fs'.dirs;
  }

  // ---------------------------------------------------------------------------
  // Several files in a row

  /** `names` is the sorted listing of the `.json` entries of `data/input`. */
  ghost predicate Listing(fs: FsState, names: seq<string>) {
    && (forall i, j :: 0 <= i < j < |names| ==> LexLess(names[i], names[j]))
    && (forall i :: 0 <= i < |names| ==> IsEntryName(names[i]) && EndsWith(names[i], ".json"))
    && (forall n :: IsEntryName(n) && EndsWith(n, ".json") && InputPath(n) in fs.files ==> n in names)
  }

  /** A name `os.listdir` can return: no directory separator in it. */
  predicate IsEntryName(n: string) {
    n != [] && '/' !in n
  }

  predicate EndsWith(s: string, suffix: string) {
    |suffix| <= |s| && s[|s| - |suffix|..] == suffix
  }

  /** Python's ordering of `str` values: code point by code point, a proper prefix first. */
  predicate LexLess(a: string, b: string) {
    if a == [] then b != []
    else if b == [] then false
    else if a[0] != b[0] then a[0] < b[0]
    else LexLess(a[1..], b[1..])
  }

  lemma {:induction false} LexLessIrreflexive(a: string)
    ensures !LexLess(a, a)
  {
    if a != [] {
      LexLessIrreflexive(a[1..]);
    }
  }

  /** A sorted listing names no file twice. */
  lemma ListingIsDistinct(fs: FsState, names: seq<string>)
    requires Listing(fs, names)
    ensures forall i, j :: 0 <= i < j < |names| ==> names[i] != names[j]
  {
    forall i, j | 0 <= i < j < |names|
      ensures names[i] != names[j]
    {
      LexLessIrreflexive(names[i]);
    }
  }

  /** What running `process_daily_papers` on each listed file needs: the files are
      distinct and present, each holds a batch that renders, and the output
      directory can be made unless every listed batch is empty (an empty batch
      never reaches `makedirs`). */
  predicate Ready(fs: FsState, names: seq<string>, decode: string -> seq<Article>) {
    && (forall i, j :: 0 <= i < j < |names| ==> names[i] != names[j])
    && (forall i :: 0 <= i < |names| ==> InputPath(names[i]) in fs.files)
    && (forall i :: 0 <= i < |names| ==> WellFormedBatch(decode(fs.files[InputPath(names[i])])))
    && (CanMakeOutputDir(fs) || forall i :: 0 <= i < |names| ==> decode(fs.files[InputPath(names[i])]) == [])
  }

  /** The disk after processing the listed files in order. */
  function ProcessAll(fs: FsState, names: seq<string>, decode: string -> seq<Article>): (r: FsState)
    requires Ready(fs, names, decode)
    ensures fs.dirs <= r.dirs
    ensures CanMakeOutputDir(fs) ==> CanMakeOutputDir(r)
    decreases |names|
  {
    if names == [] then fs
    else
      var path := InputPath(names[0]);
      ProcessKeepsReady(fs, names, decode);
      ProcessAll(Process(fs, path, decode(fs.files[path])).0, names[1..], decode)
  }

  /** The input paths of the listed names. */
  ghost function InputPaths(names: seq<string>): set<string> {
    set n | n in names :: InputPath(n)
  }

  /** How one listed input ends up once every file is processed: deleted when its
      batch is empty, otherwise unchanged and with its summary path present. */
  predicate Handled(before: FsState, after: FsState, name: string, decode: string -> seq<Article>) {
    var p := InputPath(name);
    && p in before.files
    && if decode(before.files[p]) == [] then p !in after.files
       else p in after.files && after.files[p] == before.files[p] && Exists(after, OutputPath(p))
  }

  /** What processing `names` in order from `before` leaves in `after`: the inputs
      of empty batches are gone, every other input is unchanged and has its
      summary path present, no file that is not a listed input changed or went
      away, no input file appeared, and no directory went away. */
  ghost predicate AllHandled(before: FsState, after: FsState, names: seq<string>, decode: string -> seq<Article>) {
    && before.dirs <= after.dirs
    && (forall n :: InputPath(n) in after.files ==> InputPath(n) in before.files)
    && (forall q :: q in before.files && q !in InputPaths(names) ==> q in after.files && after.files[q] == before.files[q])
    && (forall i :: 0 <= i < |names| ==> Handled(before, after, names[i], decode))
  }

  /** What one call leaves behind, as far as later calls are concerned. */
  predicate StepEffect(before: FsState, after: FsState, inputFile: string, batch: seq<Article>) {
    && before.dirs <= after.dirs
    && (forall q :: q in after.files ==> q in before.files || q == OutputPath(inputFile))
    && (forall q :: q in before.files && q != inputFile ==> q in after.files && after.files[q] == before.files[q])
    && (batch == [] ==> inputFile !in after.files)
    && (batch != [] ==>
          inputFile in before.files && inputFile in after.files && after.files[inputFile] == before.files[inputFile]
          && Exists(after, OutputPath(inputFile)))
  }

  lemma ProcessStepEffect(fs: FsState, inputFile: string, batch: seq<Article>)
    requires inputFile in fs.files && WellFormedBatch(batch)
    requires batch != [] ==> CanMakeOutputDir(fs)
    ensures StepEffect(fs, Process(fs, inputFile, batch).0, inputFile, batch)
  {
    OutputPathIsNoDir(inputFile);
    OutcomeFacts(fs, inputFile, OutputPath(inputFile), Render(batch));
  }

  /** `process_all_files` handles every listed input as `AllHandled` says. */
  lemma {:induction false} ProcessAllEffect(fs: FsState, names: seq<string>, decode: string -> seq<Article>)
    requires Ready(fs, names, decode)
    ensures AllHandled(fs, ProcessAll(fs, names, decode), names, decode)
    decreases |names|
  {
    if names == [] {
      assert InputPaths(names) == {};
    } else {
      var p := InputPath(names[0]);
      var batch := decode(fs.files[p]);
      ProcessKeepsReady(fs, names, decode);
      var fs1 := Process(fs, p, batch).0;
      ProcessStepEffect(fs, p, batch);
      ProcessAllEffect(fs1, names[1..], decode);
      HandledAfterStep(fs, fs1, ProcessAll(fs1, names[1..], decode), names, decode);
    }
  }

  /** One step followed by the rest of the list handles the whole list. */
  lemma HandledAfterStep(fs: FsState, fs1: FsState, r: FsState, names: seq<string>, decode: string -> seq<Article>)
    requires names != [] && Ready(fs, names, decode)
    requires StepEffect(fs, fs1, InputPath(names[0]), decode(fs.files[InputPath(names[0])]))
    requires AllHandled(fs1, r, names[1..], decode)
    ensures AllHandled(fs, r, names, decode)
  {
    var p := InputPath(names[0]);
    var rest := names[1..];
    forall n | InputPath(n) in r.files
      ensures InputPath(n) in fs.files
    {
      OutputPathIsNotInputPath(p, n);
    }
    forall q | q in fs.files && q !in InputPaths(names)
      ensures q in r.files && r.files[q] == fs.files[q]
    {
      assert q != p && q !in InputPaths(rest);
    }
    forall i | 1 <= i < |names|
      ensures Handled(fs, r, names[i], decode)
    {
      assert names[i] == rest[i - 1];
      InputPathInjective(names[0], names[i]);
    }
    FirstHandled(fs, fs1, r, names, decode);
  }

  lemma FirstHandled(fs: FsState, fs1: FsState, r: FsState, names: seq<string>, decode: string -> seq<Article>)
    requires names != [] && Ready(fs, names, decode)
    requires StepEffect(fs, fs1, InputPath(names[0]), decode(fs.files[InputPath(names[0])]))
    requires AllHandled(fs1, r, names[1..], decode)
    ensures Handled(fs, r, names[0], decode)
  {
    var p := InputPath(names[0]);
    var out := OutputPath(p);
    forall n | n in names[1..]
      ensures InputPath(n) != p && InputPath(n) != out
    {
      var j :| 0 <= j < |names[1..]| && names[1..][j] == n;
      assert n == names[j + 1];
      InputPathInjective(names[0], n);
      OutputPathIsNotInputPath(p, n);
    }
    assert p !in InputPaths(names[1..]) && out !in InputPaths(names[1..]);
  }

  lemma ProcessKeepsReady(fs: FsState, names: seq<string>, decode: string -> seq<Article>)
    requires names != [] && Ready(fs, names, decode)
    ensures Ready(fs, names[1..], decode)
    ensures var path := InputPath(names[0]);
      Ready(Process(fs, path, decode(fs.files[path])).0, names[1..], decode)
  {
    var path := InputPath(names[0]);
    forall i | 1 <= i < |names|
      ensures InputPath(names[i]) != OutputPath(path)
    {
      OutputPathIsNotInputPath(path, names[i]);
    }
    OutputPathIsNoDir(path);
    assert decode(fs.files[path]) != [] ==> CanMakeOutputDir(fs);
    OutcomeKeepsReady(fs, names, decode, OutputPath(path), Render(decode(fs.files[path])));
  }

  lemma OutcomeKeepsReady(fs: FsState, names: seq<string>, decode: string -> seq<Article>, out: string, rendered: Option<string>)
    requires names != [] && Ready(fs, names, decode)
    requires out != "data" && out != OutputDir
    requires rendered.Some? ==> CanMakeOutputDir(fs)
    requires forall i :: 1 <= i < |names| ==> InputPath(names[i]) != out
    ensures Ready(fs, names[1..], decode)
    ensures Ready(Outcome(fs, InputPath(names[0]), out, rendered).0, names[1..], decode)
  {
    var path := InputPath(names[0]);
    var rest := names[1..];
    var fs' := Outcome(fs, path, out, rendered).0;
    forall i | 0 <= i < |rest|
      ensures InputPath(rest[i]) in fs'.files && fs'.files[InputPath(rest[i])] == fs.files[InputPath(rest[i])]
    {
      assert rest[i] == names[i + 1];
      InputPathInjective(names[0], rest[i]);
      OutcomeFrame(fs, path, out, rendered, InputPath(rest[i]));
    }
    forall i, j | 0 <= i < j < |rest|
      ensures rest[i] != rest[j]
    {
      assert rest[i] == names[i + 1] && rest[j] == names[j + 1];
    }
    forall i | 0 <= i < |rest|
      ensures WellFormedBatch(decode(fs'.files[InputPath(rest[i])]))
      ensures !CanMakeOutputDir(fs) ==> decode(fs'.files[InputPath(rest[i])]) == []
    {
      assert rest[i] == names[i + 1];
    }
  }
}
