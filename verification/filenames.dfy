/** File names and paths of the pipeline.

    An input file is named `daily_papers_<token>.json`; its summary is written as
    `data/output/daily_papers_summary_<token>.md`. The token is recovered from the
    input name with two `str.split` calls: the segment after the last `_`, cut at its
    first `.`. */
module FileNames {

  /** The number of characters at the end of `s` that are not `sep`. */
  function TailWithout(s: string, sep: char): (n: nat)
    ensures n <= |s| && (n == |s| || s[|s| - n - 1] == sep)
    ensures forall i :: |s| - n <= i < |s| ==> s[i] != sep
  {
    if s == [] || s[|s| - 1] == sep then 0 else 1 + TailWithout(s[..|s| - 1], sep)
  }

  /** The number of characters at the start of `s` that are not `sep`. */
  function HeadWithout(s: string, sep: char): (n: nat)
    ensures n <= |s| && (n == |s| || s[n] == sep)
    ensures forall i :: 0 <= i < n ==> s[i] != sep
  {
    if s == [] || s[0] == sep then 0 else 1 + HeadWithout(s[1..], sep)
  }

  /** `s.split(sep)[-1]`: the part of `s` after the last `sep` (all of `s` without one). */
  function AfterLast(s: string, sep: char): string {
    s[|s| - TailWithout(s, sep)..]
  }

  /** `s.split(sep)[0]`: the part of `s` before the first `sep` (all of `s` without one). */
  function BeforeFirst(s: string, sep: char): string {
    s[..HeadWithout(s, sep)]
  }

  /** `os.path.basename(path)` on POSIX: what follows the last `/`. */
  function Basename(path: string): string {
    AfterLast(path, '/')
  }

  const SummaryPrefix := "daily_papers_summary_"
  const InputDir := "data/input"
  const OutputDir := "data/output"

  /** The date token of an input file name: what `get_output_filename` keeps. */
  function DateToken(inputFilename: string): (token: string)
    ensures '_' !in token && '.' !in token
  {
    var seg := AfterLast(inputFilename, '_');
    BeforeFirst(seg, '.')
  }

  /** `get_output_filename(input_filename)`. */
  function OutputFilename(inputFilename: string): (r: string)
    ensures |r| >= |SummaryPrefix| + 3
    ensures r[..|SummaryPrefix|] == SummaryPrefix && r[|r| - 3..] == ".md"
    ensures var token := r[|SummaryPrefix|..|r| - 3]; '_' !in token && '.' !in token
  {
    var token := DateToken(inputFilename);
    var r := SummaryPrefix + token + ".md";
    assert r[|SummaryPrefix|..|r| - 3] == token;
    r
  }

  /** `os.path.join(input_dir, name)` for a name listed in the input directory: the
      base name of the path is the listed name again. */
  function InputPath(name: string): string {
    InputDir + "/" + name
  }

  /** The path `process_daily_papers` writes the summary of `inputFile` to: directly
      inside `data/output`, under the name `get_output_filename` gives the base name
      of the input. */
  function OutputPath(inputFile: string): string {
    OutputDir + "/" + OutputFilename(Basename(inputFile))
  }

  /** `(prefix + sep + tail).split(sep)[-1] == tail` when `tail` has no `sep`, and a
      text without `sep` is its own last segment. */
  lemma AfterLastOfTail(prefix: string, sep: char, tail: string)
    requires sep !in tail
    ensures AfterLast(prefix + [sep] + tail, sep) == tail
    ensures AfterLast(tail, sep) == tail
  {
    assert TailWithout(tail, sep) == |tail|;
    var s := prefix + [sep] + tail;
    assert forall i :: |s| - |tail| <= i < |s| ==> s[i] == tail[i - (|s| - |tail|)];
    assert s[|s| - |tail| - 1] == sep;
    assert TailWithout(s, sep) == |tail|;
  }

  /** `(head + sep + rest).split(sep)[0] == head` when `head` has no `sep`, and a
      text without `sep` is its own first segment. */
  lemma BeforeFirstOfHead(head: string, sep: char, rest: string)
    requires sep !in head
    ensures BeforeFirst(head + [sep] + rest, sep) == head
    ensures BeforeFirst(head, sep) == head
  {
    assert HeadWithout(head, sep) == |head|;
    var s := head + [sep] + rest;
    assert forall i :: 0 <= i < |head| ==> s[i] == head[i];
    assert s[|head|] == sep;
    assert HeadWithout(s, sep) == |head|;
  }

  /** The naming convention round-trips: an input `daily_papers_<token>.json` whose
      token holds no `_` and no `.` gives `daily_papers_summary_<token>.md`. */
  lemma OutputFilenameOfInputName(token: string)
    requires '_' !in token && '.' !in token
    ensures OutputFilename("daily_papers_" + token + ".json") == SummaryPrefix + token + ".md"
  {
    var name := "daily_papers_" + token + ".json";
    assert name == "daily_papers" + ['_'] + (token + ".json");
    AfterLastOfTail("daily_papers", '_', token + ".json");
    assert token + ".json" == token + ['.'] + "json";
    BeforeFirstOfHead(token, '.', "json");
  }

  /** The example of the naming convention. */
  lemma OutputFilenameExample(name: string)
    requires name == "daily_papers_20240101.json"
    ensures OutputFilename(name) == "daily_papers_summary_20240101.md"
  {
    var token := "20240101";
    ExampleSpelling(token);
    OutputFilenameOfInputName(token);
  }

  lemma ExampleSpelling(token: string)
    requires token == "20240101"
    ensures "daily_papers_" + token + ".json" == "daily_papers_20240101.json"
    ensures SummaryPrefix + token + ".md" == "daily_papers_summary_20240101.md"
  {
  }

  /** A summary name maps to itself, so a summary file handed to the pipeline as its
      input would be looked for at its own path. */
  lemma OutputFilenameIdempotent(inputFilename: string)
    ensures OutputFilename(OutputFilename(inputFilename)) == OutputFilename(inputFilename)
  {
    var token := DateToken(inputFilename);
    var name := SummaryPrefix + token + ".md";
    assert name == "daily_papers_summary" + ['_'] + (token + ".md");
    AfterLastOfTail("daily_papers_summary", '_', token + ".md");
    assert token + ".md" == token + ['.'] + "md";
    BeforeFirstOfHead(token, '.', "md");
  }

  /** No output path is an input path: the two directories differ. */
  lemma OutputPathIsNotInputPath(inputFile: string, name: string)
    ensures OutputPath(inputFile) != InputPath(name)
  {
    assert OutputPath(inputFile)[5] == 'o';
    assert InputPath(name)[5] == 'i';
  }

  /** `os.path.basename(os.path.join(input_dir, name))` is the listed name again. */
  lemma BasenameOfInputPath(name: string)
    requires '/' !in name
    ensures Basename(InputPath(name)) == name
  {
    assert InputPath(name) == InputDir + ['/'] + name;
    AfterLastOfTail(InputDir, '/', name);
  }

  /** The summary lands directly inside `data/output`, under the name
      `get_output_filename` gives the base name of the input. */
  lemma OutputPathLayout(inputFile: string)
    ensures |OutputPath(inputFile)| > |OutputDir| + 1
    ensures OutputPath(inputFile)[..|OutputDir| + 1] == OutputDir + "/"
    ensures Basename(OutputPath(inputFile)) == OutputFilename(Basename(inputFile))
  {
    var b := Basename(inputFile);
    NoSlashInBasename(inputFile);
    var name := OutputFilename(b);
    NoSlashInOutputFilename(b);
    assert OutputPath(inputFile) == OutputDir + ['/'] + name;
    AfterLastOfTail(OutputDir, '/', name);
  }

  lemma NoSlashInBasename(path: string)
    ensures '/' !in Basename(path)
  {
    var r := Basename(path);
    assert forall i :: 0 <= i < |r| ==> r[i] == path[|path| - |r| + i];
  }

  lemma NoSlashInOutputFilename(b: string)
    requires '/' !in b
    ensures '/' !in OutputFilename(b)
  {
    var seg := AfterLast(b, '_');
    assert forall i :: 0 <= i < |seg| ==> seg[i] == b[|b| - |seg| + i];
    var token := BeforeFirst(seg, '.');
    assert forall i :: 0 <= i < |token| ==> token[i] == seg[i];
    assert '/' !in token;
    assert OutputFilename(b) == SummaryPrefix + token + ".md";
  }

  /** Distinct names give distinct input paths. */
  lemma InputPathInjective(a: string, b: string)
    requires a != b
    ensures InputPath(a) != InputPath(b)
  {
    var dir := InputDir + "/";
    assert InputPath(a)[|dir|..] == a;
    assert InputPath(b)[|dir|..] == b;
  }
}
