# Daily papers summary: a Dafny model

This project models the conversion step of a small daily-papers pipeline
(`src/daily_papers_abstract_extractor.py`). An input file
`data/input/daily_papers_<token>.json` holds a batch of paper records. Each record
is a paper (id, title, summary, `publishedAt` timestamp, authors) plus a thumbnail.
The pipeline renders the batch as one Markdown document and writes it to
`data/output/daily_papers_summary_<token>.md`. It deletes the input file when the
batch is empty, and it never overwrites a summary that already exists.

Modules, leaf first:

- `Wrappers`: `Option`, standing in for Python's `None`.
- `Text`: `clean_text`. Newlines become spaces, whitespace runs collapse to one
  space, and the ends are trimmed. Whitespace is the set of code points Python's
  `\s` and `str.strip()` both use.
- `Dates`: the `YYYY-MM-DD` text that `fromisoformat(...).strftime('%Y-%m-%d')`
  gives for the first record's timestamp.
- `FileNames`: `get_output_filename`, `os.path.basename`, and the two directory
  paths.
- `Markdown`: `json_to_markdown`. It is a specification function (`Render`, a fold
  over the batch) plus the loop itself (`JsonToMarkdown`), which is proved equal
  to it. Each iteration of the loop builds the record's section from the same five
  pieces, in the same order, as the source's five `+=` steps. It then appends the
  section in one step.
- `Pipeline`: `process_daily_papers` and `process_all_files` on an abstract disk.
  The disk is a map from path to contents plus a set of directories. The
  specification functions are `Process` and `ProcessAll`. The class `FileSystem`
  holds the disk as fields, and its methods change them in place.

Details of the code the model keeps as written:

- The output directory is created before the existence check (line 78), not only
  when a summary is written.
- Skipping an existing summary and writing a new one both return `None`. There are
  no separate "skipped" and "created" results.
- The image line is always the literal `![image](img)`. The thumbnail is read and
  never used.
- Nothing follows the image line, so the next section's `## ` directly follows
  `![image](img)` on the same line.
- The date token is whatever the two `split` calls leave. It is not checked to be
  `YYYYMMDD`.

## Model

| member | source | states |
|---|---|---|
| Text.ReplaceNewlines | src/daily_papers_abstract_extractor.py:16 | Same length, no `\n` left, every `\n` becomes a space and every other character stays in place |
| Text.CollapseSpaces | src/daily_papers_abstract_extractor.py:18 | `re.sub(r'\s+', ' ', ...)` gives the empty text exactly for the empty text, and starts with whitespace exactly when its input does |
| Text.CollapseIsSingleSpaced | src/daily_papers_abstract_extractor.py:18 | On newline-free text, `re.sub(r'\s+', ' ', ...)` leaves no newline, only plain spaces as whitespace, no two whitespace characters in a row, and the same non-whitespace characters in order |
| Text.CollapseSameSpacing | src/daily_papers_abstract_extractor.py:18 | Collapsing depends only on where the whitespace is, not on which whitespace characters appear |
| Text.Strip | src/daily_papers_abstract_extractor.py:19 | `strip()` is no longer than its input, has no whitespace at either end, and keeps every non-whitespace character in order |
| Text.StripKeepsClean | src/daily_papers_abstract_extractor.py:19 | `strip()` of single-spaced text has no whitespace at either end and loses no non-whitespace character |
| Text.CleanText | src/daily_papers_abstract_extractor.py:14-19 | The result of `clean_text` is clean: no newline, only single spaces, none at the ends. It has the same non-whitespace characters as the input, in the same order |
| Text.CleanTextFixesClean | src/daily_papers_abstract_extractor.py:14-19 | A text that is already clean is returned unchanged |
| Text.CleanTextIdempotent | src/daily_papers_abstract_extractor.py:14-19 | `clean_text(clean_text(s)) == clean_text(s)` |
| Text.CleanTextKeepsNonSpace | src/daily_papers_abstract_extractor.py:16-18 | Removing the spaces from the result gives exactly the input with all whitespace removed |
| Text.WordsAreWords | src/daily_papers_abstract_extractor.py:18 | Every element of the word list is a non-empty run of non-whitespace characters |
| Text.CleanTextIsJoinedWords | src/daily_papers_abstract_extractor.py:14-19 | `clean_text(s) == ' '.join(s.split())`, an independent definition of the same function |
| Text.Join | src/daily_papers_abstract_extractor.py:38 | `sep.join(parts)` is as long as the parts together plus one separator between each two |
| Text.JoinContainsParts | src/daily_papers_abstract_extractor.py:38 | `sep.join(parts)` contains every part |
| Text.JoinSnoc | src/daily_papers_abstract_extractor.py:38 | `sep.join` of one more part adds the separator and that part at the end |
| Dates.Padded | src/daily_papers_abstract_extractor.py:27 | The zero-padded field of `strftime` has exactly the requested number of digits |
| Dates.NumberRoundTrip | src/daily_papers_abstract_extractor.py:26-27 | Padding the value of a digit string to its own length gives back the digit string |
| Dates.FromIsoFormat | src/daily_papers_abstract_extractor.py:26 | The date read from a well-formed timestamp is a valid calendar date |
| Dates.StrfDate | src/daily_papers_abstract_extractor.py:27 | `strftime('%Y-%m-%d')` gives ten characters, with `-` at positions 4 and 7 |
| Dates.FromIsoFormatRoundTrip | src/daily_papers_abstract_extractor.py:26-27 | Formatting the parsed date gives back the first ten characters of the timestamp |
| Dates.ReplaceZSpec | src/daily_papers_abstract_extractor.py:26 | `replace('Z', '+00:00')` leaves no `Z`, and returns a text without `Z` unchanged |
| Dates.ReplaceZConcat | src/daily_papers_abstract_extractor.py:26 | `replace('Z', '+00:00')` works piecewise over a concatenation |
| Dates.ReplaceZKeepsDate | src/daily_papers_abstract_extractor.py:26 | Replacing the UTC designator leaves the date part, and its validity, unchanged |
| Dates.DateString | src/daily_papers_abstract_extractor.py:26-27 | The header date is exactly the `YYYY-MM-DD` prefix of `publishedAt`. No time-zone conversion happens |
| FileNames.AfterLastOfTail | src/daily_papers_abstract_extractor.py:53 | `split(sep)[-1]` of a text ending in `sep` + a `sep`-free tail is that tail, and a `sep`-free text is its own last segment |
| FileNames.BeforeFirstOfHead | src/daily_papers_abstract_extractor.py:53 | `split(sep)[0]` of a `sep`-free head + `sep` + anything is that head, and a `sep`-free text is its own first segment |
| FileNames.DateToken | src/daily_papers_abstract_extractor.py:53 | The kept token contains no `_` and no `.` |
| FileNames.OutputFilename | src/daily_papers_abstract_extractor.py:51-54 | The result is `daily_papers_summary_` + token + `.md`, and the token contains no `_` and no `.` |
| FileNames.OutputFilenameOfInputName | src/daily_papers_abstract_extractor.py:51-54 | `daily_papers_<token>.json` maps to `daily_papers_summary_<token>.md` for every token without `_` or `.` |
| FileNames.OutputFilenameExample | src/daily_papers_abstract_extractor.py:51-54 | `daily_papers_20240101.json` maps to `daily_papers_summary_20240101.md` |
| FileNames.OutputFilenameIdempotent | src/daily_papers_abstract_extractor.py:51-54 | A summary name maps to itself |
| FileNames.BasenameOfInputPath | src/daily_papers_abstract_extractor.py:103 | The base name of `os.path.join('data/input', name)` is `name` again, for a listed name without `/` |
| FileNames.OutputPathLayout | src/daily_papers_abstract_extractor.py:74-81 | The output path lies directly inside `data/output`, and its base name is `get_output_filename` of the input's base name |
| FileNames.OutputPathIsNotInputPath | src/daily_papers_abstract_extractor.py:77-81 | No output path under `data/output` equals an input path under `data/input` |
| FileNames.InputPathInjective | src/daily_papers_abstract_extractor.py:103 | Distinct listed names give distinct input paths |
| Markdown.HeaderLayout | src/daily_papers_abstract_extractor.py:29 | The header holds the date right after `# Daily Papers Summary for `, ends in a blank line, and is a single line when the date has no newline |
| Markdown.Names | src/daily_papers_abstract_extractor.py:37 | The list of author names has one entry per author, in order |
| Markdown.AuthorLineCases | src/daily_papers_abstract_extractor.py:37-38 | No authors gives `Unknown`. One author gives that author's name. Each further author adds `", "` and the name |
| Markdown.AuthorLineNamesAll | src/daily_papers_abstract_extractor.py:37-38 | The author line contains the name of every author |
| Markdown.Render | src/daily_papers_abstract_extractor.py:21-49 | Returns `None` exactly when the batch is empty. Otherwise returns the header with the first record's `YYYY-MM-DD` followed by the sections of all records |
| Markdown.JsonToMarkdown | src/daily_papers_abstract_extractor.py:21-49 | The loop that appends each record's section returns exactly `Render(batch)` |
| Markdown.SectionsConcat | src/daily_papers_abstract_extractor.py:31-47 | The sections of two batches put together are the sections of the first followed by those of the second |
| Markdown.SectionsSnoc | src/daily_papers_abstract_extractor.py:31-47 | One more record adds exactly its section at the end |
| Markdown.RenderAppend | src/daily_papers_abstract_extractor.py:31-49 | Appending a record to a non-empty batch appends exactly its section to the document |
| Markdown.SectionInOrder | src/daily_papers_abstract_extractor.py:31-47 | Record `i`'s section stands between the sections of the records before it and those after it |
| Markdown.ThumbnailIgnored | src/daily_papers_abstract_extractor.py:36-47 | Batches that differ only in thumbnails render to the same document |
| Markdown.SectionLayout | src/daily_papers_abstract_extractor.py:33-47 | A record's section has the cleaned title as its heading, followed by a blank line. It contains the link line built from the paper id for both links, and it ends with the cleaned summary, a blank line and the image line |
| Markdown.PiecesOfSection | src/daily_papers_abstract_extractor.py:43-47 | For any title, author text, links and summary, the five appended pieces put the title at position 3, the link line in the section, and the summary right before the image line |
| Markdown.SectionEnds | src/daily_papers_abstract_extractor.py:43-47 | A section starts with `## ` and ends with `![image](img)` |
| Markdown.SectionNamesAuthors | src/daily_papers_abstract_extractor.py:44 | A section contains `**Authors:** `, then the author line, then a blank line |
| Markdown.ImageRunsIntoNextHeading | src/daily_papers_abstract_extractor.py:43-47 | With two or more records, the document has `![image](img)## ` at the end of each section but the last, so no newline separates a section from the next heading |
| Markdown.UnknownAndNamedAuthors | src/daily_papers_abstract_extractor.py:37-38 | For records with no authors and with the single author `A`, the document contains `**Authors:** Unknown` and `**Authors:** A` |
| Pipeline.WarningNamesFile | src/daily_papers_abstract_extractor.py:65 | The warning names the input file right after `Warning: `, so warnings about different files differ |
| Pipeline.Outcome | src/daily_papers_abstract_extractor.py:64-90 | The branches after rendering: a warning is returned exactly when the document is `None`. No directory disappears, and the output directories can still be made afterwards. The directory condition is needed only when a document was rendered |
| Pipeline.Process | src/daily_papers_abstract_extractor.py:56-90 | A message is returned exactly when the batch is empty, and no directory disappears. An empty batch needs no condition on `data` and `data/output`, because it returns before `makedirs` |
| Pipeline.FileSystem.ProcessDailyPapers | src/daily_papers_abstract_extractor.py:56-90 | The new disk and the returned value are those `Process` gives for the old disk and the decoded file |
| Pipeline.ProcessEmptyBatch | src/daily_papers_abstract_extractor.py:62-71 | An empty batch deletes the input file and nothing else, creates no directory, and returns the warning naming the file |
| Pipeline.ProcessKeepsInput | src/daily_papers_abstract_extractor.py:73-90 | With a non-empty batch the input file stays unchanged, `data` and `data/output` exist afterwards, and `None` is returned |
| Pipeline.ProcessNeverOverwrites | src/daily_papers_abstract_extractor.py:80-84 | No file on the disk changes or disappears, except the input of an empty batch. When the output path already exists, the files stay exactly as they were |
| Pipeline.DirectoryAtOutputBlocksWrite | src/daily_papers_abstract_extractor.py:82 | `os.path.exists` is true for a directory as well as a file: a directory at the output path also leaves every file unchanged, and `None` is returned |
| Pipeline.ProcessWritesSummary | src/daily_papers_abstract_extractor.py:86-88 | With a free output path, exactly that path gains the rendered document: the dated header followed by the sections |
| Pipeline.ProcessFrame | src/daily_papers_abstract_extractor.py:56-90 | No file other than the input file and its output path is added, removed or changed |
| Pipeline.ProcessIdempotent | src/daily_papers_abstract_extractor.py:56-90 | Running a non-empty batch a second time leaves the disk as the first run left it and returns `None` |
| Pipeline.ListingIsDistinct | src/daily_papers_abstract_extractor.py:95-102 | A sorted listing names no file twice |
| Pipeline.ProcessAll | src/daily_papers_abstract_extractor.py:93-105 | Processing the listed files in order never removes a directory, and keeps the output directories makeable |
| Pipeline.FileSystem.ProcessAllFiles | src/daily_papers_abstract_extractor.py:93-105 | The loop over the sorted listing leaves the disk that `ProcessAll` gives |
| Pipeline.ProcessStepEffect | src/daily_papers_abstract_extractor.py:56-90 | After one call, directories only grow, the only new path is the output path, and every other file is unchanged. The input is gone for an empty batch, and otherwise it is kept and its output path exists |
| Pipeline.ProcessAllEffect | src/daily_papers_abstract_extractor.py:93-105 | After all files: each empty-batch input is gone. Every other input is unchanged and its summary path exists. Files that are not listed inputs are untouched. No input file appears and no directory disappears |

## Left out

- `send_markdown_email` (lines 108-137): the SMTP session, TLS, HTML conversion by
  the `markdown` package, and MIME construction are network I/O and foreign code.
- `process_and_send_email` (lines 140-150): it runs an external downloader process
  and reads the wall clock.
- The daily scheduler and its polling loop (lines 153, 165-167): timer-driven I/O
  that never ends.
- Argument parsing and the process-wide credentials (lines 157-164).
- `print` output: only the returned warning string is modelled.
- `json.load` is not modelled. A record batch is given directly to `Markdown`.
  `Pipeline` takes a `decode` function from file contents to a batch. Malformed
  JSON and missing fields, which raise in the source, are outside the model.
- `os.listdir` and `sorted` are not executed. `ProcessAllFiles` receives the listing
  as a parameter, and `Listing` states what that listing is: the sorted `.json`
  entries of `data/input`. The "No input files found" message is print output.
- Dates.DateString: requires the first record's timestamp to begin with a valid
  `YYYY-MM-DD` whose year is at least 1000. Before that year `%Y` is not reliably
  four digits. Nothing after the tenth character is checked, although
  `fromisoformat` would reject a malformed time or offset there.
- Markdown.JsonToMarkdown: inherits that precondition on the first record. The
  other records' timestamps are never parsed, as in the source.
- Pipeline.FileSystem.ProcessDailyPapers: requires the input file to exist and
  its batch to be renderable. For a non-empty batch it also requires that no plain
  file stands at `data` or `data/output`. In each of those cases the source raises
  an exception. An empty batch returns before `makedirs` (lines 64-71), so it needs
  no such condition.
- Pipeline.FileSystem.ProcessAllFiles: requires the same of every listed file,
  with the directory condition needed only when some listed batch is non-empty. An
  exception part-way through the batch, which ends the source's run, is not
  modelled.
- Pipeline.ProcessAllEffect: when two inputs share a date token, it states only
  that the summary path exists. It does not say which input's document that path
  holds (the first one processed).
- Paths are compared as strings: the disk is keyed by canonical paths such as
  `data/input/x.json`. A path spelled `./data/input/x.json`, with `..` or through a
  symbolic link, is a different key, although the operating system would resolve it
  to the same file.
- File permissions, encodings, a path that is both a file and a directory, and
  concurrent changes to the disk are not modelled.
