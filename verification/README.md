# Posture dataset builder and raw-sequence statistics, in Dafny

This project models the bookkeeping at the heart of two batch scripts of an activity
recognition repository:

- `prepare_posture_dataset` (data/prepare_dataset.py) walks a source tree. It selects
  every directory whose path, upper-cased, ends with `/` followed by a major posture tag
  (`sitting`, `standing`). It then tags each directory below a selected one that holds
  files:
  - the major tag comes first, followed by that tag's associated tags (`chair`);
  - then come the extra tags whose patterns match a path segment (`table` for `.*masa.*`).

  Each file is stored in the `dataset_info` table under a fresh output name. While a
  name is taken, `_` is inserted in front of its last four characters. Each entry is
  then written as one manifest line, `name,tag1,tag2,...`.
- The statistics script (data/stats.py) treats every leaf directory as one sequence.
  The sequence's class is its parent directory's name, its frame count is its number
  of files, and its span is the largest minus the smallest file timestamp. A file's
  timestamp is the integer stem of its name.

  Counts and spans are collected into two lists per class, and the report's total is
  the number of sequences.

The directory walk is an input. For the builder it is a sequence of `Dir(path, files)`
in walk order, and `walk(exp)` is the sub-sequence of directories at or below `exp`.
For the statistics it is a sequence of `Leaf(path, files)`.

Dictionary iteration order is also an input. The order in which the manifest lines are
written, or the classes are visited, is a parameter `order` listing each key once.
Every lemma about it holds for all orders.

Modules:

- `Results`: the `Option` and `Result` types.
- `Text`: ASCII upper-casing, prefix/suffix tests, and Python's `split`/`join` with a
  one-character separator.
- `Rename`: the renaming step and loop.
- `Posture`: the tables, the directory filter, tag assembly, and the walk into stored
  files.
- `Manifest`: the `dataset_info` fold and the manifest text, with a reader for it.
- `Decimal`: `int()` on file stems.
- `Stats`: per-leaf summary, per-class lists, the total and how the report ends.

Behaviour of the code worth knowing:

- **Files can be stored more than once.** A file is stored once for every pair of a
  major tag and a directory, at or above the file's own directory, that this tag
  selects. Take `root/sitting/a/sitting` with files: `sitting` selects both `sitting`
  directories, so the files are stored twice, under different output names.
  `Posture.JobsMultiplicity` states the count for every walk, and
  `Posture.JobsNestedTwice` states this example.
- **Negative timestamps are measured from 0.** The running maximum starts at 0, not
  at minus infinity. `Stats.SpanOfNegative` states what that gives.
- **An empty leaf has no span, and it stops the report.** Its minimum stays at
  infinity, so its span is minus infinity (`Span.NegInfinity`). The per-leaf loop
  records that without complaint. The report then takes the mean of that class's
  spans, which is minus infinity, and `int(meanT)` (data/stats.py:85) raises
  `OverflowError` before the total row. A run with no leaves prints no report at all
  (data/stats.py:64). `Stats.ReportRun` states all three outcomes.
- **The action builder is not modelled.** `prepare_action_dataset` is an empty stub in
  the code.

## Model

| member | source | states |
|---|---|---|
| Rename.Step | data/prepare_dataset.py:51 | one renaming step makes the name exactly one character longer; it keeps everything before the last min(4, length) characters, puts `_` there and keeps those last characters after it |
| Rename.UnstepStep | data/prepare_dataset.py:51 | a renaming step can be undone, so it loses nothing of the old name |
| Rename.StepInjective | data/prepare_dataset.py:51 | two different names never collide after one step |
| Rename.StepKeepsSuffix | data/prepare_dataset.py:51 | a step keeps the last four characters as the suffix (the `.jpg` extension stays last); a name shorter than four characters just gets `_` in front |
| Rename.StepNChars | data/prepare_dataset.py:49-51 | renaming adds no character other than `_`, so a name free of `,` or a newline stays free of it |
| Rename.FreshName | data/prepare_dataset.py:49-51 | the loop's result is not a taken name; it is the original after exactly as many steps as it is longer; every name it passed on the way was taken, so it stops at the first free candidate |
| Rename.RenameBound | data/prepare_dataset.py:50-51 | the loop takes at most as many steps as there are taken names at least as long as the original, hence at most the table size: it terminates |
| Rename.FreshNameExample | data/prepare_dataset.py:49-52 | with `1.jpg` and `1_.jpg` taken, a third `1.jpg` is stored as `1__.jpg` |
| Posture.SelectedIffLastComponent | data/prepare_dataset.py:37-38 | for a tag without `/`, a directory is selected exactly when its path has a `/` and its last component equals the tag up to ASCII case |
| Posture.SelectedExampleCase | data/prepare_dataset.py:37 | `a/Sitting` is selected for `sitting` |
| Posture.SelectedExampleLonger | data/prepare_dataset.py:37 | `a/xsitting` is not selected for `sitting` |
| Posture.SelectedExampleBare | data/prepare_dataset.py:37 | a bare `sitting` without a `/` in front is not selected |
| Posture.PatternHits | data/prepare_dataset.py:43-45 | an extra tag is added at all exactly when some pattern matches a segment, and once per pattern exactly when all match |
| Posture.PatternHitsCount | data/prepare_dataset.py:43-45 | the extra tag is added exactly as many times as there are positions in its pattern list whose pattern matches a segment of the path |
| Posture.PatternHitsRepeated | data/prepare_dataset.py:43-45 | a matching pattern listed twice adds its tag twice |
| Posture.ExtraTagsConfigured | data/prepare_dataset.py:42-45 | every extra tag added to a directory is one of the configured extra tags |
| Posture.ExtraTagAdded | data/prepare_dataset.py:42-45 | a configured extra tag one of whose patterns matches a path segment is added |
| Posture.FolderTags | data/prepare_dataset.py:41-45 | a directory's tag list starts with the major tag and its default tags, and everything after them is a configured extra tag |
| Posture.PostureFolderTags | data/prepare_dataset.py:12-45 | with the builder's own tables a sitting or standing directory gets `[tag, "chair"]`, then `table` exactly when a path segment holds `masa` before its first newline |
| Posture.Subtree | data/prepare_dataset.py:38-39 | `walk(exp)` visits exactly the walked directories that are `exp` itself or lie below `exp/` |
| Posture.DirJobs | data/prepare_dataset.py:48-52 | a directory contributes exactly its files, each with the directory's tags |
| Posture.JobsExactly | data/prepare_dataset.py:30-48 | a file is stored exactly when it lies in a directory holding files at or below a directory selected for some major tag, and then it carries that directory's tags under that major tag |
| Posture.JobsMultiplicity | data/prepare_dataset.py:30-48 | a file is stored as many times as there are pairs of a major tag and a directory at or above the file's directory that the tag selects, times the number of times the walk lists the file |
| Posture.JobsNestedTwice | data/prepare_dataset.py:37-39 | the one file of `root/sitting/a/sitting`, under a `sitting` directory, is stored twice |
| Posture.JobsTagged | data/prepare_dataset.py:32-45 | every stored file's first tag is a major tag, followed by that tag's default tags |
| Manifest.PathJoinLast | data/prepare_dataset.py:52 | the source path `os.path.join(r, f)` ends with the file name as its last component |
| Manifest.Insert | data/prepare_dataset.py:49-52 | storing a file adds exactly one entry, overwrites none, and the new entry is the file's source and tags under a renaming of its name |
| Manifest.Place | data/prepare_dataset.py:48-52 | storing a list of files adds one entry per file and keeps every earlier entry |
| Manifest.PlaceValues | data/prepare_dataset.py:48-52 | every stored file's entry is in the table afterwards |
| Manifest.PlaceSources | data/prepare_dataset.py:48-52 | every new entry is the entry of one of the stored files, under a renaming of that file's name |
| Manifest.BuildProperties | data/prepare_dataset.py:28-52 | the finished table has one entry per stored file, holds every stored file's entry, and every entry's tags start with a major tag and its default tags |
| Manifest.BuildSources | data/prepare_dataset.py:28-52 | every entry of the finished table comes from a file below a selected directory, with that directory's tags, under a renaming of the file's name |
| Manifest.ParseLineRoundTrip | data/prepare_dataset.py:58 | a manifest line of a name and a non-empty tag list without commas reads back as that name and tag list |
| Manifest.ParseLineNoTags | data/prepare_dataset.py:58 | the line of any comma-free name with no tags reads back as that name with one empty tag, so the round trip needs at least one tag |
| Manifest.ManifestRoundTrip | data/prepare_dataset.py:55-58 | when no name or tag holds a comma or newline and every entry has a tag, reading the manifest back gives every output name its tag list, whatever order the lines were written in |
| Manifest.PostureConfigPlain | data/prepare_dataset.py:12-21 | the builder's own tag tables hold no comma or newline |
| Manifest.BuildIsPlain | data/prepare_dataset.py:41-52 | with such tables and file names, every output name and tag of the finished table is free of commas and newlines, and every entry has a tag |
| Manifest.BuildManifestRoundTrip | data/prepare_dataset.py:28-58 | with such tables and file names, the manifest the builder writes reads back as its table of output names and tags |
| Text.SplitJoin | data/prepare_dataset.py:58 | splitting a comma join gives back the pieces when none holds a comma |
| Decimal.ParseInt | data/stats.py:52 | `int(s)` succeeds exactly on an optional sign followed by at least one decimal digit, and the value has the sign's sign |
| Decimal.ParseShowInt | data/stats.py:52 | `int(str(i)) == i` for every integer |
| Decimal.ParseIntExamples | data/stats.py:52 | `100`, `007` and `-5` parse; the empty string, `-` and `12a` do not |
| Stats.ParentTagDefined | data/stats.py:47 | a leaf's class exists exactly when its path has a `/`, and it is a single path component |
| Stats.ParentTagOfParent | data/stats.py:47 | the class of a leaf `p/leaf` is the last component of `p`, whatever number of components `p` has |
| Stats.ParentTagOf | data/stats.py:47 | the class of `root/tag/leaf` is `tag` |
| Stats.ParentTagOfClassDir | data/stats.py:44-47 | a leaf directly under the class directory the script was given, `tag/leaf`, has class `tag` |
| Text.FirstPiece | data/stats.py:51 | `split(sep)[0]` is a prefix of the string that holds no separator and is either the whole string or stops just before the first separator |
| Stats.TimestampOf | data/stats.py:51-52 | a file named `<t>.<extension>` has timestamp `t` |
| Stats.TimestampsOfFiles | data/stats.py:50-52 | a leaf's timestamps exist exactly when every file's stem is an integer, and they are those integers, file by file |
| Stats.TimestampsPointwise | data/stats.py:50-52 | files whose stems are the integers `ts` give exactly the timestamps `ts` |
| Stats.MinStamp | data/stats.py:48-56 | the running minimum stays infinite exactly for an empty leaf, and is otherwise the smallest timestamp |
| Stats.MaxStamp | data/stats.py:49-54 | the running maximum is at least 0 and every timestamp, and is 0 or one of them |
| Stats.SpanOf | data/stats.py:58 | the span is minus infinity exactly for an empty leaf |
| Stats.SpanIsRange | data/stats.py:48-58 | for a non-empty leaf of non-negative timestamps the span is the largest minus the smallest timestamp, hence never negative |
| Stats.SpanOfSingle | data/stats.py:48-58 | one non-negative timestamp gives span 0 |
| Stats.SpanOfNegative | data/stats.py:48-58 | negative timestamps are measured from 0: `-5` alone spans 5, `-20` with `-10` spans 20 |
| Stats.SpanExample | data/stats.py:48-58 | timestamps 100, 150 and 200 span 100 |
| Stats.Summarise | data/stats.py:46-58 | a leaf is summarised exactly when its path has a `/` and every stem is an integer; its class is the parent component, its frame count its number of files, and its span is minus infinity exactly when it has no files |
| Stats.SummariseFrames | data/stats.py:45-58 | a leaf `root/tag/leaf` whose files are named by timestamps `ts` is a sequence of class `tag` with one frame per file and the span of `ts` |
| Stats.ScanLeaf | data/stats.py:48-56 | the single pass with a running minimum and maximum fails exactly when some stem is not an integer, and otherwise yields the span of the leaf's timestamps |
| Stats.Accumulate | data/stats.py:57-62 | adding a sequence appends its frame count and span to its class's lists (new lists for a new class), and leaves every other class untouched |
| Stats.OfClassSelects | data/stats.py:57-62 | the sequences grouped under a class have that class, and there are none exactly when no sequence has it |
| Stats.CollectKeys | data/stats.py:57-58 | the table has a class exactly when some sequence has that class |
| Stats.CollectGroups | data/stats.py:57-62 | a class's two lists are the frame counts and the spans of that class's sequences, in order, so they have equal length |
| Stats.TotalCountsSequences | data/stats.py:73-81 | adding up the list lengths over the classes, in whatever order, gives the number of sequences |
| Stats.AnalyseTotal | data/stats.py:43-81 | the total the report loop adds up is the number of leaf directories, whatever order the classes are visited in |
| Stats.RowsTotal | data/stats.py:74-86 | the rows all print exactly when no class holds a minus-infinity span, and then they add up to the table's total |
| Stats.ReportRun | data/stats.py:43-87 | a run prints no report exactly when there are no leaves, fails exactly when some leaf is empty, and otherwise reports a total equal to the number of leaves |
| Stats.AnalyseFrames | data/stats.py:45-61 | a class's frame counts in a successful run are its leaves' file counts, in walk order |

## Left out

- File-system I/O is not modelled: `walk`, `listdir`, `isfile`, `mkdir`, `copyfile` and writing `info`. The walk is an input sequence, and the manifest is modelled as the text written.
- The existence guard for `datasets` (data/prepare_dataset.py:71-74) and the script entry points are left out. They are I/O only.
- `prepare_action_dataset` (data/prepare_dataset.py:62-65) is left out. It prints and does nothing else.
- General regular expressions are not modelled. Only the configured shape `.*infix.*` under `re.match`, with an infix of plain text (no newline, no metacharacters, as `masa`), is modelled, as "`infix` occurs before the segment's first newline". For an infix such as `a\nb` the model and `re.match` would differ.
- `str.upper` is modelled on ASCII letters only. Non-ASCII case mappings, such as `ß` becoming `SS`, change lengths and are not modelled.
- Decimal.ParseInt: does not accept the surrounding whitespace, `_` digit separators or non-ASCII digits that Python's `int()` also accepts.
- The `numpy` means and standard deviations, `round`, and the `int()` truncation of float means (data/stats.py:77-85) are left out. They are floating point. The one fact kept is that a mean over spans holding minus infinity is minus infinity, and `int()` of it raises.
- Table rendering, `terminaltables`, `ljust` and the usage message (data/stats.py:29-41, 65-72, 83-84, 86-101) are left out. They are output formatting.
- Dictionary iteration order is not fixed. It is a parameter, and the properties hold for every order.
- `isfile` filtering (data/stats.py:46) is not modelled as such. A leaf's `files` are taken to be its regular files already.
