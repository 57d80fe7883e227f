/** The in-memory `dataset_info` table of the posture dataset builder and the manifest
    written from it (data/prepare_dataset.py, lines 28 and 47-58). Each stored file
    gets a fresh output name, mapped to its source path and tag list; each entry
    becomes one manifest line `name,tag1,tag2,...`. */
module Manifest {

  import opened Text
  import opened Rename
  import opened Posture
  import opened Results

  /** What `dataset_info` holds for one output name: source path and tags. */
  datatype Entry = Entry(source: string, tags: seq<string>)

  /** `dataset_info`: output file name to entry. */
  type DatasetInfo = map<string, Entry>

  /** `os.path.join(dir, file)` on POSIX paths. */
  function PathJoin(dir: string, file: string): string {
    if |file| > 0 && file[0] == '/' then file
    else if dir == [] || dir[|dir| - 1] == '/' then dir + file
    else dir + "/" + file
  }

  /** Joining a directory and a plain file name puts the name last in the path. */
  lemma PathJoinLast(dir: string, file: string)
    requires '/' !in file
    ensures Last(Split(PathJoin(dir, file), '/')) == file
  {
    if dir == [] {
      assert PathJoin(dir, file) == file;
      SplitWithoutSep(file, '/');
    } else if dir[|dir| - 1] == '/' {
      assert PathJoin(dir, file) == dir[..|dir| - 1] + ['/'] + file;
      LastPieceAfterSep(dir[..|dir| - 1], '/', file);
    } else {
      LastPieceAfterSep(dir, '/', file);
    }
  }

  /** The entry stored for a file (line 52). */
  function EntryOf(job: Job): Entry {
    Entry(PathJoin(job.dir, job.file), job.tags)
  }

  /** Lines 49-52: store one file under the first of its renamings that is free. The
      table grows by exactly one entry, no entry is overwritten, and the new entry is
      the file's, under a renaming of its name. */
  function Insert(info: DatasetInfo, job: Job): (r: DatasetInfo)
    ensures |r| == |info| + 1
    ensures forall k :: k in info ==> k in r && r[k] == info[k]
    ensures forall k :: k in r && k !in info ==> r[k] == EntryOf(job) && IsRenamingOf(job.file, k)
    ensures EntryOf(job) in r.Values
  {
    var name := FreshName(job.file, info.Keys);
    info[name := EntryOf(job)]
  }

  /** Line 48 and the loops around it: the files stored in order. The table grows by
      one entry per file and earlier entries are kept. */
  function Place(info: DatasetInfo, jobs: seq<Job>): (r: DatasetInfo)
    ensures |r| == |info| + |jobs|
    ensures forall k :: k in info ==> k in r && r[k] == info[k]
    decreases jobs
  {
    if jobs == [] then info
    else Place(Insert(info, jobs[0]), jobs[1..])
  }

  /** Every stored file's entry is present after placing. */
  lemma {:induction false} PlaceValues(info: DatasetInfo, jobs: seq<Job>)
    ensures forall i :: 0 <= i < |jobs| ==> EntryOf(jobs[i]) in Place(info, jobs).Values
    decreases jobs
  {
    if jobs != [] {
      var next := Insert(info, jobs[0]);
      var r := Place(next, jobs[1..]);
      assert r == Place(info, jobs);
      PlaceValues(next, jobs[1..]);
      assert forall i :: 0 < i < |jobs| ==> jobs[i] == jobs[1..][i - 1];
      var k :| k in next && next[k] == EntryOf(jobs[0]);
      assert r[k] == EntryOf(jobs[0]);
    }
  }

  /** Every new entry after placing belongs to one of the files, under a renaming of
      its name. */
  lemma {:induction false} PlaceSources(info: DatasetInfo, jobs: seq<Job>)
    ensures forall k :: k in Place(info, jobs) && k !in info ==>
      exists i :: 0 <= i < |jobs| && Place(info, jobs)[k] == EntryOf(jobs[i]) && IsRenamingOf(jobs[i].file, k)
    decreases jobs
  {
    if jobs != [] {
      var next := Insert(info, jobs[0]);
      var r := Place(next, jobs[1..]);
      assert r == Place(info, jobs);
      PlaceSources(next, jobs[1..]);
      forall k | k in r && k !in info
        ensures exists i :: 0 <= i < |jobs| && r[k] == EntryOf(jobs[i]) && IsRenamingOf(jobs[i].file, k)
      {
        if k in next {
          assert r[k] == EntryOf(jobs[0]) && IsRenamingOf(jobs[0].file, k);
        } else {
          var i :| 0 <= i < |jobs[1..]| && r[k] == EntryOf(jobs[1..][i]) && IsRenamingOf(jobs[1..][i].file, k);
          assert jobs[1..][i] == jobs[i + 1];
        }
      }
    }
  }

  /** The whole table `prepare_posture_dataset` builds before writing anything. */
  function Build(cfg: Config, tree: seq<Dir>): DatasetInfo {
    Place(map[], Jobs(cfg, tree))
  }

  /** The table has one entry per stored file, every stored file's entry is in it, and
      every entry is tagged: its first tag is a major tag followed by that tag's
      associated tags. */
  lemma BuildProperties(cfg: Config, tree: seq<Dir>)
    ensures |Build(cfg, tree)| == |Jobs(cfg, tree)|
    ensures forall x :: x in Jobs(cfg, tree) ==> EntryOf(x) in Build(cfg, tree).Values
    ensures forall k :: k in Build(cfg, tree) ==>
      var tags := Build(cfg, tree)[k].tags;
      |tags| >= 1 && tags[0] in cfg.majors && IsPrefix(DefaultTags(cfg, tags[0]), tags)
  {
    var jobs := Jobs(cfg, tree);
    var info := Build(cfg, tree);
    PlaceValues(map[], jobs);
    PlaceSources(map[], jobs);
    forall x | x in jobs ensures EntryOf(x) in info.Values {
      var i :| 0 <= i < |jobs| && jobs[i] == x;
    }
    forall k | k in info
      ensures |info[k].tags| >= 1 && info[k].tags[0] in cfg.majors
      ensures IsPrefix(DefaultTags(cfg, info[k].tags[0]), info[k].tags)
    {
      var i :| 0 <= i < |jobs| && info[k] == EntryOf(jobs[i]) && IsRenamingOf(jobs[i].file, k);
      JobsTagged(cfg, tree, jobs[i]);
    }
  }

  /** Every entry comes from a file of a directory under a selected directory, stored
      under a renaming of that file's name. */
  lemma BuildSources(cfg: Config, tree: seq<Dir>, k: string)
    requires k in Build(cfg, tree)
    ensures exists x :: FromSelectedDir(cfg, tree, x) && Build(cfg, tree)[k] == EntryOf(x) && IsRenamingOf(x.file, k)
  {
    var jobs := Jobs(cfg, tree);
    PlaceSources(map[], jobs);
    var i :| 0 <= i < |jobs| && Build(cfg, tree)[k] == EntryOf(jobs[i]) && IsRenamingOf(jobs[i].file, k);
    JobsExactly(cfg, tree, jobs[i]);
  }

  // ---------------------------------------------------------------- manifest format

  /** One manifest line without its newline: `name,tag1,tag2,...`. */
  function Record(name: string, tags: seq<string>): string {
    name + "," + Join(tags, ',')
  }

  /** Line 58: `f + "," + ",".join(tags) + "\n"`. */
  function Line(name: string, tags: seq<string>): string {
    Record(name, tags) + "\n"
  }

  /** Reads a record back: the text before the first comma, then the comma-separated
      tags. */
  function ParseRecord(record: string): (string, seq<string>) {
    var parts := Split(record, ',');
    (parts[0], parts[1..])
  }

  /** Reads one line back; a line must end with its newline. */
  function ParseLine(line: string): Option<(string, seq<string>)> {
    if line == [] || line[|line| - 1] != '\n' then None
    else Some(ParseRecord(line[..|line| - 1]))
  }

  /** Neither a comma nor a newline occurs in `s`. */
  predicate Plain(s: string) {
    ',' !in s && '\n' !in s
  }

  predicate AllPlain(ss: seq<string>) {
    forall i :: 0 <= i < |ss| ==> Plain(ss[i])
  }

  /** A record is the comma join of the name and the tags. */
  lemma RecordIsJoin(name: string, tags: seq<string>)
    requires tags != []
    ensures Record(name, tags) == Join([name] + tags, ',')
  {
    assert ([name] + tags)[1..] == tags;
  }

  /** A character that is not the separator and occurs in no piece does not occur in
      their join. */
  lemma {:induction false} JoinAvoids(parts: seq<string>, sep: char, c: char)
    requires c != sep
    requires forall i :: 0 <= i < |parts| ==> c !in parts[i]
    ensures c !in Join(parts, sep)
  {
    if |parts| > 1 {
      JoinAvoids(parts[1..], sep, c);
    }
  }

  /** Without commas in the name or the tags, a manifest line reads back as the name
      and the tag list. */
  lemma {:induction false} ParseLineRoundTrip(name: string, tags: seq<string>)
    requires tags != []
    requires ',' !in name && forall i :: 0 <= i < |tags| ==> ',' !in tags[i]
    ensures ParseLine(Line(name, tags)) == Some((name, tags))
  {
    var line := Line(name, tags);
    assert line[..|line| - 1] == Record(name, tags);
    RecordIsJoin(name, tags);
    SplitJoin([name] + tags, ',');
    assert ([name] + tags)[1..] == tags;
  }

  /** The line of an entry without tags reads back with one empty tag, so a non-empty
      tag list is needed for the round trip. */
  lemma ParseLineNoTags(name: string)
    requires ',' !in name
    ensures ParseLine(Line(name, [])) == Some((name, [[]]))
  {
    assert Line(name, [])[..|name| + 1] == name + [','];
    SplitAtFirst(name, ',', []);
  }

  /** The manifest file of lines 55-58, its entries listed in `order` (the table's
      iteration order, which the source leaves to the dictionary). */
  function ManifestText(info: DatasetInfo, order: seq<string>): string
    requires forall i :: 0 <= i < |order| ==> order[i] in info
  {
    if order == [] then []
    else Line(order[0], info[order[0]].tags) + ManifestText(info, order[1..])
  }

  /** The records of a manifest listed in `order`. */
  function Records(info: DatasetInfo, order: seq<string>): (r: seq<string>)
    requires forall i :: 0 <= i < |order| ==> order[i] in info
    ensures |r| == |order|
    ensures forall i :: 0 <= i < |order| ==> r[i] == Record(order[i], info[order[i]].tags)
  {
    seq(|order|, i requires 0 <= i < |order| => Record(order[i], info[order[i]].tags))
  }

  /** Builds the name-to-tags table from records; a later record for a name wins. */
  function ParseRecords(records: seq<string>): map<string, seq<string>> {
    if records == [] then map[]
    else
      var last := ParseRecord(records[|records| - 1]);
      ParseRecords(records[..|records| - 1])[last.0 := last.1]
  }

  /** Reads a manifest back into a name-to-tags table; the text must be empty or end
      with a newline. */
  function ParseManifest(text: string): Option<map<string, seq<string>>> {
    var lines := Split(text, '\n');
    if Last(lines) != [] then None
    else Some(ParseRecords(lines[..|lines| - 1]))
  }

  /** The manifest text is its records joined by newlines, with a final newline. */
  lemma {:induction false} ManifestTextIsJoin(info: DatasetInfo, order: seq<string>)
    requires forall i :: 0 <= i < |order| ==> order[i] in info
    ensures ManifestText(info, order) == Join(Records(info, order) + [[]], '\n')
  {
    if order != [] {
      ManifestTextIsJoin(info, order[1..]);
      var rs := Records(info, order);
      assert Records(info, order[1..]) == rs[1..];
      assert (rs + [[]])[1..] == rs[1..] + [[]];
    }
  }

  /** A record whose name and tags are plain holds no newline and reads back. */
  lemma PlainRecord(name: string, tags: seq<string>)
    requires Plain(name) && tags != [] && AllPlain(tags)
    ensures '\n' !in Record(name, tags)
    ensures ParseRecord(Record(name, tags)) == (name, tags)
  {
    RecordIsJoin(name, tags);
    var parts := [name] + tags;
    assert forall i :: 0 < i < |parts| ==> parts[i] == tags[i - 1];
    JoinAvoids(parts, ',', '\n');
    SplitJoin(parts, ',');
  }

  /** Records of distinct plain names read back as the table restricted to them. */
  lemma {:induction false} ParseRecordsOf(info: DatasetInfo, order: seq<string>)
    requires forall i :: 0 <= i < |order| ==> order[i] in info
    requires forall i, j :: 0 <= i < j < |order| ==> order[i] != order[j]
    requires forall k :: k in info ==> Plain(k) && info[k].tags != [] && AllPlain(info[k].tags)
    ensures ParseRecords(Records(info, order)) == map k | k in order :: info[k].tags
  {
    if order != [] {
      var n := |order|;
      var front := order[..n - 1];
      var last := order[n - 1];
      var rs := Records(info, order);
      assert rs[..n - 1] == Records(info, front);
      ParseRecordsOf(info, front);
      PlainRecord(last, info[last].tags);
      assert ParseRecords(rs) == ParseRecords(Records(info, front))[last := info[last].tags];
      assert forall k :: k in order <==> k in front || k == last;
      assert (map k | k in order :: info[k].tags) == (map k | k in front :: info[k].tags)[last := info[last].tags];
    }
  }

  /** The lines of a manifest over a plain table, with the empty piece after the
      final newline, hold no newline. */
  lemma PlainLines(info: DatasetInfo, order: seq<string>)
    requires forall i :: 0 <= i < |order| ==> order[i] in info
    requires forall k :: k in info ==> Plain(k) && info[k].tags != [] && AllPlain(info[k].tags)
    ensures forall i :: 0 <= i < |order| + 1 ==> '\n' !in (Records(info, order) + [[]])[i]
  {
    var lines := Records(info, order) + [[]];
    forall i | 0 <= i < |lines| ensures '\n' !in lines[i] {
      if i < |order| {
        PlainRecord(order[i], info[order[i]].tags);
      }
    }
  }

  /** Over a plain table the lines of a manifest are its records, then the empty
      piece after the final newline. */
  lemma ManifestLines(info: DatasetInfo, order: seq<string>)
    requires forall i :: 0 <= i < |order| ==> order[i] in info
    requires forall k :: k in info ==> Plain(k) && info[k].tags != [] && AllPlain(info[k].tags)
    ensures Split(ManifestText(info, order), '\n') == Records(info, order) + [[]]
  {
    ManifestTextIsJoin(info, order);
    PlainLines(info, order);
    SplitJoin(Records(info, order) + [[]], '\n');
  }

  /** The manifest round trip: when every name and tag is plain and every entry has a
      tag, reading the manifest back gives each output name its tag list, whatever
      order the entries were written in. */
  lemma ManifestRoundTrip(info: DatasetInfo, order: seq<string>)
    requires forall i, j :: 0 <= i < j < |order| ==> order[i] != order[j]
    requires forall k :: k in info <==> k in order
    requires forall k :: k in info ==> Plain(k) && info[k].tags != [] && AllPlain(info[k].tags)
    ensures ParseManifest(ManifestText(info, order)) == Some(map k | k in info :: info[k].tags)
  {
    var rs := Records(info, order);
    ManifestLines(info, order);
    var lines := Split(ManifestText(info, order), '\n');
    assert lines[..|lines| - 1] == rs;
    ParseRecordsOf(info, order);
    TagsOverOrder(info, order);
  }

  lemma TagsOverOrder(info: DatasetInfo, order: seq<string>)
    requires forall k :: k in info <==> k in order
    ensures (map k | k in order :: info[k].tags) == (map k | k in info :: info[k].tags)
  {
  }

  // ---------------------------------------------------------------- end to end

  /** Every tag the tables can produce is plain. */
  predicate PlainConfig(cfg: Config) {
    && AllPlain(cfg.majors)
    && (forall t :: t in cfg.associated ==> AllPlain(cfg.associated[t]))
    && AllPlain(TagNames(cfg.extras))
  }

  /** Every file name in the walk is plain. */
  predicate PlainFiles(tree: seq<Dir>) {
    forall d :: d in tree ==> AllPlain(d.files)
  }

  /** The builder's own tables are plain. */
  lemma PostureConfigPlain()
    ensures PlainConfig(PostureConfig)
  {
    assert TagNames(PostureConfig.extras) == ["table"];
  }

  /** A renaming of a plain name is plain. */
  lemma RenamingPlain(file: string, k: string)
    requires Plain(file) && IsRenamingOf(file, k)
    ensures Plain(k)
  {
    StepNChars(file, |k| - |file|, ',');
    StepNChars(file, |k| - |file|, '\n');
  }

  /** Under plain tables a directory's tags are plain. */
  lemma FolderTagsPlain(cfg: Config, t: string, path: string)
    requires PlainConfig(cfg) && t in cfg.majors
    ensures AllPlain(FolderTags(cfg, t, path))
  {
    var tags := FolderTags(cfg, t, path);
    var defaults := DefaultTags(cfg, t);
    var names := TagNames(cfg.extras);
    forall i | 0 <= i < |tags| ensures Plain(tags[i]) {
      if i < |defaults| {
        assert tags[i] == defaults[i];
        if i > 0 {
          assert defaults[i] == cfg.associated[t][i - 1];
        }
      } else {
        assert tags[i] in names;
      }
    }
  }

  /** Under plain tables and plain file names every output name and every tag is
      plain: renaming only ever inserts `_`. */
  lemma BuildIsPlain(cfg: Config, tree: seq<Dir>, k: string)
    requires PlainConfig(cfg) && PlainFiles(tree)
    requires k in Build(cfg, tree)
    ensures Plain(k)
    ensures Build(cfg, tree)[k].tags != [] && AllPlain(Build(cfg, tree)[k].tags)
  {
    BuildSources(cfg, tree, k);
    var x :| FromSelectedDir(cfg, tree, x) && Build(cfg, tree)[k] == EntryOf(x) && IsRenamingOf(x.file, k);
    var t, e, d :| t in cfg.majors && e in tree && d in tree
      && Selected(e.path, t) && Under(e.path, d.path)
      && d.path == x.dir && x.file in d.files && x.tags == FolderTags(cfg, t, d.path);
    RenamingPlain(x.file, k);
    FolderTagsPlain(cfg, t, d.path);
  }

  /** For plain tables and file names, the manifest the builder writes reads back as
      its table of output names and tags, in whatever order it was written. */
  lemma {:induction false} BuildManifestRoundTrip(cfg: Config, tree: seq<Dir>, order: seq<string>)
    requires PlainConfig(cfg) && PlainFiles(tree)
    requires forall i, j :: 0 <= i < j < |order| ==> order[i] != order[j]
    requires forall k :: k in Build(cfg, tree) <==> k in order
    ensures ParseManifest(ManifestText(Build(cfg, tree), order)) ==
      Some(map k | k in Build(cfg, tree) :: Build(cfg, tree)[k].tags)
  {
    var info := Build(cfg, tree);
    forall k | k in info
      ensures Plain(k) && info[k].tags != [] && AllPlain(info[k].tags)
    {
      BuildIsPlain(cfg, tree, k);
    }
    ManifestRoundTrip(info, order);
  }
}
