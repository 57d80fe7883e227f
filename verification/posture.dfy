/** Which files the posture dataset builder picks up and which tags they get
    (data/prepare_dataset.py, lines 11-45): directories whose name is a major tag
    (compared case-insensitively), every directory with files below them, and a tag
    list made of the major tag, its associated tags and the extra tags whose patterns
    match a path segment. The directory walk is an input: the sequence of
    directories, with the files each directly holds, in the order the walk visits
    them. */
module Posture {

  import opened Text

  /** A configured pattern `.*infix.*`, applied with `re.match` to one path segment,
      for an infix that is plain text: no newline and no regular-expression
      metacharacters, as the builder's `masa`. Without the DOTALL flag `.` does not
      match a newline, so such a pattern matches exactly when `infix` occurs before
      the segment's first newline. */
  datatype Pattern = Around(infix: string)

  /** An extra tag and the patterns that add it. */
  datatype ExtraTag = ExtraTag(tag: string, patterns: seq<Pattern>)

  /** The hard-coded tables the builder reads. */
  datatype Config = Config(
    majors: seq<string>,
    associated: map<string, seq<string>>,
    extras: seq<ExtraTag>)

  /** The tables of the posture builder (lines 12, 16 and 19-21). */
  const PostureConfig: Config := Config(
    ["sitting", "standing"],
    map["sitting" := ["chair"], "standing" := ["chair"]],
    [ExtraTag("table", [Around("masa")])])

  /** One directory of the walk and the names of the files directly inside it. */
  datatype Dir = Dir(path: string, files: seq<string>)

  /** A file the builder will store, with the tags of its directory. */
  datatype Job = Job(dir: string, file: string, tags: seq<string>)

  // ---------------------------------------------------------------- selection

  /** The filter of line 37: `dirname.upper().endswith("/" + tag.upper())`. */
  predicate Selected(path: string, tag: string) {
    EndsWith(Upper(path), "/" + Upper(tag))
  }

  /** Two strings equal up to case hold `/` at the same places. */
  lemma UpperEqualNoSlash(q: string, t: string)
    requires Upper(q) == Upper(t)
    requires '/' !in t
    ensures '/' !in q
  {
    forall i | 0 <= i < |q| ensures q[i] != '/' {
      UpperCharSlash(q[i]);
      UpperCharSlash(t[i]);
    }
  }

  /** A selected path ends with `/` followed by the tag up to case. */
  lemma SelectedSuffix(path: string, tag: string)
    requires Selected(path, tag)
    ensures |tag| < |path| && path[|path| - |tag| - 1] == '/'
    ensures Upper(path[|path| - |tag|..]) == Upper(tag)
  {
    var n := |path|;
    var j := n - |tag| - 1;
    assert Upper(path)[j] == ("/" + Upper(tag))[0];
    UpperCharSlash(path[j]);
    UpperSlice(path, j + 1, n);
    assert Upper(path)[j + 1..n] == Upper(path)[j..][1..];
  }

  /** A selected directory's last path component equals the tag up to case. */
  lemma SelectedLastComponent(path: string, tag: string)
    requires '/' !in tag
    requires Selected(path, tag)
    ensures '/' in path && EqualsIgnoringCase(Last(Split(path, '/')), tag)
  {
    SelectedSuffix(path, tag);
    var j := |path| - |tag| - 1;
    var q := path[j + 1..];
    UpperEqualNoSlash(q, tag);
    assert path == path[..j] + ['/'] + q;
    LastPieceAfterSep(path[..j], '/', q);
  }

  /** A path whose last component equals the tag up to case is selected. */
  lemma LastComponentSelected(path: string, tag: string)
    requires '/' in path && EqualsIgnoringCase(Last(Split(path, '/')), tag)
    ensures Selected(path, tag)
  {
    var n := |path|;
    var q := Last(Split(path, '/'));
    LastPieceIsSuffix(path, '/');
    var j := n - |q| - 1;
    assert |q| == |tag|;
    assert path[j..] == ['/'] + q;
    UpperSlice(path, j, n);
    assert Upper(path[j..]) == [UpperChar('/')] + Upper(q);
    assert Upper(path)[n - |tag| - 1..] == "/" + Upper(tag);
  }

  /** For a tag without `/`, a directory is selected exactly when its path has a
      `/` and its last component equals the tag up to case. */
  lemma SelectedIffLastComponent(path: string, tag: string)
    requires '/' !in tag
    ensures Selected(path, tag) <==>
      '/' in path && EqualsIgnoringCase(Last(Split(path, '/')), tag)
  {
    if Selected(path, tag) {
      SelectedLastComponent(path, tag);
    }
    if '/' in path && EqualsIgnoringCase(Last(Split(path, '/')), tag) {
      LastComponentSelected(path, tag);
    }
  }

  /** A different case matches. */
  lemma SelectedExampleCase()
    ensures Selected("a/Sitting", "sitting")
  {
    assert Upper("a/Sitting")[2..] == "SITTING";
    assert "/" + Upper("sitting") == "/SITTING";
  }

  /** A longer name that ends with the tag does not match. */
  lemma SelectedExampleLonger()
    ensures !Selected("a/xsitting", "sitting")
  {
    assert "a/xsitting" == "a" + ['/'] + "xsitting";
    LastPieceAfterSep("a", '/', "xsitting");
    SelectedIffLastComponent("a/xsitting", "sitting");
  }

  /** A bare name with no `/` in front does not match. */
  lemma SelectedExampleBare()
    ensures !Selected("sitting", "sitting")
  {
  }

  // ---------------------------------------------------------------- tags

  /** The default tags of lines 32-34: the major tag, then its associated tags. */
  function DefaultTags(cfg: Config, tag: string): (r: seq<string>)
    ensures |r| >= 1 && r[0] == tag
    ensures tag in cfg.associated ==> r[1..] == cfg.associated[tag]
    ensures tag !in cfg.associated ==> r == [tag]
  {
    [tag] + if tag in cfg.associated then cfg.associated[tag] else []
  }

  /** `re.match(pattern, d)` for the one pattern shape the builder configures. */
  predicate Matches(p: Pattern, segment: string) {
    Contains(FirstLine(segment), p.infix)
  }

  /** `any(re.match(regex, d) for d in path.split("/"))`, line 44. */
  predicate AnySegmentMatches(p: Pattern, path: string) {
    var segments := Split(path, '/');
    exists i :: 0 <= i < |segments| && Matches(p, segments[i])
  }

  /** The inner loop of lines 43-45: the extra tag once for every one of its patterns
      that matches a segment of the path. */
  function PatternHits(tag: string, patterns: seq<Pattern>, path: string): (r: seq<string>)
    ensures forall i :: 0 <= i < |r| ==> r[i] == tag
    ensures |r| <= |patterns|
    ensures |r| > 0 <==> exists i :: 0 <= i < |patterns| && AnySegmentMatches(patterns[i], path)
    ensures |r| == |patterns| <==> forall i :: 0 <= i < |patterns| ==> AnySegmentMatches(patterns[i], path)
  {
    if patterns == [] then []
    else
      var rest := PatternHits(tag, patterns[1..], path);
      assert forall i :: 0 < i < |patterns| ==> patterns[i] == patterns[1..][i - 1];
      (if AnySegmentMatches(patterns[0], path) then [tag] else []) + rest
  }

  /** The positions of the patterns that match a segment of the path. */
  function MatchingPatterns(patterns: seq<Pattern>, path: string): set<nat> {
    set i: nat | i < |patterns| && AnySegmentMatches(patterns[i], path)
  }

  /** The extra tag is added once per matching pattern: as many times as there are
      positions in the pattern list whose pattern matches, repeated patterns
      counted each time. */
  lemma {:induction false} PatternHitsCount(tag: string, patterns: seq<Pattern>, path: string)
    ensures |PatternHits(tag, patterns, path)| == |MatchingPatterns(patterns, path)|
  {
    if patterns != [] {
      var rest := MatchingPatterns(patterns[1..], path);
      PatternHitsCount(tag, patterns[1..], path);
      MatchingShift(patterns, path);
      ShiftSize(rest);
    }
  }

  /** Past the first pattern, the matching positions are those of the remaining
      patterns moved one place on. */
  lemma MatchingShift(patterns: seq<Pattern>, path: string)
    requires patterns != []
    ensures MatchingPatterns(patterns, path) - {0} == Shift(MatchingPatterns(patterns[1..], path))
    ensures 0 in MatchingPatterns(patterns, path) <==> AnySegmentMatches(patterns[0], path)
    ensures |MatchingPatterns(patterns, path)| ==
      (if AnySegmentMatches(patterns[0], path) then 1 else 0) + |Shift(MatchingPatterns(patterns[1..], path))|
  {
    var all := MatchingPatterns(patterns, path);
    var rest := MatchingPatterns(patterns[1..], path);
    forall i: nat | i in all - {0} ensures i in Shift(rest) {
      assert patterns[1..][i - 1] == patterns[i];
      assert i - 1 in rest;
    }
    forall i: nat | i in Shift(rest) ensures i in all - {0} {
      assert patterns[1..][i - 1] == patterns[i];
    }
    if 0 in all {
      assert all == {0} + (all - {0});
    } else {
      assert all == all - {0};
    }
  }

  /** Every position moved one place on. */
  function Shift(positions: set<nat>): set<nat> {
    set i | i in positions :: i + 1
  }

  lemma {:induction false} ShiftSize(positions: set<nat>)
    ensures |Shift(positions)| == |positions|
  {
    if positions != {} {
      var x :| x in positions;
      var rest := positions - {x};
      ShiftSize(rest);
      forall i | i in Shift(positions) ensures i in Shift(rest) + {x + 1} {
        var j :| j in positions && i == j + 1;
        if j != x {
          assert j in rest;
        }
      }
      forall i | i in Shift(rest) + {x + 1} ensures i in Shift(positions) {
        if i != x + 1 {
          var j :| j in rest && i == j + 1;
        }
      }
      assert forall j :: j in rest ==> j + 1 != x + 1;
      assert Shift(positions) == Shift(rest) + {x + 1};
    }
  }

  /** With patterns `[p, p, q]` where only `p` matches, the tag is added twice. */
  lemma PatternHitsRepeated(tag: string, p: Pattern, q: Pattern, path: string)
    requires AnySegmentMatches(p, path) && !AnySegmentMatches(q, path)
    ensures PatternHits(tag, [p, p, q], path) == [tag, tag]
  {
    assert [p, p, q][1..] == [p, q] && [p, q][1..] == [q] && [q][1..] == [];
  }

  /** The outer loop of lines 42-45, over the extra-tag table in order. */
  function ExtraTags(extras: seq<ExtraTag>, path: string): seq<string>
  {
    if extras == [] then []
    else PatternHits(extras[0].tag, extras[0].patterns, path) + ExtraTags(extras[1..], path)
  }

  /** Every extra tag added is a configured extra tag. */
  lemma {:induction false} ExtraTagsConfigured(extras: seq<ExtraTag>, path: string)
    ensures forall x :: x in ExtraTags(extras, path) ==> x in TagNames(extras)
  {
    if extras != [] {
      var first := PatternHits(extras[0].tag, extras[0].patterns, path);
      ExtraTagsConfigured(extras[1..], path);
      assert TagNames(extras) == [extras[0].tag] + TagNames(extras[1..]);
      assert forall x :: x in first ==> x == extras[0].tag;
    }
  }

  /** A configured extra tag one of whose patterns matches a segment is added. */
  lemma {:induction false} ExtraTagAdded(extras: seq<ExtraTag>, path: string, j: nat)
    requires j < |extras|
    requires exists i :: 0 <= i < |extras[j].patterns| && AnySegmentMatches(extras[j].patterns[i], path)
    ensures extras[j].tag in ExtraTags(extras, path)
  {
    var first := PatternHits(extras[0].tag, extras[0].patterns, path);
    if j == 0 {
      assert first[0] == extras[0].tag;
      assert ExtraTags(extras, path)[0] == first[0];
    } else {
      assert extras[j] == extras[1..][j - 1];
      ExtraTagAdded(extras[1..], path, j - 1);
    }
  }

  /** The names of the extra tags, in table order. */
  function TagNames(extras: seq<ExtraTag>): (r: seq<string>)
    ensures |r| == |extras|
    ensures forall j :: 0 <= j < |extras| ==> r[j] == extras[j].tag
  {
    if extras == [] then [] else [extras[0].tag] + TagNames(extras[1..])
  }

  /** The tag list of a directory (lines 41-45): the default tags of the major tag
      come first, in table order, and every further tag is an extra tag. */
  function FolderTags(cfg: Config, tag: string, path: string): (r: seq<string>)
    ensures IsPrefix(DefaultTags(cfg, tag), r)
    ensures r[0] == tag
    ensures forall i :: |DefaultTags(cfg, tag)| <= i < |r| ==> r[i] in TagNames(cfg.extras)
  {
    var defaults := DefaultTags(cfg, tag);
    var extra := ExtraTags(cfg.extras, path);
    ExtraTagsConfigured(cfg.extras, path);
    assert forall i :: |defaults| <= i < |defaults + extra| ==> (defaults + extra)[i] == extra[i - |defaults|];
    defaults + extra
  }

  /** Some segment of the path has `masa` before its first newline. */
  predicate MentionsMasa(path: string) {
    AnySegmentMatches(Around("masa"), path)
  }

  /** With the builder's own tables, a sitting or standing directory is tagged with the
      major tag and `chair`, followed by `table` exactly when a path segment
      mentions `masa`. */
  lemma {:induction false} PostureFolderTags(tag: string, path: string)
    requires tag in PostureConfig.majors
    ensures FolderTags(PostureConfig, tag, path) ==
      [tag, "chair"] + if MentionsMasa(path) then ["table"] else []
  {
    var extras := PostureConfig.extras;
    assert extras[1..] == [];
    assert extras[0].patterns[1..] == [];
    assert ExtraTags(extras, path) == PatternHits("table", [Around("masa")], path);
  }

  // ---------------------------------------------------------------- walk

  /** `path` is `root` or lies below it, so `walk(root)` visits it. */
  predicate Under(root: string, path: string) {
    path == root || IsPrefix(root + "/", path)
  }

  /** `walk(root)`: the directories of the walk that lie under `root`, in walk order. */
  function Subtree(tree: seq<Dir>, root: string): (r: seq<Dir>)
    ensures forall d :: d in r <==> d in tree && Under(root, d.path)
  {
    if tree == [] then []
    else (if Under(root, tree[0].path) then [tree[0]] else []) + Subtree(tree[1..], root)
  }

  /** The files of one directory (line 48), all with the directory's tags. */
  function DirJobs(cfg: Config, tag: string, d: Dir): (r: seq<Job>)
    ensures forall x :: x in r <==> x.dir == d.path && x.file in d.files && x.tags == FolderTags(cfg, tag, d.path)
  {
    var tags := FolderTags(cfg, tag, d.path);
    var r := seq(|d.files|, i requires 0 <= i < |d.files| => Job(d.path, d.files[i], tags));
    assert forall x :: x in r ==> exists i :: 0 <= i < |d.files| && x == r[i];
    assert forall f :: f in d.files ==> Job(d.path, f, tags) in r by {
      forall f | f in d.files ensures Job(d.path, f, tags) in r {
        var i :| 0 <= i < |d.files| && d.files[i] == f;
        assert r[i] == Job(d.path, f, tags);
      }
    }
    r
  }

  /** Line 39: the directories below a selected one that hold files, in walk order. */
  function WalkJobs(cfg: Config, tag: string, dirs: seq<Dir>): seq<Job>
  {
    if dirs == [] then []
    else (if dirs[0].files != [] then DirJobs(cfg, tag, dirs[0]) else []) + WalkJobs(cfg, tag, dirs[1..])
  }

  /** Line 38: the selected directories of the walk, each walked in turn. */
  function SelectedJobs(cfg: Config, tag: string, tree: seq<Dir>, exps: seq<Dir>): seq<Job>
  {
    if exps == [] then []
    else
      (if Selected(exps[0].path, tag) then WalkJobs(cfg, tag, Subtree(tree, exps[0].path)) else [])
      + SelectedJobs(cfg, tag, tree, exps[1..])
  }

  /** Line 30: the major tags in table order. */
  function MajorJobs(cfg: Config, majors: seq<string>, tree: seq<Dir>): seq<Job>
  {
    if majors == [] then []
    else SelectedJobs(cfg, majors[0], tree, tree) + MajorJobs(cfg, majors[1..], tree)
  }

  /** Every file the builder stores, in the order it stores them. */
  function Jobs(cfg: Config, tree: seq<Dir>): seq<Job> {
    MajorJobs(cfg, cfg.majors, tree)
  }

  /** `job` is a file of a directory `d` of the walk lying under a directory `e` that
      is selected for major tag `t`, and carries the tags of `d` under `t`. */
  ghost predicate FromSelectedDir(cfg: Config, tree: seq<Dir>, job: Job) {
    exists t, e, d :: t in cfg.majors && e in tree && d in tree
      && Selected(e.path, t) && Under(e.path, d.path)
      && d.path == job.dir && job.file in d.files && job.tags == FolderTags(cfg, t, d.path)
  }

  lemma {:induction false} WalkJobsMembers(cfg: Config, tag: string, dirs: seq<Dir>, x: Job)
    ensures x in WalkJobs(cfg, tag, dirs) <==> exists d :: d in dirs && x in DirJobs(cfg, tag, d)
  {
    if dirs != [] {
      WalkJobsMembers(cfg, tag, dirs[1..], x);
      assert forall d :: d in dirs <==> d == dirs[0] || d in dirs[1..];
    }
  }

  lemma {:induction false} SelectedJobsMembers(cfg: Config, tag: string, tree: seq<Dir>, exps: seq<Dir>, x: Job)
    ensures x in SelectedJobs(cfg, tag, tree, exps) <==>
      exists e :: e in exps && Selected(e.path, tag) && x in WalkJobs(cfg, tag, Subtree(tree, e.path))
  {
    if exps != [] {
      SelectedJobsMembers(cfg, tag, tree, exps[1..], x);
      assert forall e :: e in exps <==> e == exps[0] || e in exps[1..];
    }
  }

  lemma {:induction false} MajorJobsMembers(cfg: Config, majors: seq<string>, tree: seq<Dir>, x: Job)
    ensures x in MajorJobs(cfg, majors, tree) <==>
      exists t :: t in majors && x in SelectedJobs(cfg, t, tree, tree)
  {
    if majors != [] {
      MajorJobsMembers(cfg, majors[1..], tree, x);
      assert forall t :: t in majors <==> t == majors[0] || t in majors[1..];
      if x in SelectedJobs(cfg, majors[0], tree, tree) {
        assert majors[0] in majors;
      }
    }
  }

  lemma JobsFromSelected(cfg: Config, tree: seq<Dir>, x: Job)
    requires x in Jobs(cfg, tree)
    ensures FromSelectedDir(cfg, tree, x)
  {
    MajorJobsMembers(cfg, cfg.majors, tree, x);
    var t :| t in cfg.majors && x in SelectedJobs(cfg, t, tree, tree);
    SelectedJobsMembers(cfg, t, tree, tree, x);
    var e :| e in tree && Selected(e.path, t) && x in WalkJobs(cfg, t, Subtree(tree, e.path));
    WalkJobsMembers(cfg, t, Subtree(tree, e.path), x);
    var d :| d in Subtree(tree, e.path) && x in DirJobs(cfg, t, d);
    assert t in cfg.majors && e in tree && d in tree && Selected(e.path, t) && Under(e.path, d.path);
  }

  /** A file of a directory `d` under a directory `e` that major tag `t` selects is
      stored, with the tags of `d` under `t`. */
  lemma {:induction false} SelectedInJobs(cfg: Config, tree: seq<Dir>, x: Job, t: string, e: Dir, d: Dir)
    requires t in cfg.majors && e in tree && d in tree
    requires Selected(e.path, t) && Under(e.path, d.path)
    requires d.path == x.dir && x.file in d.files && x.tags == FolderTags(cfg, t, d.path)
    ensures x in Jobs(cfg, tree)
  {
    assert x in DirJobs(cfg, t, d);
    WalkJobsMembers(cfg, t, Subtree(tree, e.path), x);
    SelectedJobsMembers(cfg, t, tree, tree, x);
    MajorJobsMembers(cfg, cfg.majors, tree, x);
  }

  /** The builder stores exactly the files of directories lying under a selected
      directory, each with the tags its directory gets under the selecting major tag. */
  lemma JobsExactly(cfg: Config, tree: seq<Dir>, x: Job)
    ensures x in Jobs(cfg, tree) <==> FromSelectedDir(cfg, tree, x)
  {
    if x in Jobs(cfg, tree) {
      JobsFromSelected(cfg, tree, x);
    }
    if FromSelectedDir(cfg, tree, x) {
      var t, e, d :| t in cfg.majors && e in tree && d in tree
        && Selected(e.path, t) && Under(e.path, d.path)
        && d.path == x.dir && x.file in d.files && x.tags == FolderTags(cfg, t, d.path);
      SelectedInJobs(cfg, tree, x, t, e, d);
    }
  }

  // ---------------------------------------------------------------- multiplicity

  /** How many of `jobs` store file `file` of directory `dir`. */
  function Stored(jobs: seq<Job>, dir: string, file: string): nat {
    if jobs == [] then 0
    else (if jobs[0].dir == dir && jobs[0].file == file then 1 else 0) + Stored(jobs[1..], dir, file)
  }

  /** How many times `name` occurs in `names`. */
  function Occurrences(names: seq<string>, name: string): nat {
    if names == [] then 0 else (if names[0] == name then 1 else 0) + Occurrences(names[1..], name)
  }

  /** How many times the walk lists `file` in directory `dir`: once on a file system,
      where directory paths and the names inside one directory are unique. */
  function Listed(dirs: seq<Dir>, dir: string, file: string): nat {
    if dirs == [] then 0
    else (if dirs[0].path == dir then Occurrences(dirs[0].files, file) else 0) + Listed(dirs[1..], dir, file)
  }

  /** The directories of `exps` that `tag` selects and that `dir` lies under. */
  function Selectors(tag: string, exps: seq<Dir>, dir: string): nat {
    if exps == [] then 0
    else
      var hit := Selected(exps[0].path, tag) && Under(exps[0].path, dir);
      (if hit then 1 else 0) + Selectors(tag, exps[1..], dir)
  }

  /** The pairs of a major tag and a directory of the walk that the tag selects and
      that `dir` lies under. */
  function SelectingPairs(majors: seq<string>, tree: seq<Dir>, dir: string): nat {
    if majors == [] then 0 else Selectors(majors[0], tree, dir) + SelectingPairs(majors[1..], tree, dir)
  }

  lemma {:induction false} StoredAppend(a: seq<Job>, b: seq<Job>, dir: string, file: string)
    ensures Stored(a + b, dir, file) == Stored(a, dir, file) + Stored(b, dir, file)
  {
    if a == [] {
      assert a + b == b;
    } else {
      assert (a + b)[0] == a[0] && (a + b)[1..] == a[1..] + b;
      StoredAppend(a[1..], b, dir, file);
    }
  }

  lemma {:induction false} ListedAppend(a: seq<Dir>, b: seq<Dir>, dir: string, file: string)
    ensures Listed(a + b, dir, file) == Listed(a, dir, file) + Listed(b, dir, file)
  {
    if a == [] {
      assert a + b == b;
    } else {
      assert (a + b)[0] == a[0] && (a + b)[1..] == a[1..] + b;
      ListedAppend(a[1..], b, dir, file);
    }
  }

  /** A directory's jobs store each of its listed files once. */
  lemma {:induction false} StoredDirJobs(cfg: Config, tag: string, d: Dir, dir: string, file: string)
    ensures Stored(DirJobs(cfg, tag, d), dir, file) == if d.path == dir then Occurrences(d.files, file) else 0
    decreases |d.files|
  {
    if d.files == [] {
      assert DirJobs(cfg, tag, d) == [];
    } else {
      var rest := Dir(d.path, d.files[1..]);
      var first := Job(d.path, d.files[0], FolderTags(cfg, tag, d.path));
      assert DirJobs(cfg, tag, d) == [first] + DirJobs(cfg, tag, rest);
      StoredDirJobs(cfg, tag, rest, dir, file);
      StoredAppend([first], DirJobs(cfg, tag, rest), dir, file);
    }
  }

  /** Walking directories stores each file as often as they list it. */
  lemma {:induction false} WalkStored(cfg: Config, tag: string, dirs: seq<Dir>, dir: string, file: string)
    ensures Stored(WalkJobs(cfg, tag, dirs), dir, file) == Listed(dirs, dir, file)
  {
    if dirs != [] {
      var here := if dirs[0].files != [] then DirJobs(cfg, tag, dirs[0]) else [];
      WalkStored(cfg, tag, dirs[1..], dir, file);
      StoredAppend(here, WalkJobs(cfg, tag, dirs[1..]), dir, file);
      StoredDirJobs(cfg, tag, dirs[0], dir, file);
    }
  }

  /** `walk(root)` lists a file as often as the whole walk does when its directory
      lies under `root`, and never otherwise. */
  lemma {:induction false} SubtreeListed(tree: seq<Dir>, root: string, dir: string, file: string)
    ensures Listed(Subtree(tree, root), dir, file) == if Under(root, dir) then Listed(tree, dir, file) else 0
  {
    if tree != [] {
      var here := if Under(root, tree[0].path) then [tree[0]] else [];
      SubtreeListed(tree[1..], root, dir, file);
      ListedAppend(here, Subtree(tree[1..], root), dir, file);
      assert here != [] ==> here[1..] == [];
    }
  }

  /** Each selected directory above the file's directory stores the file once more. */
  lemma {:induction false} SelectedStored(cfg: Config, tag: string, tree: seq<Dir>, exps: seq<Dir>, dir: string, file: string)
    ensures Stored(SelectedJobs(cfg, tag, tree, exps), dir, file) == Selectors(tag, exps, dir) * Listed(tree, dir, file)
  {
    if exps != [] {
      var e := exps[0];
      var here := if Selected(e.path, tag) then WalkJobs(cfg, tag, Subtree(tree, e.path)) else [];
      SelectedStored(cfg, tag, tree, exps[1..], dir, file);
      StoredAppend(here, SelectedJobs(cfg, tag, tree, exps[1..]), dir, file);
      WalkStored(cfg, tag, Subtree(tree, e.path), dir, file);
      SubtreeListed(tree, e.path, dir, file);
      var hit := if Selected(e.path, tag) && Under(e.path, dir) then 1 else 0;
      assert Stored(here, dir, file) == hit * Listed(tree, dir, file);
      AddTimes(hit, Selectors(tag, exps[1..], dir), Listed(tree, dir, file));
    }
  }

  lemma AddTimes(a: nat, b: nat, n: nat)
    ensures (a + b) * n == a * n + b * n
  {
  }

  lemma {:induction false} MajorStored(cfg: Config, majors: seq<string>, tree: seq<Dir>, dir: string, file: string)
    ensures Stored(MajorJobs(cfg, majors, tree), dir, file) == SelectingPairs(majors, tree, dir) * Listed(tree, dir, file)
  {
    if majors != [] {
      MajorStored(cfg, majors[1..], tree, dir, file);
      StoredAppend(SelectedJobs(cfg, majors[0], tree, tree), MajorJobs(cfg, majors[1..], tree), dir, file);
      SelectedStored(cfg, majors[0], tree, tree, dir, file);
      AddTimes(Selectors(majors[0], tree, dir), SelectingPairs(majors[1..], tree, dir), Listed(tree, dir, file));
    }
  }

  /** How often a file is stored: once for every pair of a major tag and a directory
      at or above the file's directory that the tag selects, times the number of
      times the walk lists the file (once on a file system). So a file is stored
      more than once when it lies under two selected directories. */
  lemma JobsMultiplicity(cfg: Config, tree: seq<Dir>, dir: string, file: string)
    ensures Stored(Jobs(cfg, tree), dir, file) == SelectingPairs(cfg.majors, tree, dir) * Listed(tree, dir, file)
  {
    MajorStored(cfg, cfg.majors, tree, dir, file);
  }

  /** `pre/tag` is selected for `tag`. */
  lemma SelectedBy(pre: string, tag: string)
    requires '/' !in tag
    ensures Selected(pre + "/" + tag, tag)
  {
    assert pre + "/" + tag == pre + ['/'] + tag;
    LastPieceAfterSep(pre, '/', tag);
    LastComponentSelected(pre + "/" + tag, tag);
  }

  /** `pre/last` is not selected for a tag of another length. */
  lemma NotSelectedBy(pre: string, last: string, tag: string)
    requires '/' !in last && '/' !in tag && |last| != |tag|
    ensures !Selected(pre + "/" + last, tag)
  {
    assert pre + "/" + last == pre + ['/'] + last;
    LastPieceAfterSep(pre, '/', last);
    SelectedIffLastComponent(pre + "/" + last, tag);
  }

  /** `root/sitting`, `root/sitting/a` and `root/sitting/a/sitting`. */
  function NestedPaths(root: string): (string, string, string) {
    var outer := root + "/" + "sitting";
    var middle := outer + "/" + "a";
    (outer, middle, middle + "/" + "sitting")
  }

  /** The walk of a `sitting` directory holding another `sitting` directory two
      levels down, whose one file is `file`. */
  function NestedTree(root: string, file: string): seq<Dir> {
    var (outer, middle, inner) := NestedPaths(root);
    [Dir(outer, []), Dir(middle, []), Dir(inner, [file])]
  }

  /** The file of `root/sitting/a/sitting` is stored twice: `sitting` selects both
      `root/sitting` and `root/sitting/a/sitting`. */
  lemma JobsNestedTwice(root: string, file: string)
    ensures Stored(Jobs(PostureConfig, NestedTree(root, file)), NestedPaths(root).2, file) == 2
  {
    var tree := NestedTree(root, file);
    var dir := NestedPaths(root).2;
    JobsMultiplicity(PostureConfig, tree, dir, file);
    NestedSitting(root, file);
    NestedStanding(root, file);
    NestedListed(root, file);
    var majors := PostureConfig.majors;
    var rest := majors[1..];
    assert majors[0] == "sitting" && rest[0] == "standing" && rest[1..] == [];
    assert SelectingPairs(rest, tree, dir) == 0;
    assert SelectingPairs(majors, tree, dir) == 2;
  }

  lemma NestedSitting(root: string, file: string)
    ensures Selectors("sitting", NestedTree(root, file), NestedPaths(root).2) == 2
  {
    var tree := NestedTree(root, file);
    var (outer, middle, inner) := NestedPaths(root);
    SelectedBy(root, "sitting");
    NotSelectedBy(outer, "a", "sitting");
    SelectedBy(middle, "sitting");
    NestedUnder(root);
    var (t1, t2) := (tree[1..], tree[2..]);
    assert t2[1..] == [];
    assert Selectors("sitting", t2, inner) == 1;
    assert t1[1..] == t2;
    assert Selectors("sitting", t1, inner) == 1;
  }

  /** The deepest directory lies under the outer one. */
  lemma NestedUnder(root: string)
    ensures Under(NestedPaths(root).0, NestedPaths(root).2)
  {
    var (outer, _, inner) := NestedPaths(root);
    assert inner == (outer + "/") + ("a" + "/" + "sitting");
  }

  lemma NestedStanding(root: string, file: string)
    ensures Selectors("standing", NestedTree(root, file), NestedPaths(root).2) == 0
  {
    var tree := NestedTree(root, file);
    var (outer, middle, inner) := NestedPaths(root);
    NotSelectedBy(root, "sitting", "standing");
    NotSelectedBy(outer, "a", "standing");
    NotSelectedBy(middle, "sitting", "standing");
    var (t1, t2) := (tree[1..], tree[2..]);
    assert t2[1..] == [];
    assert Selectors("standing", t2, inner) == 0;
    assert t1[1..] == t2;
    assert Selectors("standing", t1, inner) == 0;
  }

  lemma NestedListed(root: string, file: string)
    ensures Listed(NestedTree(root, file), NestedPaths(root).2, file) == 1
  {
    var tree := NestedTree(root, file);
    var dir := NestedPaths(root).2;
    assert |tree[0].path| != |dir| && |tree[1].path| != |dir|;
    assert [file][1..] == [];
    assert Occurrences([file], file) == 1;
    var (t1, t2) := (tree[1..], tree[2..]);
    assert t2[1..] == [] && t1[1..] == t2;
    assert Listed(t2, dir, file) == 1;
    assert Listed(t1, dir, file) == 1;
  }


  /** Every stored file is tagged: its first tag is a major tag and its tag list
      starts with that tag's default tags. */
  lemma JobsTagged(cfg: Config, tree: seq<Dir>, x: Job)
    requires x in Jobs(cfg, tree)
    ensures |x.tags| >= 1 && x.tags[0] in cfg.majors
    ensures IsPrefix(DefaultTags(cfg, x.tags[0]), x.tags)
  {
    JobsExactly(cfg, tree, x);
  }
}
