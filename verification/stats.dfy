/** The bookkeeping of the raw-sequence statistics script (data/stats.py, lines
    43-62 and 73-87). Every leaf directory is one sequence; its class is its parent
    directory's name; its frame count is its number of files; its span is the largest
    timestamp minus the smallest, the timestamps being the integer stems of the file
    names. Counts and spans are collected per class. The report's total is the
    number of sequences, but an empty leaf makes the report fail first. The walk is
    an input: the leaf directories with their files, in walk order. */
module Stats {

  import opened Text
  import opened Results
  import opened Decimal

  /** A leaf directory of the walk and the names of the files in it. */
  datatype Leaf = Leaf(path: string, files: seq<string>)

  /** The exceptions that stop the script: a leaf path without a parent component
      (`IndexError` at line 47), a file stem that is not an integer (`ValueError`
      at line 52), and a class whose mean span is minus infinity (`OverflowError`
      from `int(meanT)` at line 85). */
  datatype StatsError = NoParent(path: string) | BadTimestamp(file: string) | Overflow(tag: string)

  /** The smallest timestamp so far; it starts as `float('inf')` (line 48). */
  datatype Bound = Infinity | Finite(value: int)

  /** `maxTimestamp - minTimestamp` (line 58): an integer, or minus infinity when the
      leaf has no files and the minimum never left infinity. */
  datatype Span = Span(value: int) | NegInfinity

  /** What one sequence contributes: its class, frame count and span. */
  datatype SeqStat = SeqStat(tag: string, frames: nat, span: Span)

  /** The pair of lists kept per class (lines 57-62). */
  datatype ClassStats = ClassStats(frameCounts: seq<nat>, spans: seq<Span>)

  /** `stats`: class name to its lists. */
  type Table = map<string, ClassStats>

  // ---------------------------------------------------------------- one leaf

  /** Line 47: `seq.split('/')[-2]`, the second-to-last path component. Paths
      without a `/` have no such component. */
  function ParentTag(path: string): Result<string, StatsError> {
    var parts := Split(path, '/');
    if |parts| < 2 then Failure(NoParent(path)) else Success(parts[|parts| - 2])
  }

  /** The class exists exactly when the path has a `/`, and it is one component. */
  lemma ParentTagDefined(path: string)
    ensures ParentTag(path).Success? <==> '/' in path
    ensures ParentTag(path).Success? ==> '/' !in ParentTag(path).value
  {
    SplitCountIff(path, '/');
    SplitAvoidsSep(path, '/');
  }

  /** The class of a leaf `p/leaf` is the last component of `p`, also when `p` is a
      single component, as for the leaves of `walk("sitting")`. */
  lemma ParentTagOfParent(p: string, leaf: string)
    requires '/' !in leaf
    ensures ParentTag(p + "/" + leaf) == Success(Last(Split(p, '/')))
  {
    assert p + "/" + leaf == p + ['/'] + leaf;
    SplitConcat(p, '/', leaf);
    SplitWithoutSep(leaf, '/');
  }

  /** The class of `root/tag/leaf` is `tag`. */
  lemma ParentTagOf(root: string, tag: string, leaf: string)
    requires '/' !in tag && '/' !in leaf
    ensures ParentTag(root + "/" + tag + "/" + leaf) == Success(tag)
  {
    ParentTagOfParent(root + "/" + tag, leaf);
    assert root + "/" + tag == root + ['/'] + tag;
    LastPieceAfterSep(root, '/', tag);
  }

  /** A leaf directly under the class directory the script was given. */
  lemma ParentTagOfClassDir(tag: string, leaf: string)
    requires '/' !in tag && '/' !in leaf
    ensures ParentTag(tag + "/" + leaf) == Success(tag)
  {
    ParentTagOfParent(tag, leaf);
    SplitWithoutSep(tag, '/');
  }

  /** Line 51: `f.split('.')[0]`, the file name up to its first `.`. */
  function Stem(file: string): string {
    FirstPiece(file, '.')
  }

  /** A file named `<stem>.<extension>` has stem `stem`. */
  lemma StemOf(stem: string, extension: string)
    requires '.' !in stem
    ensures Stem(stem + "." + extension) == stem
  {
    SplitAtFirst(stem, '.', extension);
  }

  /** Line 52: the integer value of the stem. */
  function Timestamp(file: string): Result<int, StatsError> {
    match ParseInt(Stem(file))
    case Some(v) => Success(v)
    case None => Failure(BadTimestamp(file))
  }

  /** A file named `<t>.<extension>` has timestamp `t`. */
  lemma TimestampOf(t: int, extension: string)
    ensures Timestamp(ShowInt(t) + "." + extension) == Success(t)
  {
    var name := ShowInt(t);
    assert '.' !in name;
    StemOf(name, extension);
    ParseShowInt(t);
  }

  /** The timestamps of a leaf's files, in order; the first file whose stem is not an
      integer stops the run. */
  function Timestamps(files: seq<string>): (r: Result<seq<int>, StatsError>)
    ensures r.Success? ==> |r.value| == |files|
  {
    if files == [] then Success([])
    else
      var front := Timestamps(files[..|files| - 1]);
      if front.Failure? then Failure(front.error)
      else
        var last := Timestamp(files[|files| - 1]);
        if last.Failure? then Failure(last.error)
        else Success(front.value + [last.value])
  }

  /** A leaf's timestamps exist exactly when every file has one, and then they are
      those, file by file. */
  lemma {:induction false} TimestampsOfFiles(files: seq<string>)
    ensures Timestamps(files).Success? <==> forall i :: 0 <= i < |files| ==> Timestamp(files[i]).Success?
    ensures Timestamps(files).Success? ==>
      forall i :: 0 <= i < |files| ==> Timestamp(files[i]) == Success(Timestamps(files).value[i])
  {
    if files != [] {
      var n := |files|;
      TimestampsOfFiles(files[..n - 1]);
      assert forall i :: 0 <= i < n - 1 ==> files[..n - 1][i] == files[i];
    }
  }

  /** When every file has a timestamp, the leaf's timestamps are exactly those. */
  lemma {:induction false} TimestampsPointwise(files: seq<string>, ts: seq<int>)
    requires |files| == |ts|
    requires forall i :: 0 <= i < |files| ==> Timestamp(files[i]) == Success(ts[i])
    ensures Timestamps(files) == Success(ts)
  {
    if files != [] {
      var n := |files|;
      var front, frontTs := files[..n - 1], ts[..n - 1];
      forall i | 0 <= i < n - 1 ensures Timestamp(front[i]) == Success(frontTs[i]) {
        assert front[i] == files[i] && frontTs[i] == ts[i];
      }
      TimestampsPointwise(front, frontTs);
      var last := Timestamp(files[n - 1]);
      assert last == Success(ts[n - 1]);
      assert Timestamps(files) == Success(frontTs + [last.value]);
      assert frontTs + [ts[n - 1]] == ts;
    }
  }

  /** The running minimum of lines 48 and 55-56. */
  function MinStamp(ts: seq<int>): (r: Bound)
    ensures r == Infinity <==> ts == []
    ensures r.Finite? ==> r.value in ts && forall i :: 0 <= i < |ts| ==> r.value <= ts[i]
  {
    if ts == [] then Infinity
    else
      var front := MinStamp(ts[..|ts| - 1]);
      var t := ts[|ts| - 1];
      assert forall i :: 0 <= i < |ts| - 1 ==> ts[..|ts| - 1][i] == ts[i];
      if front.Finite? && front.value <= t then front else Finite(t)
  }

  /** The running maximum of lines 49 and 53-54, which starts at 0: it is the largest
      timestamp, or 0 when that is larger. */
  function MaxStamp(ts: seq<int>): (r: int)
    ensures r >= 0
    ensures forall i :: 0 <= i < |ts| ==> ts[i] <= r
    ensures r == 0 || r in ts
  {
    if ts == [] then 0
    else
      var front := MaxStamp(ts[..|ts| - 1]);
      var t := ts[|ts| - 1];
      assert forall i :: 0 <= i < |ts| - 1 ==> ts[..|ts| - 1][i] == ts[i];
      if t > front then t else front
  }

  /** Line 58: `maxTimestamp - minTimestamp`. */
  function SpanOf(ts: seq<int>): (r: Span)
    ensures r.NegInfinity? <==> ts == []
  {
    match MinStamp(ts)
    case Infinity => NegInfinity
    case Finite(lo) => Span(MaxStamp(ts) - lo)
  }

  /** For non-negative timestamps of a non-empty leaf the span is the largest minus the
      smallest timestamp, and so never negative. */
  lemma SpanIsRange(ts: seq<int>) returns (lo: nat, hi: nat)
    requires ts != []
    requires forall i :: 0 <= i < |ts| ==> ts[i] >= 0
    ensures lo < |ts| && hi < |ts|
    ensures forall i :: 0 <= i < |ts| ==> ts[lo] <= ts[i] <= ts[hi]
    ensures SpanOf(ts) == Span(ts[hi] - ts[lo])
    ensures SpanOf(ts).value >= 0
  {
    var min := MinStamp(ts).value;
    var max := MaxStamp(ts);
    lo :| 0 <= lo < |ts| && ts[lo] == min;
    if max == 0 {
      hi := lo;
      assert ts[lo] == 0;
    } else {
      hi :| 0 <= hi < |ts| && ts[hi] == max;
    }
  }

  /** One non-negative timestamp gives span 0. */
  lemma SpanOfSingle(t: int)
    requires t >= 0
    ensures SpanOf([t]) == Span(0)
  {
  }

  /** Because the maximum starts at 0, negative timestamps are measured from 0: a
      single file `-5.jpg` gives span 5, and `-20` with `-10` gives 20. */
  lemma SpanOfNegative()
    ensures SpanOf([-5]) == Span(5)
    ensures SpanOf([-20, -10]) == Span(20)
  {
    assert [-20, -10][..1] == [-20];
  }

  /** Lines 46-58 for one leaf: its class, its number of files and the span of its
      timestamps. */
  function Summarise(leaf: Leaf): (r: Result<SeqStat, StatsError>)
    ensures r.Success? <==> '/' in leaf.path && Timestamps(leaf.files).Success?
    ensures r.Success? ==> ParentTag(leaf.path) == Success(r.value.tag)
    ensures r.Success? ==> r.value.frames == |leaf.files|
    ensures r.Success? ==> (r.value.span.NegInfinity? <==> leaf.files == [])
  {
    ParentTagDefined(leaf.path);
    var tag :- ParentTag(leaf.path);
    var ts :- Timestamps(leaf.files);
    Success(SeqStat(tag, |leaf.files|, SpanOf(ts)))
  }

  /** Lines 48-56 as the script runs them: one pass over the files keeping the
      running minimum and maximum. It computes the span of the leaf's timestamps, or
      stops at the first file whose stem is not an integer. */
  method ScanLeaf(files: seq<string>) returns (r: Result<Span, StatsError>)
    ensures r.Success? <==> Timestamps(files).Success?
    ensures r.Success? ==> r.value == SpanOf(Timestamps(files).value)
  {
    var lo := Infinity;
    var hi := 0;
    var i := 0;
    ghost var ts: seq<int> := [];
    while i < |files|
      invariant 0 <= i <= |files|
      invariant Timestamps(files[..i]) == Success(ts)
      invariant lo == MinStamp(ts) && hi == MaxStamp(ts)
    {
      var t := Timestamp(files[i]);
      TimestampsStep(files, i, ts);
      if t.Failure? {
        return Failure(t.error);
      }
      StampsStep(ts, t.value);
      ghost var next := ts + [t.value];
      if t.value > hi {
        hi := t.value;
      }
      if lo.Infinity? || t.value < lo.value {
        lo := Finite(t.value);
      }
      ts := next;
      i := i + 1;
    }
    assert files[..i] == files;
    r := Success(match lo case Infinity => NegInfinity case Finite(m) => Span(hi - m));
  }

  /** One more file: its timestamp is appended, or its failure stops the leaf. */
  lemma {:induction false} TimestampsStep(files: seq<string>, i: nat, ts: seq<int>)
    requires i < |files| && Timestamps(files[..i]) == Success(ts)
    ensures Timestamp(files[i]).Failure? ==> Timestamps(files).Failure?
    ensures Timestamp(files[i]).Success? ==>
      Timestamps(files[..i + 1]) == Success(ts + [Timestamp(files[i]).value])
  {
    assert files[..i + 1][..i] == files[..i];
    if Timestamp(files[i]).Failure? {
      TimestampsOfFiles(files);
    }
  }

  /** One more timestamp updates the running minimum and maximum. */
  lemma StampsStep(ts: seq<int>, t: int)
    ensures MinStamp(ts + [t]) == if MinStamp(ts).Finite? && MinStamp(ts).value <= t then MinStamp(ts) else Finite(t)
    ensures MaxStamp(ts + [t]) == if t > MaxStamp(ts) then t else MaxStamp(ts)
  {
    assert (ts + [t])[..|ts|] == ts;
  }

  // ---------------------------------------------------------------- per class

  /** The class's lists before a sequence is added: empty for a new class. */
  function Prior(table: Table, tag: string): ClassStats {
    if tag in table then table[tag] else ClassStats([], [])
  }

  /** Lines 57-62: append a sequence's frame count and span to its class's lists,
      creating the class if it is new. Earlier elements are kept and other classes
      are untouched. */
  function Accumulate(table: Table, s: SeqStat): (r: Table)
    ensures r.Keys == table.Keys + {s.tag}
    ensures forall t :: t in table && t != s.tag ==> r[t] == table[t]
    ensures r[s.tag].frameCounts == Prior(table, s.tag).frameCounts + [s.frames]
    ensures r[s.tag].spans == Prior(table, s.tag).spans + [s.span]
  {
    if s.tag !in table then table[s.tag := ClassStats([s.frames], [s.span])]
    else
      var (counts, spans) := (table[s.tag].frameCounts, table[s.tag].spans);
      table[s.tag := ClassStats(counts + [s.frames], spans + [s.span])]
  }

  /** The table after all sequences, in order. */
  function Collect(sums: seq<SeqStat>): Table {
    if sums == [] then map[]
    else Accumulate(Collect(sums[..|sums| - 1]), sums[|sums| - 1])
  }

  /** The sequences of one class, in order: the reference the table is checked
      against. */
  function OfClass(sums: seq<SeqStat>, tag: string): seq<SeqStat> {
    if sums == [] then []
    else
      var front := OfClass(sums[..|sums| - 1], tag);
      var last := sums[|sums| - 1];
      if last.tag == tag then front + [last] else front
  }

  /** The class's sequences are sequences of the run with that class, and there are
      none exactly when no sequence has the class. */
  lemma {:induction false} OfClassSelects(sums: seq<SeqStat>, tag: string)
    ensures |OfClass(sums, tag)| <= |sums|
    ensures forall i :: 0 <= i < |OfClass(sums, tag)| ==> OfClass(sums, tag)[i] in sums && OfClass(sums, tag)[i].tag == tag
    ensures OfClass(sums, tag) == [] <==> forall i :: 0 <= i < |sums| ==> sums[i].tag != tag
  {
    if sums != [] {
      var front := sums[..|sums| - 1];
      OfClassSelects(front, tag);
      assert forall i :: 0 <= i < |front| ==> front[i] == sums[i];
      assert forall s :: s in front ==> s in sums;
    }
  }

  function FrameCounts(sums: seq<SeqStat>): (r: seq<nat>)
    ensures |r| == |sums|
    ensures forall i :: 0 <= i < |sums| ==> r[i] == sums[i].frames
  {
    seq(|sums|, i requires 0 <= i < |sums| => sums[i].frames)
  }

  function Spans(sums: seq<SeqStat>): (r: seq<Span>)
    ensures |r| == |sums|
    ensures forall i :: 0 <= i < |sums| ==> r[i] == sums[i].span
  {
    seq(|sums|, i requires 0 <= i < |sums| => sums[i].span)
  }

  /** Appending a sequence appends its frame count and span. */
  lemma ListsSnoc(xs: seq<SeqStat>, s: SeqStat)
    ensures FrameCounts(xs + [s]) == FrameCounts(xs) + [s.frames]
    ensures Spans(xs + [s]) == Spans(xs) + [s.span]
  {
  }

  /** The table holds a class exactly when some sequence has it. */
  lemma {:induction false} CollectKeys(sums: seq<SeqStat>, tag: string)
    ensures tag in Collect(sums) <==> exists i :: 0 <= i < |sums| && sums[i].tag == tag
  {
    if sums != [] {
      var n := |sums|;
      var front := sums[..n - 1];
      CollectKeys(front, tag);
      assert forall i :: 0 <= i < n - 1 ==> front[i] == sums[i];
    }
  }

  /** A class's two lists are the frame counts and the spans of that class's
      sequences, in order: equally long, one element per sequence. */
  lemma {:induction false} CollectGroups(sums: seq<SeqStat>, tag: string)
    requires tag in Collect(sums)
    ensures Collect(sums)[tag] == ClassStats(FrameCounts(OfClass(sums, tag)), Spans(OfClass(sums, tag)))
  {
    var n := |sums|;
    var front := sums[..n - 1];
    var prev := OfClass(front, tag);
    var last := sums[n - 1];
    if last.tag == tag {
      assert OfClass(sums, tag) == prev + [last];
      ListsSnoc(prev, last);
      if tag in Collect(front) {
        CollectGroups(front, tag);
      } else {
        CollectKeys(front, tag);
        OfClassSelects(front, tag);
      }
    } else {
      CollectGroups(front, tag);
    }
  }

  // ---------------------------------------------------------------- totals

  /** Lines 73-81: the sum of the per-class sequence counts, the classes visited in
      `order` (the table's iteration order). */
  function Total(table: Table, order: seq<string>): int
    requires forall i :: 0 <= i < |order| ==> order[i] in table
  {
    if order == [] then 0
    else |table[order[0]].frameCounts| + Total(table, order[1..])
  }

  /** The number of sequences whose class is listed in `order`. */
  function CountListed(sums: seq<SeqStat>, order: seq<string>): nat {
    if sums == [] then 0
    else CountListed(sums[..|sums| - 1], order) + if sums[|sums| - 1].tag in order then 1 else 0
  }

  /** The number of sequences of each listed class, added up. */
  function SumOfClasses(sums: seq<SeqStat>, order: seq<string>): nat {
    if order == [] then 0 else |OfClass(sums, order[0])| + SumOfClasses(sums, order[1..])
  }

  /** One more sequence adds one to the class sum exactly when its class is listed
      once. */
  lemma {:induction false} SumOfClassesStep(sums: seq<SeqStat>, s: SeqStat, order: seq<string>)
    requires forall i, j :: 0 <= i < j < |order| ==> order[i] != order[j]
    ensures SumOfClasses(sums + [s], order) == SumOfClasses(sums, order) + if s.tag in order then 1 else 0
  {
    if order != [] {
      assert (sums + [s])[..|sums|] == sums;
      SumOfClassesStep(sums, s, order[1..]);
      assert s.tag in order <==> s.tag == order[0] || s.tag in order[1..];
      if s.tag == order[0] {
        assert forall j :: 0 <= j < |order[1..]| ==> order[1..][j] == order[j + 1] != s.tag;
      }
    }
  }

  /** Adding up the listed classes counts every sequence of a listed class once. */
  lemma {:induction false} SumOfClassesCounts(sums: seq<SeqStat>, order: seq<string>)
    requires forall i, j :: 0 <= i < j < |order| ==> order[i] != order[j]
    ensures SumOfClasses(sums, order) == CountListed(sums, order)
  {
    if sums == [] {
      EmptySum(order);
    } else {
      var n := |sums|;
      SumOfClassesCounts(sums[..n - 1], order);
      SumOfClassesStep(sums[..n - 1], sums[n - 1], order);
      assert sums[..n - 1] + [sums[n - 1]] == sums;
    }
  }

  lemma {:induction false} EmptySum(order: seq<string>)
    ensures SumOfClasses([], order) == 0
  {
    if order != [] {
      EmptySum(order[1..]);
    }
  }

  /** When every sequence's class is listed, all of them are counted. */
  lemma {:induction false} CountAllListed(sums: seq<SeqStat>, order: seq<string>)
    requires forall i :: 0 <= i < |sums| ==> sums[i].tag in order
    ensures CountListed(sums, order) == |sums|
  {
    if sums != [] {
      CountAllListed(sums[..|sums| - 1], order);
    }
  }

  /** The table's total is its sum of class sizes. */
  lemma {:induction false} TotalIsSumOfClasses(sums: seq<SeqStat>, order: seq<string>)
    requires forall i :: 0 <= i < |order| ==> order[i] in Collect(sums)
    ensures Total(Collect(sums), order) == SumOfClasses(sums, order)
  {
    if order != [] {
      CollectGroups(sums, order[0]);
      TotalIsSumOfClasses(sums, order[1..]);
    }
  }

  /** Lines 73-87: whatever order the classes are visited in, the reported total is
      the number of sequences. */
  lemma {:induction false} TotalCountsSequences(sums: seq<SeqStat>, order: seq<string>)
    requires forall i, j :: 0 <= i < j < |order| ==> order[i] != order[j]
    requires forall t :: t in Collect(sums) <==> t in order
    ensures Total(Collect(sums), order) == |sums|
  {
    TotalIsSumOfClasses(sums, order);
    SumOfClassesCounts(sums, order);
    forall i | 0 <= i < |sums| ensures sums[i].tag in order {
      CollectKeys(sums, sums[i].tag);
    }
    CountAllListed(sums, order);
  }

  // ---------------------------------------------------------------- whole run

  /** Every leaf summarised in walk order; the first failure stops the run. */
  function SummariseAll(leaves: seq<Leaf>): (r: Result<seq<SeqStat>, StatsError>)
    ensures r.Success? ==> |r.value| == |leaves|
    ensures r.Success? ==> forall i :: 0 <= i < |leaves| ==> Summarise(leaves[i]) == Success(r.value[i])
    ensures r.Success? <==> forall i :: 0 <= i < |leaves| ==> Summarise(leaves[i]).Success?
  {
    if leaves == [] then Success([])
    else
      var front := SummariseAll(leaves[..|leaves| - 1]);
      assert forall i :: 0 <= i < |leaves| - 1 ==> leaves[..|leaves| - 1][i] == leaves[i];
      if front.Failure? then Failure(front.error)
      else
        var last := Summarise(leaves[|leaves| - 1]);
        if last.Failure? then Failure(last.error)
        else Success(front.value + [last.value])
  }

  /** Lines 43-62: the per-class table of a whole run. */
  function Analyse(leaves: seq<Leaf>): Result<Table, StatsError> {
    var sums :- SummariseAll(leaves);
    Success(Collect(sums))
  }

  /** A successful run's total is the number of leaf sequences. */
  lemma {:induction false} AnalyseTotal(leaves: seq<Leaf>, table: Table, order: seq<string>)
    requires Analyse(leaves) == Success(table)
    requires forall i, j :: 0 <= i < j < |order| ==> order[i] != order[j]
    requires forall t :: t in table <==> t in order
    ensures Total(table, order) == |leaves|
  {
    TotalCountsSequences(SummariseAll(leaves).value, order);
  }

  // ---------------------------------------------------------------- the report

  /** Lines 74-86: one row per class, visited in `order`, adding up the sequence
      counts. A class holding an empty leaf has minus infinity among its spans, so
      its mean span is minus infinity and `int(meanT)` at line 85 raises before any
      later row or the total. */
  function Rows(table: Table, order: seq<string>): Result<nat, StatsError>
    requires forall i :: 0 <= i < |order| ==> order[i] in table
  {
    if order == [] then Success(0)
    else if NegInfinity in table[order[0]].spans then Failure(Overflow(order[0]))
    else
      var rest :- Rows(table, order[1..]);
      Success(|table[order[0]].frameCounts| + rest)
  }

  /** Lines 64-87: no report at all for an empty table (`if stats:`); otherwise the
      rows and then the total row. */
  function Report(table: Table, order: seq<string>): Result<Option<nat>, StatsError>
    requires forall i :: 0 <= i < |order| ==> order[i] in table
  {
    if table == map[] then Success(None)
    else
      var total :- Rows(table, order);
      Success(Some(total))
  }

  /** The rows all print exactly when no listed class holds minus infinity, and then
      they add up to the table's total. */
  lemma {:induction false} RowsTotal(table: Table, order: seq<string>)
    requires forall i :: 0 <= i < |order| ==> order[i] in table
    ensures Rows(table, order).Success? <==>
      forall i :: 0 <= i < |order| ==> NegInfinity !in table[order[i]].spans
    ensures Rows(table, order).Success? ==> Rows(table, order).value == Total(table, order)
  {
    if order != [] {
      RowsTotal(table, order[1..]);
      assert forall i :: 0 < i < |order| ==> order[i] == order[1..][i - 1];
    }
  }

  /** A sequence of the class is among the class's sequences. */
  lemma {:induction false} OfClassHas(sums: seq<SeqStat>, tag: string, i: nat)
    requires i < |sums| && sums[i].tag == tag
    ensures sums[i] in OfClass(sums, tag)
  {
    var front := sums[..|sums| - 1];
    if i < |sums| - 1 {
      assert front[i] == sums[i];
      OfClassHas(front, tag, i);
    }
  }

  /** A class's spans hold minus infinity exactly when one of its sequences is an
      empty leaf. */
  lemma {:induction false} ClassHasEmpty(sums: seq<SeqStat>, tag: string)
    requires tag in Collect(sums)
    ensures NegInfinity in Collect(sums)[tag].spans <==>
      exists i :: 0 <= i < |sums| && sums[i].tag == tag && sums[i].span == NegInfinity
  {
    CollectGroups(sums, tag);
    if NegInfinity in Spans(OfClass(sums, tag)) {
      EmptyFromGroup(sums, tag);
    }
    if exists i :: 0 <= i < |sums| && sums[i].tag == tag && sums[i].span == NegInfinity {
      var i :| 0 <= i < |sums| && sums[i].tag == tag && sums[i].span == NegInfinity;
      EmptyIntoGroup(sums, tag, i);
    }
  }

  lemma EmptyFromGroup(sums: seq<SeqStat>, tag: string)
    requires NegInfinity in Spans(OfClass(sums, tag))
    ensures exists i :: 0 <= i < |sums| && sums[i].tag == tag && sums[i].span == NegInfinity
  {
    var group := OfClass(sums, tag);
    OfClassSelects(sums, tag);
    var k :| 0 <= k < |group| && Spans(group)[k] == NegInfinity;
    assert group[k] in sums && group[k].tag == tag;
    var i :| 0 <= i < |sums| && sums[i] == group[k];
  }

  lemma EmptyIntoGroup(sums: seq<SeqStat>, tag: string, i: nat)
    requires i < |sums| && sums[i].tag == tag && sums[i].span == NegInfinity
    ensures NegInfinity in Spans(OfClass(sums, tag))
  {
    var group := OfClass(sums, tag);
    OfClassHas(sums, tag, i);
    var k :| 0 <= k < |group| && group[k] == sums[i];
    assert Spans(group)[k] == NegInfinity;
  }

  /** What a run prints at the end, for any order of visiting the classes: nothing
      when there are no leaves, an `OverflowError` exactly when some leaf is empty,
      and otherwise a total equal to the number of leaves. */
  lemma {:induction false} ReportRun(leaves: seq<Leaf>, table: Table, order: seq<string>)
    requires Analyse(leaves) == Success(table)
    requires forall i, j :: 0 <= i < j < |order| ==> order[i] != order[j]
    requires forall t :: t in table <==> t in order
    ensures Report(table, order) == Success(None) <==> leaves == []
    ensures Report(table, order).Failure? <==> exists i :: 0 <= i < |leaves| && leaves[i].files == []
    ensures leaves != [] && (forall i :: 0 <= i < |leaves| ==> leaves[i].files != []) ==>
      Report(table, order) == Success(Some(|leaves|))
  {
    var sums := SummariseAll(leaves).value;
    assert table == Collect(sums);
    if leaves != [] {
      CollectKeys(sums, sums[0].tag);
      assert sums[0].tag in table;
    }
    RowsTotal(table, order);
    AnalyseTotal(leaves, table, order);
    forall j | 0 <= j < |order| ensures NegInfinity in table[order[j]].spans <==>
      exists i :: 0 <= i < |leaves| && sums[i].tag == order[j] && leaves[i].files == []
    {
      ClassHasEmpty(sums, order[j]);
    }
    if exists i :: 0 <= i < |leaves| && leaves[i].files == [] {
      var i :| 0 <= i < |leaves| && leaves[i].files == [];
      CollectKeys(sums, sums[i].tag);
      var j :| 0 <= j < |order| && order[j] == sums[i].tag;
    }
  }

  /** The frame counts a run records for a class are the file counts of that class's
      leaves, in walk order. */
  function LeafFrames(leaves: seq<Leaf>, tag: string): seq<nat> {
    if leaves == [] then []
    else
      var front := LeafFrames(leaves[..|leaves| - 1], tag);
      var last := leaves[|leaves| - 1];
      if ParentTag(last.path) == Success(tag) then front + [|last.files|] else front
  }

  /** A class's frame counts in a successful run are its leaves' file counts. */
  lemma {:induction false} AnalyseFrames(leaves: seq<Leaf>, table: Table, tag: string)
    requires Analyse(leaves) == Success(table)
    requires tag in table
    ensures table[tag].frameCounts == LeafFrames(leaves, tag)
  {
    var sums := SummariseAll(leaves).value;
    CollectGroups(sums, tag);
    forall i | 0 <= i < |leaves|
      ensures ParentTag(leaves[i].path) == Success(sums[i].tag) && sums[i].frames == |leaves[i].files|
    {
      assert Summarise(leaves[i]) == Success(sums[i]);
    }
    ClassFrames(leaves, sums, tag);
  }

  lemma {:induction false} ClassFrames(leaves: seq<Leaf>, sums: seq<SeqStat>, tag: string)
    requires |sums| == |leaves|
    requires forall i :: 0 <= i < |leaves| ==>
      ParentTag(leaves[i].path) == Success(sums[i].tag) && sums[i].frames == |leaves[i].files|
    ensures FrameCounts(OfClass(sums, tag)) == LeafFrames(leaves, tag)
  {
    if leaves != [] {
      var n := |leaves|;
      var front := leaves[..n - 1];
      var frontSums := sums[..n - 1];
      assert forall i :: 0 <= i < n - 1 ==> front[i] == leaves[i] && frontSums[i] == sums[i];
      ClassFrames(front, frontSums, tag);
      var s := sums[n - 1];
      var leaf := leaves[n - 1];
      assert ParentTag(leaf.path) == Success(s.tag) && s.frames == |leaf.files|;
      var prev := OfClass(frontSums, tag);
      if s.tag == tag {
        assert OfClass(sums, tag) == prev + [s];
        assert LeafFrames(leaves, tag) == LeafFrames(front, tag) + [s.frames];
        ListsSnoc(prev, s);
      } else {
        assert OfClass(sums, tag) == prev;
        assert LeafFrames(leaves, tag) == LeafFrames(front, tag);
      }
    }
  }

  /** The file names a capture of frames at timestamps `ts` gets: `<t>.<extension>`. */
  function FrameFiles(ts: seq<int>, extension: string): (files: seq<string>)
    ensures |files| == |ts|
  {
    seq(|ts|, i requires 0 <= i < |ts| => ShowInt(ts[i]) + "." + extension)
  }

  /** A leaf `root/tag/leaf` holding frames named by their timestamps is a sequence of
      class `tag`, one frame per file, spanning those timestamps. */
  lemma SummariseFrames(root: string, tag: string, leaf: string, ts: seq<int>, extension: string)
    requires '/' !in tag && '/' !in leaf
    ensures Summarise(Leaf(root + "/" + tag + "/" + leaf, FrameFiles(ts, extension)))
      == Success(SeqStat(tag, |ts|, SpanOf(ts)))
  {
    var files := FrameFiles(ts, extension);
    forall i | 0 <= i < |ts| ensures Timestamp(files[i]) == Success(ts[i]) {
      TimestampOf(ts[i], extension);
    }
    TimestampsPointwise(files, ts);
    ParentTagOf(root, tag, leaf);
  }

  /** Timestamps 100, 150 and 200 span 100. */
  lemma SpanExample()
    ensures SpanOf([100, 150, 200]) == Span(100)
  {
    var ts := [100, 150, 200];
    assert ts[..2] == [100, 150] && ts[..2][..1] == [100];
  }
}
