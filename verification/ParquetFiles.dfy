/** Parquet files as the compactor sees them: a time range, a compaction level and the age of their newest data. */
module ParquetFiles {

  /** L0, L1 and L2. */
  datatype Level = Initial | FileNonOverlapped | Final
  {
    function Rank(): nat {
      match this
      case Initial => 0
      case FileNonOverlapped => 1
      case Final => 2
    }

    function Next(): Level {
      match this
      case Initial => FileNonOverlapped
      case FileNonOverlapped => Final
      case Final => Final
    }

    function Prev(): Level {
      match this
      case Initial => Initial
      case FileNonOverlapped => Initial
      case Final => FileNonOverlapped
    }
  }

  datatype ParquetFile = ParquetFile(
    id: nat, minTime: int, maxTime: int, bytes: int, rows: int, level: Level, maxL0CreatedAt: int)

  predicate Ordered(f: ParquetFile) {
    f.minTime <= f.maxTime
  }

  predicate Overlaps(f: ParquetFile, g: ParquetFile) {
    f.minTime <= g.maxTime && f.maxTime >= g.minTime
  }

  /** The instant t lies in the time range of the file. */
  predicate Holds(f: ParquetFile, t: int) {
    f.minTime <= t <= f.maxTime
  }

  /** For files that hold data, overlapping means sharing an instant. */
  lemma OverlapsMeansShared(f: ParquetFile, g: ParquetFile)
    requires Ordered(f) && Ordered(g)
    ensures Overlaps(f, g) <==> exists t: int :: Holds(f, t) && Holds(g, t)
  {
    if Overlaps(f, g) {
      var t := if f.minTime <= g.minTime then g.minTime else f.minTime;
      assert Holds(f, t) && Holds(g, t);
    }
  }

  /** The split time is the last instant that goes left, so it cuts a file when something goes right as well. */
  predicate Cuts(t: int, minTime: int, maxTime: int) {
    minTime <= t < maxTime
  }

  ghost predicate SomeCut(times: seq<int>, minTime: int, maxTime: int) {
    exists i :: 0 <= i < |times| && Cuts(times[i], minTime, maxTime)
  }

  method NeedsSplit(f: ParquetFile, times: seq<int>) returns (r: bool)
    ensures r <==> SomeCut(times, f.minTime, f.maxTime)
  {
    for i := 0 to |times|
      invariant forall j :: 0 <= j < i ==> !Cuts(times[j], f.minTime, f.maxTime)
    {
      if f.minTime <= times[i] && f.maxTime > times[i] {
        assert Cuts(times[i], f.minTime, f.maxTime);
        return true;
      }
    }
    return false;
  }

  // ---------- groups of files ----------

  /** The time range of a group goes from its least to its greatest instant. */
  function MinTime(files: seq<ParquetFile>): (lo: int)
    requires files != []
    ensures forall f :: f in files ==> lo <= f.minTime
    ensures exists f :: f in files && f.minTime == lo
  {
    if |files| == 1 then
      assert files[0] in files; files[0].minTime
    else
      var rest := MinTime(files[1..]);
      assert files == [files[0]] + files[1..];
      if files[0].minTime <= rest then assert files[0] in files; files[0].minTime else rest
  }

  function MaxTime(files: seq<ParquetFile>): (hi: int)
    requires files != []
    ensures forall f :: f in files ==> f.maxTime <= hi
    ensures exists f :: f in files && f.maxTime == hi
  {
    if |files| == 1 then
      assert files[0] in files; files[0].maxTime
    else
      var rest := MaxTime(files[1..]);
      assert files == [files[0]] + files[1..];
      if files[0].maxTime >= rest then assert files[0] in files; files[0].maxTime else rest
  }

  /** The newest age among the files. */
  function MaxL0(files: seq<ParquetFile>): (a: int)
    requires files != []
    ensures forall f :: f in files ==> f.maxL0CreatedAt <= a
    ensures exists f :: f in files && f.maxL0CreatedAt == a
  {
    if |files| == 1 then
      assert files[0] in files; files[0].maxL0CreatedAt
    else
      var rest := MaxL0(files[1..]);
      assert files == [files[0]] + files[1..];
      if files[0].maxL0CreatedAt >= rest then assert files[0] in files; files[0].maxL0CreatedAt else rest
  }

  function TotalBytes(files: seq<ParquetFile>): int {
    if files == [] then 0 else files[0].bytes + TotalBytes(files[1..])
  }

  function TotalRows(files: seq<ParquetFile>): int {
    if files == [] then 0 else files[0].rows + TotalRows(files[1..])
  }

  /** No id occurs twice. */
  ghost predicate DistinctIds(files: seq<ParquetFile>) {
    forall i, j :: 0 <= i < j < |files| ==> files[i].id != files[j].id
  }

  /** With distinct ids a file occurs once or not at all. */
  lemma {:induction false} CountDistinct(files: seq<ParquetFile>, f: ParquetFile)
    requires DistinctIds(files)
    ensures multiset(files)[f] == if f in files then 1 else 0
  {
    if files != [] {
      var before, last := files[..|files| - 1], files[|files| - 1];
      assert files == before + [last];
      CountDistinct(before, f);
      if last == f {
        assert f !in before;
      }
    }
  }

  /** Files dealt out to two places, each to one of them. */
  lemma DealtOut(files: seq<ParquetFile>, a: seq<ParquetFile>, b: seq<ParquetFile>)
    requires DistinctIds(files) && DistinctIds(a) && DistinctIds(b)
    requires forall f :: f in files <==> f in a || f in b
    requires forall f :: f in a ==> f !in b
    ensures multiset(a) + multiset(b) == multiset(files)
  {
    forall f ensures (multiset(a) + multiset(b))[f] == multiset(files)[f] {
      CountDistinct(files, f);
      CountDistinct(a, f);
      CountDistinct(b, f);
    }
  }

  lemma CountTwo(files: seq<ParquetFile>, i: nat, j: nat)
    requires i < j < |files|
    ensures files[i] == files[j] ==> multiset(files)[files[i]] >= 2
  {
    assert files == files[..i] + [files[i]] + files[i + 1..j] + [files[j]] + files[j + 1..];
  }

  lemma SameId(files: seq<ParquetFile>, f: ParquetFile, g: ParquetFile)
    requires DistinctIds(files) && f in files && g in files
    ensures f.id == g.id ==> f == g
  {
    var i :| 0 <= i < |files| && files[i] == f;
    var j :| 0 <= j < |files| && files[j] == g;
    assert i < j ==> files[i].id != files[j].id;
    assert j < i ==> files[j].id != files[i].id;
  }

  lemma DistinctPart(files: seq<ParquetFile>, part: seq<ParquetFile>)
    requires DistinctIds(files) && multiset(part) <= multiset(files)
    ensures DistinctIds(part) && forall f :: f in part ==> f in files
  {
    forall f | f in part ensures f in files {
      assert f in multiset(part) && f in multiset(files);
    }
    forall i, j | 0 <= i < j < |part| ensures part[i].id != part[j].id {
      assert part[i] in part && part[j] in part;
      SameId(files, part[i], part[j]);
      CountTwo(part, i, j);
      CountDistinct(files, part[i]);
      assert multiset(part)[part[i]] <= multiset(files)[part[i]];
    }
  }

  lemma {:induction false} TotalConcat(a: seq<ParquetFile>, b: seq<ParquetFile>)
    ensures TotalBytes(a + b) == TotalBytes(a) + TotalBytes(b)
  {
    if a == [] {
      assert a + b == b;
    } else {
      TotalConcat(a[1..], b);
      assert (a + b)[1..] == a[1..] + b;
    }
  }
}
