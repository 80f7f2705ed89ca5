/** Picking a part of the files to compact when all of them are too many: files of the lower level in their order, each
    with the files of the target level it would be merged with. */
module LimitFiles {
  import opened ParquetFiles
  import opened FilesSplit
  import opened Plans

  /** The files picked to compact, or to be split before that, and the files kept for later. */
  datatype Limited =
    | Chosen(compact: Picked, keep: Picked)
    | TooLarge(files: Picked, keep: Picked)
    | SplitAt(splits: seq<FileToSplit>, keep: Picked)
  {
    function Picks(): Picked {
      match this
      case Chosen(compact, _) => compact
      case TooLarge(files, _) => files
      case SplitAt(splits, _) => SplitFiles(splits).Files()
    }
  }

  ghost predicate NoOverlap(files: Picked) {
    forall f, g :: f in files && g in files && f != g ==> !Overlaps(f, g)
  }

  /** No file of the lower level overlaps two files of the target level. */
  ghost predicate OneTarget(start: Picked, targets: Picked) {
    forall s, t, u :: s in start && t in targets && u in targets && Overlaps(s, t) && Overlaps(s, u) ==> t == u
  }

  /** Files of the lower level in their order, and those of the target level. L1 and L2 do not overlap. */
  ghost predicate Setting(ordered: Picked, targets: Picked, target: Level) {
    && AllOrdered(ordered) && AllOrdered(targets) && DistinctIds(ordered) && DistinctIds(targets)
    && SortedFiles(ordered, target != Final)
    && NoOverlap(targets) && (target == Final ==> NoOverlap(ordered)) && OneTarget(ordered, targets)
  }

  /** The file reaches into the range of the first m files. */
  ghost predicate Reaches(t: ParquetFile, ordered: Picked, m: nat)
    requires m <= |ordered|
  {
    m > 0 && !Outside(t, MinTime(ordered[..m]), MaxTime(ordered[..m]))
  }

  /** The target-level files taken are those that reach into the range of the first m files. Going to L2, the later
      files lie behind all of them. */
  ghost predicate Inv(ordered: Picked, targets: Picked, target: Level, m: nat, taken: Picked)
    requires m <= |ordered|
  {
    && DistinctIds(taken)
    && (forall t :: t in taken <==> t in targets && Reaches(t, ordered, m))
    && (target == Final ==> forall t, j :: t in taken && m <= j < |ordered| ==> t.maxTime < ordered[j].minTime)
  }

  // ---------- the order of L1 files ----------

  lemma InTimeOrder(ordered: Picked, i: nat, j: nat)
    requires AllOrdered(ordered) && DistinctIds(ordered) && SortedFiles(ordered, false) && NoOverlap(ordered)
    requires i < j < |ordered|
    ensures ordered[i].maxTime < ordered[j].minTime
  {
    assert ordered[i] in ordered && ordered[j] in ordered;
    assert NotAfter(ordered[i], ordered[j], false);
  }

  lemma SortedHull(ordered: Picked, m: nat)
    requires AllOrdered(ordered) && DistinctIds(ordered) && SortedFiles(ordered, false) && NoOverlap(ordered)
    requires 0 < m <= |ordered|
    ensures MinTime(ordered[..m]) == ordered[0].minTime && MaxTime(ordered[..m]) == ordered[m - 1].maxTime
  {
    hide MinTime, MaxTime;
    var first := ordered[..m];
    assert first[0] in first && first[m - 1] in first;
    forall f | f in first ensures ordered[0].minTime <= f.minTime && f.maxTime <= ordered[m - 1].maxTime {
      var i :| 0 <= i < m && ordered[i] == f;
      assert f in ordered && ordered[0] in ordered && ordered[m - 1] in ordered;
      if i > 0 {
        InTimeOrder(ordered, 0, i);
      }
      if i < m - 1 {
        InTimeOrder(ordered, i, m - 1);
      }
    }
  }

  lemma ReachesSorted(ordered: Picked, m: nat, t: ParquetFile)
    requires AllOrdered(ordered) && DistinctIds(ordered) && SortedFiles(ordered, false) && NoOverlap(ordered)
    requires 0 < m <= |ordered|
    ensures Reaches(t, ordered, m) <==> t.minTime <= ordered[m - 1].maxTime && t.maxTime >= ordered[0].minTime
  {
    hide MinTime, MaxTime, SortedFiles, NoOverlap, DistinctIds, AllOrdered;
    SortedHull(ordered, m);
  }

  // ---------- taking one more file ----------

  /** The target-level files that come with the file at m. */
  ghost predicate ComeAlong(ordered: Picked, targets: Picked, m: nat, taken: Picked, along: Picked)
    requires m < |ordered|
  {
    DistinctIds(along) && forall t :: t in along <==> t in targets && Reaches(t, ordered, m + 1) && t !in taken
  }

  /** Going to L2, the files up to k are those behind the one at m that reach into the range of what comes along. */
  ghost predicate DrawnIn(ordered: Picked, target: Level, m: nat, along: Picked, k: nat) {
    && m < k <= |ordered|
    && if target == Final && along != []
       then forall j :: m < j < |ordered| ==> (j < k <==> !Outside(ordered[j], MinTime(along), MaxTime(along)))
       else k == m + 1
  }

  lemma WiderHull(ordered: Picked, m: nat, k: nat, t: ParquetFile)
    requires 0 < m <= k <= |ordered| && Reaches(t, ordered, m)
    ensures Reaches(t, ordered, k)
  {
    hide MinTime, MaxTime;
    assert forall f :: f in ordered[..m] ==> f in ordered[..k];
  }

  /** A target-level file that the drawn-in files would reach besides is not there: it and the last file that came
      along would both overlap the last one drawn in. */
  lemma NoneReachedBesides(
    ordered: Picked, targets: Picked, m: nat, taken: Picked, along: Picked, k: nat, t: ParquetFile)
    requires Setting(ordered, targets, Final) && m < |ordered| && Inv(ordered, targets, Final, m, taken)
    requires ComeAlong(ordered, targets, m, taken, along) && DrawnIn(ordered, Final, m, along, k) && along != []
    requires t in targets && Reaches(t, ordered, k)
    ensures Reaches(t, ordered, m + 1)
  {
    hide MinTime, MaxTime, SortedFiles, OneTarget, NoOverlap, Inv, DistinctIds, AllOrdered, Reaches;
    if k > m + 1 {
      var end := LatestEnd(along);
      assert end in targets && Reaches(end, ordered, m + 1);
      assert !Outside(ordered[k - 1], MinTime(along), MaxTime(along));
      ReachedBefore(ordered, targets, m, end, k, t);
    }
  }

  lemma LatestEnd(files: Picked) returns (f: ParquetFile)
    requires files != []
    ensures f in files && f.maxTime == MaxTime(files)
  {
    hide MaxTime;
    var hi := MaxTime(files);
    f :| f in files && f.maxTime == hi;
  }

  lemma ReachedBefore(ordered: Picked, targets: Picked, m: nat, end: ParquetFile, k: nat, t: ParquetFile)
    requires Setting(ordered, targets, Final) && m + 1 < k <= |ordered| && end in targets && t in targets
    requires Reaches(end, ordered, m + 1) && ordered[k - 1].minTime <= end.maxTime && Reaches(t, ordered, k)
    ensures Reaches(t, ordered, m + 1)
  {
    hide MinTime, MaxTime, SortedFiles, OneTarget, NoOverlap, DistinctIds, AllOrdered, Reaches;
    ReachesSorted(ordered, k, t);
    ReachesSorted(ordered, m + 1, t);
    ReachesSorted(ordered, m + 1, end);
    InTimeOrder(ordered, m, k - 1);
    TwoTargets(ordered, targets, ordered[k - 1], end, t, ordered[m].maxTime);
  }

  lemma TwoTargets(ordered: Picked, targets: Picked, last: ParquetFile, end: ParquetFile, t: ParquetFile, x: int)
    requires AllOrdered(ordered) && AllOrdered(targets) && NoOverlap(targets) && OneTarget(ordered, targets)
    requires last in ordered && end in targets && t in targets
    requires end.minTime <= x < last.minTime <= end.maxTime && t.minTime <= last.maxTime
    ensures t.minTime <= x
  {
    assert Ordered(last) && Ordered(t) && Overlaps(last, end);
    if t.minTime > x {
      assert t != end && !Overlaps(t, end);
      assert Overlaps(last, t);
    }
  }

  lemma TakenStill(
    ordered: Picked, targets: Picked, target: Level, m: nat, taken: Picked, along: Picked, k: nat, t: ParquetFile)
    requires Setting(ordered, targets, target) && m < |ordered| && Inv(ordered, targets, target, m, taken)
    requires ComeAlong(ordered, targets, m, taken, along) && DrawnIn(ordered, target, m, along, k)
    ensures t in taken + along <==> t in targets && Reaches(t, ordered, k)
  {
    hide MinTime, MaxTime, Setting, Outside;
    if t in taken {
      WiderHull(ordered, m, k, t);
    }
    if t in along {
      WiderHull(ordered, m + 1, k, t);
    }
    if t in targets && Reaches(t, ordered, k) {
      if target == Final && along != [] {
        NoneReachedBesides(ordered, targets, m, taken, along, k, t);
      }
      assert Reaches(t, ordered, m + 1);
    }
  }

  lemma LaterBehind(
    ordered: Picked, targets: Picked, m: nat, taken: Picked, along: Picked, k: nat, t: ParquetFile, j: nat)
    requires Setting(ordered, targets, Final) && m < |ordered| && Inv(ordered, targets, Final, m, taken)
    requires ComeAlong(ordered, targets, m, taken, along) && DrawnIn(ordered, Final, m, along, k)
    requires t in taken + along && k <= j < |ordered|
    ensures t.maxTime < ordered[j].minTime
  {
    hide MinTime, MaxTime;
    if t in along {
      assert ordered[j] in ordered;
      SortedHull(ordered, m + 1);
      InTimeOrder(ordered, m, j);
      assert Outside(ordered[j], MinTime(along), MaxTime(along));
    }
  }

  lemma TakenDistinct(ordered: Picked, targets: Picked, m: nat, taken: Picked, along: Picked)
    requires m < |ordered| && DistinctIds(targets) && DistinctIds(taken) && (forall t :: t in taken ==> t in targets)
    requires ComeAlong(ordered, targets, m, taken, along)
    ensures DistinctIds(taken + along)
  {
    var all := taken + along;
    forall i, j | 0 <= i < j < |all| ensures all[i].id != all[j].id {
      assert all[i] in targets && all[j] in targets;
      if i < |taken| <= j {
        assert all[i] in taken && all[j] in along && all[i] != all[j];
        SameId(targets, all[i], all[j]);
      }
    }
  }

  /** Taking the file at m, with what comes along and what is drawn in, keeps the invariant. */
  lemma OneMoreTaken(ordered: Picked, targets: Picked, target: Level, m: nat, taken: Picked, along: Picked, k: nat)
    requires Setting(ordered, targets, target) && m < |ordered| && Inv(ordered, targets, target, m, taken)
    requires ComeAlong(ordered, targets, m, taken, along) && DrawnIn(ordered, target, m, along, k)
    ensures Inv(ordered, targets, target, k, taken + along)
  {
    hide MinTime, MaxTime, Reaches;
    TakenDistinct(ordered, targets, m, taken, along);
    forall t ensures t in taken + along <==> t in targets && Reaches(t, ordered, k) {
      TakenStill(ordered, targets, target, m, taken, along, k, t);
    }
    if target == Final {
      forall t, j | t in taken + along && k <= j < |ordered| ensures t.maxTime < ordered[j].minTime {
        LaterBehind(ordered, targets, m, taken, along, k, t, j);
      }
    }
  }

  // ---------- what the files picked are clear of ----------

  lemma KeptTargetClear(ordered: Picked, targets: Picked, target: Level, m: nat, taken: Picked, t: ParquetFile)
    requires Setting(ordered, targets, target) && 0 < m <= |ordered| && Inv(ordered, targets, target, m, taken)
    requires t in targets && t !in taken
    ensures Clear(t, ordered[..m] + taken)
  {
    hide MinTime, MaxTime, SortedFiles, OneTarget, DistinctIds;
    var first := ordered[..m];
    var lo, hi := MinTime(first), MaxTime(first);
    assert !Reaches(t, ordered, m) && Outside(t, lo, hi);
    forall f | f in first + taken ensures if hi < t.minTime then f.maxTime < t.minTime else t.maxTime < f.minTime {
      if f in taken {
        assert Reaches(f, ordered, m) && f in targets && f != t && !Overlaps(f, t) && Ordered(f) && Ordered(t);
      }
    }
    SideClear(t, first + taken);
  }

  lemma KeptStartClear(ordered: Picked, targets: Picked, m: nat, taken: Picked, j: nat)
    requires Setting(ordered, targets, Final) && 0 < m <= j < |ordered| && Inv(ordered, targets, Final, m, taken)
    ensures Clear(ordered[j], ordered[..m] + taken)
  {
    hide MinTime, MaxTime, SortedFiles, OneTarget, DistinctIds, NoOverlap;
    forall f | f in ordered[..m] + taken ensures f.maxTime < ordered[j].minTime {
      if f in ordered[..m] {
        var i :| 0 <= i < m && ordered[i] == f;
        InTimeOrder(ordered, i, j);
      }
    }
    SideClear(ordered[j], ordered[..m] + taken);
  }

  lemma KeptStartNewer(ordered: Picked, i: nat, j: nat)
    requires SortedFiles(ordered, true) && i < j < |ordered|
    ensures ordered[i].maxL0CreatedAt <= ordered[j].maxL0CreatedAt
  {
    assert NotAfter(ordered[i], ordered[j], true);
  }

  /** Kept target-level files are clear of the whole range that is compacted; going to L2 all kept files are; and
      going to L1 the kept L0 files are at least as new as those compacted. */
  ghost predicate ChosenWell(compact: Picked, keep: Picked, target: Level) {
    && (forall g :: g in keep && (g.level == target || target == Final) ==> Clear(g, compact))
    && (target != Final ==> forall f, g :: f in compact && g in keep && f.level == g.level == target.Prev() ==>
      f.maxL0CreatedAt <= g.maxL0CreatedAt)
  }

  lemma ChosenIsWell(ordered: Picked, targets: Picked, target: Level, m: nat, taken: Picked, keep: Picked)
    requires Setting(ordered, targets, target) && 0 < m <= |ordered| && Inv(ordered, targets, target, m, taken)
    requires target != Initial
    requires (forall s :: s in ordered ==> s.level == target.Prev()) && (forall t :: t in targets ==> t.level == target)
    requires forall g :: g in keep ==> (g in targets && g !in taken) || g in ordered[m..]
    ensures ChosenWell(ordered[..m] + taken, keep, target)
  {
    hide Setting, Inv, Clear;
    TakenAreTargets(ordered, targets, target, m, taken);
    forall g | g in keep && (g.level == target || target == Final) ensures Clear(g, ordered[..m] + taken) {
      if g in targets && g !in taken {
        KeptTargetClear(ordered, targets, target, m, taken, g);
      } else {
        var j :| m <= j < |ordered| && ordered[j] == g;
        assert ordered[j] in ordered;
        KeptStartClear(ordered, targets, m, taken, j);
      }
    }
    if target != Final {
      OrderedByAge(ordered, targets, target);
      forall f, g | f in ordered[..m] + taken && g in keep && f.level == g.level == target.Prev()
        ensures f.maxL0CreatedAt <= g.maxL0CreatedAt
      {
        assert f in ordered[..m] && g in ordered[m..];
        var i :| 0 <= i < m && ordered[i] == f;
        var j :| m <= j < |ordered| && ordered[j] == g;
        KeptStartNewer(ordered, i, j);
      }
    }
  }

  lemma TakenAreTargets(ordered: Picked, targets: Picked, target: Level, m: nat, taken: Picked)
    requires m <= |ordered| && Inv(ordered, targets, target, m, taken)
    ensures forall t :: t in taken ==> t in targets
  {
  }

  lemma OrderedByAge(ordered: Picked, targets: Picked, target: Level)
    requires Setting(ordered, targets, target) && target != Final
    ensures SortedFiles(ordered, true)
  {
  }

  // ---------- picking ----------

  method HasId(files: Picked, id: nat) returns (r: bool)
    ensures r <==> exists f :: f in files && f.id == id
  {
    for i := 0 to |files|
      invariant forall j :: 0 <= j < i ==> files[j].id != id
    {
      if files[i].id == id {
        assert files[i] in files;
        return true;
      }
    }
    return false;
  }

  /** The target-level files not taken yet that reach into the range of the files up to m. */
  method FindAlong(ordered: Picked, targets: Picked, m: nat, taken: Picked) returns (along: Picked)
    requires m < |ordered| && DistinctIds(targets)
    ensures ComeAlong(ordered, targets, m, taken, along)
  {
    hide MinTime, MaxTime;
    var range := TimeRange(ordered[..m + 1]);
    var (lo, hi) := range.value;
    along := [];
    for i := 0 to |targets|
      invariant DistinctIds(along)
      invariant forall t :: t in along <==> t in targets[..i] && !Outside(t, lo, hi) && t !in taken
    {
      assert targets[..i + 1] == targets[..i] + [targets[i]];
      assert forall t :: t in targets[..i] ==> t.id != targets[i].id;
      if !Outside(targets[i], lo, hi) && targets[i] !in taken {
        AppendDistinct(along, targets[i]);
        along := along + [targets[i]];
      }
    }
    assert targets[..|targets|] == targets;
  }

  lemma AppendDistinct(files: Picked, f: ParquetFile)
    requires DistinctIds(files) && forall g :: g in files ==> g.id != f.id
    ensures DistinctIds(files + [f])
  {
  }

  /** The files kept of those given. */
  method Without(files: Picked, taken: Picked) returns (r: Picked)
    requires DistinctIds(files)
    ensures DistinctIds(r) && forall f :: f in r <==> f in files && f !in taken
  {
    r := [];
    for i := 0 to |files|
      invariant DistinctIds(r) && forall f :: f in r <==> f in files[..i] && f !in taken
    {
      assert files[..i + 1] == files[..i] + [files[i]];
      assert forall f :: f in files[..i] ==> f.id != files[i].id;
      if files[i] !in taken {
        AppendDistinct(r, files[i]);
        r := r + [files[i]];
      }
    }
    assert files[..|files|] == files;
  }

  /** Whatever reaches in behind the file at m follows it without a gap. */
  lemma NoGapBefore(ordered: Picked, targets: Picked, m: nat, taken: Picked, along: Picked, i: nat, j: nat)
    requires Setting(ordered, targets, Final) && m < i < j < |ordered| && along != []
    requires ComeAlong(ordered, targets, m, taken, along) && !Outside(ordered[j], MinTime(along), MaxTime(along))
    ensures !Outside(ordered[i], MinTime(along), MaxTime(along))
  {
    hide MinTime, MaxTime, SortedFiles, NoOverlap, OneTarget, DistinctIds, Reaches;
    var t := along[0];
    assert t in along && Reaches(t, ordered, m + 1);
    ReachesSorted(ordered, m + 1, t);
    InTimeOrder(ordered, m, i);
    InTimeOrder(ordered, i, j);
    assert ordered[i] in ordered;
  }

  /** The later files that reach into the range of what comes along. */
  method FindDrawn(
    ordered: Picked, ghost targets: Picked, target: Level, m: nat, start: Picked, ghost taken: Picked, along: Picked)
    returns (drawn: Picked, ghost k: nat)
    requires Setting(ordered, targets, target) && m < |ordered| && start == ordered[..m]
    requires ComeAlong(ordered, targets, m, taken, along)
    ensures DrawnIn(ordered, target, m, along, k) && m < k <= |ordered| && drawn == ordered[m + 1..k]
    ensures target != Final ==> k == m + 1
  {
    hide MinTime, MaxTime, Setting, ComeAlong, Outside;
    if target == Final && along != [] {
      drawn, k := CollectDrawn(ordered, targets, m, start, taken, along);
    } else {
      drawn, k := [], m + 1;
    }
  }

  method CollectDrawn(ordered: Picked, ghost targets: Picked, m: nat, start: Picked, ghost taken: Picked, along: Picked)
    returns (drawn: Picked, ghost k: nat)
    requires Setting(ordered, targets, Final) && m < |ordered| && start == ordered[..m] && along != []
    requires ComeAlong(ordered, targets, m, taken, along)
    ensures m < k <= |ordered| && drawn == ordered[m + 1..k]
    ensures forall j :: m < j < |ordered| ==> (j < k <==> !Outside(ordered[j], MinTime(along), MaxTime(along)))
  {
    assert DistinctIds(ordered);
    hide MinTime, MaxTime, Setting, ComeAlong, Outside, DistinctIds, DrawnSoFar;
    var range := TimeRange(along);
    var (lo, hi) := range.value;
    drawn, k := [], m + 1;
    NoneDrawn(ordered, m, lo, hi);
    for j := 0 to |ordered|
      invariant DrawnSoFar(ordered, m, k, j, lo, hi) && drawn == ordered[m + 1..k]
    {
      var isDrawn := IsDrawn(ordered, m, start, lo, hi, j);
      OneMoreDrawn(ordered, targets, m, taken, along, k, j, lo, hi);
      if isDrawn {
        SliceSnoc(ordered, m + 1, k);
        drawn, k := drawn + [ordered[j]], k + 1;
      }
    }
    AllDrawn(ordered, m, k, lo, hi);
  }

  /** Of the files before j, those from m + 1 up to k reach in and the others behind m do not. */
  ghost predicate DrawnSoFar(ordered: Picked, m: nat, k: nat, j: nat, lo: int, hi: int)
    ensures DrawnSoFar(ordered, m, k, j, lo, hi) ==> m < k <= |ordered|
  {
    && m < k <= |ordered| && j <= |ordered| && (k <= j || k == m + 1)
    && forall i :: m < i < j ==> (i < k <==> !Outside(ordered[i], lo, hi))
  }

  lemma NoneDrawn(ordered: Picked, m: nat, lo: int, hi: int)
    requires m < |ordered|
    ensures DrawnSoFar(ordered, m, m + 1, 0, lo, hi)
  {
  }

  lemma AllDrawn(ordered: Picked, m: nat, k: nat, lo: int, hi: int)
    requires DrawnSoFar(ordered, m, k, |ordered|, lo, hi)
    ensures forall j :: m < j < |ordered| ==> (j < k <==> !Outside(ordered[j], lo, hi))
  {
  }

  lemma OneMoreDrawn(
    ordered: Picked, targets: Picked, m: nat, taken: Picked, along: Picked, k: nat, j: nat, lo: int, hi: int)
    requires Setting(ordered, targets, Final) && m < |ordered| && along != []
    requires ComeAlong(ordered, targets, m, taken, along)
    requires lo == MinTime(along) && hi == MaxTime(along) && j < |ordered| && DrawnSoFar(ordered, m, k, j, lo, hi)
    ensures if m < j && !Outside(ordered[j], lo, hi) then k == j && DrawnSoFar(ordered, m, k + 1, j + 1, lo, hi)
            else DrawnSoFar(ordered, m, k, j + 1, lo, hi)
  {
    hide MinTime, MaxTime, Setting, ComeAlong, Outside;
    if m < j && !Outside(ordered[j], lo, hi) && k < j {
      NoGapBefore(ordered, targets, m, taken, along, k, j);
    }
  }

  /** Reaches in, is not among the files taken and is not the one looked at. */
  method IsDrawn(ordered: Picked, m: nat, start: Picked, lo: int, hi: int, j: nat) returns (r: bool)
    requires DistinctIds(ordered) && m < |ordered| && j < |ordered| && start == ordered[..m]
    ensures r <==> m < j && !Outside(ordered[j], lo, hi)
  {
    hide DistinctIds, Outside;
    var known := HasId(start, ordered[j].id);
    KnownIff(ordered, m, j);
    r := !Outside(ordered[j], lo, hi) && !known && ordered[j].id != ordered[m].id;
  }

  lemma SliceSnoc(files: Picked, i: nat, j: nat)
    requires i <= j < |files|
    ensures files[i..j] + [files[j]] == files[i..j + 1]
  {
  }

  lemma KnownIff(ordered: Picked, m: nat, j: nat)
    requires DistinctIds(ordered) && m < |ordered| && j < |ordered|
    ensures (exists f :: f in ordered[..m] && f.id == ordered[j].id) <==> j < m
    ensures ordered[j].id == ordered[m].id <==> j == m
  {
    if j < m {
      assert ordered[..m][j] in ordered[..m];
    }
    forall f | f in ordered[..m] && f.id == ordered[j].id ensures j < m {
      var i :| 0 <= i < m && ordered[i] == f;
    }
    assert j < m ==> ordered[j].id != ordered[m].id;
    assert m < j ==> ordered[m].id != ordered[j].id;
  }

  /** The split has exactly the starts of the further files that cut it. */
  ghost predicate CutWhere(s: FileToSplit, drawn: Picked) {
    forall x :: x in s.times <==> Cuts(x, s.file.minTime, s.file.maxTime) && exists d :: d in drawn && d.minTime == x
  }

  ghost predicate CutByOne(f: ParquetFile, drawn: Picked) {
    exists d :: d in drawn && Cuts(d.minTime, f.minTime, f.maxTime)
  }

  lemma OwnStarts(f: ParquetFile, drawn: Picked, times: seq<int>)
    requires |times| == |drawn| && forall i :: 0 <= i < |drawn| ==> times[i] == drawn[i].minTime
    ensures CutWhere(FileToSplit(f, OwnTimes(f, times)), drawn)
    ensures OwnTimes(f, times) != [] <==> CutByOne(f, drawn)
  {
    hide OwnTimes;
    var own := OwnTimes(f, times);
    forall x ensures x in times <==> exists d :: d in drawn && d.minTime == x {
      if x in times {
        var i :| 0 <= i < |times| && times[i] == x;
        assert drawn[i] in drawn;
      }
      if d :| d in drawn && d.minTime == x {
        var i :| 0 <= i < |drawn| && drawn[i] == d;
        assert times[i] == x;
      }
    }
    if own != [] {
      var x := own[0];
      assert x in own && x in times;
      var d :| d in drawn && d.minTime == x;
    }
    if d :| d in drawn && Cuts(d.minTime, f.minTime, f.maxTime) {
      assert d.minTime in times && d.minTime in own;
    }
  }

  /** Exactly the files that are cut are split, each once and where it is cut. */
  ghost predicate SplitsOf(splits: seq<FileToSplit>, part: Picked, drawn: Picked) {
    var files := SplitFiles(splits).Files();
    && DistinctIds(files) && (forall f :: f in files ==> f in part)
    && SplitsInside(splits, part) && (forall s :: s in splits ==> CutWhere(s, drawn))
    && (forall f :: f in part ==> (f in files <==> CutByOne(f, drawn)))
  }

  lemma NoSplits(drawn: Picked)
    ensures SplitsOf([], [], drawn)
  {
  }

  lemma SplitsMore(splits: seq<FileToSplit>, part: Picked, f: ParquetFile, own: seq<int>, drawn: Picked)
    requires SplitsOf(splits, part, drawn) && (forall g :: g in part ==> g.id != f.id)
    requires Inside(own, f.minTime, f.maxTime) && CutWhere(FileToSplit(f, own), drawn)
    requires own != [] <==> CutByOne(f, drawn)
    ensures SplitsOf(if own == [] then splits else splits + [FileToSplit(f, own)], part + [f], drawn)
  {
    hide Inside, CutWhere, CutByOne, DistinctIds;
    var files := SplitFiles(splits).Files();
    assert forall g :: g in part + [f] <==> g in part || g == f;
    if own != [] {
      var more := splits + [FileToSplit(f, own)];
      AppendDistinct(files, f);
      assert SplitFiles(more).Files() == files + [f];
    }
  }

  /** Splits the target-level files where they overlap further files of the lower level. */
  method SpecificSplits(along: Picked, drawn: Picked) returns (splits: seq<FileToSplit>)
    requires DistinctIds(along) && AllOrdered(drawn)
    requires forall i, j :: 0 <= i < j < |drawn| ==> drawn[i].maxTime < drawn[j].minTime
    ensures SplitsOf(splits, along, drawn)
  {
    var times := seq(|drawn|, i requires 0 <= i < |drawn| => drawn[i].minTime);
    forall i, j | 0 <= i < j < |times| ensures times[i] < times[j] {
      assert drawn[i] in drawn;
    }
    hide Inside, OwnTimes, CutWhere, CutByOne, DistinctIds, SplitsOf;
    splits := [];
    NoSplits(drawn);
    for i := 0 to |along|
      invariant SplitsOf(splits, along[..i], drawn)
    {
      assert along[..i + 1] == along[..i] + [along[i]];
      DistinctBefore(along, i);
      var own := OwnTimes(along[i], times);
      OwnTimesInside(along[i], times);
      OwnStarts(along[i], drawn, times);
      SplitsMore(splits, along[..i], along[i], own, drawn);
      if own != [] {
        splits := splits + [FileToSplit(along[i], own)];
      }
    }
    assert along[..|along|] == along;
  }

  lemma DistinctBefore(files: Picked, i: nat)
    requires DistinctIds(files) && i < |files|
    ensures forall f :: f in files[..i] ==> f.id != files[i].id
  {
  }

  lemma SameTarget(ordered: Picked, targets: Picked, s: ParquetFile, t: ParquetFile, u: ParquetFile)
    requires OneTarget(ordered, targets) && s in ordered && t in targets && u in targets && Overlaps(s, t)
    requires Overlaps(s, u)
    ensures t == u
  {
  }

  lemma SamePlace(files: Picked, i: nat, j: nat)
    requires i < j < |files| && files[i] == files[j]
    ensures !DistinctIds(files)
  {
  }

  /** A single file of the lower level has at most one file of the target level to come along. */
  lemma OneComesAlong(ordered: Picked, targets: Picked, target: Level, along: Picked)
    requires Setting(ordered, targets, target) && ordered != [] && ComeAlong(ordered, targets, 0, [], along)
    ensures |along| <= 1 && forall t :: t in along <==> t in targets && Overlaps(ordered[0], t)
  {
    hide SortedFiles, OneTarget, DistinctIds;
    assert ordered[..1] == [ordered[0]];
    assert ordered[0] in ordered;
    if |along| > 1 {
      assert along[0] in along && along[1] in along;
      SameTarget(ordered, targets, ordered[0], along[0], along[1]);
      SamePlace(along, 0, 1);
    }
  }

  /** Picked and kept files together are all files. */
  ghost predicate AllThere(r: Limited, ordered: Picked, targets: Picked) {
    multiset(r.Picks()) + multiset(r.keep) == multiset(ordered) + multiset(targets)
  }

  lemma ChosenAllThere(ordered: Picked, targets: Picked, m: nat, taken: Picked, rest: Picked)
    requires m <= |ordered| && DistinctIds(targets) && DistinctIds(taken) && DistinctIds(rest)
    requires (forall t :: t in taken ==> t in targets) && (forall t :: t in rest <==> t in targets && t !in taken)
    ensures multiset(ordered[..m] + taken) + multiset(rest + ordered[m..]) == multiset(ordered) + multiset(targets)
  {
    DealtOut(targets, taken, rest);
    assert ordered[..m] + ordered[m..] == ordered;
    assert multiset(ordered[..m]) + multiset(ordered[m..]) == multiset(ordered);
  }

  lemma NamedByFiles(splits: seq<FileToSplit>)
    ensures splits == [] <==> SplitFiles(splits).Files() == []
    ensures forall s :: s in splits ==> s.file in SplitFiles(splits).Files()
  {
    forall s | s in splits ensures s.file in SplitFiles(splits).Files() {
      var i :| 0 <= i < |splits| && splits[i] == s;
      assert SplitFiles(splits).Files()[i] == s.file;
    }
  }

  lemma DrawnInOrder(ordered: Picked, targets: Picked, target: Level, drawn: Picked)
    requires Setting(ordered, targets, target) && |drawn| < |ordered| && drawn == ordered[1..1 + |drawn|]
    requires (target != Final ==> drawn == [])
    ensures AllOrdered(drawn) && forall i, j :: 0 <= i < j < |drawn| ==> drawn[i].maxTime < drawn[j].minTime
  {
    hide SortedFiles, NoOverlap, OneTarget, DistinctIds;
    forall i, j | 0 <= i < j < |drawn| ensures drawn[i].maxTime < drawn[j].minTime {
      assert drawn[i] == ordered[1 + i] && drawn[j] == ordered[1 + j];
      InTimeOrder(ordered, 1 + i, 1 + j);
    }
  }

  method SplitFurther(ordered: Picked, targets: Picked, along: Picked) returns (r: Limited)
    requires DistinctIds(targets) && DistinctIds(along) && ordered != [] && forall t :: t in along ==> t in targets
    ensures r.TooLarge? && r.files == [ordered[0]] + along && AllThere(r, ordered, targets)
  {
    hide DistinctIds;
    var rest := Without(targets, along);
    ChosenAllThere(ordered, targets, 1, along, rest);
    assert ordered[..1] == [ordered[0]];
    r := TooLarge([ordered[0]] + along, rest + ordered[1..]);
  }

  method SplitThese(ordered: Picked, targets: Picked, splits: seq<FileToSplit>) returns (r: Limited)
    requires DistinctIds(targets) && DistinctIds(SplitFiles(splits).Files())
    requires forall f :: f in SplitFiles(splits).Files() ==> f in targets
    ensures r.SplitAt? && r.splits == splits && AllThere(r, ordered, targets)
  {
    hide DistinctIds;
    var files := SplitFiles(splits).Files();
    var rest := Without(targets, files);
    ChosenAllThere(ordered, targets, 0, files, rest);
    assert ordered[..0] + files == files && ordered[0..] == ordered;
    r := SplitAt(splits, rest + ordered);
  }

  /** The splits are of target-level files, inside their ranges. */
  ghost predicate SplitsInside(splits: seq<FileToSplit>, targets: Picked) {
    forall s :: s in splits ==> s.file in targets && s.times != [] && Inside(s.times, s.file.minTime, s.file.maxTime)
  }

  /** A file and the target-level files it overlaps, of which there is at most one. */
  ghost predicate FirstAndReached(files: Picked, first: ParquetFile, targets: Picked) {
    && 1 <= |files| <= 2 && files[0] == first
    && forall t :: t in files[1..] <==> t in targets && Overlaps(first, t)
  }

  /** The target-level file that overlaps the first one is split at the starts of the further files if they cut it. */
  ghost predicate SplitOrNot(r: Limited, first: ParquetFile, targets: Picked, drawn: Picked) {
    && (r.SplitAt? <==> exists t :: t in targets && Overlaps(first, t) && CutByOne(t, drawn))
    && (r.SplitAt? ==> forall s :: s in r.splits ==> Overlaps(first, s.file) && CutWhere(s, drawn))
  }

  /** What to do when not even the first file can be compacted. */
  method SplitFirst(ordered: Picked, targets: Picked, target: Level, along: Picked, drawn: Picked) returns (r: Limited)
    requires Setting(ordered, targets, target) && ordered != [] && ComeAlong(ordered, targets, 0, [], along)
    requires |drawn| < |ordered| && drawn == ordered[1..1 + |drawn|] && (target != Final ==> drawn == [])
    ensures !r.Chosen? && AllThere(r, ordered, targets)
    ensures r.TooLarge? ==> FirstAndReached(r.files, ordered[0], targets)
    ensures r.SplitAt? ==> r.splits != [] && SplitsInside(r.splits, targets)
    ensures SplitOrNot(r, ordered[0], targets, drawn)
  {
    hide SortedFiles, NoOverlap, OneTarget, Reaches, AllThere, DistinctIds, Inside, CutWhere, CutByOne, SplitOrNot;
    OneComesAlong(ordered, targets, target, along);
    DrawnInOrder(ordered, targets, target, drawn);
    var splits := SpecificSplits(along, drawn);
    NamedByFiles(splits);
    if splits == [] {
      r := SplitFurther(ordered, targets, along);
      assert r.files[1..] == along;
    } else {
      r := SplitThese(ordered, targets, splits);
    }
    IsSplitOrNot(r, splits, ordered[0], targets, along, drawn);
  }

  lemma IsSplitOrNot(
    r: Limited, splits: seq<FileToSplit>, first: ParquetFile, targets: Picked, along: Picked, drawn: Picked)
    requires SplitsOf(splits, along, drawn) && forall t :: t in along <==> t in targets && Overlaps(first, t)
    requires (r.SplitAt? <==> splits != []) && (r.SplitAt? ==> r.splits == splits)
    ensures SplitOrNot(r, first, targets, drawn)
  {
    hide Inside, CutWhere, CutByOne, DistinctIds;
    NamedByFiles(splits);
    if splits != [] {
      assert splits[0] in splits;
    }
  }

  // ---------- going through the lower level ----------

  lemma NothingTaken(ordered: Picked, targets: Picked, target: Level)
    ensures Inv(ordered, targets, target, 0, []) && TotalBytes([]) == 0
    ensures forall maxFiles, maxBytes :: Within(ordered, targets, target, 0, [], maxFiles, maxBytes)
  {
  }

  lemma KnownIs(ordered: Picked, targets: Picked, target: Level, m: nat, i: nat)
    requires Setting(ordered, targets, target) && i <= m <= |ordered| && i < |ordered|
    ensures (exists f :: f in ordered[..m] && f.id == ordered[i].id) <==> i < m
    ensures DistinctIds(targets)
  {
    hide DistinctIds, SortedFiles, NoOverlap, OneTarget;
    if i < m {
      assert ordered[..m][i] in ordered[..m];
    } else {
      KnownIff(ordered, m, i);
    }
  }

  lemma MoreBytes(start: Picked, file: ParquetFile, drawn: Picked, taken: Picked, along: Picked)
    ensures TotalBytes(start + [file] + drawn) == TotalBytes(start) + file.bytes + TotalBytes(drawn)
    ensures TotalBytes(taken + along) == TotalBytes(taken) + TotalBytes(along)
  {
    TotalConcat(start + [file], drawn);
    TotalConcat(start, [file]);
    TotalConcat(taken, along);
  }

  lemma PrefixGrows(ordered: Picked, m: nat, k: nat)
    requires m < k <= |ordered|
    ensures ordered[..m] + [ordered[m]] + ordered[m + 1..k] == ordered[..k]
  {
  }

  lemma FirstDrawn(ordered: Picked, targets: Picked, target: Level, taken: Picked, along: Picked, k: nat)
    requires Inv(ordered, targets, target, 0, taken) && DrawnIn(ordered, target, 0, along, k)
    ensures taken == [] && (target != Final ==> k == 1)
  {
    hide Inv;
    if taken != [] {
      assert taken[0] in taken;
      NoneTakenYet(ordered, targets, target, taken, taken[0]);
    }
  }

  lemma NoneTakenYet(ordered: Picked, targets: Picked, target: Level, taken: Picked, t: ParquetFile)
    requires Inv(ordered, targets, target, 0, taken)
    ensures t !in taken
  {
  }

  /** The first m files are taken step by step, every step starting below the limit of files and staying within that of
      bytes. */
  ghost predicate Within(
    ordered: Picked, targets: Picked, target: Level, m: nat, taken: Picked, maxFiles: nat, maxBytes: int)
    decreases m
  {
    if m == 0 then taken == []
    else
      exists p: nat, before: Picked, along: Picked ::
        && p < m && Within(ordered, targets, target, p, before, maxFiles, maxBytes)
        && OneStep(ordered, targets, target, p, before, along, m, taken, maxFiles, maxBytes)
  }

  ghost predicate OneStep(
    ordered: Picked, targets: Picked, target: Level, p: nat, before: Picked, along: Picked, m: nat, taken: Picked,
    maxFiles: nat, maxBytes: int)
  {
    && p < m <= |ordered| && p < maxFiles
    && ComeAlong(ordered, targets, p, before, along) && DrawnIn(ordered, target, p, along, m)
    && taken == before + along && TotalBytes(ordered[..m]) + TotalBytes(taken) <= maxBytes
  }

  lemma WithinMore(
    ordered: Picked, targets: Picked, target: Level, p: nat, before: Picked, along: Picked, m: nat, taken: Picked,
    maxFiles: nat, maxBytes: int)
    requires Within(ordered, targets, target, p, before, maxFiles, maxBytes)
    requires OneStep(ordered, targets, target, p, before, along, m, taken, maxFiles, maxBytes)
    ensures Within(ordered, targets, target, m, taken, maxFiles, maxBytes)
  {
  }

  lemma IsStep(
    ordered: Picked, targets: Picked, target: Level, p: nat, before: Picked, along: Picked, m: nat, maxFiles: nat,
    maxBytes: int)
    requires p < m <= |ordered| && p < maxFiles
    requires ComeAlong(ordered, targets, p, before, along) && DrawnIn(ordered, target, p, along, m)
    requires TotalBytes(ordered[..m]) + TotalBytes(before + along) <= maxBytes
    ensures OneStep(ordered, targets, target, p, before, along, m, before + along, maxFiles, maxBytes)
  {
  }

  /** The file at m would not fit any more, with what comes along and is drawn in. */
  ghost predicate Full(
    ordered: Picked, targets: Picked, target: Level, m: nat, taken: Picked, maxFiles: nat, maxBytes: int)
    requires m < |ordered|
  {
    exists along: Picked, k: nat ::
      && ComeAlong(ordered, targets, m, taken, along) && DrawnIn(ordered, target, m, along, k)
      && (maxFiles <= m || maxBytes < TotalBytes(ordered[..k]) + TotalBytes(taken + along))
  }

  lemma IsFull(
    ordered: Picked, targets: Picked, target: Level, m: nat, taken: Picked, along: Picked, k: nat, maxFiles: nat,
    maxBytes: int)
    requires m < |ordered| && ComeAlong(ordered, targets, m, taken, along) && DrawnIn(ordered, target, m, along, k)
    requires maxFiles <= m || maxBytes < TotalBytes(ordered[..k]) + TotalBytes(taken + along)
    ensures Full(ordered, targets, target, m, taken, maxFiles, maxBytes)
  {
  }

  /** The first m files and the target-level files they reach are compacted, the others kept. */
  method Choose(
    ordered: Picked, targets: Picked, target: Level, ghost m: nat, start: Picked, taken: Picked, rest: Picked)
    returns (r: Limited)
    requires Setting(ordered, targets, target) && 0 < m <= |ordered| && Inv(ordered, targets, target, m, taken)
    requires target != Initial && start == ordered[..m] && rest == ordered[m..]
    requires (forall s :: s in ordered ==> s.level == target.Prev()) && (forall t :: t in targets ==> t.level == target)
    ensures r.Chosen? && r.compact == start + taken
    ensures AllThere(r, ordered, targets) && ChosenWell(r.compact, r.keep, target)
  {
    hide SortedFiles, NoOverlap, OneTarget, DistinctIds, Reaches, ChosenWell;
    var left := Without(targets, taken);
    ChosenAllThere(ordered, targets, m, taken, left);
    ChosenIsWell(ordered, targets, target, m, taken, left + rest);
    r := Chosen(start + taken, left + rest);
  }

  /** Not even the first file can be compacted, and what it needs is split or handed on. */
  ghost predicate FirstHeldBack(r: Limited, ordered: Picked, targets: Picked, target: Level)
    requires ordered != []
  {
    exists along: Picked, k: nat ::
      && ComeAlong(ordered, targets, 0, [], along) && DrawnIn(ordered, target, 0, along, k)
      && SplitOrNot(r, ordered[0], targets, ordered[1..k])
  }

  lemma IsHeldBack(r: Limited, ordered: Picked, targets: Picked, target: Level, along: Picked, k: nat)
    requires ordered != [] && ComeAlong(ordered, targets, 0, [], along) && DrawnIn(ordered, target, 0, along, k)
    requires SplitOrNot(r, ordered[0], targets, ordered[1..k])
    ensures FirstHeldBack(r, ordered, targets, target)
  {
  }

  /** Goes through the files of the lower level in their order and takes them, with what comes along and is drawn in,
      as long as all stays within the limits. */
  method PickPrefix(maxFiles: nat, maxBytes: int, ordered: Picked, targets: Picked, target: Level)
    returns (r: Limited, ghost m: nat, ghost taken: Picked)
    requires Setting(ordered, targets, target) && target != Initial
    requires (forall s :: s in ordered ==> s.level == target.Prev()) && (forall t :: t in targets ==> t.level == target)
    ensures AllThere(r, ordered, targets)
    ensures m <= |ordered| && Inv(ordered, targets, target, m, taken)
    ensures Within(ordered, targets, target, m, taken, maxFiles, maxBytes)
    ensures m < |ordered| ==> Full(ordered, targets, target, m, taken, maxFiles, maxBytes)
    ensures target != Final ==> m <= maxFiles
    ensures r.Chosen? <==> m > 0
    ensures r.Chosen? ==> r.compact == ordered[..m] + taken && TotalBytes(r.compact) <= maxBytes
    ensures r.Chosen? ==> ChosenWell(r.compact, r.keep, target)
    ensures r.TooLarge? ==> ordered != [] && FirstAndReached(r.files, ordered[0], targets)
    ensures r.SplitAt? ==> SplitsInside(r.splits, targets) && (r.splits == [] <==> ordered == [])
    ensures m == 0 && ordered != [] ==> FirstHeldBack(r, ordered, targets, target)
  {
    hide Setting, Inv, ComeAlong, DrawnIn, AllThere, ChosenWell, SplitsInside, TotalBytes, Full, Within, OneStep;
    hide FirstHeldBack, SplitOrNot;
    var start: Picked, with: Picked, total := [], [], 0;
    m, taken := 0, [];
    NothingTaken(ordered, targets, target);
    for i := 0 to |ordered|
      invariant i <= m <= |ordered| && start == ordered[..m] && taken == with && Inv(ordered, targets, target, m, taken)
      invariant target != Final ==> m <= maxFiles
      invariant Within(ordered, targets, target, m, taken, maxFiles, maxBytes)
      invariant total == TotalBytes(start) + TotalBytes(with) && (m > 0 ==> total <= maxBytes)
    {
      var known := HasId(start, ordered[i].id);
      KnownIs(ordered, targets, target, m, i);
      if !known {
        var along := FindAlong(ordered, targets, i, with);
        ghost var k;
        var drawn;
        drawn, k := FindDrawn(ordered, targets, target, i, start, with, along);
        var size := ordered[i].bytes + TotalBytes(along) + TotalBytes(drawn);
        MoreBytes(start, ordered[i], drawn, with, along);
        PrefixGrows(ordered, i, k);
        if total + size <= maxBytes && |start| < maxFiles {
          OneMoreTaken(ordered, targets, target, m, taken, along, k);
          IsStep(ordered, targets, target, m, taken, along, k, maxFiles, maxBytes);
          WithinMore(ordered, targets, target, m, taken, along, k, taken + along, maxFiles, maxBytes);
          start, with, total := start + [ordered[i]] + drawn, with + along, total + size;
          m, taken := k, with;
        } else {
          IsFull(ordered, targets, target, m, taken, along, k, maxFiles, maxBytes);
          if start == [] {
            FirstDrawn(ordered, targets, target, taken, along, k);
            r := SplitFirst(ordered, targets, target, along, drawn);
            IsHeldBack(r, ordered, targets, target, along, k);
          } else {
            r := Choose(ordered, targets, target, m, start, with, ordered[i..]);
            TotalConcat(start, with);
          }
          return;
        }
      }
    }
    if start == [] {
      r := SplitAt([], targets);
      NoFilesAllThere(ordered, targets);
    } else {
      r := Choose(ordered, targets, target, m, start, with, []);
      TotalConcat(start, with);
    }
  }

  lemma NoFilesAllThere(ordered: Picked, targets: Picked)
    requires ordered == []
    ensures AllThere(SplitAt([], targets), ordered, targets) && SplitsInside([], targets)
  {
    assert SplitFiles([]).Files() == [];
  }

  // ---------- picking from the files of a branch ----------

  /** What is demanded of the files: the levels, no overlap within L1 and L2, and the splits made before. */
  ghost predicate ReadyToLimit(files: Picked, target: Level) {
    && AllOrdered(files) && DistinctIds(files)
    && (forall f :: f in files ==> f.level == target || f.level == target.Prev())
    && (forall f, g ::
          f in files && g in files && f != g && f.level == g.level && f.level != Initial ==> !Overlaps(f, g))
    && (forall s, t, u ::
          s in files && t in files && u in files && s.level != target && t.level == u.level == target ==>
          Overlaps(s, t) && Overlaps(s, u) ==> t == u)
  }

  lemma IsSetting(files: Picked, target: Level, ordered: Picked, targets: Picked)
    requires ReadyToLimit(files, target) && target != Initial
    requires multiset(ordered) + multiset(targets) == multiset(files)
    requires (forall s :: s in ordered ==> s.level != target) && (forall t :: t in targets ==> t.level == target)
    requires SortedFiles(ordered, target.Prev() == Initial)
    ensures Setting(ordered, targets, target) && forall s :: s in ordered ==> s.level == target.Prev()
  {
    hide DistinctIds, SortedFiles;
    DistinctPart(files, ordered);
    DistinctPart(files, targets);
  }

  /** Picks a part of the files that stays within the limits, or says what to split first. */
  method LimitFilesToCompact(maxFiles: nat, maxBytes: int, files: Picked, target: Level)
    returns (r: Limited, ghost ordered: Picked, ghost targets: Picked, ghost m: nat, ghost taken: Picked)
    requires target != Initial && ReadyToLimit(files, target)
    // the files of the lower level in their order, and those of the target level
    ensures multiset(ordered) + multiset(targets) == multiset(files) && SortedFiles(ordered, target.Prev() == Initial)
    ensures (forall s :: s in ordered ==> s.level != target) && (forall t :: t in targets ==> t.level == target)
    // a longest part within the limits, with the target-level files in its reach
    ensures m <= |ordered| && Inv(ordered, targets, target, m, taken)
    ensures Within(ordered, targets, target, m, taken, maxFiles, maxBytes)
    ensures m < |ordered| ==> Full(ordered, targets, target, m, taken, maxFiles, maxBytes)
    ensures multiset(r.Picks()) + multiset(r.keep) == multiset(files) && (r.Chosen? <==> m > 0)
    ensures r.Chosen? ==>
      r.compact == ordered[..m] + taken && TotalBytes(r.compact) <= maxBytes && ChosenWell(r.compact, r.keep, target)
    // or what to split before
    ensures m == 0 && ordered != [] ==> FirstHeldBack(r, ordered, targets, target)
    ensures r.TooLarge? ==> ordered != [] && FirstAndReached(r.files, ordered[0], targets)
    ensures r.SplitAt? ==> SplitsInside(r.splits, targets) && (r.splits == [] <==> ordered == [])
  {
    hide Setting, Inv, Full, ChosenWell, TotalBytes, ReadyToLimit, Within, FirstHeldBack, FirstAndReached, SplitsInside;
    var lower, inTarget := Partition(files, (f: ParquetFile) => f.level != target);
    var sorted := OrderFiles(lower, target.Prev());
    ordered, targets := sorted, inTarget;
    SameFiles(sorted, lower);
    IsSetting(files, target, sorted, inTarget);
    r, m, taken := PickPrefix(maxFiles, maxBytes, sorted, inTarget, target);
  }
}
