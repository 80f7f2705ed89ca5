/** Picking, from the files of a branch, those to compact to a target level, those to upgrade as they are, and
    those to leave alone. */
module FilesSplit {
  import opened Wrappers
  import opened ParquetFiles

  type Picked = seq<ParquetFile>

  /** The file does not reach into the range. */
  predicate Outside(g: ParquetFile, lo: int, hi: int) {
    g.maxTime < lo || hi < g.minTime
  }

  /** The file lies clear of the whole range of the group, gaps included. */
  predicate Clear(g: ParquetFile, files: Picked) {
    files != [] ==> Outside(g, MinTime(files), MaxTime(files))
  }

  ghost predicate AllOrdered(files: Picked) {
    forall f :: f in files ==> Ordered(f)
  }

  /** No file occurs twice and no two files overlap. */
  ghost predicate Apart(files: multiset<ParquetFile>) {
    && (forall f :: f in files ==> files[f] == 1)
    && (forall f, g :: f in files && g in files && f != g ==> !Overlaps(f, g))
  }

  /** The same for the files of one level. */
  ghost predicate ApartAt(files: multiset<ParquetFile>, level: Level) {
    && (forall f :: f in files && f.level == level ==> files[f] == 1)
    && (forall f, g :: f in files && g in files && f.level == g.level == level && f != g ==> !Overlaps(f, g))
  }

  lemma ApartAtLevel(part: Picked, files: multiset<ParquetFile>, level: Level)
    requires ApartAt(files, level) && multiset(part) <= files && forall f :: f in part ==> f.level == level
    ensures Apart(multiset(part))
  {
    assert forall f :: f in multiset(part) ==> f in part && f in files;
  }

  lemma ApartSub(part: multiset<ParquetFile>, whole: multiset<ParquetFile>)
    requires Apart(whole) && part <= whole
    ensures Apart(part)
  {
    assert forall f :: f in part ==> f in whole;
  }

  lemma ApartParts(
    a: multiset<ParquetFile>, b: multiset<ParquetFile>, whole: multiset<ParquetFile>, f: ParquetFile, g: ParquetFile)
    requires Apart(whole) && a + b <= whole && f in a && g in b
    ensures !Overlaps(f, g)
  {
    assert f in whole && g in whole;
    assert f != g by {
      assert whole[f] == 1 && a[f] + b[f] <= whole[f];
    }
  }

  /** The range of a group of files, or none when there are no files. */
  method TimeRange(files: Picked) returns (r: Option<(int, int)>)
    ensures r.None? <==> files == []
    ensures r.Some? ==> r.value == (MinTime(files), MaxTime(files))
  {
    hide MinTime, MaxTime;
    if files == [] {
      return None;
    }
    var lo, hi := files[0].minTime, files[0].maxTime;
    ghost var a, b := 0, 0;
    for i := 1 to |files|
      invariant 0 <= a < i && files[a].minTime == lo && 0 <= b < i && files[b].maxTime == hi
      invariant forall j :: 0 <= j < i ==> lo <= files[j].minTime && files[j].maxTime <= hi
    {
      if files[i].minTime < lo {
        lo, a := files[i].minTime, i;
      }
      if files[i].maxTime > hi {
        hi, b := files[i].maxTime, i;
      }
    }
    assert files[a] in files && files[b] in files;
    return Some((lo, hi));
  }

  /** Partitions by a test, keeping the order. */
  method Partition(files: Picked, test: ParquetFile -> bool) returns (yes: Picked, no: Picked)
    ensures multiset(yes) + multiset(no) == multiset(files)
    ensures (forall f :: f in yes ==> test(f)) && (forall f :: f in no ==> !test(f))
  {
    yes, no := [], [];
    for i := 0 to |files|
      invariant multiset(yes) + multiset(no) == multiset(files[..i])
      invariant (forall f :: f in yes ==> test(f)) && (forall f :: f in no ==> !test(f))
    {
      assert files[..i + 1] == files[..i] + [files[i]];
      if test(files[i]) {
        yes := yes + [files[i]];
      } else {
        no := no + [files[i]];
      }
    }
    assert files[..|files|] == files;
  }

  // ---------- leaving target-level files alone ----------

  /** Splits into the files before, during and after a range, taking them from the end. */
  method ThreeRangeSplit(files: Picked, lo: int, hi: int) returns (before: Picked, during: Picked, after: Picked)
    ensures multiset(before) + multiset(during) + multiset(after) == multiset(files)
    ensures forall f :: f in before ==> f.maxTime < lo
    ensures forall f :: f in during ==> !Outside(f, lo, hi)
    ensures forall f :: f in after ==> hi < f.minTime
  {
    hide DealtOut3, Outside;
    before, during, after := [], [], [];
    var rest := files;
    assert DealtOut3(rest, before, during, after, files) by { NothingDealt(files); }
    while rest != []
      invariant DealtOut3(rest, before, during, after, files)
      invariant forall f :: f in before ==> f.maxTime < lo
      invariant forall f :: f in during ==> !Outside(f, lo, hi)
      invariant forall f :: f in after ==> hi < f.minTime
      decreases |rest|
    {
      var f := rest[|rest| - 1];
      DealOne(rest, before, during, after, files);
      rest := rest[..|rest| - 1];
      if !Outside(f, lo, hi) {
        during := during + [f];
      } else if f.maxTime < lo {
        before := before + [f];
      } else {
        OutsideRight(f, lo, hi);
        after := after + [f];
      }
    }
    AllDealt(before, during, after, files);
  }

  lemma OutsideRight(f: ParquetFile, lo: int, hi: int)
    requires Outside(f, lo, hi) && f.maxTime >= lo
    ensures hi < f.minTime
  {
  }

  /** The files are dealt out to three places, except for the rest. */
  ghost predicate DealtOut3(rest: Picked, a: Picked, b: Picked, c: Picked, files: Picked) {
    multiset(rest) + multiset(a) + multiset(b) + multiset(c) == multiset(files)
  }

  lemma NothingDealt(files: Picked)
    ensures DealtOut3(files, [], [], [], files)
  {
  }

  lemma AllDealt(a: Picked, b: Picked, c: Picked, files: Picked)
    requires DealtOut3([], a, b, c, files)
    ensures multiset(a) + multiset(b) + multiset(c) == multiset(files)
  {
  }

  lemma DealOne(rest: Picked, a: Picked, b: Picked, c: Picked, files: Picked)
    requires rest != [] && DealtOut3(rest, a, b, c, files)
    ensures
      var f, left := rest[|rest| - 1], rest[..|rest| - 1];
      && DealtOut3(left, a + [f], b, c, files) && DealtOut3(left, a, b + [f], c, files)
      && DealtOut3(left, a, b, c + [f], files)
  {
    var f, left := rest[|rest| - 1], rest[..|rest| - 1];
    assert rest == left + [f];
    assert multiset(rest) == multiset(left) + multiset{f};
    assert multiset(a + [f]) == multiset(a) + multiset{f};
    assert multiset(b + [f]) == multiset(b) + multiset{f};
    assert multiset(c + [f]) == multiset(c) + multiset{f};
  }

  /** The order in which files are picked: by age and then by time, or by time alone. */
  predicate NotAfter(f: ParquetFile, g: ParquetFile, byAge: bool) {
    if byAge && f.maxL0CreatedAt != g.maxL0CreatedAt then f.maxL0CreatedAt < g.maxL0CreatedAt
    else f.minTime <= g.minTime
  }

  ghost predicate SortedFiles(files: Picked, byAge: bool) {
    forall i, j :: 0 <= i < j < |files| ==> NotAfter(files[i], files[j], byAge)
  }

  ghost predicate SortedByMin(files: Picked) {
    forall i, j :: 0 <= i < j < |files| ==> files[i].minTime <= files[j].minTime
  }

  lemma SortedByTime(files: Picked)
    ensures SortedFiles(files, false) <==> SortedByMin(files)
  {
    if SortedFiles(files, false) {
      forall i, j | 0 <= i < j < |files| ensures files[i].minTime <= files[j].minTime {
        assert NotAfter(files[i], files[j], false);
      }
    }
  }

  /** L0 files are ordered by age, others by time. */
  method OrderFiles(files: Picked, level: Level) returns (ordered: Picked)
    ensures multiset(ordered) == multiset(files) && SortedFiles(ordered, level == Initial)
  {
    ordered := SortFiles(files, level == Initial);
  }

  /** Sorts by the least instant. */
  method SortByMin(files: Picked) returns (sorted: Picked)
    ensures multiset(sorted) == multiset(files) && SortedByMin(sorted)
  {
    sorted := SortFiles(files, false);
    SortedByTime(sorted);
  }

  method SortFiles(files: Picked, byAge: bool) returns (sorted: Picked)
    ensures multiset(sorted) == multiset(files) && SortedFiles(sorted, byAge)
  {
    sorted := [];
    for i := 0 to |files|
      invariant multiset(sorted) == multiset(files[..i]) && SortedFiles(sorted, byAge)
    {
      assert files[..i + 1] == files[..i] + [files[i]];
      sorted := Insert(sorted, files[i], byAge);
    }
    assert files[..|files|] == files;
  }

  lemma InsertedSorted(a: Picked, f: ParquetFile, b: Picked, byAge: bool)
    requires SortedFiles(a + b, byAge)
    requires a != [] ==> NotAfter(a[|a| - 1], f, byAge)
    requires forall j :: 0 <= j < |b| ==> NotAfter(f, b[j], byAge)
    ensures SortedFiles(a + [f] + b, byAge)
  {
    var r, s := a + [f] + b, a + b;
    forall i, j | 0 <= i < j < |r| ensures NotAfter(r[i], r[j], byAge) {
      assert i < |a| ==> r[i] == s[i];
      assert j < |a| ==> r[j] == s[j];
      assert i > |a| ==> r[i] == s[i - 1] && r[i] == b[i - 1 - |a|];
      assert j > |a| ==> r[j] == s[j - 1] && r[j] == b[j - 1 - |a|];
      assert i < |a| - 1 ==> NotAfter(s[i], s[|a| - 1], byAge);
    }
  }

  lemma InsertedOnce(a: Picked, f: ParquetFile, b: Picked)
    ensures multiset(a + [f] + b) == multiset(a + b) + multiset{f}
  {
  }

  method Insert(files: Picked, f: ParquetFile, byAge: bool) returns (r: Picked)
    requires SortedFiles(files, byAge)
    ensures multiset(r) == multiset(files) + multiset{f} && SortedFiles(r, byAge)
  {
    hide SortedFiles;
    var k := |files|;
    while k > 0 && !NotAfter(files[k - 1], f, byAge)
      invariant 0 <= k <= |files|
      invariant forall j :: k <= j < |files| ==> NotAfter(f, files[j], byAge)
    {
      k := k - 1;
    }
    var a, b := files[..k], files[k..];
    assert files == a + b;
    InsertedSorted(a, f, b, byAge);
    InsertedOnce(a, f, b);
    r := a + [f] + b;
  }

  /** Takes files from the end as long as they are small. */
  method TakeBack(files: Picked, threshold: int) returns (k: nat)
    ensures k <= |files|
    ensures forall j :: k <= j < |files| ==> files[j].bytes <= threshold
    ensures k > 0 ==> files[k - 1].bytes > threshold
  {
    k := |files|;
    while k > 0 && files[k - 1].bytes <= threshold
      invariant 0 <= k <= |files|
      invariant forall j :: k <= j < |files| ==> files[j].bytes <= threshold
    {
      k := k - 1;
    }
  }

  /** Takes files from the front as long as they are small. */
  method TakeFront(files: Picked, threshold: int) returns (k: nat)
    ensures k <= |files|
    ensures forall j :: 0 <= j < k ==> files[j].bytes <= threshold
    ensures k < |files| ==> files[k].bytes > threshold
  {
    k := 0;
    while k < |files| && files[k].bytes <= threshold
      invariant 0 <= k <= |files|
      invariant forall j :: 0 <= j < k ==> files[j].bytes <= threshold
    {
      k := k + 1;
    }
  }

  ghost predicate LeftOf(g: ParquetFile, files: Picked) {
    forall f :: f in files ==> g.maxTime < f.minTime
  }

  ghost predicate RightOf(g: ParquetFile, files: Picked) {
    forall f :: f in files ==> f.maxTime < g.minTime
  }

  lemma SideClear(g: ParquetFile, files: Picked)
    requires LeftOf(g, files) || RightOf(g, files)
    ensures Clear(g, files)
  {
    hide MinTime, MaxTime;
  }

  /** A kept file before the range is left of the files during it and of the later files before it. */
  lemma KeptLeft(before: Picked, during: Picked, k: nat, i: nat, lo: int, hi: int)
    requires i < k <= |before| && SortedByMin(before) && AllOrdered(before)
    requires Apart(multiset(before) + multiset(during))
    requires forall f :: f in before ==> f.maxTime < lo
    requires forall f :: f in during ==> !Outside(f, lo, hi)
    ensures LeftOf(before[i], during) && LeftOf(before[i], before[k..])
  {
    var g := before[i];
    assert g in before;
    forall f | f in during ensures g.maxTime < f.minTime {
      ApartParts(multiset(before), multiset(during), multiset(before) + multiset(during), g, f);
    }
    forall f | f in before[k..] ensures g.maxTime < f.minTime {
      var j :| k <= j < |before| && before[j] == f;
      assert f in before;
      DistinctPlaces(before, i, j);
      ApartParts(multiset{g}, multiset{f}, multiset(before) + multiset(during), g, f);
    }
  }

  lemma KeptRight(after: Picked, during: Picked, k: nat, i: nat, lo: int, hi: int)
    requires k <= i < |after| && SortedByMin(after) && AllOrdered(after)
    requires Apart(multiset(after) + multiset(during))
    requires forall f :: f in after ==> hi < f.minTime
    requires forall f :: f in during ==> !Outside(f, lo, hi)
    ensures RightOf(after[i], during) && RightOf(after[i], after[..k])
  {
    var g := after[i];
    assert g in after;
    forall f | f in during ensures f.maxTime < g.minTime {
      ApartParts(multiset(after), multiset(during), multiset(after) + multiset(during), g, f);
    }
    forall f | f in after[..k] ensures f.maxTime < g.minTime {
      var j :| 0 <= j < k && after[j] == f;
      DistinctPlaces(after, j, i);
      ApartParts(multiset{f}, multiset{g}, multiset(after) + multiset(during), f, g);
    }
  }

  /** Two places of a sequence are two elements of its multiset. */
  lemma DistinctPlaces(files: Picked, i: nat, j: nat)
    requires i < j < |files|
    ensures multiset{files[i]} + multiset{files[j]} <= multiset(files)
  {
    assert files == files[..i] + [files[i]] + files[i + 1..j] + [files[j]] + files[j + 1..];
  }

  /** Lies at or beyond a large file outside the range, on the side away from it. */
  ghost predicate Beyond(g: ParquetFile, inTarget: multiset<ParquetFile>, lo: int, hi: int, undersized: int) {
    exists h :: h in inTarget && h.bytes > undersized && OnSide(g, h, lo, hi)
  }

  predicate OnSide(g: ParquetFile, h: ParquetFile, lo: int, hi: int) {
    (h.maxTime < lo && g.minTime <= h.minTime) || (hi < h.minTime && h.minTime <= g.minTime)
  }

  /** Files that are apart start at different instants. */
  lemma ApartStarts(files: multiset<ParquetFile>, f: ParquetFile, g: ParquetFile)
    requires Apart(files) && f in files && g in files && Ordered(f) && Ordered(g)
    ensures f.minTime <= g.minTime <==> f == g || f.maxTime < g.minTime
  {
  }

  /** The files left alone are those beyond a large one. */
  lemma KeptIffBeyond(
    b: Picked, kb: nat, during: Picked, a: Picked, ka: nat, lo: int, hi: int, undersized: int, g: ParquetFile)
    requires kb <= |b| && ka <= |a| && SortedByMin(b) && SortedByMin(a) && AllOrdered(b) && AllOrdered(a)
    requires AllOrdered(during) && Apart(multiset(b) + multiset(during) + multiset(a)) && lo <= hi
    requires forall f :: f in b ==> f.maxTime < lo
    requires forall f :: f in during ==> !Outside(f, lo, hi)
    requires forall f :: f in a ==> hi < f.minTime
    requires (forall j :: kb <= j < |b| ==> b[j].bytes <= undersized) && (kb > 0 ==> b[kb - 1].bytes > undersized)
    requires (forall j :: 0 <= j < ka ==> a[j].bytes <= undersized) && (ka < |a| ==> a[ka].bytes > undersized)
    requires g in b || g in during || g in a
    ensures g in b[..kb] + a[ka..] <==> Beyond(g, multiset(b) + multiset(during) + multiset(a), lo, hi, undersized)
  {
    hide Apart, SortedByMin, OnSide, Outside;
    var all := multiset(b) + multiset(during) + multiset(a);
    forall f ensures f in all <==> f in b || f in during || f in a {
      assert f in all <==> f in multiset(b) || f in multiset(during) || f in multiset(a);
    }
    if g in b[..kb] || g in a[ka..] {
      var h := BeyondLarge(b, kb, a, ka, lo, hi, undersized, g);
      assert h in all;
    }
    if h :| h in all && h.bytes > undersized && OnSide(g, h, lo, hi) {
      ApartStarts(all, g, h);
      ApartStarts(all, h, g);
      BeyondKept(b, kb, during, a, ka, lo, hi, undersized, g, h);
    }
  }

  lemma BeyondLarge(b: Picked, kb: nat, a: Picked, ka: nat, lo: int, hi: int, undersized: int, g: ParquetFile)
    returns (h: ParquetFile)
    requires kb <= |b| && ka <= |a| && SortedByMin(b) && SortedByMin(a)
    requires (forall f :: f in b ==> f.maxTime < lo) && (forall f :: f in a ==> hi < f.minTime)
    requires (kb > 0 ==> b[kb - 1].bytes > undersized) && (ka < |a| ==> a[ka].bytes > undersized)
    requires g in b[..kb] || g in a[ka..]
    ensures (h in b || h in a) && h.bytes > undersized && OnSide(g, h, lo, hi)
  {
    if g in b[..kb] {
      var i :| 0 <= i < kb && b[i] == g;
      h := b[kb - 1];
      assert h in b && b[i].minTime <= h.minTime;
    } else {
      var i :| ka <= i < |a| && a[i] == g;
      h := a[ka];
      assert h in a && h.minTime <= a[i].minTime;
    }
  }

  lemma BeyondKept(
    b: Picked, kb: nat, during: Picked, a: Picked, ka: nat, lo: int, hi: int, undersized: int, g: ParquetFile,
    h: ParquetFile)
    requires kb <= |b| && ka <= |a| && SortedByMin(b) && SortedByMin(a) && lo <= hi
    requires (g in b || g in during || g in a) && (h in b || h in during || h in a) && Ordered(g) && Ordered(h)
    requires forall f :: f in b ==> f.maxTime < lo
    requires forall f :: f in during ==> !Outside(f, lo, hi)
    requires forall f :: f in a ==> hi < f.minTime
    requires forall j :: kb <= j < |b| ==> b[j].bytes <= undersized
    requires forall j :: 0 <= j < ka ==> a[j].bytes <= undersized
    requires h.bytes > undersized && OnSide(g, h, lo, hi)
    requires g.minTime <= h.minTime <==> g == h || g.maxTime < h.minTime
    requires h.minTime <= g.minTime <==> h == g || h.maxTime < g.minTime
    ensures g in b[..kb] + a[ka..]
  {
    hide SortedByMin;
    if h.maxTime < lo {
      BeyondLeft(b, kb, undersized, g, h);
    } else {
      BeyondRight(a, ka, undersized, g, h);
    }
  }

  lemma BeyondLeft(b: Picked, kb: nat, undersized: int, g: ParquetFile, h: ParquetFile)
    requires kb <= |b| && SortedByMin(b) && h in b && g in b && h.bytes > undersized
    requires forall j :: kb <= j < |b| ==> b[j].bytes <= undersized
    requires g == h || g.minTime < h.minTime
    ensures g in b[..kb]
  {
    var j :| 0 <= j < |b| && b[j] == h;
    var i :| 0 <= i < |b| && b[i] == g;
    assert j < kb && (i > j ==> b[j].minTime <= b[i].minTime);
    assert b[..kb][j] == h && (i <= j ==> b[..kb][i] == g);
  }

  lemma BeyondRight(a: Picked, ka: nat, undersized: int, g: ParquetFile, h: ParquetFile)
    requires ka <= |a| && SortedByMin(a) && h in a && g in a && h.bytes > undersized
    requires forall j :: 0 <= j < ka ==> a[j].bytes <= undersized
    requires g == h || h.minTime < g.minTime
    ensures g in a[ka..]
  {
    var j :| 0 <= j < |a| && a[j] == h;
    var i :| 0 <= i < |a| && a[i] == g;
    assert j >= ka && (i < j ==> a[i].minTime <= a[j].minTime);
    assert a[ka..][j - ka] == h && (i >= j ==> a[ka..][i - ka] == g);
  }

  /** Picks from the target-level files those to compact together with the files of the level below. */
  method SplitTarget(inTarget: Picked, inPrev: Picked, undersized: int) returns (compact: Picked, keep: Picked)
    requires AllOrdered(inTarget) && AllOrdered(inPrev) && inPrev != []
    ensures multiset(compact) + multiset(keep) == multiset(inTarget) + multiset(inPrev)
    ensures multiset(keep) <= multiset(inTarget)
    ensures Apart(multiset(inTarget)) ==> forall g :: g in keep ==> Clear(g, compact)
    ensures Apart(multiset(inTarget)) ==> forall g :: g in inTarget ==>
      (g in keep <==> Beyond(g, multiset(inTarget), MinTime(inPrev), MaxTime(inPrev), undersized))
  {
    hide MinTime, MaxTime, SortedByMin, Clear, Apart, Outside, Beyond;
    var range := TimeRange(inPrev);
    var (lo, hi) := range.value;
    assert inPrev[0] in inPrev;
    var before, during, after := ThreeRangeSplit(inTarget, lo, hi);
    var b := SortByMin(before);
    var kb := TakeBack(b, undersized);
    var a := SortByMin(after);
    var ka := TakeFront(a, undersized);
    SameFiles(b, before);
    SameFiles(a, after);
    compact := during + b[kb..] + a[..ka] + inPrev;
    keep := b[..kb] + a[ka..];
    Regrouped(b, kb, during, a, ka, inPrev, compact, keep);
    if Apart(multiset(inTarget)) {
      assert multiset(b) + multiset(during) + multiset(a) == multiset(inTarget);
      AllIn(b, inTarget);
      AllIn(a, inTarget);
      KeptClear(b, kb, during, a, ka, inPrev, lo, hi);
      AllIn(during, inTarget);
      forall g | g in inTarget ensures g in keep <==> Beyond(g, multiset(inTarget), lo, hi, undersized) {
        assert g in multiset(b) + multiset(during) + multiset(a);
        KeptIffBeyond(b, kb, during, a, ka, lo, hi, undersized, g);
      }
    }
  }

  lemma SameFiles(a: Picked, b: Picked)
    requires multiset(a) == multiset(b)
    ensures forall f :: f in a <==> f in b
  {
    forall f ensures f in a <==> f in b {
      assert f in a <==> f in multiset(a);
      assert f in b <==> f in multiset(b);
    }
  }

  lemma AllIn(a: Picked, b: Picked)
    requires multiset(a) <= multiset(b)
    ensures forall f :: f in a ==> f in b
  {
    forall f | f in a ensures f in b {
      assert f in multiset(a) && f in multiset(b);
    }
  }

  /** Ends before every file of the level below, or starts behind them all. */
  ghost predicate BeforeAll(h: ParquetFile, files: multiset<ParquetFile>, target: Level) {
    forall p :: p in files && p.level == target.Prev() ==> h.maxTime < p.minTime
  }

  ghost predicate BehindAll(h: ParquetFile, files: multiset<ParquetFile>, target: Level) {
    forall p :: p in files && p.level == target.Prev() ==> p.maxTime < h.minTime
  }

  /** Lies at or beyond a large target-level file that is clear of the level below. */
  ghost predicate Shielded(g: ParquetFile, files: multiset<ParquetFile>, target: Level, undersized: int) {
    exists h :: h in files && h.level == target && h.bytes > undersized && ShieldedBy(g, h, files, target)
  }

  ghost predicate ShieldedBy(g: ParquetFile, h: ParquetFile, files: multiset<ParquetFile>, target: Level) {
    || (BeforeAll(h, files, target) && g.minTime <= h.minTime)
    || (BehindAll(h, files, target) && h.minTime <= g.minTime)
  }

  /** A target-level file that is left alone: there is nothing to compact it with, or it is shielded. */
  ghost predicate LeftAlone(g: ParquetFile, files: multiset<ParquetFile>, target: Level, undersized: int) {
    && g.level == target
    && ((forall p :: p in files ==> p.level != target.Prev()) || Shielded(g, files, target, undersized))
  }

  /** Leaves alone the target-level files clear of everything that is compacted, except small ones next to it. */
  method NonOverlapSplit(files: Picked, target: Level, undersized: int) returns (compact: Picked, keep: Picked)
    requires target != Initial && forall f :: f in files ==> f.level == target || f.level == target.Prev()
    requires AllOrdered(files)
    ensures multiset(compact) + multiset(keep) == multiset(files)
    ensures forall f :: f in keep ==> f.level == target
    ensures ApartAt(multiset(files), target) ==> forall g :: g in keep ==> Clear(g, compact)
    ensures ApartAt(multiset(files), target) ==>
      forall g :: g in keep <==> g in files && LeftAlone(g, multiset(files), target, undersized)
  {
    hide Apart, ApartAt, Beyond, LeftAlone, MinTime, MaxTime;
    var inTarget, inPrev := Partition(files, (f: ParquetFile) => f.level == target);
    AllIn(inTarget, files);
    AllIn(inPrev, files);
    AllParts(inTarget, inPrev, files);
    if inPrev == [] {
      NothingBelow(files, target, undersized);
      return [], inTarget;
    }
    compact, keep := SplitTarget(inTarget, inPrev, undersized);
    AllIn(keep, inTarget);
    if ApartAt(multiset(files), target) {
      ApartAtLevel(inTarget, multiset(files), target);
      forall g | g in inTarget
        ensures Beyond(g, multiset(inTarget), MinTime(inPrev), MaxTime(inPrev), undersized) <==>
          LeftAlone(g, multiset(files), target, undersized)
      {
        BeyondIffLeft(g, files, target, undersized, inTarget, inPrev);
      }
      NotTarget(files, target, undersized);
    }
  }

  lemma AllParts(a: Picked, b: Picked, files: Picked)
    requires multiset(a) + multiset(b) == multiset(files)
    ensures forall f :: f in files <==> f in a || f in b
  {
    assert forall f :: f in files <==> f in multiset(a) + multiset(b);
  }

  lemma NothingBelow(files: Picked, target: Level, undersized: int)
    requires target != Initial && forall f :: f in files ==> f.level == target
    ensures forall g :: g in files ==> LeftAlone(g, multiset(files), target, undersized)
  {
    assert forall f :: f in multiset(files) ==> f in files;
  }

  lemma NotTarget(files: Picked, target: Level, undersized: int)
    ensures forall g: ParquetFile :: g.level != target ==> !LeftAlone(g, multiset(files), target, undersized)
  {
  }

  lemma BeyondIffLeft(
    g: ParquetFile, files: Picked, target: Level, undersized: int, inTarget: Picked, inPrev: Picked)
    requires target != Initial && multiset(inTarget) + multiset(inPrev) == multiset(files) && inPrev != []
    requires g in inTarget
    requires (forall f :: f in inTarget ==> f.level == target) && (forall f :: f in inPrev ==> f.level == target.Prev())
    ensures Beyond(g, multiset(inTarget), MinTime(inPrev), MaxTime(inPrev), undersized) <==>
      LeftAlone(g, multiset(files), target, undersized)
  {
    hide MinTime, MaxTime, BeforeAll, BehindAll;
    var lo, hi := MinTime(inPrev), MaxTime(inPrev);
    var all := multiset(files);
    assert inPrev[0] in inPrev;
    forall f ensures f in all <==> f in inTarget || f in inPrev {
      AllParts(inTarget, inPrev, files);
    }
    forall h | h in inTarget ensures OnSide(g, h, lo, hi) <==> ShieldedBy(g, h, all, target) {
      SideIffAll(h, all, target, inTarget, inPrev);
    }
    assert forall h :: h in multiset(inTarget) <==> h in inTarget;
  }

  lemma SideIffAll(h: ParquetFile, files: multiset<ParquetFile>, target: Level, inTarget: Picked, inPrev: Picked)
    requires target != Initial && inPrev != [] && forall f :: f in files <==> f in inTarget || f in inPrev
    requires (forall f :: f in inTarget ==> f.level == target) && (forall f :: f in inPrev ==> f.level == target.Prev())
    ensures h.maxTime < MinTime(inPrev) <==> BeforeAll(h, files, target)
    ensures MaxTime(inPrev) < h.minTime <==> BehindAll(h, files, target)
  {
    hide MinTime, MaxTime;
    var lo, hi := MinTime(inPrev), MaxTime(inPrev);
    var first :| first in inPrev && first.minTime == lo;
    var last :| last in inPrev && last.maxTime == hi;
    assert first in files && last in files;
  }

  lemma Regrouped(b: Picked, kb: nat, during: Picked, a: Picked, ka: nat, inPrev: Picked, compact: Picked, keep: Picked)
    requires kb <= |b| && ka <= |a|
    requires compact == during + b[kb..] + a[..ka] + inPrev && keep == b[..kb] + a[ka..]
    ensures multiset(compact) + multiset(keep) == multiset(b) + multiset(during) + multiset(a) + multiset(inPrev)
    ensures multiset(keep) <= multiset(b) + multiset(a)
  {
    assert b == b[..kb] + b[kb..] && a == a[..ka] + a[ka..];
  }

  /** The files left alone are clear of everything else. */
  lemma KeptClear(b: Picked, kb: nat, during: Picked, a: Picked, ka: nat, inPrev: Picked, lo: int, hi: int)
    requires kb <= |b| && ka <= |a| && SortedByMin(b) && SortedByMin(a) && AllOrdered(b) && AllOrdered(a)
    requires Apart(multiset(b) + multiset(during) + multiset(a)) && lo <= hi
    requires forall f :: f in b ==> f.maxTime < lo
    requires forall f :: f in during ==> !Outside(f, lo, hi)
    requires forall f :: f in a ==> hi < f.minTime
    requires forall f :: f in inPrev ==> lo <= f.minTime && f.maxTime <= hi
    ensures forall g :: g in b[..kb] + a[ka..] ==> Clear(g, during + b[kb..] + a[..ka] + inPrev)
  {
    var compact := during + b[kb..] + a[..ka] + inPrev;
    ApartSub(multiset(b) + multiset(during), multiset(b) + multiset(during) + multiset(a));
    ApartSub(multiset(a) + multiset(during), multiset(b) + multiset(during) + multiset(a));
    forall i | 0 <= i < kb ensures Clear(b[i], compact) {
      KeptLeft(b, during, kb, i, lo, hi);
      assert b[i] in b;
      SideClear(b[i], compact);
    }
    forall i | ka <= i < |a| ensures Clear(a[i], compact) {
      KeptRight(a, during, ka, i, lo, hi);
      assert a[i] in a;
      SideClear(a[i], compact);
    }
  }

  // ---------- upgrading files as they are ----------

  /** Overlaps none of the files. */
  ghost predicate Free(f: ParquetFile, files: Picked) {
    forall g :: g in files ==> !Overlaps(g, f)
  }

  method OverlapsInTime(f: ParquetFile, files: Picked) returns (r: bool)
    ensures r <==> !Free(f, files)
  {
    for i := 0 to |files|
      invariant forall j :: 0 <= j < i ==> !Overlaps(files[j], f)
    {
      if Overlaps(files[i], f) {
        assert files[i] in files;
        return true;
      }
    }
    return false;
  }

  /** No two of the files overlap. */
  ghost predicate PairwiseFree(files: Picked) {
    forall i, j :: 0 <= i < j < |files| ==> !Overlaps(files[i], files[j])
  }

  /** Every candidate is free of the files not yet looked at, of those to compact, of the target range and of the
      other candidates. */
  ghost predicate Candidates(candidates: Picked, rest: Picked, compact: Picked, range: Option<(int, int)>) {
    && PairwiseFree(candidates)
    && forall f :: f in candidates ==>
      Free(f, rest) && Free(f, compact) && (range.Some? ==> Outside(f, range.value.0, range.value.1))
  }

  lemma CandidatesStep(candidates: Picked, rest: Picked, f: ParquetFile, compact: Picked, range: Option<(int, int)>)
    requires Candidates(candidates, rest + [f], compact, range)
    ensures Candidates(candidates, rest, compact, range) && Candidates(candidates, rest, compact + [f], range)
    ensures Free(f, rest) && Free(f, compact) && (range.Some? ==> Outside(f, range.value.0, range.value.1)) ==>
      Candidates(candidates + [f], rest, compact, range)
  {
    forall c | c in candidates ensures Free(c, rest) && Free(c, compact + [f]) && !Overlaps(c, f) {
      assert f in rest + [f];
    }
  }

  /** Overlaps another file of the group. */
  ghost predicate OverlapsOther(f: ParquetFile, files: multiset<ParquetFile>) {
    exists g :: g in files - multiset{f} && Overlaps(g, f)
  }

  /** Small, in the target range, or overlapping another file of its level. */
  ghost predicate Ineligible(f: ParquetFile, inPrev: multiset<ParquetFile>, range: Option<(int, int)>, minBytes: int) {
    || f.bytes < minBytes
    || (range.Some? && !Outside(f, range.value.0, range.value.1))
    || OverlapsOther(f, inPrev)
  }

  lemma OverlapsLeft(f: ParquetFile, rest: Picked, candidates: Picked, compact: Picked, inPrev: Picked)
    requires DealtOut3(rest, candidates, compact + [f], [], inPrev)
    requires !Free(f, rest) || !Free(f, compact)
    ensures OverlapsOther(f, multiset(inPrev))
  {
    hide Overlaps;
    var g :| (g in rest || g in compact) && Overlaps(g, f);
    assert g in multiset(rest) || g in multiset(compact);
    assert multiset(compact + [f]) == multiset(compact) + multiset{f};
    assert multiset(inPrev) - multiset{f} == multiset(rest) + multiset(candidates) + multiset(compact);
  }

  /** Two elements of a multiset are at two places of the sequence. */
  lemma TwoPlaces(files: Picked, f: ParquetFile, g: ParquetFile) returns (i: nat, j: nat)
    requires f in files && g in multiset(files) - multiset{f}
    ensures i < |files| && j < |files| && i != j && files[i] == f && files[j] == g
  {
    i :| 0 <= i < |files| && files[i] == f;
    var others := files[..i] + files[i + 1..];
    InsertedOnce(files[..i], f, files[i + 1..]);
    assert files == files[..i] + [f] + files[i + 1..];
    assert g in multiset(others);
    var k :| 0 <= k < |others| && others[k] == g;
    j := if k < i then k else k + 1;
  }

  lemma CandidateEligible(
    f: ParquetFile, candidates: Picked, compact: Picked, inPrev: multiset<ParquetFile>, range: Option<(int, int)>,
    minBytes: int)
    requires multiset(candidates) + multiset(compact) == inPrev && Candidates(candidates, [], compact, range)
    requires f in candidates && f.bytes >= minBytes
    ensures !Ineligible(f, inPrev, range, minBytes)
  {
    forall g | g in inPrev - multiset{f} ensures !Overlaps(g, f) {
      assert inPrev - multiset{f} == multiset(candidates) - multiset{f} + multiset(compact);
      if g in multiset(candidates) - multiset{f} {
        var i, j := TwoPlaces(candidates, f, g);
        assert i < j ==> !Overlaps(candidates[i], candidates[j]);
        assert j < i ==> !Overlaps(candidates[j], candidates[i]);
      } else {
        assert g in compact;
      }
    }
  }

  /** Exactly the large files of the level below that overlap neither the target range nor another file of their
      level. */
  method FindCandidates(inPrev: Picked, range: Option<(int, int)>, minBytes: int)
    returns (candidates: Picked, compact: Picked)
    ensures multiset(candidates) + multiset(compact) == multiset(inPrev)
    ensures Candidates(candidates, [], compact, range)
    ensures forall f :: f in candidates ==> !Ineligible(f, multiset(inPrev), range, minBytes)
    ensures forall f :: f in compact ==> Ineligible(f, multiset(inPrev), range, minBytes)
  {
    hide Candidates, OverlapsOther, DealtOut3;
    candidates, compact := [], [];
    var rest := inPrev;
    NoCandidatesYet(inPrev, range);
    NothingDealt(inPrev);
    while rest != []
      invariant DealtOut3(rest, candidates, compact, [], inPrev)
      invariant Candidates(candidates, rest, compact, range)
      invariant forall f :: f in candidates ==> f.bytes >= minBytes
      invariant forall f :: f in compact ==> Ineligible(f, multiset(inPrev), range, minBytes)
      decreases |rest|
    {
      var f := rest[|rest| - 1];
      DealOne(rest, candidates, compact, [], inPrev);
      assert rest == rest[..|rest| - 1] + [f];
      rest := rest[..|rest| - 1];
      CandidatesStep(candidates, rest, f, compact, range);
      var overlapsRest := OverlapsInTime(f, rest);
      var overlapsCompact := OverlapsInTime(f, compact);
      if f.bytes < minBytes {
        compact := compact + [f];
      } else if range.Some? && !Outside(f, range.value.0, range.value.1) {
        compact := compact + [f];
      } else if overlapsRest || overlapsCompact {
        OverlapsLeft(f, rest, candidates, compact, inPrev);
        compact := compact + [f];
      } else {
        candidates := candidates + [f];
      }
    }
    AllDealt(candidates, compact, [], inPrev);
    forall f | f in candidates ensures !Ineligible(f, multiset(inPrev), range, minBytes) {
      CandidateEligible(f, candidates, compact, multiset(inPrev), range, minBytes);
    }
  }

  lemma NoCandidatesYet(rest: Picked, range: Option<(int, int)>)
    ensures Candidates([], rest, [], range)
  {
  }

  /** A file free of a group that reaches into its range lies inside it, so taking it in does not widen the range. */
  lemma FreeInsideHull(f: ParquetFile, files: Picked)
    requires files != [] && Ordered(f) && AllOrdered(files) && Free(f, files)
    requires !Outside(f, MinTime(files), MaxTime(files))
    ensures MinTime(files) < f.minTime && f.maxTime < MaxTime(files)
  {
    hide MinTime, MaxTime;
    var first :| first in files && first.minTime == MinTime(files);
    var last :| last in files && last.maxTime == MaxTime(files);
    assert !Overlaps(first, f) && !Overlaps(last, f);
  }

  /** The candidates outside the range of what is compacted are upgraded, the others are compacted as well. The
      range is computed once, before any of them is added. */
  method UpgradeOutside(candidates: Picked, compact: Picked) returns (upgrade: Picked, all: Picked)
    requires AllOrdered(candidates) && AllOrdered(compact) && PairwiseFree(candidates)
    requires forall f :: f in candidates ==> Free(f, compact)
    ensures multiset(upgrade) + multiset(all) == multiset(candidates) + multiset(compact)
    ensures PairwiseFree(upgrade) && forall f :: f in upgrade ==> f in candidates && Clear(f, all) && Clear(f, compact)
    ensures forall f :: f in all ==> f in compact || (f in candidates && !Clear(f, compact))
  {
    hide MinTime, MaxTime, Candidates, PairwiseFree, Overlaps, DealtOut3;
    var range := TimeRange(compact);
    upgrade, all := [], compact;
    var rest := candidates;
    NoCandidatesYet(candidates, None);
    CandidatesLeft(candidates, compact);
    while rest != []
      invariant (forall f :: f in rest ==> f in candidates) && (forall f :: f in upgrade ==> f in candidates)
      invariant DealtOut3(rest, upgrade, all, [], candidates + compact)
      invariant PairwiseFree(rest) && Candidates(upgrade, rest, [], None)
      invariant range.None? ==> all == []
      invariant forall f :: f in all ==> f in compact || (f in candidates && !Clear(f, compact))
      invariant range.Some? ==> forall f :: f in all ==> range.value.0 <= f.minTime && f.maxTime <= range.value.1
      invariant range.Some? ==> forall f :: f in upgrade ==> Outside(f, range.value.0, range.value.1)
      decreases |rest|
    {
      var f := rest[|rest| - 1];
      LastFree(rest);
      DealOne(rest, upgrade, all, [], candidates + compact);
      assert rest == rest[..|rest| - 1] + [f];
      rest := rest[..|rest| - 1];
      CandidatesStep(upgrade, rest, f, [], None);
      if range.Some? && !Outside(f, range.value.0, range.value.1) {
        FreeInsideHull(f, compact);
        all := all + [f];
      } else {
        upgrade := upgrade + [f];
      }
    }
    CandidatesFree(upgrade);
    AllDealt(upgrade, all, [], candidates + compact);
    forall f | f in upgrade ensures Clear(f, all) {
      if range.Some? {
        OutsideClear(f, all, range.value.0, range.value.1);
      }
    }
  }

  lemma CandidatesLeft(candidates: Picked, compact: Picked)
    ensures DealtOut3(candidates, [], compact, [], candidates + compact)
  {
  }

  lemma CandidatesFree(candidates: Picked)
    requires Candidates(candidates, [], [], None)
    ensures PairwiseFree(candidates)
  {
  }

  lemma LastFree(files: Picked)
    requires files != [] && PairwiseFree(files)
    ensures PairwiseFree(files[..|files| - 1]) && Free(files[|files| - 1], files[..|files| - 1])
  {
  }

  lemma OutsideClear(f: ParquetFile, files: Picked, lo: int, hi: int)
    requires Outside(f, lo, hi) && forall g :: g in files ==> lo <= g.minTime && g.maxTime <= hi
    ensures Clear(f, files)
  {
    hide MinTime, MaxTime;
  }

  // ---------- which files are upgraded ----------

  /** Has to be compacted: a file of the target level, or one of the level below that is small, reaches into the range
      of the target-level files, or overlaps another of its level. */
  ghost predicate Stays(f: ParquetFile, files: multiset<ParquetFile>, target: Level, minBytes: int) {
    || f.level == target
    || f.bytes < minBytes
    || (exists a, b :: a in files && b in files && a.level == b.level == target && Between(f, a, b))
    || (exists g :: g in files - multiset{f} && g.level == target.Prev() && Overlaps(g, f))
  }

  /** Reaches into the range from one file to another. */
  predicate Between(f: ParquetFile, a: ParquetFile, b: ParquetFile) {
    a.minTime <= f.maxTime && b.maxTime >= f.minTime
  }

  /** Reaches into the range of the files that have to be compacted. */
  ghost predicate InReach(f: ParquetFile, files: multiset<ParquetFile>, target: Level, minBytes: int) {
    exists a, b ::
      && a in files && b in files && Stays(a, files, target, minBytes) && Stays(b, files, target, minBytes)
      && Between(f, a, b)
  }

  lemma ClearIffBetween(f: ParquetFile, files: Picked)
    ensures Clear(f, files) <==> !exists a, b :: a in files && b in files && Between(f, a, b)
  {
    hide MinTime, MaxTime;
    if files != [] {
      var lo, hi := MinTime(files), MaxTime(files);
      var a :| a in files && a.minTime == lo;
      var b :| b in files && b.maxTime == hi;
      assert !Clear(f, files) <==> Between(f, a, b);
    }
  }

  lemma StaysIff(
    f: ParquetFile, files: multiset<ParquetFile>, target: Level, minBytes: int, inTarget: Picked, inPrev: Picked,
    range: Option<(int, int)>)
    requires target != Initial && multiset(inTarget) + multiset(inPrev) == files && f in inPrev
    requires (forall g :: g in inTarget ==> g.level == target) && (forall g :: g in inPrev ==> g.level == target.Prev())
    requires range.None? <==> inTarget == []
    requires range.Some? ==> range.value == (MinTime(inTarget), MaxTime(inTarget))
    ensures Stays(f, files, target, minBytes) <==> Ineligible(f, multiset(inPrev), range, minBytes)
  {
    hide MinTime, MaxTime, Between;
    RangeIff(f, files, target, inTarget, inPrev, range);
    OthersIff(f, files, target, inTarget, inPrev);
  }

  lemma RangeIff(
    f: ParquetFile, files: multiset<ParquetFile>, target: Level, inTarget: Picked, inPrev: Picked,
    range: Option<(int, int)>)
    requires target != Initial && multiset(inTarget) + multiset(inPrev) == files
    requires (forall g :: g in inTarget ==> g.level == target) && (forall g :: g in inPrev ==> g.level == target.Prev())
    requires range.None? <==> inTarget == []
    requires range.Some? ==> range.value == (MinTime(inTarget), MaxTime(inTarget))
    ensures (range.Some? && !Outside(f, range.value.0, range.value.1)) <==>
      exists a, b :: a in files && b in files && a.level == b.level == target && Between(f, a, b)
  {
    hide MinTime, MaxTime, Between;
    ClearIffBetween(f, inTarget);
    forall g ensures g in files && g.level == target <==> g in inTarget {
      assert g in files <==> g in multiset(inTarget) || g in multiset(inPrev);
    }
  }

  lemma OthersIff(f: ParquetFile, files: multiset<ParquetFile>, target: Level, inTarget: Picked, inPrev: Picked)
    requires target != Initial && multiset(inTarget) + multiset(inPrev) == files && f in inPrev
    requires (forall g :: g in inTarget ==> g.level == target) && (forall g :: g in inPrev ==> g.level == target.Prev())
    ensures OverlapsOther(f, multiset(inPrev)) <==>
      exists g :: g in files - multiset{f} && g.level == target.Prev() && Overlaps(g, f)
  {
    hide Overlaps;
    forall g ensures g in files - multiset{f} && g.level == target.Prev() <==> g in multiset(inPrev) - multiset{f} {
      assert g in multiset(inTarget) ==> g in inTarget;
      assert g in multiset(inPrev) ==> g in inPrev;
      assert (files - multiset{f})[g] == multiset(inTarget)[g] + (multiset(inPrev) - multiset{f})[g];
    }
  }

  /** Upgrades exactly the files that reach nowhere into the range of those that have to be compacted. */
  method UpgradeSplit(files: Picked, target: Level, minBytes: int) returns (compact: Picked, upgrade: Picked)
    requires target != Initial && forall f :: f in files ==> f.level == target || f.level == target.Prev()
    requires AllOrdered(files)
    ensures multiset(compact) + multiset(upgrade) == multiset(files)
    ensures forall f :: f in upgrade <==> f in files && !InReach(f, multiset(files), target, minBytes)
    ensures forall f :: f in compact <==> f in files && InReach(f, multiset(files), target, minBytes)
    ensures forall f :: f in upgrade ==> f.level == target.Prev() && f.bytes >= minBytes
    ensures PairwiseFree(upgrade) && forall f :: f in upgrade ==> Clear(f, compact)
  {
    hide MinTime, MaxTime, PairwiseFree, Clear, Stays, Ineligible, InReach, Candidates;
    var inTarget, inPrev := Partition(files, (f: ParquetFile) => f.level == target);
    AllIn(inTarget, files);
    AllIn(inPrev, files);
    var range := TimeRange(inTarget);
    var candidates, small := FindCandidates(inPrev, range, minBytes);
    AllIn(candidates, inPrev);
    AllIn(small, inPrev);
    FreeOfTarget(candidates, small, inTarget, range);
    upgrade, compact := UpgradeOutside(candidates, small + inTarget);
    assert multiset(small + inTarget) == multiset(small) + multiset(inTarget);
    Reunited(multiset(upgrade), multiset(compact), multiset(candidates), multiset(small), multiset(inTarget),
      multiset(inPrev), multiset(files));
    AllIn(compact, files);
    AllIn(upgrade, files);
    forall f | f in inPrev
      ensures Stays(f, multiset(files), target, minBytes) <==> Ineligible(f, multiset(inPrev), range, minBytes)
    {
      StaysIff(f, multiset(files), target, minBytes, inTarget, inPrev, range);
    }
    CompactStays(files, target, minBytes, inTarget, inPrev, candidates, small, range);
    UpgradedIff(files, target, minBytes, candidates, small + inTarget, compact, upgrade);
  }

  lemma CompactStays(
    files: Picked, target: Level, minBytes: int, inTarget: Picked, inPrev: Picked, candidates: Picked, small: Picked,
    range: Option<(int, int)>)
    requires target != Initial && multiset(inTarget) + multiset(inPrev) == multiset(files)
    requires multiset(candidates) + multiset(small) == multiset(inPrev)
    requires (forall g :: g in inTarget ==> g.level == target) && (forall g :: g in inPrev ==> g.level == target.Prev())
    requires forall f :: f in candidates ==> !Ineligible(f, multiset(inPrev), range, minBytes)
    requires forall f :: f in small ==> Ineligible(f, multiset(inPrev), range, minBytes)
    requires forall f :: f in inPrev ==>
      (Stays(f, multiset(files), target, minBytes) <==> Ineligible(f, multiset(inPrev), range, minBytes))
    ensures forall f :: f in small + inTarget <==> f in files && Stays(f, multiset(files), target, minBytes)
    ensures forall f :: f in files <==> f in candidates || f in small + inTarget
  {
    hide Ineligible;
    forall f ensures f in files <==> f in candidates || f in small + inTarget {
      assert f in files <==> f in multiset(inTarget) + multiset(inPrev);
      assert f in inPrev <==> f in multiset(candidates) + multiset(small);
    }
    forall f ensures f in small + inTarget <==> f in files && Stays(f, multiset(files), target, minBytes) {
      assert f in inPrev <==> f in multiset(candidates) + multiset(small);
      assert f in inTarget ==> Stays(f, multiset(files), target, minBytes);
    }
  }

  lemma UpgradedIff(
    files: Picked, target: Level, minBytes: int, candidates: Picked, staying: Picked, compact: Picked, upgrade: Picked)
    requires AllOrdered(files) && multiset(compact) + multiset(upgrade) == multiset(files)
    requires forall f :: f in staying <==> f in files && Stays(f, multiset(files), target, minBytes)
    requires forall f :: f in files <==> f in candidates || f in staying
    requires forall f :: f in upgrade ==> f in candidates && Clear(f, staying)
    requires forall f :: f in compact ==> f in staying || (f in candidates && !Clear(f, staying))
    ensures forall f :: f in upgrade <==> f in files && !InReach(f, multiset(files), target, minBytes)
    ensures forall f :: f in compact <==> f in files && InReach(f, multiset(files), target, minBytes)
    ensures forall f :: f in upgrade ==> f.level != target && f.bytes >= minBytes
  {
    forall f | f in upgrade ensures f.level != target && f.bytes >= minBytes {
      ClearIffBetween(f, staying);
      assert Ordered(f) && Between(f, f, f);
      assert f in files && !Stays(f, multiset(files), target, minBytes);
    }
    hide Clear, Stays;
    forall f | f in files ensures InReach(f, multiset(files), target, minBytes) <==> !Clear(f, staying) {
      ClearIffBetween(f, staying);
      assert forall a :: a in staying <==> a in multiset(files) && Stays(a, multiset(files), target, minBytes);
    }
    forall f | f in staying ensures !Clear(f, staying) {
      ClearIffBetween(f, staying);
      assert Ordered(f) && Between(f, f, f);
    }
    forall f ensures f in files <==> f in compact || f in upgrade {
      assert f in files <==> f in multiset(compact) + multiset(upgrade);
    }
  }

  lemma Reunited(
    upgrade: multiset<ParquetFile>, compact: multiset<ParquetFile>, candidates: multiset<ParquetFile>,
    small: multiset<ParquetFile>,
    inTarget: multiset<ParquetFile>, inPrev: multiset<ParquetFile>, files: multiset<ParquetFile>)
    requires inTarget + inPrev == files && candidates + small == inPrev
    requires upgrade + compact == candidates + (small + inTarget)
    ensures compact + upgrade == files
  {
    forall f ensures (compact + upgrade)[f] == files[f] {
      assert (inTarget + inPrev)[f] == files[f] && (candidates + small)[f] == inPrev[f];
      assert (upgrade + compact)[f] == (candidates + (small + inTarget))[f];
    }
  }

  lemma FreeOfTarget(candidates: Picked, small: Picked, inTarget: Picked, range: Option<(int, int)>)
    requires Candidates(candidates, [], small, range)
    requires range.None? <==> inTarget == []
    requires range.Some? ==> range.value == (MinTime(inTarget), MaxTime(inTarget))
    ensures PairwiseFree(candidates) && forall f :: f in candidates ==> Free(f, small + inTarget)
  {
    hide MinTime, MaxTime;
  }
}
