/** Grouping many small files of one level into one, without rewriting the larger ones among them. */
module ManyFiles {
  import opened ParquetFiles
  import opened FilesSplit

  /** The limits on a group. */
  datatype Limits = Limits(maxBytes: int, maxFiles: nat, skip: int)

  /** Files are skipped from twice the mean size on that a full group of the greatest size has. */
  function LimitsOf(maxBytes: nat, maxFiles: nat): Limits
    requires maxFiles > 0
  {
    Limits(maxBytes, maxFiles, maxBytes * 2 / maxFiles)
  }

  /** The group found, the files kept, and the run being gathered with the bytes counted so far. */
  datatype Scan = Scan(compact: Picked, keep: Picked, chunk: Picked, bytes: int)

  /** A file does not join the run when it is too large or the run would be over its limits. */
  predicate Refused(s: Scan, f: ParquetFile, l: Limits) {
    s.bytes + f.bytes > l.maxBytes || |s.chunk| + 1 > l.maxFiles || f.bytes >= l.skip
  }

  /** Looks at one file. The bytes counted are not reset when a lone file is given up. */
  function Look(s: Scan, f: ParquetFile, l: Limits): Scan {
    if s.compact != [] then s.(keep := s.keep + [f])
    else if Refused(s, f, l) then
      if |s.chunk| > 1 then Scan(s.chunk, s.keep + [f], [], s.bytes)
      else Scan([], s.keep + [f] + s.chunk, [], s.bytes)
    else Scan([], s.keep, s.chunk + [f], s.bytes + f.bytes)
  }

  function LookAll(ordered: Picked, l: Limits): (s: Scan) {
    if ordered == [] then Scan([], [], [], 0) else Look(LookAll(ordered[..|ordered| - 1], l), ordered[|ordered| - 1], l)
  }

  /** A file left alone at the end makes an assertion fail. */
  datatype Grouped = Grouped(compact: Picked, keep: Picked) | LoneFile

  function Group(ordered: Picked, l: Limits): Grouped {
    var s := LookAll(ordered, l);
    if |s.chunk| == 1 then LoneFile
    else Grouped(if s.chunk != [] then s.chunk else s.compact, s.keep)
  }

  /** Groups the first run of two or more small files, in their order of age or time. */
  method ManySmallFiles(files: Picked, level: Level, maxBytes: nat, maxFiles: nat) returns (r: Grouped, ordered: Picked)
    requires maxFiles > 0 && forall f :: f in files ==> f.level == level
    ensures multiset(ordered) == multiset(files) && SortedFiles(ordered, level.Prev() == Initial)
    ensures r == Group(ordered, LimitsOf(maxBytes, maxFiles))
  {
    ordered := OrderFiles(files, level.Prev());
    var l := LimitsOf(maxBytes, maxFiles);
    var compact: Picked, keep: Picked, chunk: Picked, bytes := [], [], [], 0;
    for i := 0 to |ordered|
      invariant Scan(compact, keep, chunk, bytes) == LookAll(ordered[..i], l)
    {
      var f := ordered[i];
      assert ordered[..i + 1][..i] == ordered[..i];
      if compact != [] {
        keep := keep + [f];
      } else if bytes + f.bytes > l.maxBytes || |chunk| + 1 > l.maxFiles || f.bytes >= l.skip {
        keep := keep + [f];
        if |chunk| > 1 {
          compact, chunk := chunk, [];
        } else if chunk != [] {
          keep, chunk := keep + chunk, [];
        }
      } else {
        bytes, chunk := bytes + f.bytes, chunk + [f];
      }
    }
    assert ordered[..|ordered|] == ordered;
    if |chunk| == 1 {
      return LoneFile, ordered;
    }
    if chunk != [] {
      compact := chunk;
    }
    return Grouped(compact, keep), ordered;
  }

  function SumBytes(files: Picked): int {
    if files == [] then 0 else SumBytes(files[..|files| - 1]) + files[|files| - 1].bytes
  }

  lemma SumAppend(files: Picked, f: ParquetFile)
    ensures SumBytes(files + [f]) == SumBytes(files) + f.bytes
  {
    assert (files + [f])[..|files|] == files;
  }

  /** A run of consecutive files. */
  ghost predicate IsRunOf(part: Picked, files: Picked) {
    exists i, j :: 0 <= i <= j <= |files| && part == files[i..j]
  }

  lemma RunOfLonger(part: Picked, files: Picked, f: ParquetFile)
    requires IsRunOf(part, files)
    ensures IsRunOf(part, files + [f])
  {
    var i, j :| 0 <= i <= j <= |files| && part == files[i..j];
    assert (files + [f])[i..j] == part;
  }

  ghost predicate WithinLimits(files: Picked, l: Limits) {
    |files| <= l.maxFiles && SumBytes(files) <= l.maxBytes && forall f :: f in files ==> f.bytes < l.skip
  }

  /** What holds while scanning: no file is lost, */
  ghost predicate ScanPartition(s: Scan, ordered: Picked) {
    multiset(s.compact) + multiset(s.keep) + multiset(s.chunk) == multiset(ordered)
  }

  /** what is gathered is within the limits, */
  ghost predicate ScanLimits(s: Scan, l: Limits) {
    && (s.compact != [] ==> |s.compact| > 1 && WithinLimits(s.compact, l))
    && (s.chunk != [] ==> WithinLimits(s.chunk, l) && SumBytes(s.chunk) <= s.bytes <= l.maxBytes)
    && 0 <= s.bytes
  }

  /** and it is a run of consecutive files. */
  ghost predicate ScanRuns(s: Scan, ordered: Picked) {
    && IsRunOf(s.compact, ordered) && (s.compact != [] ==> s.chunk == [])
    && |s.chunk| <= |ordered| && s.chunk == ordered[|ordered| - |s.chunk|..]
  }

  lemma LookPartition(s: Scan, ordered: Picked, f: ParquetFile, l: Limits)
    requires ScanPartition(s, ordered)
    ensures ScanPartition(Look(s, f, l), ordered + [f])
  {
    hide Refused;
  }

  lemma LookLimits(s: Scan, f: ParquetFile, l: Limits)
    requires ScanLimits(s, l) && f.bytes >= 0
    ensures ScanLimits(Look(s, f, l), l)
  {
    SumAppend(s.chunk, f);
    assert s.chunk == [] ==> SumBytes(s.chunk) == 0;
  }

  lemma LookRuns(s: Scan, ordered: Picked, f: ParquetFile, l: Limits)
    requires ScanRuns(s, ordered)
    ensures ScanRuns(Look(s, f, l), ordered + [f])
  {
    hide Refused, IsRunOf;
    RunOfLonger(s.compact, ordered, f);
    SliceIsRun(ordered, |ordered| - |s.chunk|, |ordered|);
    assert ordered[|ordered| - |s.chunk|..|ordered|] == s.chunk;
    RunOfLonger(s.chunk, ordered, f);
    SliceIsRun(ordered + [f], 0, 0);
    assert (ordered + [f])[0..0] == [];
  }

  lemma SliceIsRun(files: Picked, i: nat, j: nat)
    requires i <= j <= |files|
    ensures IsRunOf(files[i..j], files)
  {
  }

  lemma {:induction false} LookAllOk(ordered: Picked, l: Limits)
    requires forall f :: f in ordered ==> f.bytes >= 0
    ensures ScanPartition(LookAll(ordered, l), ordered) && ScanLimits(LookAll(ordered, l), l)
    ensures ScanRuns(LookAll(ordered, l), ordered)
  {
    if ordered == [] {
      SliceIsRun(ordered, 0, 0);
    } else {
      hide ScanPartition, ScanLimits, ScanRuns;
      var before, f := ordered[..|ordered| - 1], ordered[|ordered| - 1];
      assert ordered == before + [f];
      LookAllOk(before, l);
      var s := LookAll(before, l);
      LookPartition(s, before, f, l);
      LookLimits(s, f, l);
      LookRuns(s, before, f, l);
    }
  }

  /** Every file is grouped or kept, and the group is a run of consecutive small files within the limits. */
  lemma GroupPartitions(ordered: Picked, l: Limits)
    requires forall f :: f in ordered ==> f.bytes >= 0
    ensures
      var r := Group(ordered, l);
      r.Grouped? ==>
        && multiset(r.compact) + multiset(r.keep) == multiset(ordered)
        && IsRunOf(r.compact, ordered) && |r.compact| != 1 && (r.compact != [] ==> WithinLimits(r.compact, l))
  {
    hide LookAll, WithinLimits, IsRunOf;
    LookAllOk(ordered, l);
    var s := LookAll(ordered, l);
    SliceIsRun(ordered, |ordered| - |s.chunk|, |ordered|);
    assert s.chunk == ordered[|ordered| - |s.chunk|..|ordered|];
  }

  /** Small enough, also together with the bytes counted before. */
  predicate Fits(counted: int, f: ParquetFile, l: Limits) {
    f.bytes < l.skip && counted + f.bytes <= l.maxBytes
  }

  /** The bytes of the files that fit, counted from the first one on. */
  function Counted(ordered: Picked, l: Limits): int {
    if ordered == [] then 0
    else
      var before, f := Counted(ordered[..|ordered| - 1], l), ordered[|ordered| - 1];
      if Fits(before, f, l) then before + f.bytes else before
  }

  predicate FitsAt(ordered: Picked, i: int, l: Limits)
    requires 0 <= i < |ordered|
  {
    Fits(Counted(ordered[..i], l), ordered[i], l)
  }

  predicate PairAt(ordered: Picked, i: int, l: Limits)
    requires 0 < i < |ordered|
  {
    FitsAt(ordered, i - 1, l) && FitsAt(ordered, i, l)
  }

  /** Two files that fit are next to each other. */
  ghost predicate FittingPair(ordered: Picked, l: Limits) {
    exists i :: 0 < i < |ordered| && PairAt(ordered, i, l)
  }

  lemma FitsInLonger(ordered: Picked, f: ParquetFile, i: nat, l: Limits)
    requires i < |ordered|
    ensures FitsAt(ordered + [f], i, l) == FitsAt(ordered, i, l)
  {
    assert (ordered + [f])[..i] == ordered[..i];
  }

  lemma PairsInLonger(ordered: Picked, f: ParquetFile, l: Limits)
    ensures FitsAt(ordered + [f], |ordered|, l) == Fits(Counted(ordered, l), f, l)
    ensures FittingPair(ordered + [f], l) <==>
      FittingPair(ordered, l) || (ordered != [] && FitsAt(ordered, |ordered| - 1, l) && Fits(Counted(ordered, l), f, l))
  {
    hide Counted, FitsAt;
    var longer := ordered + [f];
    LastFits(ordered, f, l);
    forall i | 0 <= i < |ordered| ensures FitsAt(longer, i, l) == FitsAt(ordered, i, l) {
      FitsInLonger(ordered, f, i, l);
    }
    assert forall i :: 0 < i < |ordered| ==> PairAt(longer, i, l) == PairAt(ordered, i, l);
    if ordered != [] {
      assert PairAt(longer, |ordered|, l) <==> FitsAt(ordered, |ordered| - 1, l) && Fits(Counted(ordered, l), f, l);
    }
  }

  lemma LastFits(ordered: Picked, f: ParquetFile, l: Limits)
    ensures FitsAt(ordered + [f], |ordered|, l) == Fits(Counted(ordered, l), f, l)
  {
    assert (ordered + [f])[..|ordered|] == ordered;
  }

  /** What the scan has found, told from the files alone. */
  ghost predicate ScanFound(s: Scan, ordered: Picked, l: Limits) {
    && (FittingPair(ordered, l) <==> s.compact != [] || |s.chunk| > 1)
    && (!FittingPair(ordered, l) ==>
      s.bytes == Counted(ordered, l) && (s.chunk != [] <==> ordered != [] && FitsAt(ordered, |ordered| - 1, l)))
  }

  lemma LookFound(s: Scan, ordered: Picked, f: ParquetFile, l: Limits)
    requires ScanFound(s, ordered, l) && l.maxFiles >= 2
    ensures ScanFound(Look(s, f, l), ordered + [f], l)
  {
    hide FittingPair, FitsAt;
    PairsInLonger(ordered, f, l);
    assert (ordered + [f])[..|ordered|] == ordered;
  }

  lemma {:induction false} LookAllFound(ordered: Picked, l: Limits)
    requires l.maxFiles >= 2
    ensures ScanFound(LookAll(ordered, l), ordered, l)
  {
    if ordered != [] {
      hide ScanFound, Look;
      var before, f := ordered[..|ordered| - 1], ordered[|ordered| - 1];
      assert ordered == before + [f];
      LookAllFound(before, l);
      LookFound(LookAll(before, l), before, f, l);
    }
  }

  /** When only one file may be grouped: the bytes of the files that join, every other one of a run that fits. */
  function CountedAlone(ordered: Picked, l: Limits): int {
    if ordered == [] then 0
    else
      var before, f := ordered[..|ordered| - 1], ordered[|ordered| - 1];
      var c := CountedAlone(before, l);
      if Fits(c, f, l) && Trailing(before, l) % 2 == 0 then c + f.bytes else c
  }

  /** The length of the run of fitting files at the end. */
  function Trailing(ordered: Picked, l: Limits): nat {
    if ordered == [] then 0
    else
      var before, f := ordered[..|ordered| - 1], ordered[|ordered| - 1];
      if Fits(CountedAlone(before, l), f, l) then Trailing(before, l) + 1 else 0
  }

  /** With one file to a group nothing is ever grouped, and every other file of a run is gathered in vain. */
  lemma {:induction false} LookAlone(ordered: Picked, l: Limits)
    requires l.maxFiles == 1
    ensures
      var s := LookAll(ordered, l);
      && s.compact == [] && s.bytes == CountedAlone(ordered, l)
      && |s.chunk| == Trailing(ordered, l) % 2
  {
    if ordered != [] {
      LookAlone(ordered[..|ordered| - 1], l);
    }
  }

  /** Grouping fails exactly when the last file fits and no two that fit are next to each other; with one file to
      a group, exactly when the run of fitting files at the end is of odd length. */
  lemma LoneFileIff(ordered: Picked, l: Limits)
    requires l.maxFiles > 0
    ensures Group(ordered, l).LoneFile? <==>
      if l.maxFiles == 1 then Trailing(ordered, l) % 2 == 1
      else ordered != [] && FitsAt(ordered, |ordered| - 1, l) && !FittingPair(ordered, l)
  {
    hide FittingPair, FitsAt, LookAll, Trailing;
    if l.maxFiles == 1 {
      LookAlone(ordered, l);
    } else {
      LookAllFound(ordered, l);
      OneOrOther(ordered, l);
    }
  }

  /** A run is no longer gathered once a group was found. */
  lemma {:induction false} OneOrOther(ordered: Picked, l: Limits)
    ensures LookAll(ordered, l).compact != [] ==> LookAll(ordered, l).chunk == []
  {
    if ordered != [] {
      OneOrOther(ordered[..|ordered| - 1], l);
    }
  }

  /** Inputs that fail: a small file alone, and one behind a large file. */
  lemma LoneFiles(f: ParquetFile, g: ParquetFile)
    requires f.bytes == 9 && g.bytes == 10
    ensures Group([f], LimitsOf(100, 20)).LoneFile? && Group([f], LimitsOf(100, 1)).LoneFile?
    ensures Group([g, f], LimitsOf(100, 20)).LoneFile?
  {
    OnlyFile(f, LimitsOf(100, 20));
    OnlyFile(f, LimitsOf(100, 1));
    OnlyFile(g, LimitsOf(100, 20));
    assert [g, f][..1] == [g];
  }

  lemma OnlyFile(f: ParquetFile, l: Limits)
    ensures LookAll([f], l) == Look(Scan([], [], [], 0), f, l)
  {
    assert [f][..0] == [];
  }

  /** With one file to a group, none is made. */
  lemma NothingGrouped(ordered: Picked, l: Limits)
    requires l.maxFiles == 1
    ensures Group(ordered, l).Grouped? ==> Group(ordered, l).compact == []
  {
    LookAlone(ordered, l);
  }

  // ---------- which files are grouped ----------

  /** No two files that fit are next to each other up to place a. */
  ghost predicate NoPairUpTo(ordered: Picked, l: Limits, a: nat) {
    forall i :: 0 < i <= a && i < |ordered| ==> !PairAt(ordered, i, l)
  }

  ghost predicate AllFit(ordered: Picked, l: Limits, a: nat, e: nat)
    requires a <= e <= |ordered|
  {
    forall j :: a <= j < e ==> FitsAt(ordered, j, l)
  }

  /** The first two or more files in a row that fit, and as many of them as may be grouped. */
  ghost predicate FirstRun(ordered: Picked, l: Limits, a: nat, e: nat) {
    && a + 2 <= e <= |ordered| && e - a <= l.maxFiles && AllFit(ordered, l, a, e) && NoPairUpTo(ordered, l, a)
    && (e < |ordered| && e - a < l.maxFiles ==> !FitsAt(ordered, e, l))
  }

  /** The scan is gathering a run at the end, or has none. */
  ghost predicate Gathering(s: Scan, ordered: Picked, l: Limits) {
    && s.compact == [] && |s.chunk| <= |ordered| && s.chunk == ordered[|ordered| - |s.chunk|..]
    && s.bytes == Counted(ordered, l) && |s.chunk| <= l.maxFiles
    && AllFit(ordered, l, |ordered| - |s.chunk|, |ordered|) && NoPairUpTo(ordered, l, |ordered| - |s.chunk|)
    && (s.chunk == [] && ordered != [] ==> !FitsAt(ordered, |ordered| - 1, l))
  }

  ghost predicate HasFound(s: Scan, ordered: Picked, l: Limits, a: nat, e: nat) {
    FirstRun(ordered, l, a, e) && e < |ordered| && s.compact == ordered[a..e] && s.chunk == []
  }

  lemma AllFitLonger(ordered: Picked, f: ParquetFile, l: Limits, a: nat, e: nat)
    requires a <= e <= |ordered|
    ensures AllFit(ordered + [f], l, a, e) == AllFit(ordered, l, a, e)
    ensures a < |ordered| ==> NoPairUpTo(ordered + [f], l, a) == NoPairUpTo(ordered, l, a)
  {
    hide FitsAt;
    forall i | 0 <= i < |ordered| ensures FitsAt(ordered + [f], i, l) == FitsAt(ordered, i, l) {
      FitsInLonger(ordered, f, i, l);
    }
    assert forall i :: 0 < i < |ordered| ==> PairAt(ordered + [f], i, l) == PairAt(ordered, i, l);
  }

  lemma FoundStays(s: Scan, ordered: Picked, f: ParquetFile, l: Limits, a: nat, e: nat)
    requires HasFound(s, ordered, l, a, e)
    ensures HasFound(Look(s, f, l), ordered + [f], l, a, e)
  {
    hide FitsAt;
    AllFitLonger(ordered, f, l, a, e);
    FitsInLonger(ordered, f, e, l);
    assert (ordered + [f])[a..e] == ordered[a..e];
  }

  lemma LookGathers(s: Scan, ordered: Picked, f: ParquetFile, l: Limits)
    requires Gathering(s, ordered, l) && l.maxFiles >= 2
    ensures
      var t, longer := Look(s, f, l), ordered + [f];
      Gathering(t, longer, l) || HasFound(t, longer, l, |ordered| - |s.chunk|, |ordered|)
  {
    hide FitsAt, Counted;
    var n, c, longer := |ordered|, |s.chunk|, ordered + [f];
    LastFits(ordered, f, l);
    AllFitLonger(ordered, f, l, n - c, n);
    CountedLonger(ordered, f, l);
    forall i | 0 <= i < n ensures FitsAt(longer, i, l) == FitsAt(ordered, i, l) {
      FitsInLonger(ordered, f, i, l);
    }
    if c <= 1 {
      NoPairYet(s, ordered, f, l);
    }
    assert longer[n - c..n] == s.chunk && longer[n - c..] == s.chunk + [f] && longer[n + 1..] == [];
  }

  lemma CountedLonger(ordered: Picked, f: ParquetFile, l: Limits)
    ensures Counted(ordered + [f], l) ==
      if Fits(Counted(ordered, l), f, l) then Counted(ordered, l) + f.bytes else Counted(ordered, l)
  {
    assert (ordered + [f])[..|ordered|] == ordered;
  }

  /** With at most one file gathered there is no pair yet, and none when it is given up. */
  lemma NoPairYet(s: Scan, ordered: Picked, f: ParquetFile, l: Limits)
    requires Gathering(s, ordered, l) && |s.chunk| <= 1
    ensures s.chunk == [] ==> NoPairUpTo(ordered + [f], l, |ordered|)
    ensures !FitsAt(ordered + [f], |ordered|, l) ==> NoPairUpTo(ordered + [f], l, |ordered| + 1)
  {
    hide FitsAt;
    var n, longer := |ordered|, ordered + [f];
    forall i | 0 <= i < n ensures FitsAt(longer, i, l) == FitsAt(ordered, i, l) {
      FitsInLonger(ordered, f, i, l);
    }
    assert forall i :: 0 < i < n ==> PairAt(longer, i, l) == PairAt(ordered, i, l) == false;
    assert n > 0 && s.chunk == [] ==> !PairAt(longer, n, l);
    assert n > 0 && !FitsAt(longer, n, l) ==> !PairAt(longer, n, l);
  }

  lemma {:induction false} LookAllGathers(ordered: Picked, l: Limits) returns (a: nat, e: nat)
    requires l.maxFiles >= 2
    ensures Gathering(LookAll(ordered, l), ordered, l) || HasFound(LookAll(ordered, l), ordered, l, a, e)
  {
    a, e := 0, 0;
    if ordered != [] {
      hide Gathering, HasFound, Look;
      var before, f := ordered[..|ordered| - 1], ordered[|ordered| - 1];
      assert ordered == before + [f];
      a, e := LookAllGathers(before, l);
      var s := LookAll(before, l);
      if HasFound(s, before, l, a, e) {
        FoundStays(s, before, f, l, a, e);
      } else {
        GatheringSize(s, before, l);
        LookGathers(s, before, f, l);
        a, e := |before| - |s.chunk|, |before|;
      }
    }
  }

  lemma GatheringSize(s: Scan, ordered: Picked, l: Limits)
    requires Gathering(s, ordered, l)
    ensures |s.chunk| <= |ordered|
  {
  }

  /** What is grouped is exactly the first run, and nothing exactly when no two files that fit are next to each other.
      There is one first run at most. */
  lemma GroupIsFirstRun(ordered: Picked, l: Limits) returns (a: nat, e: nat)
    requires l.maxFiles >= 2 && Group(ordered, l).Grouped?
    ensures Group(ordered, l).compact == [] <==> !FittingPair(ordered, l)
    ensures FittingPair(ordered, l) ==> FirstRun(ordered, l, a, e) && Group(ordered, l).compact == ordered[a..e]
  {
    hide FittingPair, LookAll, FitsAt;
    var s := LookAll(ordered, l);
    a, e := LookAllGathers(ordered, l);
    LookAllFound(ordered, l);
    OneOrOther(ordered, l);
    if s.compact == [] {
      a, e := |ordered| - |s.chunk|, |ordered|;
      assert ordered[a..e] == s.chunk;
    }
  }

  lemma FirstRunUnique(ordered: Picked, l: Limits, a: nat, e: nat, b: nat, d: nat)
    requires FirstRun(ordered, l, a, e) && FirstRun(ordered, l, b, d)
    ensures a == b && e == d
  {
    hide FitsAt;
    assert FitsAt(ordered, a, l) && FitsAt(ordered, a + 1, l) && PairAt(ordered, a + 1, l);
    assert FitsAt(ordered, b, l) && FitsAt(ordered, b + 1, l) && PairAt(ordered, b + 1, l);
  }
}
