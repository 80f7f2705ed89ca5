/** Classifying the files of a branch: which to compact, split or upgrade, and which to keep for a later round. */
module Classifier {
  import opened Wrappers
  import opened ParquetFiles
  import opened FilesSplit
  import opened TimeSplit
  import opened Plans
  import opened Catalog

  // ---------- compacting to a target level ----------

  /** What is compacted and upgraded stays clear of each other and of what is kept up to the target level. The
      kept files may include those of other branches. */
  ghost predicate Separated(compact: Picked, upgrade: Picked, keep: Picked, target: Level) {
    && (forall f :: f in upgrade ==> f.level == target.Prev() && Clear(f, compact))
    && PairwiseFree(upgrade)
    && (forall g :: g in keep && g.level.Rank() <= target.Rank() ==> Clear(g, compact) && Free(g, upgrade))
  }

  /** Kept are exactly the files above the target level and those left alone. */
  ghost predicate KeptExactly(keep: Picked, files: Picked, target: Level, undersized: int) {
    forall f ::
      f in keep <==>
      f in files && (f.level.Rank() > target.Rank() || LeftAlone(f, multiset(files), target, undersized))
  }

  /** Upgraded are exactly those of the others that are out of reach of what has to be compacted. */
  ghost predicate UpgradedExactly(upgrade: Picked, moving: multiset<ParquetFile>, target: Level, minBytes: int) {
    forall f :: f in upgrade <==> f in moving && !InReach(f, moving, target, minBytes)
  }

  /** Every file is picked once: to compact, to upgrade or to keep. Kept are the files above the target level and those
      that are left alone. Of the others, those upgraded are out of reach of the ones that have to be compacted. */
  method TargetLevel(files: Picked, target: Level, undersized: int, minBytes: int)
    returns (compact: Picked, upgrade: Picked, keep: Picked)
    requires target != Initial && AllOrdered(files) && forall f :: f in files ==> f.level.Rank() >= target.Prev().Rank()
    ensures multiset(compact) + multiset(upgrade) + multiset(keep) == multiset(files)
    ensures forall f :: f in compact ==> f.level == target || f.level == target.Prev()
    ensures forall f :: f in keep ==> f.level.Rank() >= target.Rank()
    ensures ApartAt(multiset(files), target) ==> Separated(compact, upgrade, keep, target)
    ensures ApartAt(multiset(files), target) ==> KeptExactly(keep, files, target, undersized)
    ensures UpgradedExactly(upgrade, multiset(files) - multiset(keep), target, minBytes)
  {
    hide MinTime, MaxTime, Clear, PairwiseFree, ApartAt, Free, Separated;
    hide LeftAlone, InReach, KeptExactly, UpgradedExactly;
    var lower, higher := Partition(files, (f: ParquetFile) => f.level.Rank() <= target.Rank());
    AllIn(lower, files);
    var overlapping, clear := NonOverlapSplit(lower, target, undersized);
    AllIn(overlapping, lower);
    compact, upgrade := UpgradeSplit(overlapping, target, minBytes);
    AllIn(compact, overlapping);
    AllIn(upgrade, overlapping);
    keep := higher + clear;
    PickedOnce(compact, upgrade, higher, clear, overlapping, lower, files);
    MovingUpgraded(overlapping, upgrade, keep, files, target, minBytes);
    if ApartAt(multiset(files), target) {
      ApartAtSub(multiset(lower), multiset(files), target);
      SeparatedParts(compact, upgrade, higher, clear, overlapping, target);
      KeptIff(files, lower, higher, clear, target, undersized);
    }
  }

  lemma KeptIff(files: Picked, lower: Picked, higher: Picked, clear: Picked, target: Level, undersized: int)
    requires multiset(lower) + multiset(higher) == multiset(files) && target != Initial
    requires (forall f :: f in lower ==> f.level.Rank() <= target.Rank()) &&
      (forall f :: f in higher ==> f.level.Rank() > target.Rank())
    requires forall f :: f in clear <==> f in lower && LeftAlone(f, multiset(lower), target, undersized)
    ensures KeptExactly(higher + clear, files, target, undersized)
  {
    hide LeftAlone;
    AllParts(lower, higher, files);
    assert forall f :: f in multiset(higher) ==> f in higher;
    forall f
      ensures LeftAlone(f, multiset(files), target, undersized) <==> LeftAlone(f, multiset(lower), target, undersized)
    {
      LeftAloneBelow(f, multiset(lower), multiset(higher), multiset(files), target, undersized);
    }
    LeftAloneAt(multiset(files), target, undersized);
  }

  lemma LeftAloneAt(files: multiset<ParquetFile>, target: Level, undersized: int)
    ensures forall f :: LeftAlone(f, files, target, undersized) ==> f.level == target
  {
  }

  lemma MovingUpgraded(
    overlapping: Picked, upgrade: Picked, keep: Picked, files: Picked, target: Level, minBytes: int)
    requires multiset(overlapping) + multiset(keep) == multiset(files)
    requires forall f :: f in upgrade <==> f in overlapping && !InReach(f, multiset(overlapping), target, minBytes)
    ensures UpgradedExactly(upgrade, multiset(files) - multiset(keep), target, minBytes)
  {
    hide InReach;
    assert multiset(files) - multiset(keep) == multiset(overlapping);
    assert forall f :: f in overlapping <==> f in multiset(overlapping);
  }

  /** Whether a file is left alone is up to the files of two levels. */
  lemma LeftAloneBelow(
    g: ParquetFile, lower: multiset<ParquetFile>, higher: multiset<ParquetFile>, files: multiset<ParquetFile>,
    target: Level, undersized: int)
    requires lower + higher == files && target != Initial && forall f :: f in higher ==> f.level.Rank() > target.Rank()
    ensures LeftAlone(g, files, target, undersized) <==> LeftAlone(g, lower, target, undersized)
  {
    forall f: ParquetFile | f.level == target || f.level == target.Prev() ensures f in files <==> f in lower {
      assert f in files <==> f in lower || f in higher;
    }
    forall h ensures BeforeAll(h, files, target) == BeforeAll(h, lower, target) {
    }
    forall h ensures BehindAll(h, files, target) == BehindAll(h, lower, target) {
    }
  }

  lemma PickedOnce(
    compact: Picked, upgrade: Picked, higher: Picked, clear: Picked, overlapping: Picked, lower: Picked, files: Picked)
    requires multiset(lower) + multiset(higher) == multiset(files)
    requires multiset(overlapping) + multiset(clear) == multiset(lower)
    requires multiset(compact) + multiset(upgrade) == multiset(overlapping)
    ensures multiset(compact) + multiset(upgrade) + multiset(higher + clear) == multiset(files)
    ensures multiset(overlapping) + multiset(higher + clear) == multiset(files)
  {
    assert multiset(higher + clear) == multiset(higher) + multiset(clear);
  }

  lemma SeparatedParts(
    compact: Picked, upgrade: Picked, higher: Picked, clear: Picked, overlapping: Picked, target: Level)
    requires (forall f :: f in compact ==> f in overlapping) && (forall f :: f in upgrade ==> f in overlapping)
    requires forall f :: f in upgrade ==> f.level == target.Prev() && Clear(f, compact)
    requires PairwiseFree(upgrade)
    requires forall g :: g in higher ==> g.level.Rank() > target.Rank()
    requires forall g :: g in clear ==> g.level == target && Clear(g, overlapping)
    ensures Separated(compact, upgrade, higher + clear, target)
  {
    hide MinTime, MaxTime, Clear, PairwiseFree, Free;
    forall g | g in clear ensures Clear(g, compact) && Free(g, upgrade) {
      ClearSub(g, compact, upgrade, overlapping);
    }
  }

  lemma ApartAtSub(part: multiset<ParquetFile>, whole: multiset<ParquetFile>, level: Level)
    requires ApartAt(whole, level) && part <= whole
    ensures ApartAt(part, level)
  {
    assert forall f :: f in part ==> f in whole;
  }

  /** Clear of a group is clear of every part of it and free of its files. */
  lemma ClearSub(g: ParquetFile, compact: Picked, upgrade: Picked, whole: Picked)
    requires Clear(g, whole)
    requires (forall f :: f in compact ==> f in whole) && (forall f :: f in upgrade ==> f in whole)
    ensures Clear(g, compact) && Free(g, upgrade)
  {
    hide MinTime, MaxTime;
    if upgrade != [] {
      assert upgrade[0] in whole;
    }
    if compact != [] {
      assert compact[0] in whole;
    }
  }

  // ---------- what that means for the catalog ----------

  /** The files live after the commit: those kept, those made by compacting, those upgraded. */
  ghost function After(keep: Picked, made: seq<ParquetFile>, upgrade: Picked, target: Level): set<ParquetFile> {
    (set f | f in keep) + (set f | f in made) + (set u | u in upgrade :: u.(level := target))
  }

  lemma UpgradedFits(live: set<ParquetFile>, u: ParquetFile, g: ParquetFile, target: Level)
    requires Ok(live) && u in live && g in live && target != Initial && u.level == target.Prev()
    requires g.level.Rank() <= target.Rank() ==> !Overlaps(u, g)
    ensures Fits(u.(level := target), g) && Fits(g, u.(level := target))
  {
    assert Fits(u, g);
  }

  /** The pairs of files live after the commit. */
  lemma PairFits(
    live: set<ParquetFile>, target: Level, compact: Picked, upgrade: Picked, keep: Picked, made: seq<ParquetFile>,
    f: ParquetFile, g: ParquetFile)
    requires Ok(live) && target != Initial && Separated(compact, upgrade, keep, target)
    requires (forall f :: f in keep ==> f in live) && (forall f :: f in upgrade ==> f in live)
    requires compact == [] ==> made == []
    requires compact != [] ==> Fills(made, MinTime(compact), MaxTime(compact), target, MaxL0(compact))
    requires compact != [] ==> forall g :: g in keep && g.level.Rank() > target.Rank() ==>
      Allows(g, MinTime(compact), MaxTime(compact), target, MaxL0(compact))
    requires f in keep || f in made || (exists u :: u in upgrade && f == u.(level := target))
    requires g in keep || g in made || (exists u :: u in upgrade && g == u.(level := target))
    ensures Fits(f, g)
  {
    hide Separated, Fills, Fits, Ok;
    if f in keep && g in keep {
      KeptFit(live, keep, f, g);
    } else if f in made && g in made {
      MadeFit(made, compact, target, f, g);
    } else if f in made || g in made {
      MadeFitsOther(target, compact, upgrade, keep, made, f, g);
    } else {
      UpgradedFit(live, target, compact, upgrade, keep, f, g);
    }
  }

  lemma KeptFit(live: set<ParquetFile>, keep: Picked, f: ParquetFile, g: ParquetFile)
    requires Ok(live) && f in keep && g in keep && forall f :: f in keep ==> f in live
    ensures Fits(f, g)
  {
  }

  lemma MadeFit(made: seq<ParquetFile>, compact: Picked, target: Level, f: ParquetFile, g: ParquetFile)
    requires f in made && g in made && compact != []
    requires Fills(made, MinTime(compact), MaxTime(compact), target, MaxL0(compact))
    ensures Fits(f, g)
  {
    var i :| 0 <= i < |made| && made[i] == f;
    var j :| 0 <= j < |made| && made[j] == g;
    assert i < j ==> made[i].maxTime < made[j].minTime;
    assert j < i ==> made[j].maxTime < made[i].minTime;
  }

  lemma MadeFitsOther(
    target: Level, compact: Picked, upgrade: Picked, keep: Picked, made: seq<ParquetFile>, f: ParquetFile,
    g: ParquetFile)
    requires compact != [] && Separated(compact, upgrade, keep, target)
    requires Fills(made, MinTime(compact), MaxTime(compact), target, MaxL0(compact))
    requires forall g :: g in keep && g.level.Rank() > target.Rank() ==>
      Allows(g, MinTime(compact), MaxTime(compact), target, MaxL0(compact))
    requires (f in made) != (g in made)
    requires f in keep || f in made || (exists u :: u in upgrade && f == u.(level := target))
    requires g in keep || g in made || (exists u :: u in upgrade && g == u.(level := target))
    ensures Fits(f, g)
  {
    var m, o := if f in made then f else g, if f in made then g else f;
    assert Allows(o, MinTime(compact), MaxTime(compact), target, MaxL0(compact)) by {
      if o !in keep {
        var u :| u in upgrade && o == u.(level := target);
        assert Clear(u, compact);
      }
    }
    AllowingFits(o, m, MinTime(compact), MaxTime(compact), target, MaxL0(compact));
  }

  lemma UpgradedFit(
    live: set<ParquetFile>, target: Level, compact: Picked, upgrade: Picked, keep: Picked, f: ParquetFile,
    g: ParquetFile)
    requires Ok(live) && target != Initial && Separated(compact, upgrade, keep, target)
    requires (forall f :: f in keep ==> f in live) && (forall f :: f in upgrade ==> f in live)
    requires f in keep || (exists u :: u in upgrade && f == u.(level := target))
    requires g in keep || (exists u :: u in upgrade && g == u.(level := target))
    requires f !in keep || g !in keep
    ensures Fits(f, g)
  {
    if f in keep {
      var u :| u in upgrade && g == u.(level := target);
      assert f.level.Rank() <= target.Rank() ==> Free(f, upgrade);
      UpgradedFits(live, u, f, target);
    } else if g in keep {
      var u :| u in upgrade && f == u.(level := target);
      assert g.level.Rank() <= target.Rank() ==> Free(g, upgrade);
      UpgradedFits(live, u, g, target);
    } else {
      var u :| u in upgrade && f == u.(level := target);
      var v :| v in upgrade && g == v.(level := target);
      var i :| 0 <= i < |upgrade| && upgrade[i] == u;
      var j :| 0 <= j < |upgrade| && upgrade[j] == v;
      assert i < j ==> !Overlaps(upgrade[i], upgrade[j]);
      assert j < i ==> !Overlaps(upgrade[j], upgrade[i]);
    }
  }

  /** Compacting and upgrading what was picked keeps the invariant exactly when every file of a higher level that
      reaches into the compacted range is at most as new. All the other guards hold by the way files are picked. */
  lemma TargetLevelOkIff(
    live: set<ParquetFile>, target: Level, compact: Picked, upgrade: Picked, keep: Picked, made: seq<ParquetFile>)
    requires Valid(live) && Ok(live) && target != Initial && Separated(compact, upgrade, keep, target)
    requires forall f :: f in live <==> f in compact || f in upgrade || f in keep
    requires compact == [] ==> made == []
    requires compact != [] ==> Fills(made, MinTime(compact), MaxTime(compact), target, MaxL0(compact))
    requires Fresh((set f | f in keep), made)
    ensures Ok(After(keep, made, upgrade, target)) <==>
      (compact != [] ==> forall g :: g in keep && g.level.Rank() > target.Rank() ==>
         Allows(g, MinTime(compact), MaxTime(compact), target, MaxL0(compact)))
  {
    hide Separated, Fits, Allows, Fills, MinTime, MaxTime, MaxL0;
    var after := After(keep, made, upgrade, target);
    if Ok(after) && compact != [] {
      forall g | g in keep && g.level.Rank() > target.Rank()
        ensures Allows(g, MinTime(compact), MaxTime(compact), target, MaxL0(compact))
      {
        forall i | 0 <= i < |made| ensures g.id != made[i].id && Fits(g, made[i]) && Fits(made[i], g) {
          assert made[i] in after && g in after;
        }
        CompactOrdered(live, compact);
        FittingAllows(g, made, MinTime(compact), MaxTime(compact), target, MaxL0(compact));
      }
    }
    if compact != [] ==> forall g :: g in keep && g.level.Rank() > target.Rank() ==>
         Allows(g, MinTime(compact), MaxTime(compact), target, MaxL0(compact)) {
      forall f, g | f in after && g in after ensures Fits(f, g) {
        PairFits(live, target, compact, upgrade, keep, made, f, g);
      }
    }
  }

  lemma CompactOrdered(live: set<ParquetFile>, compact: Picked)
    requires Valid(live) && compact != [] && forall f :: f in compact ==> f in live
    ensures MinTime(compact) <= MaxTime(compact)
  {
    HullOrdered(compact);
  }

  /** The same for the output of the plan that compacts what was picked. */
  lemma CompactedOkIff(
    live: set<ParquetFile>, compact: Picked, upgrade: Picked, keep: Picked, p: Plan, out: seq<FileParams>,
    ids: seq<nat>)
    requires Valid(live) && Ok(live) && !p.NoPlan? && p.target != Initial && Separated(compact, upgrade, keep, p.target)
    requires forall f :: f in live <==> f in compact || f in upgrade || f in keep
    requires compact != [] && p.Inputs() == compact && Writes(p, out) && |ids| == |out|
    requires Fresh((set f | f in keep), Made(RunPlan(p, out, ids)))
    ensures Ok(After(keep, Made(RunPlan(p, out, ids)), upgrade, p.target)) <==>
      forall g :: g in keep && g.level.Rank() > p.target.Rank() ==>
        Allows(g, MinTime(compact), MaxTime(compact), p.target, MaxL0(compact))
  {
    hide Separated, Fits, Ok, Allows, Fills, MinTime, MaxTime, MaxL0, Writes, Made, After;
    PlanFills(p, out, ids);
    TargetLevelOkIff(live, p.target, compact, upgrade, keep, Made(RunPlan(p, out, ids)));
  }

  /** To the final level nothing is higher, so the invariant is always kept. */
  lemma FinalLevelOk(live: set<ParquetFile>, compact: Picked, upgrade: Picked, keep: Picked, made: seq<ParquetFile>)
    requires Valid(live) && Ok(live) && Separated(compact, upgrade, keep, Final)
    requires forall f :: f in live <==> f in compact || f in upgrade || f in keep
    requires compact == [] ==> made == []
    requires compact != [] ==> Fills(made, MinTime(compact), MaxTime(compact), Final, MaxL0(compact))
    requires Fresh((set f | f in keep), made)
    ensures Ok(After(keep, made, upgrade, Final))
  {
    hide Separated, Fits, Ok, Allows, Fills, MinTime, MaxTime, MaxL0;
    TargetLevelOkIff(live, Final, compact, upgrade, keep, made);
  }

  /** Bridging a gap can break it: two L0 files compacted into one L1 file around a newer L2 file. */
  lemma GapBridged()
    ensures
      var a, b := ParquetFile(1, 0, 10, 1, 1, Initial, 5), ParquetFile(2, 20, 30, 1, 1, Initial, 6);
      var h, m := ParquetFile(3, 12, 18, 1, 1, Final, 100), ParquetFile(4, 0, 30, 2, 2, FileNonOverlapped, 6);
      Ok({a, b, h}) && Separated([a, b], [], [h], FileNonOverlapped) && !Ok(After([h], [m], [], FileNonOverlapped))
  {
    var h, m := ParquetFile(3, 12, 18, 1, 1, Final, 100), ParquetFile(4, 0, 30, 2, 2, FileNonOverlapped, 6);
    var after := After([h], [m], [], FileNonOverlapped);
    assert [m][0] in [m] && [h][0] in [h];
    assert m in after && h in after && !Fits(m, h);
  }

  /** The invariant is what picking relies on: the files of a target level are apart. */
  lemma OkApart(files: Picked, target: Level)
    requires target != Initial && (forall f :: f in multiset(files) ==> multiset(files)[f] == 1)
    requires Valid(set f | f in files) && Ok(set f | f in files)
    ensures ApartAt(multiset(files), target)
  {
    var live := set f | f in files;
    forall f, g | f in multiset(files) && g in multiset(files) && f.level == g.level == target && f != g
      ensures !Overlaps(f, g)
    {
      assert f in live && g in live;
      assert Fits(f, g);
    }
  }

  // ---------- vertical splits ----------

  /** Cuts every file at its own split times; a file that none of them cuts should not be here. */
  method VerticalSplit(files: Picked, times: seq<int>) returns (r: Result<seq<FileToSplit>, string>)
    ensures r.Success? <==> forall f :: f in files ==> SomeCut(times, f.minTime, f.maxTime)
    ensures r.Success? ==> |r.value| == |files| && SplitFiles(r.value).Files() == files
    ensures r.Success? ==>
      forall i :: 0 <= i < |files| ==> r.value[i] == FileToSplit(files[i], OwnTimes(files[i], times))
  {
    var splits := [];
    for i := 0 to |files|
      invariant |splits| == i
      invariant forall j :: 0 <= j < i ==> splits[j] == FileToSplit(files[j], OwnTimes(files[j], times))
      invariant forall j :: 0 <= j < i ==> SomeCut(times, files[j].minTime, files[j].maxTime)
    {
      var own := OwnTimes(files[i], times);
      OwnIffCut(files[i], times);
      if own == [] {
        assert files[i] in files;
        return Failure("files not needing split should be filtered out");
      }
      splits := splits + [FileToSplit(files[i], own)];
    }
    return Success(splits);
  }

  /** After a vertical split no piece is cut by any split time of the round. */
  lemma VerticalPiecesDone(f: ParquetFile, times: seq<int>, out: seq<SimulatedFile>, target: Level, k: nat)
    requires Ordered(f) && Ascending(times) && Accepted(OwnTimes(f, times), f.maxTime)
    requires Follows(out, OwnTimes(f, times), f.minTime, f.maxTime, target) && k < |out|
    ensures !SomeCut(times, out[k].minTime, out[k].maxTime)
  {
    var own := OwnTimes(f, times);
    OwnTimesInside(f, times);
    PiecesNeedNoSplit(out, own, f.minTime, f.maxTime, target, k);
    SplitTiles(out, own, f.minTime, f.maxTime, target);
    forall i | 0 <= i < |times| ensures !Cuts(times[i], out[k].minTime, out[k].maxTime) {
      if Cuts(times[i], f.minTime, f.maxTime) {
        assert times[i] in own;
        var j :| 0 <= j < |own| && own[j] == times[i];
      } else {
        WithinHull(out, f.minTime, f.maxTime, k);
      }
    }
  }

  lemma WithinHull(out: seq<SimulatedFile>, lo: int, hi: int, k: nat)
    requires Tiles(out, lo, hi) && k < |out|
    ensures lo <= out[k].minTime && out[k].maxTime <= hi
  {
    if k > 0 {
      TilesOrdered(out, lo, hi, 0, k);
    }
    if k < |out| - 1 {
      TilesOrdered(out, lo, hi, k, |out| - 1);
    }
  }
}
