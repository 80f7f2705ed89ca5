/** The live files of a partition, the safety invariant on them, and the commits that keep it. */
module Catalog {
  import opened ParquetFiles
  import opened TimeSplit
  import opened Plans

  predicate IntraLevelOverlap(f: ParquetFile, g: ParquetFile) {
    && f.id != g.id
    && (f.level == FileNonOverlapped || f.level == Final) && f.level == g.level
    && Overlaps(f, g)
  }

  /** The file at the higher level is newer. */
  predicate MisorderedOverlap(f: ParquetFile, g: ParquetFile) {
    && f.id != g.id
    && f.level.Rank() < g.level.Rank()
    && Overlaps(f, g)
    && f.maxL0CreatedAt < g.maxL0CreatedAt
  }

  predicate Fits(f: ParquetFile, g: ParquetFile) {
    !IntraLevelOverlap(f, g) && !MisorderedOverlap(f, g)
  }

  /** L1 and L2 are each free of overlap, and of two overlapping files at different levels the lower one is at
      least as new. */
  ghost predicate Ok(live: set<ParquetFile>) {
    forall f, g :: f in live && g in live ==> Fits(f, g)
  }

  method VerifyCatalogInvariants(files: seq<ParquetFile>) returns (ok: bool)
    ensures ok <==> Ok(set f | f in files)
  {
    for i := 0 to |files|
      invariant forall k, l :: 0 <= k < i && 0 <= l < |files| ==> Fits(files[k], files[l])
    {
      for j := 0 to |files|
        invariant forall l :: 0 <= l < j ==> Fits(files[i], files[l])
      {
        if IntraLevelOverlap(files[i], files[j]) || MisorderedOverlap(files[i], files[j]) {
          assert files[i] in files && files[j] in files && !Fits(files[i], files[j]);
          return false;
        }
      }
    }
    return true;
  }

  // ---------- commits ----------

  /** Every commit puts new files in place of some live ones: an ingested file in place of none, an upgraded one
      in place of itself at the old level, the output of a plan in place of its inputs. */
  datatype Commit =
    | Ingest(file: ParquetFile)
    | Upgrade(was: ParquetFile, target: Level)
    | RunPlan(plan: Plan, out: seq<FileParams>, ids: seq<nat>)

  function FromParams(params: FileParams, id: nat): ParquetFile {
    var f := params.file;
    ParquetFile(id, f.minTime, f.maxTime, f.bytes, f.rows, f.level, params.maxL0CreatedAt)
  }

  ghost function Gone(c: Commit): set<ParquetFile> {
    match c
    case Ingest(_) => {}
    case Upgrade(was, _) => {was}
    case RunPlan(p, _, _) => set f | f in p.Inputs()
  }

  function Made(c: Commit): (made: seq<ParquetFile>)
    requires c.RunPlan? ==> |c.ids| == |c.out|
  {
    match c
    case Ingest(f) => [f]
    case Upgrade(was, target) => [was.(level := target)]
    case RunPlan(_, out, ids) => seq(|out|, i requires 0 <= i < |out| => FromParams(out[i], ids[i]))
  }

  ghost predicate Valid(live: set<ParquetFile>) {
    && (forall f :: f in live ==> Ordered(f))
    && (forall f, g :: f in live && g in live && f.id == g.id ==> f == g)
  }

  ghost predicate Fresh(live: set<ParquetFile>, made: seq<ParquetFile>) {
    && (forall f, i :: f in live && 0 <= i < |made| ==> f.id != made[i].id)
    && (forall i, j :: 0 <= i < j < |made| ==> made[i].id != made[j].id)
  }

  ghost predicate Enabled(live: set<ParquetFile>, c: Commit) {
    && Gone(c) <= live
    && (c.RunPlan? ==> |c.ids| == |c.out| && c.plan.Inputs() != [] && Writes(c.plan, c.out))
    && (c.Ingest? ==> c.file.level == Initial && Ordered(c.file))
    && Fresh(live - Gone(c), Made(c))
  }

  ghost function Next(live: set<ParquetFile>, c: Commit): set<ParquetFile>
    requires Enabled(live, c)
  {
    live - Gone(c) + (set f | f in Made(c))
  }

  /** The time range, level and age of what a commit makes. */
  ghost function Low(c: Commit): int
    requires c.RunPlan? ==> c.plan.Inputs() != []
  {
    match c
    case Ingest(f) => f.minTime
    case Upgrade(was, _) => was.minTime
    case RunPlan(p, _, _) => MinTime(p.Inputs())
  }

  ghost function High(c: Commit): int
    requires c.RunPlan? ==> c.plan.Inputs() != []
  {
    match c
    case Ingest(f) => f.maxTime
    case Upgrade(was, _) => was.maxTime
    case RunPlan(p, _, _) => MaxTime(p.Inputs())
  }

  ghost function Target(c: Commit): Level
    requires c.RunPlan? ==> c.plan.Inputs() != []
  {
    match c
    case Ingest(_) => Initial
    case Upgrade(_, target) => target
    case RunPlan(p, _, _) => p.target
  }

  ghost function Age(c: Commit): int
    requires c.RunPlan? ==> c.plan.Inputs() != []
  {
    match c
    case Ingest(f) => f.maxL0CreatedAt
    case Upgrade(was, _) => was.maxL0CreatedAt
    case RunPlan(p, _, _) => MaxL0(p.Inputs())
  }

  /** A surviving file may overlap the whole range that is written, gaps between the inputs included, only if it
      is not at an L1 or L2 target level, is at least as new when it is below, and at most as new when above. */
  predicate Allows(g: ParquetFile, lo: int, hi: int, target: Level, age: int) {
    g.minTime <= hi && g.maxTime >= lo ==>
      && (g.level == target ==> target == Initial)
      && (g.level.Rank() < target.Rank() ==> g.maxL0CreatedAt >= age)
      && (g.level.Rank() > target.Rank() ==> g.maxL0CreatedAt <= age)
  }

  ghost predicate Guard(survivors: set<ParquetFile>, lo: int, hi: int, target: Level, age: int) {
    forall g :: g in survivors ==> Allows(g, lo, hi, target, age)
  }

  // ---------- the guard is exactly what keeps the invariant ----------

  /** The new files fill lo..hi without overlap, all at one level and age. */
  ghost predicate Fills(made: seq<ParquetFile>, lo: int, hi: int, target: Level, age: int) {
    && (forall i :: 0 <= i < |made| ==> made[i].level == target && made[i].maxL0CreatedAt == age)
    && (forall i :: 0 <= i < |made| ==> lo <= made[i].minTime <= made[i].maxTime <= hi)
    && (forall i, j :: 0 <= i < j < |made| ==> made[i].maxTime < made[j].minTime)
    && (forall t: int :: lo <= t <= hi ==> Covered(made, t))
  }

  ghost predicate Covered(made: seq<ParquetFile>, t: int) {
    exists i :: 0 <= i < |made| && Holds(made[i], t)
  }

  /** A file that overlaps the range overlaps one of the new files, so what fits them all allows the range. */
  lemma FittingAllows(g: ParquetFile, made: seq<ParquetFile>, lo: int, hi: int, target: Level, age: int)
    requires Ordered(g) && lo <= hi && Fills(made, lo, hi, target, age)
    requires forall i :: 0 <= i < |made| ==> g.id != made[i].id && Fits(g, made[i]) && Fits(made[i], g)
    ensures Allows(g, lo, hi, target, age)
  {
    if g.minTime <= hi && g.maxTime >= lo {
      var t := if g.minTime <= lo then lo else g.minTime;
      assert Covered(made, t);
      var i :| 0 <= i < |made| && Holds(made[i], t);
      assert Overlaps(made[i], g) && Overlaps(g, made[i]);
    }
  }

  lemma AllowingFits(g: ParquetFile, f: ParquetFile, lo: int, hi: int, target: Level, age: int)
    requires Allows(g, lo, hi, target, age)
    requires f.level == target && f.maxL0CreatedAt == age && lo <= f.minTime && f.maxTime <= hi
    ensures Fits(g, f) && Fits(f, g)
  {
  }

  /** Putting new files that fill lo..hi in place of some live ones keeps the invariant exactly when every
      survivor allows it. */
  lemma ReplaceOkIff(
    live: set<ParquetFile>, gone: set<ParquetFile>, made: seq<ParquetFile>, lo: int, hi: int, target: Level, age: int)
    requires Valid(live) && Ok(live) && lo <= hi
    requires Fills(made, lo, hi, target, age) && Fresh(live - gone, made)
    ensures Ok(live - gone + (set f | f in made)) <==> Guard(live - gone, lo, hi, target, age)
  {
    hide Fits, Allows;
    var next := live - gone + (set f | f in made);
    if Ok(next) {
      forall g | g in live - gone ensures Allows(g, lo, hi, target, age) {
        forall i | 0 <= i < |made| ensures g.id != made[i].id && Fits(g, made[i]) && Fits(made[i], g) {
          assert made[i] in next && g in next;
        }
        FittingAllows(g, made, lo, hi, target, age);
      }
    }
    if Guard(live - gone, lo, hi, target, age) {
      forall f, g | f in next && g in next ensures Fits(f, g) {
        GuardedFit(live, gone, made, lo, hi, target, age, f, g);
      }
    }
  }

  lemma GuardedFit(
    live: set<ParquetFile>, gone: set<ParquetFile>, made: seq<ParquetFile>, lo: int, hi: int, target: Level, age: int,
    f: ParquetFile, g: ParquetFile)
    requires Ok(live) && Fills(made, lo, hi, target, age) && Guard(live - gone, lo, hi, target, age)
    requires f in live - gone || f in made
    requires g in live - gone || g in made
    ensures Fits(f, g)
  {
    if f in live - gone && g in live - gone {
    } else if f in live - gone {
      AllowingFits(f, g, lo, hi, target, age);
    } else if g in live - gone {
      AllowingFits(g, f, lo, hi, target, age);
    } else {
      var i :| 0 <= i < |made| && made[i] == f;
      var j :| 0 <= j < |made| && made[j] == g;
      assert i < j ==> made[i].maxTime < made[j].minTime;
      assert j < i ==> made[j].maxTime < made[i].minTime;
    }
  }

  lemma PlanFills(p: Plan, out: seq<FileParams>, ids: seq<nat>)
    requires |ids| == |out| && p.Inputs() != [] && Writes(p, out)
    ensures Fills(Made(RunPlan(p, out, ids)), MinTime(p.Inputs()), MaxTime(p.Inputs()), p.target, MaxL0(p.Inputs()))
  {
    var files, lo, hi := Files(out), MinTime(p.Inputs()), MaxTime(p.Inputs());
    var made := Made(RunPlan(p, out, ids));
    forall i, j | 0 <= i < j < |made| ensures made[i].maxTime < made[j].minTime {
      TilesOrdered(files, lo, hi, i, j);
    }
    forall t: int | lo <= t <= hi ensures Covered(made, t) {
      var i := FindPiece(files, lo, hi, t, |files| - 1);
      assert Holds(made[i], t);
    }
    forall i | 0 <= i < |made| ensures lo <= made[i].minTime <= made[i].maxTime <= hi {
      TilesOnce(files, lo, hi, files[i].minTime);
      TilesOnce(files, lo, hi, files[i].maxTime);
      assert Within(files[i], files[i].minTime) && Within(files[i], files[i].maxTime);
    }
  }

  lemma CommitFills(live: set<ParquetFile>, c: Commit)
    requires Valid(live) && Enabled(live, c)
    ensures Low(c) <= High(c) && Fills(Made(c), Low(c), High(c), Target(c), Age(c))
  {
    match c
    case Ingest(f) =>
      forall t: int | Low(c) <= t <= High(c) ensures Covered(Made(c), t) { assert Holds(Made(c)[0], t); }
    case Upgrade(was, target) =>
      assert was in Gone(c);
      forall t: int | Low(c) <= t <= High(c) ensures Covered(Made(c), t) { assert Holds(Made(c)[0], t); }
    case RunPlan(p, out, ids) =>
      PlanFills(p, out, ids);
      forall f | f in p.Inputs() ensures Ordered(f) { assert f in Gone(c); }
      HullOrdered(p.Inputs());
  }

  ghost predicate Guarded(live: set<ParquetFile>, c: Commit)
    requires c.RunPlan? ==> c.plan.Inputs() != []
  {
    Guard(live - Gone(c), Low(c), High(c), Target(c), Age(c))
  }

  lemma NextIsValid(live: set<ParquetFile>, c: Commit)
    requires Valid(live) && Enabled(live, c) && Fills(Made(c), Low(c), High(c), Target(c), Age(c))
    ensures Valid(Next(live, c))
  {
    hide Writes, Gone, Made, Low, High, Target, Age;
  }

  /** A commit keeps the invariant exactly when its guard on the survivors holds. */
  lemma CommitOkIff(live: set<ParquetFile>, c: Commit)
    requires Valid(live) && Ok(live) && Enabled(live, c)
    ensures Valid(Next(live, c))
    ensures Ok(Next(live, c)) <==> Guarded(live, c)
  {
    hide Ok, Guard, Writes, Fills, Valid, Gone, Made, Low, High, Target, Age;
    CommitFills(live, c);
    NextIsValid(live, c);
    ReplaceOkIff(live, Gone(c), Made(c), Low(c), High(c), Target(c), Age(c));
  }

  /** Splitting one file at its own level needs no guard: the pieces fit wherever the file did. */
  lemma SplitNeedsNoGuard(live: set<ParquetFile>, c: Commit)
    requires Valid(live) && Ok(live) && Enabled(live, c)
    requires c.RunPlan? && |c.plan.Inputs()| == 1 && c.plan.target == c.plan.Inputs()[0].level
    ensures Guarded(live, c) && Ok(Next(live, c))
  {
    var f := c.plan.Inputs()[0];
    assert f in Gone(c);
    forall g | g in live - Gone(c) ensures Allows(g, Low(c), High(c), Target(c), Age(c)) {
      assert g != f && g.id != f.id;
      assert Fits(f, g) && Fits(g, f);
    }
    CommitOkIff(live, c);
  }

  // ---------- runs ----------

  ghost predicate IsRun(run: seq<set<ParquetFile>>, commits: seq<Commit>) {
    && |run| == |commits| + 1
    && forall k :: 0 <= k < |commits| ==> Enabled(run[k], commits[k]) && run[k + 1] == Next(run[k], commits[k])
  }

  /** Over every run of ingests, upgrades, splits and compactions, the invariant holds throughout exactly when
      every commit met its guard. */
  lemma {:induction false} RunOkIff(run: seq<set<ParquetFile>>, commits: seq<Commit>, n: nat)
    requires IsRun(run, commits) && n < |run| && Valid(run[0]) && Ok(run[0])
    ensures (forall k :: 0 <= k <= n ==> Ok(run[k])) <==> (forall k :: 0 <= k < n ==> Guarded(run[k], commits[k]))
    ensures (forall k :: 0 <= k <= n ==> Ok(run[k])) ==> Valid(run[n])
  {
    hide Ok, Guarded, Next, Enabled, Valid;
    if n > 0 {
      RunOkIff(run, commits, n - 1);
      assert run[n - 1 + 1] == Next(run[n - 1], commits[n - 1]);
      if forall k :: 0 <= k <= n - 1 ==> Ok(run[k]) {
        CommitOkIff(run[n - 1], commits[n - 1]);
      }
    }
  }
}
