/** Rounds of compaction as runs of the catalog: which guards hold by the way files are picked, and which files decide
    the others. */
module RoundCommits {
  import opened ParquetFiles
  import opened FilesSplit
  import opened TimeSplit
  import opened Plans
  import opened Catalog
  import opened Classifier
  import opened LimitFiles

  // ---------- only files in gaps decide ----------

  /** The file reaches into the range of the group without overlapping any file of it. */
  ghost predicate InGap(g: ParquetFile, files: Picked) {
    files != [] && !Clear(g, files) && forall f :: f in files ==> !Overlaps(f, g)
  }

  /** Above the target level, the guard of a plan is about the files in gaps between its inputs: the others overlap an
      input, and the invariant says they are at most as new. */
  lemma HigherInGap(live: set<ParquetFile>, p: Plan, g: ParquetFile)
    requires Valid(live) && Ok(live) && p.Inputs() != [] && g in live && g !in p.Inputs()
    requires g.level.Rank() > p.target.Rank()
    requires forall f :: f in p.Inputs() ==> f in live && f.level.Rank() <= p.target.Rank()
    ensures Allows(g, MinTime(p.Inputs()), MaxTime(p.Inputs()), p.target, MaxL0(p.Inputs())) <==>
      (InGap(g, p.Inputs()) ==> g.maxL0CreatedAt <= MaxL0(p.Inputs()))
  {
    hide MinTime, MaxTime, MaxL0, Ok;
    if f :| f in p.Inputs() && Overlaps(f, g) {
      OverlapOlder(live, f, g);
    }
  }

  lemma OverlapOlder(live: set<ParquetFile>, f: ParquetFile, g: ParquetFile)
    requires Valid(live) && Ok(live) && f in live && g in live && f.level.Rank() < g.level.Rank() && Overlaps(f, g)
    ensures g.maxL0CreatedAt <= f.maxL0CreatedAt
  {
    assert f != g && f.id != g.id && Fits(f, g);
  }

  // ---------- grouping L0 files ----------

  /** Compacting L0 files into L0 files keeps the invariant exactly when every L1 or L2 file in a gap between them is at
      most as new. */
  lemma GroupedOkIff(live: set<ParquetFile>, c: Commit)
    requires Valid(live) && Ok(live) && Enabled(live, c) && c.RunPlan? && c.plan.target == Initial
    requires forall f :: f in c.plan.Inputs() ==> f.level == Initial
    ensures Ok(Next(live, c)) <==>
      forall g ::
        g in live && g.level != Initial && InGap(g, c.plan.Inputs()) ==> g.maxL0CreatedAt <= MaxL0(c.plan.Inputs())
  {
    hide MinTime, MaxTime, MaxL0, Ok, Valid, Writes, Fresh, InGap, Allows;
    CommitOkIff(live, c);
    var inputs := c.plan.Inputs();
    forall f | f in inputs ensures f in live { assert f in Gone(c); }
    forall g | g in live - Gone(c)
      ensures Allows(g, Low(c), High(c), Initial, Age(c)) <==>
        (g.level != Initial && InGap(g, inputs) ==> g.maxL0CreatedAt <= MaxL0(inputs))
    {
      if g.level == Initial {
        SameL0Allows(g, Low(c), High(c), Age(c));
      } else {
        HigherInGap(live, c.plan, g);
      }
    }
  }

  lemma SameL0Allows(g: ParquetFile, lo: int, hi: int, age: int)
    requires g.level == Initial
    ensures Allows(g, lo, hi, Initial, age)
  {
  }

  // ---------- compacting to a target level, then upgrading ----------

  /** The live files once the plan has run and the first n files are upgraded. */
  ghost function Stage(keep: Picked, made: seq<ParquetFile>, upgrade: Picked, target: Level, n: nat): set<ParquetFile>
    requires n <= |upgrade|
  {
    (set f | f in keep) + (set f | f in made) +
    (set u | u in upgrade[..n] :: u.(level := target)) + (set u | u in upgrade[n..])
  }

  /** A round: what was picked to compact, to upgrade and to keep is all that is live, and the plan compacts it. */
  ghost predicate IsRound(live: set<ParquetFile>, c: Commit, upgrade: Picked, keep: Picked) {
    && c.RunPlan? && Enabled(live, c) && c.plan.target != Initial
    && Separated(c.plan.Inputs(), upgrade, keep, c.plan.target)
    && (forall f :: f in c.plan.Inputs() ==> f.level.Rank() <= c.plan.target.Rank())
    && (forall f :: f in live <==> f in c.plan.Inputs() || f in upgrade || f in keep)
    && Fresh(live, Made(c))
  }

  ghost function States(
    live: set<ParquetFile>, made: seq<ParquetFile>, upgrade: Picked, keep: Picked,
    target: Level): (run: seq<set<ParquetFile>>)
  {
    [live] + seq(|upgrade| + 1, n requires 0 <= n <= |upgrade| => Stage(keep, made, upgrade, target, n))
  }

  ghost function Commits(c: Commit, upgrade: Picked, target: Level): (commits: seq<Commit>) {
    [c] + seq(|upgrade|, n requires 0 <= n < |upgrade| => Upgrade(upgrade[n], target))
  }

  /** Nothing picked to compact or upgrade is kept, and nothing is picked to do both. */
  lemma RoundDisjoint(live: set<ParquetFile>, c: Commit, upgrade: Picked, keep: Picked, f: ParquetFile)
    requires Valid(live) && IsRound(live, c, upgrade, keep)
    ensures f in c.plan.Inputs() ==> f !in upgrade && f !in keep
    ensures f in upgrade ==> f !in keep
  {
    hide MinTime, MaxTime, Writes, Fresh, Made;
    assert f in live ==> Ordered(f);
    if f in c.plan.Inputs() {
      assert !Clear(f, c.plan.Inputs());
    }
  }

  lemma AfterPlan(live: set<ParquetFile>, c: Commit, upgrade: Picked, keep: Picked)
    requires Valid(live) && IsRound(live, c, upgrade, keep)
    ensures Next(live, c) == Stage(keep, Made(c), upgrade, c.plan.target, 0)
  {
    hide Separated, Writes, Fresh, Valid, Made;
    assert upgrade[..0] == [] && upgrade[0..] == upgrade;
    forall f ensures f in live - Gone(c) <==> f in keep || f in upgrade {
      RoundDisjoint(live, c, upgrade, keep, f);
    }
  }

  lemma UpgradeDistinct(upgrade: Picked, n: nat)
    requires AllOrdered(upgrade) && PairwiseFree(upgrade) && n < |upgrade|
    ensures upgrade[n] !in upgrade[n + 1..]
  {
    var rest := upgrade[n + 1..];
    forall f | f in rest ensures f != upgrade[n] {
      var j :| n < j < |upgrade| && upgrade[j] == f;
      assert f in upgrade && !Overlaps(upgrade[n], f);
    }
  }

  /** The file to be upgraded next is gone afterwards. */
  lemma NotLeft(live: set<ParquetFile>, c: Commit, upgrade: Picked, keep: Picked, n: nat)
    requires Valid(live) && IsRound(live, c, upgrade, keep) && n < |upgrade|
    ensures upgrade[n] !in Stage(keep, Made(c), upgrade, c.plan.target, n + 1)
  {
    hide Writes, Clear, Gone, Made;
    var u := upgrade[n];
    assert u in upgrade && u in live && u.level == c.plan.target.Prev();
    RoundDisjoint(live, c, upgrade, keep, u);
    UpgradeDistinct(upgrade, n);
    assert u !in Made(c);
  }

  lemma StageStep(keep: Picked, made: seq<ParquetFile>, upgrade: Picked, target: Level, n: nat)
    requires n < |upgrade| && upgrade[n] !in Stage(keep, made, upgrade, target, n + 1)
    requires Valid(Stage(keep, made, upgrade, target, n))
    ensures Enabled(Stage(keep, made, upgrade, target, n), Upgrade(upgrade[n], target))
    ensures Next(Stage(keep, made, upgrade, target, n), Upgrade(upgrade[n], target)) ==
            Stage(keep, made, upgrade, target, n + 1)
  {
    hide Valid;
    var stage, next := Stage(keep, made, upgrade, target, n), Stage(keep, made, upgrade, target, n + 1);
    var u, up := upgrade[n], upgrade[n].(level := target);
    assert upgrade[n..] == [u] + upgrade[n + 1..] && upgrade[..n + 1] == upgrade[..n] + [u];
    UpgradeEnabled(stage, u, target);
    assert stage - {u} + {up} == next;
  }

  lemma UpgradeEnabled(stage: set<ParquetFile>, u: ParquetFile, target: Level)
    requires Valid(stage) && u in stage
    ensures Enabled(stage, Upgrade(u, target)) && Next(stage, Upgrade(u, target)) == stage - {u} + {u.(level := target)}
  {
    assert Made(Upgrade(u, target)) == [u.(level := target)];
  }

  /** Upgrading meets its guard: nothing else at the levels concerned overlaps the file, and what is above is older. */
  lemma UpgradeAllowed(live: set<ParquetFile>, c: Commit, upgrade: Picked, keep: Picked, n: nat, g: ParquetFile)
    requires Valid(live) && Ok(live) && IsRound(live, c, upgrade, keep) && n < |upgrade|
    requires g in Stage(keep, Made(c), upgrade, c.plan.target, n) && g != upgrade[n]
    ensures Allows(g, upgrade[n].minTime, upgrade[n].maxTime, c.plan.target, upgrade[n].maxL0CreatedAt)
  {
    hide Writes, Gone, Made, Ok, Valid, Fresh, Fits, MinTime, MaxTime, MaxL0;
    var u, target := upgrade[n], c.plan.target;
    assert u in upgrade && u in live;
    if g in keep {
      if Overlaps(u, g) && g.level.Rank() > target.Rank() {
        OverlapOlder(live, u, g);
      }
    } else if g in Made(c) {
      MadeInRange(live, c, g);
      assert Clear(u, c.plan.Inputs());
    } else if g in upgrade[n..] {
      var j :| n <= j < |upgrade| && upgrade[j] == g;
      assert !Overlaps(upgrade[n], upgrade[j]);
    } else {
      var v :| v in upgrade[..n] && g == v.(level := target);
      var j :| 0 <= j < n && upgrade[j] == v;
      assert !Overlaps(upgrade[j], upgrade[n]);
    }
  }

  lemma MadeInRange(live: set<ParquetFile>, c: Commit, g: ParquetFile)
    requires Valid(live) && c.RunPlan? && Enabled(live, c) && g in Made(c)
    ensures MinTime(c.plan.Inputs()) <= g.minTime && g.maxTime <= MaxTime(c.plan.Inputs())
  {
    hide Writes, Gone, Made, Valid, Fresh, MinTime, MaxTime, MaxL0;
    CommitFills(live, c);
    var i :| 0 <= i < |Made(c)| && Made(c)[i] == g;
  }

  lemma {:induction false} StageValid(live: set<ParquetFile>, c: Commit, upgrade: Picked, keep: Picked, n: nat)
    requires Valid(live) && IsRound(live, c, upgrade, keep) && n <= |upgrade|
    ensures Valid(Stage(keep, Made(c), upgrade, c.plan.target, n))
    decreases n
  {
    hide Valid, Writes, Gone, Made, Stage, Separated, Fresh;
    var target := c.plan.target;
    if n == 0 {
      CommitFills(live, c);
      NextIsValid(live, c);
      AfterPlan(live, c, upgrade, keep);
    } else {
      StageValid(live, c, upgrade, keep, n - 1);
      NotLeft(live, c, upgrade, keep, n - 1);
      StageStep(keep, Made(c), upgrade, target, n - 1);
      var up := Upgrade(upgrade[n - 1], target);
      CommitFills(Stage(keep, Made(c), upgrade, target, n - 1), up);
      NextIsValid(Stage(keep, Made(c), upgrade, target, n - 1), up);
    }
  }

  /** A round is a run of the catalog: the plan, then one upgrade after the other. It ends with the files kept, made and
      upgraded, and every upgrade meets its guard. */
  lemma RoundIsRun(live: set<ParquetFile>, c: Commit, upgrade: Picked, keep: Picked)
    requires Valid(live) && Ok(live) && IsRound(live, c, upgrade, keep)
    ensures
      var run, commits := States(live, Made(c), upgrade, keep, c.plan.target), Commits(c, upgrade, c.plan.target);
      && IsRun(run, commits) && run[0] == live && run[|upgrade| + 1] == After(keep, Made(c), upgrade, c.plan.target)
      && forall k :: 0 < k < |commits| ==> Guarded(run[k], commits[k])
  {
    hide Valid, Ok, IsRound, Gone, Made, Stage, Enabled, Next, Guarded, After;
    RoundEnds(live, c, upgrade, keep);
    var target := c.plan.target;
    var run, commits := States(live, Made(c), upgrade, keep, target), Commits(c, upgrade, target);
    forall k | 0 <= k < |commits|
      ensures Enabled(run[k], commits[k]) && run[k + 1] == Next(run[k], commits[k])
      ensures (k > 0 ==> Guarded(run[k], commits[k]))
    {
      if k > 0 {
        RoundStep(live, c, upgrade, keep, k - 1);
      }
    }
  }

  lemma RoundEnds(live: set<ParquetFile>, c: Commit, upgrade: Picked, keep: Picked)
    requires Valid(live) && IsRound(live, c, upgrade, keep)
    ensures c.RunPlan? && Enabled(live, c) && c.plan.Inputs() != [] && |c.ids| == |c.out|
    ensures Next(live, c) == Stage(keep, Made(c), upgrade, c.plan.target, 0)
    ensures Stage(keep, Made(c), upgrade, c.plan.target, |upgrade|) == After(keep, Made(c), upgrade, c.plan.target)
  {
    hide Valid, Separated, Writes, Fresh;
    AfterPlan(live, c, upgrade, keep);
    assert upgrade[..|upgrade|] == upgrade && upgrade[|upgrade|..] == [];
  }

  lemma RoundStep(live: set<ParquetFile>, c: Commit, upgrade: Picked, keep: Picked, n: nat)
    requires Valid(live) && Ok(live) && IsRound(live, c, upgrade, keep) && n < |upgrade|
    ensures
      var target, made := c.plan.target, Made(c);
      var stage, up := Stage(keep, made, upgrade, target, n), Upgrade(upgrade[n], target);
      && Enabled(stage, up) && Next(stage, up) == Stage(keep, made, upgrade, target, n + 1) && Guarded(stage, up)
  {
    hide Valid, Ok, Separated, Made, Stage, Fresh, Writes;
    StageValid(live, c, upgrade, keep, n);
    NotLeft(live, c, upgrade, keep, n);
    StageStep(keep, Made(c), upgrade, c.plan.target, n);
    forall g | g in Stage(keep, Made(c), upgrade, c.plan.target, n) && g != upgrade[n]
      ensures Allows(g, upgrade[n].minTime, upgrade[n].maxTime, c.plan.target, upgrade[n].maxL0CreatedAt)
    {
      UpgradeAllowed(live, c, upgrade, keep, n, g);
    }
  }

  /** So a round keeps the invariant throughout exactly when every file above the target level that lies in a gap of
      the compacted files is at most as new as the newest of them. */
  lemma RoundOkIff(live: set<ParquetFile>, c: Commit, upgrade: Picked, keep: Picked)
    requires Valid(live) && Ok(live) && IsRound(live, c, upgrade, keep)
    ensures
      var run := States(live, Made(c), upgrade, keep, c.plan.target);
      (forall k :: 0 <= k < |run| ==> Ok(run[k])) <==>
      forall g :: g in keep && g.level.Rank() > c.plan.target.Rank() && InGap(g, c.plan.Inputs()) ==>
        g.maxL0CreatedAt <= MaxL0(c.plan.Inputs())
  {
    hide Valid, Ok, IsRound, Gone, Made, Stage, Enabled, Next, Guarded, After, InGap, MaxL0;
    RoundEnds(live, c, upgrade, keep);
    RoundIsRun(live, c, upgrade, keep);
    var run, commits := States(live, Made(c), upgrade, keep, c.plan.target), Commits(c, upgrade, c.plan.target);
    RunOkIff(run, commits, |run| - 1);
    PlanGuardIff(live, c, upgrade, keep);
    assert run[0] == live && commits[0] == c;
    assert (forall k :: 0 <= k < |run| - 1 ==> Guarded(run[k], commits[k])) <==> Guarded(live, c);
  }

  lemma PlanGuardIff(live: set<ParquetFile>, c: Commit, upgrade: Picked, keep: Picked)
    requires Valid(live) && Ok(live) && IsRound(live, c, upgrade, keep)
    ensures Guarded(live, c) <==>
      forall g :: g in keep && g.level.Rank() > c.plan.target.Rank() && InGap(g, c.plan.Inputs()) ==>
        g.maxL0CreatedAt <= MaxL0(c.plan.Inputs())
  {
    hide Valid, Ok, Made, Writes, Fresh, InGap, MaxL0, MinTime, MaxTime, Allows, Separated;
    var inputs, target := c.plan.Inputs(), c.plan.target;
    forall f | f in inputs ensures f in live { assert f in Gone(c); }
    forall g | g in live - Gone(c)
      ensures Allows(g, Low(c), High(c), target, Age(c)) <==>
        (g in keep && g.level.Rank() > target.Rank() && InGap(g, inputs) ==> g.maxL0CreatedAt <= MaxL0(inputs))
    {
      if g.level.Rank() > target.Rank() {
        HigherKept(g, inputs, upgrade, keep, target);
        HigherInGap(live, c.plan, g);
      } else {
        LowerClear(g, inputs, upgrade, keep, target, Age(c));
      }
    }
    forall g | g in keep ensures g in live - Gone(c) { RoundDisjoint(live, c, upgrade, keep, g); }
  }

  lemma HigherKept(g: ParquetFile, inputs: Picked, upgrade: Picked, keep: Picked, target: Level)
    requires Separated(inputs, upgrade, keep, target) && g.level.Rank() > target.Rank() && (g in upgrade || g in keep)
    ensures g in keep
  {
  }

  lemma LowerClear(g: ParquetFile, inputs: Picked, upgrade: Picked, keep: Picked, target: Level, age: int)
    requires Separated(inputs, upgrade, keep, target) && g.level.Rank() <= target.Rank() && (g in upgrade || g in keep)
    requires inputs != []
    ensures Allows(g, MinTime(inputs), MaxTime(inputs), target, age)
  {
    assert Clear(g, inputs);
  }

  // ---------- compacting a part of the files ----------

  /** The files of a branch of which a part is compacted. */
  ghost predicate IsPart(live: set<ParquetFile>, c: Commit, keep: Picked) {
    && c.RunPlan? && Enabled(live, c) && c.plan.target != Initial && ChosenWell(c.plan.Inputs(), keep, c.plan.target)
    && (forall f :: f in c.plan.Inputs() || f in keep ==> f.level == c.plan.target || f.level == c.plan.target.Prev())
    && (forall f :: f in keep ==> f in live - Gone(c))
  }

  /** A kept L0 file in reach of the compacted ones is older than an L1 file it does not overlap. */
  ghost predicate Overtaken(g: ParquetFile, t: ParquetFile, compact: Picked, target: Level) {
    && t in compact && t.level == target && g.level != target && !Clear(g, compact)
    && !Overlaps(t, g) && g.maxL0CreatedAt < t.maxL0CreatedAt
  }

  lemma KeptAllows(live: set<ParquetFile>, c: Commit, keep: Picked, g: ParquetFile)
    requires Valid(live) && Ok(live) && IsPart(live, c, keep) && g in keep
    ensures Allows(g, Low(c), High(c), Target(c), Age(c)) <==>
      forall t :: t in c.plan.Inputs() ==> !Overtaken(g, t, c.plan.Inputs(), c.plan.target)
  {
    hide MinTime, MaxTime, MaxL0, Writes, Fresh, Ok, Valid;
    var inputs, target := c.plan.Inputs(), c.plan.target;
    if !Clear(g, inputs) {
      assert g.level == Initial && target == FileNonOverlapped;
      forall t | t in inputs && t.level == target && Overlaps(t, g) ensures t.maxL0CreatedAt <= g.maxL0CreatedAt {
        assert t in Gone(c);
        OverlapOlder(live, g, t);
      }
    }
  }

  /** Compacting the part picked keeps the invariant exactly when the files outside the branch allow it and, going to
      L1, no kept L0 file is overtaken by an L1 file that only the range of the others reached. */
  lemma LimitedOkIff(live: set<ParquetFile>, c: Commit, keep: Picked)
    requires Valid(live) && Ok(live) && IsPart(live, c, keep)
    ensures Ok(Next(live, c)) <==>
      && Guard(live - Gone(c) - (set g | g in keep), Low(c), High(c), Target(c), Age(c))
      && forall g, t :: g in keep && t in c.plan.Inputs() ==> !Overtaken(g, t, c.plan.Inputs(), c.plan.target)
  {
    hide Valid, Ok, Made, Writes, Fresh, Overtaken, MinTime, MaxTime, Allows, ChosenWell;
    CommitOkIff(live, c);
    forall g | g in keep
      ensures Allows(g, Low(c), High(c), Target(c), Age(c)) <==>
        forall t :: t in c.plan.Inputs() ==> !Overtaken(g, t, c.plan.Inputs(), c.plan.target)
    {
      KeptAllows(live, c, keep, g);
    }
  }

  /** Going to L2 no kept file is in reach, so only the files outside the branch count. */
  lemma LimitedFinalOkIff(live: set<ParquetFile>, c: Commit, keep: Picked)
    requires Valid(live) && Ok(live) && IsPart(live, c, keep) && c.plan.target == Final
    ensures Ok(Next(live, c)) <==> Guard(live - Gone(c) - (set g | g in keep), Low(c), High(c), Final, Age(c))
  {
    hide Valid, Ok, Made, Writes, Fresh, MinTime, MaxTime, Allows, Clear;
    LimitedOkIff(live, c, keep);
  }

  // ---------- where picking a part fails ----------

  const FIRST := ParquetFile(1, 0, 10, 1, 1, Initial, 1)
  const SECOND := ParquetFile(2, 20, 30, 1, 1, Initial, 2)
  const THIRD := ParquetFile(3, 5, 7, 1, 1, Initial, 3)
  const BETWEEN := ParquetFile(4, 12, 18, 1, 1, FileNonOverlapped, 100)

  lemma AroundReady()
    ensures Ok({FIRST, SECOND, THIRD, BETWEEN}) && Setting([FIRST, SECOND, THIRD], [BETWEEN], FileNonOverlapped)
  {
    var ordered := [FIRST, SECOND, THIRD];
    assert forall f :: f in ordered ==> f == FIRST || f == SECOND || f == THIRD;
  }

  lemma {:induction false} OneByteEach(files: Picked)
    requires forall f :: f in files ==> f.bytes == 1
    ensures TotalBytes(files) == |files|
  {
    if files != [] {
      OneByteEach(files[1..]);
    }
  }

  lemma AtMostOne(files: Picked, t: ParquetFile)
    requires DistinctIds(files) && forall f :: f in files ==> f == t
    ensures |files| <= 1 && (t in files ==> files == [t])
  {
    hide DistinctIds;
    if |files| > 1 {
      assert files[0] in files && files[1] in files;
      SamePlace(files, 0, 1);
    }
  }

  lemma AroundNotFull(m: nat, taken: Picked)
    requires m < 2 && DistinctIds(taken) && forall t :: t in taken ==> t == BETWEEN
    ensures !Full([FIRST, SECOND, THIRD], [BETWEEN], FileNonOverlapped, m, taken, 2, 100)
  {
    hide Reaches, TotalBytes;
    var ordered := [FIRST, SECOND, THIRD];
    forall along: Picked, k: nat
      | ComeAlong(ordered, [BETWEEN], m, taken, along) && DrawnIn(ordered, FileNonOverlapped, m, along, k)
      ensures TotalBytes(ordered[..k]) + TotalBytes(taken + along) <= 100
    {
      AtMostOne(taken, BETWEEN);
      AtMostOne(along, BETWEEN);
      OneByteEach(ordered[..k]);
      OneByteEach(taken + along);
    }
  }

  lemma AroundTaken(taken: Picked)
    requires Inv([FIRST, SECOND, THIRD], [BETWEEN], FileNonOverlapped, 2, taken)
    ensures taken == [BETWEEN]
  {
    assert [FIRST, SECOND, THIRD][..2] == [FIRST, SECOND] && [FIRST, SECOND][1..] == [SECOND];
    assert Reaches(BETWEEN, [FIRST, SECOND, THIRD], 2);
    assert BETWEEN in [BETWEEN];
    AtMostOne(taken, BETWEEN);
  }

  lemma AroundPicked(m: nat, taken: Picked)
    requires m <= 2 && Inv([FIRST, SECOND, THIRD], [BETWEEN], FileNonOverlapped, m, taken)
    requires Full([FIRST, SECOND, THIRD], [BETWEEN], FileNonOverlapped, m, taken, 2, 100)
    ensures m == 2 && taken == [BETWEEN]
  {
    hide Full, Reaches;
    if m < 2 {
      AroundNotFull(m, taken);
    }
    AroundTaken(taken);
  }

  lemma OneKept(a: Picked, t: ParquetFile, g: ParquetFile, keep: Picked)
    requires multiset(a + [t]) + multiset(keep) == multiset(a + [g]) + multiset([t])
    ensures keep == [g]
  {
    assert multiset(a + [t]) == multiset(a) + multiset([t]) && multiset(a + [g]) == multiset(a) + multiset([g]);
    assert multiset(keep) == multiset(a + [t]) + multiset(keep) - multiset(a + [t]);
    assert multiset(keep) == multiset([g]);
    assert |keep| == |multiset(keep)| == 1;
    assert keep[0] in multiset(keep);
  }

  lemma AroundKept(r: Limited)
    requires r.Chosen? && r.compact == [FIRST, SECOND, THIRD][..2] + [BETWEEN]
    requires AllThere(r, [FIRST, SECOND, THIRD], [BETWEEN])
    ensures r == Chosen([FIRST, SECOND, BETWEEN], [THIRD])
  {
    var two := [FIRST, SECOND];
    assert [FIRST, SECOND, THIRD] == two + [THIRD];
    OneKept(two, BETWEEN, THIRD, r.keep);
  }

  /** Going to L1 it can fail: the two oldest L0 files are picked, the L1 file between them comes along, and the third
      L0 file, kept for later, ends up below newer data. */
  method PickedAround() returns (r: Limited)
    ensures Ok({FIRST, SECOND, THIRD, BETWEEN}) && r == Chosen([FIRST, SECOND, BETWEEN], [THIRD])
    ensures Overtaken(THIRD, BETWEEN, r.Picks(), FileNonOverlapped)
  {
    hide Ok, Setting, Inv, Full, ChosenWell, TotalBytes, AllThere, Overtaken;
    AroundReady();
    ghost var m, taken;
    r, m, taken := PickPrefix(2, 100, [FIRST, SECOND, THIRD], [BETWEEN], FileNonOverlapped);
    AroundPicked(m, taken);
    AroundKept(r);
    AroundOvertaken();
  }

  lemma AroundOvertaken()
    ensures Overtaken(THIRD, BETWEEN, [FIRST, SECOND, BETWEEN], FileNonOverlapped)
  {
    hide MinTime, MaxTime;
    assert FIRST in [FIRST, SECOND, BETWEEN] && SECOND in [FIRST, SECOND, BETWEEN];
    assert [FIRST, SECOND, BETWEEN][2] == BETWEEN;
  }
}
