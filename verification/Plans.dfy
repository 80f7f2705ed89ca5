/** Compaction plans: how they are made from the files picked, what they read, and what running them writes. */
module Plans {
  import opened Wrappers
  import opened ParquetFiles
  import opened TimeSplit

  datatype Plan =
    | Compact(files: seq<ParquetFile>, target: Level)
    | Split(files: seq<ParquetFile>, times: seq<int>, target: Level)
    | NoPlan
  {
    function Inputs(): seq<ParquetFile> { if NoPlan? then [] else files }

    function OutputCount(): nat {
      match this
      case Compact(_, _) => 1
      case Split(_, times, _) => |times| + 1
      case NoPlan => 0
    }

    /** A compaction into one file is a split at no time. */
    function Times(): seq<int> { if Split? then times else [] }
  }

  /** A file to be created: its data, the age of the newest data in it, where it is stored, and its partition. */
  datatype FileParams = FileParams(file: SimulatedFile, maxL0CreatedAt: int, objectStoreId: nat, partition: nat)

  function Files(params: seq<FileParams>): (files: seq<SimulatedFile>)
    ensures |files| == |params| && forall i :: 0 <= i < |params| ==> files[i] == params[i].file
  {
    seq(|params|, i requires 0 <= i < |params| => params[i].file)
  }

  /** What a plan may write: its pieces tile the hull of its inputs, hold all their bytes and rows, are at the
      target level and as new as the newest input. */
  ghost predicate Writes(p: Plan, out: seq<FileParams>)
    requires p.Inputs() != []
  {
    && |out| == p.OutputCount()
    && Tiles(Files(out), MinTime(p.Inputs()), MaxTime(p.Inputs()))
    && PieceBytes(Files(out)) == TotalBytes(p.Inputs()) && PieceRows(Files(out)) == TotalRows(p.Inputs())
    && forall i :: 0 <= i < |out| ==> out[i].maxL0CreatedAt == MaxL0(p.Inputs()) && out[i].file.level == p.target
  }

  /** Split times inside the time range lo..hi, in ascending order. */
  ghost predicate Inside(times: seq<int>, lo: int, hi: int) {
    && (forall i :: 0 <= i < |times| ==> lo <= times[i] < hi)
    && (forall i, j :: 0 <= i < j < |times| ==> times[i] < times[j])
  }

  /** Such times are accepted, unless the first one is not positive. */
  lemma InsideAccepted(times: seq<int>, lo: int, hi: int)
    requires Inside(times, lo, hi)
    ensures Accepted(times, hi) <==> times == [] || 0 < times[0]
  {
    if times != [] {
      assert Accepted(times, hi) ==> TimeOk(times, 0, hi);
    }
  }

  /** All pieces but the last hold their shares, and together they hold the totals. */
  ghost predicate HoldShares(out: seq<SimulatedFile>, p: Plan, share: Share)
    requires p.Inputs() != []
  {
    var n, whole := |p.Times()|, MaxTime(p.Inputs()) - MinTime(p.Inputs()) + 1;
    && n <= |out| && Shares(out, n, TotalBytes(p.Inputs()), TotalRows(p.Inputs()), whole, p.target, share)
    && PieceBytes(out) == TotalBytes(p.Inputs()) && PieceRows(out) == TotalRows(p.Inputs())
  }

  /** Runs a plan in the simulator. */
  method Simulate(p: Plan, share: Share, partition: nat, newId: nat -> nat) returns (r: Result<seq<FileParams>, string>)
    requires forall f :: f in p.Inputs() ==> Ordered(f)
    ensures r.Success? <==> p.Inputs() != [] && Accepted(p.Times(), MaxTime(p.Inputs()))
    ensures r.Success? ==> (Writes(p, r.value) <==> p.Times() == [] || MinTime(p.Inputs()) <= p.Times()[0])
    // the pieces end at the split times and hold their shares, whether they tile the hull or not
    ensures r.Success? ==>
      Follows(Files(r.value), p.Times(), MinTime(p.Inputs()), MaxTime(p.Inputs()), p.target) &&
      HoldShares(Files(r.value), p, share)
    ensures r.Success? ==> forall i :: 0 <= i < |r.value| ==>
      && r.value[i].maxL0CreatedAt == MaxL0(p.Inputs())
      && r.value[i].objectStoreId == newId(i) && r.value[i].partition == partition
  {
    hide Accepted, Tiles, Shares, PieceBytes, PieceRows, TotalBytes, TotalRows, MinTime, MaxTime, Writes, Follows;
    if p.Inputs() == [] {
      return Failure("max_l0_created_at should have value");
    }
    var newest := MaxL0(p.Inputs());
    var split := EvenTimeSplit(p.Inputs(), p.Times(), p.target, share);
    if split.Failure? {
      return Failure(split.error);
    }
    var files := split.value;
    var out := seq(|files|, i requires 0 <= i < |files| => FileParams(files[i], newest, newId(i), partition));
    assert Files(out) == files;
    HullOrdered(p.Inputs());
    FollowsLength(files, p.Times(), MinTime(p.Inputs()), MaxTime(p.Inputs()), p.target);
    SplitTiles(files, p.Times(), MinTime(p.Inputs()), MaxTime(p.Inputs()), p.target);
    WritesIff(p, out);
    return Success(out);
  }

  lemma FollowsLength(out: seq<SimulatedFile>, times: seq<int>, lo: int, hi: int, target: Level)
    requires Follows(out, times, lo, hi, target)
    ensures |out| == |times| + 1 && forall i :: 0 <= i < |out| ==> out[i].level == target
  {
  }

  lemma WritesIff(p: Plan, out: seq<FileParams>)
    requires p.Inputs() != [] && |out| == |p.Times()| + 1
    requires PieceBytes(Files(out)) == TotalBytes(p.Inputs()) && PieceRows(Files(out)) == TotalRows(p.Inputs())
    requires forall i :: 0 <= i < |out| ==> out[i].maxL0CreatedAt == MaxL0(p.Inputs()) && out[i].file.level == p.target
    ensures Writes(p, out) <==> Tiles(Files(out), MinTime(p.Inputs()), MaxTime(p.Inputs()))
  {
    hide Tiles, PieceBytes, PieceRows, TotalBytes, TotalRows, MinTime, MaxTime, MaxL0;
  }

  lemma HullOrdered(files: seq<ParquetFile>)
    requires files != [] && forall f :: f in files ==> Ordered(f)
    ensures MinTime(files) <= MaxTime(files)
  {
    assert files[0] in files;
  }

  // ---------- the split times of a file ----------

  ghost predicate Ascending(times: seq<int>) {
    forall i, j :: 0 <= i < j < |times| ==> times[i] < times[j]
  }

  /** The split times that cut the file, in their order. */
  function OwnTimes(f: ParquetFile, times: seq<int>): (own: seq<int>)
    ensures forall t :: t in own <==> t in times && Cuts(t, f.minTime, f.maxTime)
  {
    if times == [] then []
    else
      var last := times[|times| - 1];
      assert times == times[..|times| - 1] + [last];
      OwnTimes(f, times[..|times| - 1]) + (if last >= f.minTime && last < f.maxTime then [last] else [])
  }

  lemma OwnIffCut(f: ParquetFile, times: seq<int>)
    ensures OwnTimes(f, times) != [] <==> SomeCut(times, f.minTime, f.maxTime)
  {
    var own := OwnTimes(f, times);
    if own != [] {
      assert own[0] in own;
      var i :| 0 <= i < |times| && times[i] == own[0];
      assert Cuts(times[i], f.minTime, f.maxTime);
    }
    if SomeCut(times, f.minTime, f.maxTime) {
      var i :| 0 <= i < |times| && Cuts(times[i], f.minTime, f.maxTime);
      assert times[i] in own;
    }
  }

  /** The split times of a file are ascending and inside its range, as running the plan demands. */
  lemma {:induction false} OwnTimesInside(f: ParquetFile, times: seq<int>)
    requires Ascending(times)
    ensures Inside(OwnTimes(f, times), f.minTime, f.maxTime)
  {
    var own := OwnTimes(f, times);
    if times == [] {
    } else {
      var before, last := times[..|times| - 1], times[|times| - 1];
      var rest := OwnTimes(f, before);
      OwnTimesInside(f, before);
      forall i | 0 <= i < |rest| ensures rest[i] < last {
        assert rest[i] in rest && rest[i] in before;
      }
      AppendInside(rest, last, f.minTime, f.maxTime);
    }
  }

  lemma AppendInside(times: seq<int>, t: int, lo: int, hi: int)
    requires Inside(times, lo, hi) && forall i :: 0 <= i < |times| ==> times[i] < t
    ensures Inside(times + [], lo, hi) && (lo <= t < hi ==> Inside(times + [t], lo, hi))
  {
    assert times + [] == times;
  }

  // ---------- planning ----------

  datatype FileToSplit = FileToSplit(file: ParquetFile, times: seq<int>)

  datatype Work =
    | NoWork
    | SplitFiles(splits: seq<FileToSplit>)
    | CompactFiles(compact: seq<ParquetFile>, manySmall: bool)
  {
    function Files(): (files: seq<ParquetFile>) {
      match this
      case NoWork => []
      case SplitFiles(splits) => seq(|splits|, i requires 0 <= i < |splits| => splits[i].file)
      case CompactFiles(files, _) => files
    }
  }

  function AllInputs(plans: seq<Plan>): (files: seq<ParquetFile>) {
    if plans == [] then [] else AllInputs(plans[..|plans| - 1]) + plans[|plans| - 1].Inputs()
  }

  /** Some chunk has data between lo and hi. */
  ghost predicate Present(chunks: seq<ParquetFile>, lo: int, hi: int) {
    exists i :: 0 <= i < |chunks| && Touches(chunks[i], lo, hi)
  }

  predicate Touches(f: ParquetFile, lo: int, hi: int) {
    f.maxTime >= lo && f.minTime <= hi
  }

  /** For a file and a range that hold something, it means that they share an instant. */
  lemma TouchesMeansShared(f: ParquetFile, lo: int, hi: int)
    requires Ordered(f) && lo <= hi
    ensures Touches(f, lo, hi) <==> exists t: int :: lo <= t <= hi && Holds(f, t)
  {
    if Touches(f, lo, hi) {
      var t := if f.minTime <= lo then lo else f.minTime;
      assert lo <= t <= hi && Holds(f, t);
    }
  }

  method TimeRangePresent(chunks: seq<ParquetFile>, lo: int, hi: int) returns (r: bool)
    ensures r <==> Present(chunks, lo, hi)
  {
    for i := 0 to |chunks|
      invariant forall j :: 0 <= j < i ==> !Touches(chunks[j], lo, hi)
    {
      if Touches(chunks[i], lo, hi) {
        return true;
      }
    }
    return false;
  }

  /** The times before the first cut start at lo. */
  function Previous(times: seq<int>, i: nat, lo: int): int
    requires i <= |times|
  {
    if i == 0 then lo else times[i - 1]
  }

  /** A cut comes at the end of an interval that holds data, and a piece is longer than the interval only when
      nothing lies before that interval. */
  ghost predicate GoodCut(chunks: seq<ParquetFile>, times: seq<int>, i: nat, lo: int, interval: int)
    requires i < |times|
  {
    && Present(chunks, times[i] - interval, times[i])
    && Previous(times, i, lo) + interval <= times[i]
    && (Previous(times, i, lo) + interval < times[i] ==> !Present(chunks, Previous(times, i, lo), times[i] - interval))
  }

  /** The quotient, rounded up. */
  function RoundUp(x: int, y: int): (q: int)
    requires x > 0 && y > 0
    ensures q > 0 && (q - 1) * y < x <= q * y
  {
    RoundedUp(x, y);
    (x + y - 1) / y
  }

  lemma RoundedUp(x: int, y: int)
    requires x > 0 && y > 0
    ensures
      var q := (x + y - 1) / y;
      q > 0 && (q - 1) * y < x <= q * y
  {
    var q, m := (x + y - 1) / y, (x + y - 1) % y;
    assert q * y + m == x + y - 1;
    assert (q - 1) * y == q * y - y;
    if q <= 0 {
      NotLess(q, 0, y);
    }
  }

  /** The share of the time range that holds the desired bytes when the data is spread evenly, rounded up. */
  function Interval(lo: int, hi: int, bytes: int, desired: int): (r: int)
    requires lo < hi && 0 < desired < bytes
    ensures r > 0 && (r - 1) * bytes < (hi - lo) * desired <= r * bytes
  {
    StrictScaled(0, hi - lo, desired);
    RoundUp((hi - lo) * desired, bytes)
  }

  lemma NotLess(a: int, b: int, c: int)
    requires a <= b && c >= 0
    ensures a * c <= b * c
  {
  }

  /** Cuts that many intervals apart are fewer than the desired bytes go into the total. */
  lemma FewCuts(n: nat, range: int, interval: int, bytes: int, desired: int)
    requires range > 0 && bytes > 0 && interval * bytes >= range * desired && n * interval < range
    ensures n * desired < bytes
  {
    var a, b, c := n * (range * desired), n * (interval * bytes), range * bytes;
    NotLess(range * desired, interval * bytes, n);
    assert a <= b;
    StrictScaled(n * interval, range, bytes);
    assert b == n * interval * bytes < c;
    assert a == (n * desired) * range;
    if n * desired >= bytes {
      NotLess(bytes, n * desired, range);
    }
  }

  lemma StrictScaled(a: int, b: int, c: int)
    requires a < b && c > 0
    ensures a * c < b * c
  {
  }

  /** n times x. */
  ghost function Multiple(n: nat, x: int): int {
    if n == 0 then 0 else Multiple(n - 1, x) + x
  }

  lemma {:induction false} MultipleIsProduct(n: nat, x: int)
    ensures Multiple(n, x) == n * x
  {
    if n > 0 {
      MultipleIsProduct(n - 1, x);
    }
  }

  /** A whole number of intervals behind the start. */
  ghost function Tick(lo: int, interval: int, k: nat): int {
    lo + Multiple(k, interval)
  }

  lemma TickIs(lo: int, interval: int, k: nat)
    ensures Tick(lo, interval, k) == lo + k * interval
  {
    MultipleIsProduct(k, interval);
  }

  lemma {:induction false} TickGrows(lo: int, interval: int, j: nat, k: nat)
    requires interval > 0 && j <= k
    ensures Tick(lo, interval, j) <= Tick(lo, interval, k) && (j < k ==> Tick(lo, interval, j) < Tick(lo, interval, k))
    decreases k
  {
    if j < k {
      TickGrows(lo, interval, j, k - 1);
    }
  }

  /** A time to cut at: a tick before the end with data in the interval up to it. */
  ghost predicate CutAt(chunks: seq<ParquetFile>, lo: int, hi: int, interval: int, t: int) {
    t < hi && TickWithData(chunks, lo, interval, t)
  }

  ghost predicate TickWithData(chunks: seq<ParquetFile>, lo: int, interval: int, t: int) {
    Present(chunks, t - interval, t) && exists k: nat :: k > 0 && t == Tick(lo, interval, k)
  }

  /** Steps through the time range at the interval and cuts after every stretch that holds data. */
  method StepTimes(chunks: seq<ParquetFile>, lo: int, hi: int, interval: int) returns (times: seq<int>)
    requires lo < hi && interval > 0 && forall f :: f in chunks ==> Ordered(f)
    ensures Inside(times, lo, hi) && Multiple(|times|, interval) < hi - lo
    ensures forall t :: t in times <==> CutAt(chunks, lo, hi, interval, t)
    ensures forall i :: 0 <= i < |times| ==> GoodCut(chunks, times, i, lo, interval)
  {
    hide GoodCut, Present, CutsUpTo, Tick, CutAt;
    times := [];
    var min := lo;
    ghost var k := 0;
    NoCuts(chunks, lo, interval);
    while min + interval < hi
      invariant lo <= min < hi && Previous(times, |times|, lo) <= min && lo + Multiple(|times|, interval) <= min
      invariant forall i :: 0 <= i < |times| ==> lo <= times[i] <= min
      invariant forall i, j :: 0 <= i < j < |times| ==> times[i] < times[j]
      invariant Previous(times, |times|, lo) < min ==> !Present(chunks, Previous(times, |times|, lo), min)
      invariant forall i :: 0 <= i < |times| ==> GoodCut(chunks, times, i, lo, interval)
      invariant min == Tick(lo, interval, k) && CutsUpTo(chunks, lo, interval, times, k)
      decreases hi - min
    {
      var t := min + interval;
      var present := TimeRangePresent(chunks, min, t);
      CutsStep(chunks, lo, interval, times, k);
      if present {
        CutAdded(chunks, times, lo, interval, t);
        times := times + [t];
      } else {
        StretchGrows(chunks, Previous(times, |times|, lo), min, t);
      }
      min, k := t, k + 1;
    }
    AllCuts(chunks, lo, hi, interval, times, k);
  }

  /** The cuts up to tick k. */
  ghost predicate CutsUpTo(chunks: seq<ParquetFile>, lo: int, interval: int, times: seq<int>, k: nat) {
    forall t :: t in times <==> TickWithData(chunks, lo, interval, t) && t <= Tick(lo, interval, k)
  }

  lemma NoCuts(chunks: seq<ParquetFile>, lo: int, interval: int)
    requires interval > 0
    ensures CutsUpTo(chunks, lo, interval, [], 0) && Tick(lo, interval, 0) == lo
  {
    hide Present;
    forall t ensures !(TickWithData(chunks, lo, interval, t) && t <= Tick(lo, interval, 0)) {
      NoTickBetween(lo, interval, 0, t);
    }
  }

  /** A tick not behind tick k is one up to k. */
  lemma NoTickBetween(lo: int, interval: int, k: nat, t: int)
    requires interval > 0
    ensures forall j: nat :: t == Tick(lo, interval, j) ==> (t <= Tick(lo, interval, k) <==> j <= k)
  {
    hide Tick;
    forall j: nat | t == Tick(lo, interval, j) ensures t <= Tick(lo, interval, k) <==> j <= k {
      if j <= k {
        TickGrows(lo, interval, j, k);
      } else {
        TickGrows(lo, interval, k, j);
      }
    }
  }

  lemma CutsStep(chunks: seq<ParquetFile>, lo: int, interval: int, times: seq<int>, k: nat)
    requires interval > 0 && CutsUpTo(chunks, lo, interval, times, k)
    ensures Tick(lo, interval, k + 1) == Tick(lo, interval, k) + interval
    ensures
      var t := Tick(lo, interval, k) + interval;
      CutsUpTo(chunks, lo, interval, if Present(chunks, t - interval, t) then times + [t] else times, k + 1)
  {
    var next := Tick(lo, interval, k + 1);
    assert next == Tick(lo, interval, k) + interval;
    hide Present, Tick;
    forall t ensures TickWithData(chunks, lo, interval, t) && t <= next <==>
      (TickWithData(chunks, lo, interval, t) && t <= Tick(lo, interval, k)) ||
      (t == next && Present(chunks, next - interval, next))
    {
      NoTickBetween(lo, interval, k, t);
      NoTickBetween(lo, interval, k + 1, t);
    }
  }

  lemma AllCuts(chunks: seq<ParquetFile>, lo: int, hi: int, interval: int, times: seq<int>, k: nat)
    requires interval > 0 && CutsUpTo(chunks, lo, interval, times, k)
    requires Tick(lo, interval, k) < hi <= Tick(lo, interval, k) + interval
    ensures forall t :: t in times <==> CutAt(chunks, lo, hi, interval, t)
  {
    assert Tick(lo, interval, k + 1) == Tick(lo, interval, k) + interval;
    hide Present, Tick;
    forall t ensures t in times <==> CutAt(chunks, lo, hi, interval, t) {
      NoTickBetween(lo, interval, k, t);
      NoTickBetween(lo, interval, k + 1, t);
    }
  }

  /** Cuts the time range at the interval that holds the desired bytes. */
  method ComputeSplitTimes(chunks: seq<ParquetFile>, lo: int, hi: int, bytes: int, desired: int)
    returns (times: seq<int>)
    requires lo <= hi && desired > 0 && forall f :: f in chunks ==> Ordered(f)
    ensures bytes <= desired || lo == hi ==> times == [hi]
    ensures bytes > desired && lo < hi ==> Inside(times, lo, hi) && |times| * desired < bytes
    ensures bytes > desired && lo < hi ==>
      forall i :: 0 <= i < |times| ==> GoodCut(chunks, times, i, lo, Interval(lo, hi, bytes, desired))
    ensures bytes > desired && lo < hi ==>
      forall t :: t in times <==> CutAt(chunks, lo, hi, Interval(lo, hi, bytes, desired), t)
  {
    if bytes <= desired || lo == hi {
      return [hi];
    }
    hide Interval, GoodCut, Multiple, Inside, CutAt;
    var interval := Interval(lo, hi, bytes, desired);
    times := StepTimes(chunks, lo, hi, interval);
    MultipleIsProduct(|times|, interval);
    FewCuts(|times|, hi - lo, interval, bytes, desired);
  }

  lemma StretchGrows(chunks: seq<ParquetFile>, lo: int, mid: int, hi: int)
    requires lo <= mid < hi && forall f :: f in chunks ==> Ordered(f)
    requires (lo < mid ==> !Present(chunks, lo, mid)) && !Present(chunks, mid, hi)
    ensures !Present(chunks, lo, hi)
  {
    forall i | 0 <= i < |chunks| ensures !Touches(chunks[i], lo, hi) {
      assert chunks[i] in chunks && !Touches(chunks[i], mid, hi);
      assert lo < mid ==> !Touches(chunks[i], lo, mid);
    }
  }

  lemma CutAdded(chunks: seq<ParquetFile>, times: seq<int>, lo: int, interval: int, t: int)
    requires Present(chunks, t - interval, t) && Previous(times, |times|, lo) + interval <= t
    requires Previous(times, |times|, lo) + interval < t ==>
      !Present(chunks, Previous(times, |times|, lo), t - interval)
    requires forall i :: 0 <= i < |times| ==> GoodCut(chunks, times, i, lo, interval)
    ensures forall i :: 0 <= i <= |times| ==> GoodCut(chunks, times + [t], i, lo, interval)
  {
    forall i | 0 <= i <= |times| ensures GoodCut(chunks, times + [t], i, lo, interval) {
      assert i == |times| || GoodCut(chunks, times, i, lo, interval);
    }
  }

  /** What the planner is configured with. Up to the small cut-off all goes into one file, up to the large one into
      two. */
  datatype Config = Config(desiredBytes: nat, percentageMax: nat, splitPercentage: nat)
  {
    function SmallCutoff(): nat { desiredBytes * percentageMax / 100 }

    function LargeCutoff(): nat { desiredBytes * (100 + percentageMax) / 100 }
  }

  /** The small cut-off is the percentage of the desired size, rounded down, and the large one lies above the desired
      size by as much. */
  lemma CutoffsAre(cfg: Config)
    ensures 100 * cfg.SmallCutoff() <= cfg.desiredBytes * cfg.percentageMax < 100 * (cfg.SmallCutoff() + 1)
    ensures cfg.LargeCutoff() == cfg.desiredBytes + cfg.SmallCutoff()
  {
    var d, p := cfg.desiredBytes, cfg.percentageMax;
    assert d * (100 + p) == 100 * d + d * p;
    assert (100 * d + d * p) / 100 == d + d * p / 100;
  }

  /** Files are compacted into their own level or the next one, never across more levels. */
  predicate Adjacent(level: Level, target: Level) {
    level == target || level.Next() == target
  }

  lemma AdjacentIff(level: Level, target: Level)
    ensures Adjacent(level, target) <==> level.Rank() <= target.Rank() <= level.Rank() + 1
  {
  }

  /** Up to the small cut-off, or for many small files, the output is not cut; up to the large one it is cut at one time
      at most; and beyond that at every tick of the interval that holds data. */
  ghost predicate CutsOutput(files: seq<ParquetFile>, manySmall: bool, cfg: Config, times: seq<int>)
    requires files != [] && cfg.desiredBytes > 0
  {
    var bytes, lo, hi := TotalBytes(files), MinTime(files), MaxTime(files);
    if manySmall || bytes <= cfg.SmallCutoff() then times == []
    else if bytes <= cfg.LargeCutoff() then times == OneCut(lo, hi, cfg.splitPercentage)
    else bytes > cfg.desiredBytes && ManyCuts(files, lo, hi, bytes, cfg.desiredBytes, times)
  }

  /** One file if the total is small or the files are many and small, two if it is middling, more if it is large. */
  method CompactPlan(files: seq<ParquetFile>, manySmall: bool, target: Level, cfg: Config) returns (p: Plan)
    requires files != [] && forall f :: f in files ==> Ordered(f) && Adjacent(f.level, target)
    requires cfg.splitPercentage <= 100 && cfg.desiredBytes > 0
    ensures !p.NoPlan? && p.Inputs() == files && p.target == target && (p.Split? <==> p.Times() != [])
    ensures Inside(p.Times(), MinTime(files), MaxTime(files)) && CutsOutput(files, manySmall, cfg, p.Times())
    ensures TotalBytes(files) > cfg.desiredBytes ==>
      p.OutputCount() <= 2 || (p.OutputCount() - 1) * cfg.desiredBytes < TotalBytes(files)
  {
    hide Inside, CutAt, Interval, TotalBytes, MinTime, MaxTime, OneCut, ManyCuts;
    var bytes := TotalBytes(files);
    var lo, hi := MinTime(files), MaxTime(files);
    HullOrdered(files);
    NoTimesInside(lo, hi);
    LargeAboveDesired(cfg);
    if bytes <= cfg.SmallCutoff() || manySmall {
      return Compact(files, target);
    }
    var times := OutputTimes(files, lo, hi, bytes, cfg);
    if times == [] || (|times| == 1 && times[0] == hi) {
      return Compact(files, target);
    }
    return Split(files, times, target);
  }

  /** Where to cut the output when it does not go into one file. */
  method OutputTimes(files: seq<ParquetFile>, lo: int, hi: int, bytes: int, cfg: Config) returns (times: seq<int>)
    requires lo <= hi && cfg.splitPercentage <= 100 && cfg.desiredBytes > 0 && forall f :: f in files ==> Ordered(f)
    ensures
      var cuts := if |times| == 1 && times[0] == hi then [] else times;
      && Inside(cuts, lo, hi)
      && (bytes <= cfg.LargeCutoff() ==> cuts == OneCut(lo, hi, cfg.splitPercentage))
      && (bytes > cfg.LargeCutoff() ==>
            bytes > cfg.desiredBytes && ManyCuts(files, lo, hi, bytes, cfg.desiredBytes, cuts))
      && (bytes > cfg.desiredBytes ==> |cuts| <= 1 || |cuts| * cfg.desiredBytes < bytes)
  {
    hide Inside, CutAt, Interval;
    NoTimesInside(lo, hi);
    LargeAboveDesired(cfg);
    if bytes <= cfg.LargeCutoff() {
      times := [lo + (hi - lo) * cfg.splitPercentage / 100];
      PercentWithin(hi - lo, cfg.splitPercentage);
      OneTimeInside(times[0], lo, hi);
    } else {
      times := ComputeSplitTimes(files, lo, hi, bytes, cfg.desiredBytes);
      if lo < hi {
        BeforeEnd(times, lo, hi);
      }
    }
  }

  lemma BeforeEnd(times: seq<int>, lo: int, hi: int)
    requires Inside(times, lo, hi)
    ensures |times| == 1 ==> times[0] != hi
  {
  }

  /** The time at the given share of the range, unless that is its end. */
  function OneCut(lo: int, hi: int, percentage: nat): seq<int> {
    var t := lo + (hi - lo) * percentage / 100;
    if t == hi then [] else [t]
  }

  /** All cuts at the interval that holds the desired bytes, and no others. */
  ghost predicate ManyCuts(files: seq<ParquetFile>, lo: int, hi: int, bytes: int, desired: int, times: seq<int>)
    requires 0 < desired < bytes
  {
    if lo >= hi then times == []
    else forall t :: t in times <==> CutAt(files, lo, hi, Interval(lo, hi, bytes, desired), t)
  }

  lemma NoTimesInside(lo: int, hi: int)
    ensures Inside([], lo, hi)
  {
  }

  lemma OneTimeInside(t: int, lo: int, hi: int)
    requires lo <= t <= hi
    ensures t != hi ==> Inside([t], lo, hi)
  {
  }

  lemma LargeAboveDesired(cfg: Config)
    ensures cfg.LargeCutoff() >= cfg.desiredBytes && cfg.LargeCutoff() >= cfg.SmallCutoff()
  {
    var d, p := cfg.desiredBytes, cfg.percentageMax;
    assert d * (100 + p) == d * 100 + d * p;
  }

  lemma PercentWithin(range: nat, percentage: nat)
    requires percentage <= 100
    ensures 0 <= range * percentage / 100 <= range
  {
    assert range * percentage <= range * 100;
  }

  /** One plan for every file, which stays at its own level. */
  method SplitPlans(splits: seq<FileToSplit>) returns (plans: seq<Plan>)
    ensures AllInputs(plans) == SplitFiles(splits).Files() && |plans| == |splits|
    ensures forall i :: 0 <= i < |plans| ==> plans[i] == Split([splits[i].file], splits[i].times, splits[i].file.level)
  {
    ghost var files := SplitFiles(splits).Files();
    plans := [];
    for i := 0 to |splits|
      invariant |plans| == i && AllInputs(plans) == files[..i]
      invariant forall j :: 0 <= j < i ==> plans[j] == Split([splits[j].file], splits[j].times, splits[j].file.level)
    {
      var p := Split([splits[i].file], splits[i].times, splits[i].file.level);
      assert (plans + [p])[..i] == plans;
      assert files[..i + 1] == files[..i] + [splits[i].file];
      plans := plans + [p];
    }
  }

  /** One plan for all files to compact, one for every file to split at its own level, or one that does nothing. */
  method CreatePlans(work: Work, target: Level, cfg: Config) returns (plans: seq<Plan>)
    requires work.CompactFiles? ==> work.compact != [] && forall f :: f in work.compact ==> Adjacent(f.level, target)
    requires forall f :: f in work.Files() ==> Ordered(f)
    requires cfg.splitPercentage <= 100 && cfg.desiredBytes > 0
    ensures AllInputs(plans) == work.Files()
    ensures plans == [] <==> work.SplitFiles? && work.splits == []
    ensures !work.SplitFiles? ==> |plans| == 1 && (plans[0].NoPlan? <==> work.NoWork?)
    ensures work.CompactFiles? ==>
      && plans[0].target == target && (plans[0].Split? <==> plans[0].Times() != [])
      && Inside(plans[0].Times(), MinTime(work.compact), MaxTime(work.compact))
      && CutsOutput(work.compact, work.manySmall, cfg, plans[0].Times())
    ensures work.SplitFiles? ==> |plans| == |work.splits| && forall i :: 0 <= i < |plans| ==>
      plans[i] == Split([work.splits[i].file], work.splits[i].times, work.splits[i].file.level)
  {
    hide Inside, CutsOutput;
    match work
    case NoWork =>
      plans := [NoPlan];
      assert AllInputs(plans[..0]) == [];
    case CompactFiles(files, manySmall) =>
      var p := CompactPlan(files, manySmall, target, cfg);
      plans := [p];
      assert AllInputs(plans[..0]) == [];
    case SplitFiles(splits) =>
      plans := SplitPlans(splits);
  }
}
