/** Cutting the data of a group of files at given times, with bytes and rows shared out over the pieces. */
module TimeSplit {
  import opened Wrappers
  import opened ParquetFiles

  /** The part of a file that is simulated. */
  datatype SimulatedFile = SimulatedFile(minTime: int, maxTime: int, bytes: int, rows: int, level: Level)

  function PieceBytes(out: seq<SimulatedFile>): int {
    if out == [] then 0 else PieceBytes(out[..|out| - 1]) + out[|out| - 1].bytes
  }

  function PieceRows(out: seq<SimulatedFile>): int {
    if out == [] then 0 else PieceRows(out[..|out| - 1]) + out[|out| - 1].rows
  }

  /** What the checking loop asks of a split time. It compares the first one with zero, not with the least
      instant of the files. */
  ghost predicate TimeOk(times: seq<int>, i: int, hi: int)
    requires 0 <= i < |times|
  {
    (if i == 0 then 0 else times[i - 1]) < times[i] < hi
  }

  ghost predicate Accepted(times: seq<int>, hi: int) {
    forall i :: 0 <= i < |times| ==> TimeOk(times, i, hi)
  }

  /** The pieces follow the split times, each the last instant of its left piece, from lo up to hi. */
  ghost predicate Follows(out: seq<SimulatedFile>, times: seq<int>, lo: int, hi: int, target: Level) {
    && |out| == |times| + 1
    && out[0].minTime == lo && out[|times|].maxTime == hi
    && (forall i :: 0 <= i < |times| ==> out[i].maxTime == times[i])
    && (forall i :: 0 < i <= |times| ==> out[i].minTime == times[i - 1] + 1)
    && (forall i :: 0 <= i < |out| ==> out[i].level == target)
  }

  /** The share of a total that goes to a piece of the given width, however it is rounded. */
  type Share = (int, int, int) -> int

  method CheckTimes(times: seq<int>, hi: int) returns (ok: bool)
    ensures ok <==> Accepted(times, hi)
  {
    var last := 0;
    for i := 0 to |times|
      invariant last == if i == 0 then 0 else times[i - 1]
      invariant forall j :: 0 <= j < i ==> TimeOk(times, j, hi)
    {
      if !(times[i] > last) || !(times[i] < hi) {
        assert !TimeOk(times, i, hi);
        return false;
      }
      last := times[i];
    }
    return true;
  }

  /** One range for every split time and one for what is left. */
  method Ranges(times: seq<int>, lo: int, hi: int) returns (ranges: seq<(int, int)>)
    ensures |ranges| == |times| + 1 && ranges[0].0 == lo && ranges[|times|].1 == hi
    ensures forall i :: 0 <= i < |times| ==> ranges[i].1 == times[i]
    ensures forall i :: 0 < i <= |times| ==> ranges[i].0 == times[i - 1] + 1
  {
    var last := lo;
    ranges := [];
    for i := 0 to |times|
      invariant |ranges| == i && last == (if i == 0 then lo else times[i - 1] + 1)
      invariant forall j :: 0 <= j < i ==> ranges[j].1 == times[j]
      invariant forall j :: 0 <= j < i ==> ranges[j].0 == if j == 0 then lo else times[j - 1] + 1
    {
      ranges := ranges + [(last, times[i])];
      last := times[i] + 1;
    }
    ranges := ranges + [(last, hi)];
  }

  /** A piece as it comes out of the proportional split. */
  function Piece(min: int, max: int, bytes: int, rows: int, whole: int, target: Level, share: Share): SimulatedFile {
    SimulatedFile(min, max, share(bytes, max - min + 1, whole), share(rows, max - min + 1, whole), target)
  }

  /** Gives the last piece what the others leave of the totals, in place of its own share. */
  method PatchLast(out: seq<SimulatedFile>, bytes: int, rows: int) returns (r: seq<SimulatedFile>)
    requires out != []
    ensures |r| == |out| && r[..|r| - 1] == out[..|r| - 1]
    ensures r[|r| - 1] == out[|r| - 1].(bytes := r[|r| - 1].bytes, rows := r[|r| - 1].rows)
    ensures PieceBytes(r) == bytes && PieceRows(r) == rows
  {
    var last := out[|out| - 1];
    var missing, lacking := bytes - PieceBytes(out), rows - PieceRows(out);
    r := out[|out| - 1 := last.(bytes := last.bytes + missing, rows := last.rows + lacking)];
    assert r[..|r| - 1] == out[..|r| - 1];
  }

  /** How many instants a piece holds. */
  function Instants(f: SimulatedFile): int {
    f.maxTime - f.minTime + 1
  }

  ghost function TotalInstants(out: seq<SimulatedFile>): int {
    if out == [] then 0 else TotalInstants(out[..|out| - 1]) + Instants(out[|out| - 1])
  }

  /** The first n pieces hold their shares of the totals, by the instants they hold of the whole. */
  ghost predicate Shares(
    out: seq<SimulatedFile>, n: nat, bytes: int, rows: int, whole: int, target: Level, share: Share)
    requires n <= |out|
  {
    forall i :: 0 <= i < n ==>
      && out[i].bytes == share(bytes, Instants(out[i]), whole) && out[i].rows == share(rows, Instants(out[i]), whole)
      && out[i].level == target
  }

  /** One piece for every range. */
  method Pieces(times: seq<int>, lo: int, hi: int, bytes: int, rows: int, target: Level, share: Share)
    returns (out: seq<SimulatedFile>)
    ensures Follows(out, times, lo, hi, target) && Shares(out, |out|, bytes, rows, hi - lo + 1, target, share)
  {
    hide Shares, Piece, Follows, InRanges;
    var ranges := Ranges(times, lo, hi);
    out := [];
    NoShares(bytes, rows, hi - lo + 1, target, share);
    for i := 0 to |ranges|
      invariant |out| == i && Shares(out, i, bytes, rows, hi - lo + 1, target, share)
      invariant InRanges(out, ranges, target)
    {
      var piece := Piece(ranges[i].0, ranges[i].1, bytes, rows, hi - lo + 1, target, share);
      OneMoreShare(out, piece, ranges[i].0, ranges[i].1, bytes, rows, hi - lo + 1, target, share);
      OneMoreRange(out, piece, ranges, target);
      out := out + [piece];
    }
    RangesFollow(out, ranges, times, lo, hi, target);
  }

  ghost predicate InRanges(out: seq<SimulatedFile>, ranges: seq<(int, int)>, target: Level) {
    && |out| <= |ranges|
    && forall j :: 0 <= j < |out| ==>
      out[j].minTime == ranges[j].0 && out[j].maxTime == ranges[j].1 && out[j].level == target
  }

  lemma OneMoreRange(out: seq<SimulatedFile>, piece: SimulatedFile, ranges: seq<(int, int)>, target: Level)
    requires InRanges(out, ranges, target) && |out| < |ranges| && piece.level == target
    requires piece.minTime == ranges[|out|].0 && piece.maxTime == ranges[|out|].1
    ensures InRanges(out + [piece], ranges, target)
  {
  }

  lemma RangesFollow(
    out: seq<SimulatedFile>, ranges: seq<(int, int)>, times: seq<int>, lo: int, hi: int, target: Level)
    requires InRanges(out, ranges, target) && |out| == |ranges| == |times| + 1
    requires ranges[0].0 == lo && ranges[|times|].1 == hi
    requires forall i :: 0 <= i < |times| ==> ranges[i].1 == times[i]
    requires forall i :: 0 < i <= |times| ==> ranges[i].0 == times[i - 1] + 1
    ensures Follows(out, times, lo, hi, target)
  {
  }

  lemma NoShares(bytes: int, rows: int, whole: int, target: Level, share: Share)
    ensures Shares([], 0, bytes, rows, whole, target, share) && forall ranges :: InRanges([], ranges, target)
  {
  }

  lemma OneMoreShare(
    out: seq<SimulatedFile>, piece: SimulatedFile, min: int, max: int, bytes: int, rows: int, whole: int,
    target: Level, share: Share)
    requires Shares(out, |out|, bytes, rows, whole, target, share)
    requires piece == Piece(min, max, bytes, rows, whole, target, share)
    ensures Shares(out + [piece], |out| + 1, bytes, rows, whole, target, share)
    ensures piece.minTime == min && piece.maxTime == max && piece.level == target
  {
  }

  lemma PatchedFollows(
    out: seq<SimulatedFile>, r: seq<SimulatedFile>, times: seq<int>, lo: int, hi: int, bytes: int, rows: int,
    target: Level, share: Share)
    requires Follows(out, times, lo, hi, target) && Shares(out, |out|, bytes, rows, hi - lo + 1, target, share)
    requires |r| == |out| && r[..|r| - 1] == out[..|r| - 1]
    requires r[|r| - 1] == out[|r| - 1].(bytes := r[|r| - 1].bytes, rows := r[|r| - 1].rows)
    ensures Follows(r, times, lo, hi, target) && Shares(r, |times|, bytes, rows, hi - lo + 1, target, share)
  {
    hide Piece;
    forall i | 0 <= i < |times| ensures r[i] == out[i] {
      assert r[i] == r[..|times|][i] && out[i] == out[..|times|][i];
    }
  }

  /** Cuts the hull of the files at the split times. Every piece but the last gets its share of the bytes and
      rows; the last one gets whatever makes the totals come out. */
  method EvenTimeSplit(files: seq<ParquetFile>, times: seq<int>, target: Level, share: Share)
    returns (r: Result<seq<SimulatedFile>, string>)
    ensures r.Success? <==> files != [] && Accepted(times, MaxTime(files))
    ensures r.Success? ==> Follows(r.value, times, MinTime(files), MaxTime(files), target)
    ensures r.Success? ==> PieceBytes(r.value) == TotalBytes(files) && PieceRows(r.value) == TotalRows(files)
    ensures r.Success? ==> |times| <= |r.value| && Shares(r.value, |times|, TotalBytes(files), TotalRows(files),
                                                           MaxTime(files) - MinTime(files) + 1, target, share)
  {
    hide PieceBytes, PieceRows, TotalBytes, TotalRows, MinTime, MaxTime, Accepted, Shares, Piece;
    if files == [] {
      return Failure("no files");
    }
    var lo, hi := MinTime(files), MaxTime(files);
    var bytes, rows := TotalBytes(files), TotalRows(files);
    var ok := CheckTimes(times, hi);
    if !ok {
      return Failure("split times must be ascending and less than the time range max");
    }
    var out := Pieces(times, lo, hi, bytes, rows, target, share);
    var patched := PatchLast(out, bytes, rows);
    PatchedFollows(out, patched, times, lo, hi, bytes, rows, target, share);
    return Success(patched);
  }

  // ---------- what the pieces are ----------

  /** The pieces cover lo..hi from left to right, each starting where the one before it ended. */
  ghost predicate Tiles(out: seq<SimulatedFile>, lo: int, hi: int) {
    && out != [] && out[0].minTime == lo && out[|out| - 1].maxTime == hi
    && (forall i :: 0 <= i < |out| ==> out[i].minTime <= out[i].maxTime)
    && (forall i :: 0 < i < |out| ==> out[i].minTime == out[i - 1].maxTime + 1)
  }

  /** Pieces that tile a range hold all its instants, so the shares are shares of one whole. */
  lemma {:induction false} TilesInstants(out: seq<SimulatedFile>, lo: int, hi: int)
    requires Tiles(out, lo, hi)
    ensures TotalInstants(out) == hi - lo + 1
  {
    var before, last := out[..|out| - 1], out[|out| - 1];
    if before != [] {
      TilesInstants(before, lo, before[|before| - 1].maxTime);
    }
  }

  /** The pieces tile the hull exactly when no split time lies before it, which is not checked. */
  lemma SplitTiles(out: seq<SimulatedFile>, times: seq<int>, lo: int, hi: int, target: Level)
    requires lo <= hi && Accepted(times, hi) && Follows(out, times, lo, hi, target)
    ensures Tiles(out, lo, hi) <==> times == [] || lo <= times[0]
  {
    if times != [] {
      assert out[0].minTime == lo && out[0].maxTime == times[0];
    }
    if times == [] || lo <= times[0] {
      forall i | 0 <= i < |out| ensures out[i].minTime <= out[i].maxTime {
        assert i < |times| ==> TimeOk(times, i, hi);
        assert 0 < i ==> TimeOk(times, i - 1, hi);
      }
    }
  }

  /** A split time before the hull gives a piece that ends before it starts. */
  lemma EarlySplitTime()
    ensures var out := [SimulatedFile(10, 5, 0, 0, Initial), SimulatedFile(6, 20, 0, 0, Initial)];
      Accepted([5], 20) && Follows(out, [5], 10, 20, Initial) && !Tiles(out, 10, 20)
  {
  }

  lemma {:induction false} TilesOrdered(out: seq<SimulatedFile>, lo: int, hi: int, i: nat, j: nat)
    requires Tiles(out, lo, hi) && i < j < |out|
    ensures out[i].maxTime < out[j].minTime
    decreases j
  {
    if i < j - 1 {
      TilesOrdered(out, lo, hi, i, j - 1);
    }
  }

  /** The instant t lies in the piece. */
  predicate Within(p: SimulatedFile, t: int) {
    p.minTime <= t <= p.maxTime
  }

  lemma {:induction false} FindPiece(out: seq<SimulatedFile>, lo: int, hi: int, t: int, k: nat) returns (i: nat)
    requires Tiles(out, lo, hi) && k < |out| && lo <= t <= out[k].maxTime
    ensures i <= k && Within(out[i], t)
  {
    if k == 0 || out[k].minTime <= t {
      i := k;
    } else {
      i := FindPiece(out, lo, hi, t, k - 1);
    }
  }

  /** Every instant of the hull is in exactly one piece, and no other instant is in any. */
  lemma TilesOnce(out: seq<SimulatedFile>, lo: int, hi: int, t: int)
    requires Tiles(out, lo, hi)
    ensures lo <= t <= hi <==> exists i :: 0 <= i < |out| && Within(out[i], t)
    ensures forall i, j :: 0 <= i < j < |out| ==> !(Within(out[i], t) && Within(out[j], t))
  {
    forall i, j | 0 <= i < j < |out| ensures out[i].maxTime < out[j].minTime {
      TilesOrdered(out, lo, hi, i, j);
    }
    if lo <= t <= hi {
      var i := FindPiece(out, lo, hi, t, |out| - 1);
      assert Within(out[i], t);
    }
    forall i | 0 <= i < |out| && Within(out[i], t) ensures lo <= t <= hi {
      assert i == 0 || out[0].maxTime < out[i].minTime;
      assert i == |out| - 1 || out[i].maxTime < out[|out| - 1].minTime;
    }
  }

  lemma {:induction false} TimesAscend(times: seq<int>, hi: int, i: nat, j: nat)
    requires Accepted(times, hi) && i < j < |times|
    ensures times[i] < times[j]
    decreases j
  {
    if i < j - 1 {
      TimesAscend(times, hi, i, j - 1);
    }
    assert TimeOk(times, j, hi);
  }

  /** No piece needs to be split again at the same times. */
  lemma PiecesNeedNoSplit(out: seq<SimulatedFile>, times: seq<int>, lo: int, hi: int, target: Level, k: nat)
    requires Accepted(times, hi) && Follows(out, times, lo, hi, target) && k < |out|
    ensures !SomeCut(times, out[k].minTime, out[k].maxTime)
  {
    forall i | 0 <= i < |times| ensures !Cuts(times[i], out[k].minTime, out[k].maxTime) {
      if i < k - 1 {
        TimesAscend(times, hi, i, k - 1);
      } else if k < i {
        TimesAscend(times, hi, k, i);
      }
    }
  }
}
