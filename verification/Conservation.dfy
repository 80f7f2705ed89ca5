/** Rows and bytes are conserved: commits of plans and upgrades only move them between files. */
module Conservation {
  import opened ParquetFiles
  import opened TimeSplit
  import opened Plans
  import opened Catalog
  import opened CatalogStore
  import opened Driver
  import opened Rounds

  /** The rows of a file, or its bytes. */
  datatype Measure = OfRows | OfBytes
  {
    function Of(f: ParquetFile): int { if OfRows? then f.rows else f.bytes }

    function Piece(p: SimulatedFile): int { if OfRows? then p.rows else p.bytes }
  }

  ghost function Sum(m: multiset<ParquetFile>, w: Measure): int
    decreases |m|
  {
    if m == multiset{} then 0
    else
      var f :| f in m;
      w.Of(f) + Sum(m - multiset{f}, w)
  }

  lemma SumPick(m: multiset<ParquetFile>, w: Measure) returns (f: ParquetFile)
    requires m != multiset{}
    ensures f in m && Sum(m, w) == w.Of(f) + Sum(m - multiset{f}, w)
  {
    f :| f in m && Sum(m, w) == w.Of(f) + Sum(m - multiset{f}, w);
  }

  lemma {:induction false} SumInsert(m: multiset<ParquetFile>, f: ParquetFile, w: Measure)
    ensures Sum(m + multiset{f}, w) == Sum(m, w) + w.Of(f)
    decreases |m|
  {
    hide Sum;
    var n := m + multiset{f};
    assert f in n;
    var g := SumPick(n, w);
    if g == f {
      assert n - multiset{g} == m;
    } else {
      var rest := m - multiset{g};
      assert n - multiset{g} == rest + multiset{f} && rest + multiset{g} == m;
      SumInsert(rest, f, w);
      SumInsert(rest, g, w);
    }
  }

  lemma {:induction false} SumPlus(a: multiset<ParquetFile>, b: multiset<ParquetFile>, w: Measure)
    ensures Sum(a + b, w) == Sum(a, w) + Sum(b, w)
    decreases |b|
  {
    if b == multiset{} {
      assert a + b == a;
    } else {
      var f :| f in b;
      var rest := b - multiset{f};
      SumPlus(a, rest, w);
      SumInsert(rest, f, w);
      SumInsert(a + rest, f, w);
      assert rest + multiset{f} == b && a + rest + multiset{f} == a + b;
    }
  }

  ghost function SeqSum(files: seq<ParquetFile>, w: Measure): int {
    if files == [] then 0 else SeqSum(files[..|files| - 1], w) + w.Of(files[|files| - 1])
  }

  lemma {:induction false} SumOfSeq(files: seq<ParquetFile>, w: Measure)
    ensures Sum(multiset(files), w) == SeqSum(files, w)
  {
    if files != [] {
      var before, last := files[..|files| - 1], files[|files| - 1];
      assert files == before + [last];
      SumOfSeq(before, w);
      SumInsert(multiset(before), last, w);
    }
  }

  lemma {:induction false} SeqSumConcat(a: seq<ParquetFile>, b: seq<ParquetFile>, w: Measure)
    ensures SeqSum(a + b, w) == SeqSum(a, w) + SeqSum(b, w)
  {
    SumOfSeq(a, w);
    SumOfSeq(b, w);
    SumOfSeq(a + b, w);
    SumPlus(multiset(a), multiset(b), w);
    assert multiset(a + b) == multiset(a) + multiset(b);
  }

  /** Upgrading changes neither rows nor bytes. */
  lemma {:induction false} UpgradedSum(files: seq<ParquetFile>, target: Level, w: Measure)
    ensures SeqSum(Upgraded(files, target), w) == SeqSum(files, w)
  {
    if files != [] {
      var before := files[..|files| - 1];
      assert Upgraded(files, target)[..|files| - 1] == Upgraded(before, target);
      UpgradedSum(before, target, w);
    }
  }

  ghost function PieceSum(out: seq<SimulatedFile>, w: Measure): int {
    if out == [] then 0 else PieceSum(out[..|out| - 1], w) + w.Piece(out[|out| - 1])
  }

  lemma {:induction false} PieceSumIs(out: seq<SimulatedFile>, w: Measure)
    ensures PieceSum(out, w) == if w.OfRows? then PieceRows(out) else PieceBytes(out)
  {
    if out != [] {
      PieceSumIs(out[..|out| - 1], w);
    }
  }

  lemma {:induction false} TotalIs(files: seq<ParquetFile>, w: Measure)
    ensures SeqSum(files, w) == if w.OfRows? then TotalRows(files) else TotalBytes(files)
  {
    if files != [] {
      TotalIs(files[1..], w);
      SeqSumConcat([files[0]], files[1..], w);
      assert [files[0]] + files[1..] == files;
      assert [files[0]][..0] == [];
    }
  }

  lemma {:induction false} CreatedSum(out: seq<FileParams>, n: nat, w: Measure)
    ensures SeqSum(Created(out, n), w) == PieceSum(Files(out), w)
  {
    if out != [] {
      var before := out[..|out| - 1];
      assert Created(out, n)[..|out| - 1] == Created(before, n) && Files(out)[..|out| - 1] == Files(before);
      CreatedSum(before, n, w);
    }
  }

  /** What plans write that finish in the order given; a plan that does nothing writes nothing. */
  ghost predicate WrittenInOrder(order: seq<Plan>, out: seq<FileParams>) {
    if order == [] then out == []
    else
      var p := order[|order| - 1];
      if p.NoPlan? then WrittenInOrder(order[..|order| - 1], out)
      else
        && p.Inputs() != [] && p.OutputCount() <= |out|
        && Writes(p, out[|out| - p.OutputCount()..])
        && WrittenInOrder(order[..|order| - 1], out[..|out| - p.OutputCount()])
  }

  /** The output of a chunk, whose plans run concurrently and finish in any order. */
  ghost predicate ChunkWrites(chunk: seq<Plan>, out: seq<FileParams>) {
    exists order: seq<Plan> :: multiset(order) == multiset(chunk) && WrittenInOrder(order, out)
  }

  /** Plans in another order have the same inputs. */
  lemma {:induction false} InputsPermute(a: seq<Plan>, b: seq<Plan>)
    requires multiset(a) == multiset(b)
    ensures multiset(AllInputs(a)) == multiset(AllInputs(b))
  {
    if a == [] {
      SameSize(a, b);
    } else {
      hide AllInputs;
      var before, p := a[..|a| - 1], a[|a| - 1];
      assert a == before + [p];
      assert p in multiset(b);
      var k :| 0 <= k < |b| && b[k] == p;
      var front, back := b[..k], b[k + 1..];
      assert b == front + [p] + back;
      PermuteRest(before, front, back, p);
      InputsPermute(before, front + back);
      InputsLast(before, p);
      InputsLast(front, p);
      InputsConcat(front + [p], back);
      InputsConcat(front, back);
      MiddleOut(AllInputs(front), p.Inputs(), AllInputs(back));
    }
  }

  lemma SameSize(a: seq<Plan>, b: seq<Plan>)
    requires multiset(a) == multiset(b)
    ensures |a| == |b|
  {
    assert |multiset(a)| == |multiset(b)|;
  }

  lemma PermuteRest(before: seq<Plan>, front: seq<Plan>, back: seq<Plan>, p: Plan)
    requires multiset(before + [p]) == multiset(front + [p] + back)
    ensures multiset(before) == multiset(front + back)
  {
    assert multiset(before + [p]) - multiset{p} == multiset(before);
    assert multiset(front + [p] + back) - multiset{p} == multiset(front + back);
  }

  lemma MiddleOut(a: seq<ParquetFile>, b: seq<ParquetFile>, c: seq<ParquetFile>)
    ensures multiset(a + b + c) == multiset(a + c) + multiset(b)
  {
  }

  lemma {:induction false} PieceSumConcat(a: seq<SimulatedFile>, b: seq<SimulatedFile>, w: Measure)
    ensures PieceSum(a + b, w) == PieceSum(a, w) + PieceSum(b, w)
  {
    if b == [] {
      assert a + b == a;
    } else {
      assert (a + b)[..|a + b| - 1] == a + b[..|b| - 1];
      PieceSumConcat(a, b[..|b| - 1], w);
    }
  }

  lemma {:induction false} OrderConserves(order: seq<Plan>, out: seq<FileParams>, w: Measure)
    requires WrittenInOrder(order, out)
    ensures PieceSum(Files(out), w) == SeqSum(AllInputs(order), w)
  {
    if order == [] {
      NothingWritten(out, w);
    } else {
      hide WrittenInOrder, AllInputs, PieceSum, SeqSum, Writes, Files;
      var before, p := order[..|order| - 1], order[|order| - 1];
      InputsLastSum(before, p, order, w);
      var head, tail := LastWritten(order, out, p);
      OrderConserves(before, head, w);
      FilesConcat(head, tail);
      PieceSumConcat(Files(head), Files(tail), w);
      PlanConserves(p, tail, w);
    }
  }

  /** Whatever the order in which its plans finish, a chunk writes the rows and bytes of its inputs. */
  lemma ChunkConserves(chunk: seq<Plan>, out: seq<FileParams>, w: Measure)
    requires ChunkWrites(chunk, out)
    ensures PieceSum(Files(out), w) == SeqSum(AllInputs(chunk), w)
  {
    hide WrittenInOrder, AllInputs, PieceSum, SeqSum, Sum;
    var order: seq<Plan> :| multiset(order) == multiset(chunk) && WrittenInOrder(order, out);
    OrderConserves(order, out, w);
    InputsPermute(order, chunk);
    SumOfSeq(AllInputs(order), w);
    SumOfSeq(AllInputs(chunk), w);
  }

  lemma NothingWritten(out: seq<FileParams>, w: Measure)
    requires WrittenInOrder([], out)
    ensures PieceSum(Files(out), w) == SeqSum(AllInputs([]), w)
  {
  }

  lemma LastWritten(order: seq<Plan>, out: seq<FileParams>, p: Plan)
    returns (head: seq<FileParams>, tail: seq<FileParams>)
    requires WrittenInOrder(order, out) && order != [] && p == order[|order| - 1]
    ensures out == head + tail && WrittenInOrder(order[..|order| - 1], head)
    ensures if p.NoPlan? then tail == [] else p.Inputs() != [] && Writes(p, tail)
  {
    hide Writes;
    head, tail := out[..|out| - p.OutputCount()], out[|out| - p.OutputCount()..];
    assert p.NoPlan? ==> head == out;
  }

  lemma FilesConcat(a: seq<FileParams>, b: seq<FileParams>)
    ensures Files(a + b) == Files(a) + Files(b)
  {
  }

  lemma OneMoreWritten(order: seq<Plan>, p: Plan, head: seq<FileParams>, tail: seq<FileParams>)
    requires WrittenInOrder(order, head) && !p.NoPlan? && p.Inputs() != [] && Writes(p, tail)
    ensures WrittenInOrder(order + [p], head + tail)
  {
    assert |tail| == p.OutputCount();
    hide Writes;
    var all, out := order + [p], head + tail;
    assert all[..|all| - 1] == order && out[|out| - |tail|..] == tail && out[..|out| - |tail|] == head;
  }

  /** An output in another order than that of the plans, which a chunk may well deliver. */
  lemma OutOfOrder(p: Plan, q: Plan, a: seq<FileParams>, b: seq<FileParams>)
    requires !p.NoPlan? && !q.NoPlan? && p.Inputs() != [] && q.Inputs() != [] && Writes(p, a) && Writes(q, b)
    ensures ChunkWrites([p, q], b + a)
  {
    hide Writes, WrittenInOrder, ChunkWrites;
    FirstWritten(q, b);
    OneMoreWritten([q], p, b, a);
    DeliveredIn([p, q], [q] + [p], b + a);
  }

  lemma FirstWritten(p: Plan, out: seq<FileParams>)
    requires !p.NoPlan? && p.Inputs() != [] && Writes(p, out)
    ensures WrittenInOrder([p], out)
  {
    assert |out| == p.OutputCount();
    hide Writes;
    assert out[0..] == out && out[..0] == [];
  }

  lemma DeliveredIn(chunk: seq<Plan>, order: seq<Plan>, out: seq<FileParams>)
    requires multiset(order) == multiset(chunk) && WrittenInOrder(order, out)
    ensures ChunkWrites(chunk, out)
  {
  }

  lemma InputsLastSum(before: seq<Plan>, p: Plan, chunk: seq<Plan>, w: Measure)
    requires chunk != [] && before == chunk[..|chunk| - 1] && p == chunk[|chunk| - 1]
    ensures SeqSum(AllInputs(chunk), w) == SeqSum(AllInputs(before), w) + SeqSum(p.Inputs(), w)
  {
    SeqSumConcat(AllInputs(before), p.Inputs(), w);
  }

  lemma PlanConserves(p: Plan, out: seq<FileParams>, w: Measure)
    requires if p.NoPlan? then out == [] else p.Inputs() != [] && Writes(p, out)
    ensures PieceSum(Files(out), w) == SeqSum(p.Inputs(), w)
  {
    if p.NoPlan? {
      return;
    }
    hide PieceSum, SeqSum, Tiles, MinTime, MaxTime, MaxL0;
    PieceSumIs(Files(out), w);
    TotalIs(p.Inputs(), w);
  }

  lemma {:induction false} SumMinus(a: multiset<ParquetFile>, b: multiset<ParquetFile>, w: Measure)
    requires b <= a
    ensures Sum(a - b, w) == Sum(a, w) - Sum(b, w)
  {
    SumPlus(a - b, b, w);
    assert a - b + b == a;
  }

  /** A commit of a chunk leaves the rows and the bytes of all live files as they were. */
  lemma CommitConserves(s: State, t: State, i: nat, n: nat, out: seq<FileParams>, w: Measure)
    requires Inv(s) && CommitStep(s, t, i, n, out) && ChunkWrites(s.branches[i].plans[..n], out)
    ensures Sum(Live(t.records), w) == Sum(Live(s.records), w)
  {
    hide Live, Held, HeldAll, PendingIds, DeletedOnce, Transacted, Sum, SeqSum, PieceSum, ChunkWrites;
    var b := s.branches[i];
    var delete, upgrade := AllInputs(b.plans[..n]), b.upgrade;
    var made, upgraded := Created(out, |s.records|), Upgraded(upgrade, b.target);
    HeldUpdate(s.branches, i, b);
    AdvanceHeld(b, n, out, |s.records|);
    Nested(Pending(b.plans[..n], b.upgrade), Held(b), HeldAll(s.branches), s.later);
    LiveAfter(s.records, t.records, delete, upgrade, out, b.target);
    SwapSums(Live(s.records), delete, upgrade, upgraded, made, w);
    ChunkConserves(b.plans[..n], out, w);
    CreatedSum(out, |s.records|, w);
    UpgradedSum(upgrade, b.target, w);
  }

  lemma SwapSums(
    was: multiset<ParquetFile>, delete: seq<ParquetFile>, upgrade: seq<ParquetFile>,
    upgraded: seq<ParquetFile>, made: seq<ParquetFile>, w: Measure)
    requires multiset(delete) + multiset(upgrade) <= was
    ensures Sum(was - multiset(delete) - multiset(upgrade) + multiset(upgraded) + multiset(made), w)
         == Sum(was, w) - SeqSum(delete, w) - SeqSum(upgrade, w) + SeqSum(upgraded, w) + SeqSum(made, w)
  {
    hide Sum, SeqSum;
    SumOfSeq(delete, w);
    SumOfSeq(upgrade, w);
    SumOfSeq(upgraded, w);
    SumOfSeq(made, w);
    SwapParts(was, multiset(delete), multiset(upgrade), multiset(upgraded), multiset(made), w);
  }

  lemma SwapParts(
    was: multiset<ParquetFile>, d: multiset<ParquetFile>, u: multiset<ParquetFile>, v: multiset<ParquetFile>,
    m: multiset<ParquetFile>, w: Measure)
    requires d + u <= was
    ensures Sum(was - d - u + v + m, w) == Sum(was, w) - Sum(d, w) - Sum(u, w) + Sum(v, w) + Sum(m, w)
  {
    hide Sum;
    forall f ensures d[f] <= was[f] && u[f] <= (was - d)[f] {
      assert (d + u)[f] <= was[f];
    }
    SumMinus(was, d, w);
    SumMinus(was - d, u, w);
    SumPlus(was - d - u, v, w);
    SumPlus(was - d - u + v, m, w);
  }

  /** A run whose commits write what their plans say. */
  ghost predicate FaithfulStep(s: State, t: State) {
    || NewRound(s, t)
    || exists i: nat, n: nat, out: seq<FileParams> ::
         CommitStep(s, t, i, n, out) && ChunkWrites(s.branches[i].plans[..n], out)
  }

  ghost predicate IsFaithful(run: seq<State>) {
    run != [] && forall k :: 0 <= k < |run| - 1 ==> FaithfulStep(run[k], run[k + 1])
  }

  /** Over all rounds and all interleavings no row and no byte is lost or made up. */
  lemma {:induction false} RunConserves(run: seq<State>, k: nat, w: Measure)
    requires IsFaithful(run) && Inv(run[0]) && k < |run|
    ensures Inv(run[k]) && Sum(Live(run[k].records), w) == Sum(Live(run[0].records), w)
  {
    hide Inv, Live, Sum, ChunkWrites, NewRound, CommitStep;
    if k > 0 {
      RunConserves(run, k - 1, w);
      var s, t := run[k - 1], run[k - 1 + 1];
      assert FaithfulStep(s, t);
      FaithfulConserves(s, t, w);
    }
  }

  lemma FaithfulConserves(s: State, t: State, w: Measure)
    requires Inv(s) && FaithfulStep(s, t)
    ensures Inv(t) && Sum(Live(t.records), w) == Sum(Live(s.records), w)
  {
    hide Inv, Live, Sum, ChunkWrites;
    if NewRound(s, t) {
      assert Step(s, t);
      StepKeepsInv(s, t);
    } else {
      var i: nat, n: nat, out: seq<FileParams> :|
        CommitStep(s, t, i, n, out) && ChunkWrites(s.branches[i].plans[..n], out);
      CommitKeepsInv(s, t, i, n, out);
      CommitConserves(s, t, i, n, out, w);
    }
  }
}
