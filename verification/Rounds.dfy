/** All branches of all rounds over one catalog: whatever the chunks and however the commits of concurrent branches
    interleave, the files held in memory are the live files of the catalog. */
module Rounds {
  import opened ParquetFiles
  import opened Plans
  import opened Catalog
  import opened CatalogStore
  import opened Driver

  /** A branch at work: plans and upgrade still to be committed, files already returned by commits, files kept. */
  datatype Branch = Branch(
    plans: seq<Plan>, upgrade: seq<ParquetFile>, next: seq<ParquetFile>, keep: seq<ParquetFile>, target: Level)

  /** The catalog, the branches of the round, the files held back for later, and the history of requests: deletes
      and upgrades sent to the catalog, and upgrades that branches were given to do. */
  datatype State = State(
    records: seq<Record>, branches: seq<Branch>, later: multiset<ParquetFile>,
    deletes: multiset<nat>, upgrades: multiset<nat>, planned: multiset<nat>)

  ghost function Held(b: Branch): multiset<ParquetFile> {
    Pending(b.plans, b.upgrade) + multiset(b.next) + multiset(b.keep)
  }

  ghost function HeldAll(branches: seq<Branch>): multiset<ParquetFile> {
    if branches == [] then multiset{} else HeldAll(branches[..|branches| - 1]) + Held(branches[|branches| - 1])
  }

  ghost function PendingIds(branches: seq<Branch>): multiset<nat> {
    if branches == [] then multiset{}
    else PendingIds(branches[..|branches| - 1]) + multiset(Ids(branches[|branches| - 1].upgrade))
  }

  /** The upgrade goes with the first chunk, so without plans it would never be committed. */
  predicate Sound(b: Branch) {
    b.plans == [] ==> b.upgrade == []
  }

  /** A file was asked to be deleted once if it is deleted, and never if it is not. */
  ghost predicate DeletedOnce(records: seq<Record>, deletes: multiset<nat>) {
    forall id: nat :: deletes[id] == if 1 <= id <= |records| && records[id - 1].deleted then 1 else 0
  }

  ghost predicate Inv(s: State) {
    && Numbered(s.records)
    && HeldAll(s.branches) + s.later == Live(s.records)
    && (forall i :: 0 <= i < |s.branches| ==> Sound(s.branches[i]))
    && DeletedOnce(s.records, s.deletes)
    && s.upgrades + PendingIds(s.branches) == s.planned
  }

  /** The branch after its next n plans were run with the given output and committed. */
  function Advance(b: Branch, n: nat, out: seq<FileParams>, count: nat): Branch
    requires n <= |b.plans|
  {
    Branch(b.plans[n..], [], b.next + (Created(out, count) + Upgraded(b.upgrade, b.target)), b.keep, b.target)
  }

  /** Branch i commits its next chunk, of any size. */
  ghost predicate CommitStep(s: State, t: State, i: nat, n: nat, out: seq<FileParams>) {
    && i < |s.branches| && 0 < n <= |s.branches[i].plans|
    && var b := s.branches[i];
    && t.branches == s.branches[i := Advance(b, n, out, |s.records|)]
    && Transacted(s.records, t.records, Ids(AllInputs(b.plans[..n])), Ids(b.upgrade), out, b.target)
    && t.later == s.later && t.planned == s.planned
    && t.deletes == s.deletes + multiset(Ids(AllInputs(b.plans[..n])))
    && t.upgrades == s.upgrades + multiset(Ids(b.upgrade))
  }

  ghost predicate Finished(s: State) {
    forall i :: 0 <= i < |s.branches| ==> s.branches[i].plans == []
  }

  /** When all branches are done, their output and the files held back are dealt out again, each to one place. */
  ghost predicate NewRound(s: State, t: State) {
    && Finished(s)
    && HeldAll(t.branches) + t.later == HeldAll(s.branches) + s.later
    && (forall i :: 0 <= i < |t.branches| ==> Sound(t.branches[i]) && t.branches[i].next == [])
    && t.records == s.records && t.deletes == s.deletes && t.upgrades == s.upgrades
    && t.planned == s.planned + PendingIds(t.branches)
  }

  ghost predicate Step(s: State, t: State) {
    NewRound(s, t) || exists i: nat, n: nat, out: seq<FileParams> :: CommitStep(s, t, i, n, out)
  }

  // ---------- sums over branches ----------

  lemma {:induction false} HeldUpdate(branches: seq<Branch>, i: nat, b: Branch)
    requires i < |branches|
    ensures HeldAll(branches[i := b]) + Held(branches[i]) == HeldAll(branches) + Held(b)
    ensures Held(branches[i]) <= HeldAll(branches)
  {
    hide Held;
    var init, last := branches[..|branches| - 1], branches[|branches| - 1];
    var now := branches[i := b];
    if i == |branches| - 1 {
      assert now[..|branches| - 1] == init;
    } else {
      HeldUpdate(init, i, b);
      assert now[..|branches| - 1] == init[i := b];
      Shuffle(HeldAll(init[i := b]), Held(branches[i]), HeldAll(init), Held(b), Held(last));
    }
  }

  lemma Shuffle<T>(a: multiset<T>, x: multiset<T>, c: multiset<T>, y: multiset<T>, z: multiset<T>)
    requires a + x == c + y
    ensures a + z + x == c + z + y
  {
    forall e ensures (a + z + x)[e] == (c + z + y)[e] {
      assert (a + x)[e] == (c + y)[e];
    }
  }

  lemma {:induction false} PendingUpdate(branches: seq<Branch>, i: nat, b: Branch)
    requires i < |branches|
    ensures PendingIds(branches[i := b]) + multiset(Ids(branches[i].upgrade)) ==
            PendingIds(branches) + multiset(Ids(b.upgrade))
  {
    var init, last := branches[..|branches| - 1], branches[|branches| - 1];
    var now := branches[i := b];
    if i == |branches| - 1 {
      assert now[..|branches| - 1] == init;
    } else {
      PendingUpdate(init, i, b);
      assert now[..|branches| - 1] == init[i := b];
      Shuffle(
        PendingIds(init[i := b]), multiset(Ids(branches[i].upgrade)), PendingIds(init), multiset(Ids(b.upgrade)),
        multiset(Ids(last.upgrade)));
    }
  }

  // ---------- one commit ----------

  /** A branch gives up exactly the files its commit takes out, and gains those it makes. */
  lemma AdvanceHeld(b: Branch, n: nat, out: seq<FileParams>, count: nat)
    requires n <= |b.plans|
    ensures Held(Advance(b, n, out, count)) + Pending(b.plans[..n], b.upgrade)
         == Held(b) + (multiset(Created(out, count)) + multiset(Upgraded(b.upgrade, b.target)))
    ensures Pending(b.plans[..n], b.upgrade) <= Held(b)
  {
    hide Pending;
    var c := Advance(b, n, out, count);
    PendingSplit(b.plans, n, b.upgrade);
    var made := Created(out, count) + Upgraded(b.upgrade, b.target);
    assert multiset(b.next + made) == multiset(b.next) + multiset(made);
    assert multiset(made) == multiset(Created(out, count)) + multiset(Upgraded(b.upgrade, b.target));
    Exchange(
      Pending(b.plans[n..], []), Pending(b.plans[..n], b.upgrade), Pending(b.plans, b.upgrade), multiset(b.next),
      multiset(b.keep), multiset(made));
  }

  lemma Exchange(
    rest: multiset<ParquetFile>, out: multiset<ParquetFile>, all: multiset<ParquetFile>, next: multiset<ParquetFile>,
    keep: multiset<ParquetFile>, made: multiset<ParquetFile>)
    requires all == out + rest
    ensures rest + (next + made) + keep + out == all + next + keep + made
    ensures out <= all + next + keep
  {
  }

  /** Sums: what all branches hold changes as the catalog does. */
  lemma Balance(
    heldAll: multiset<ParquetFile>, heldAllNow: multiset<ParquetFile>, held: multiset<ParquetFile>,
    heldNow: multiset<ParquetFile>,
    later: multiset<ParquetFile>, live: multiset<ParquetFile>, delete: multiset<ParquetFile>,
    upgrade: multiset<ParquetFile>,
    made: multiset<ParquetFile>, upgraded: multiset<ParquetFile>)
    requires heldAllNow + held == heldAll + heldNow && heldAll + later == live
    requires heldNow + (delete + upgrade) == held + (made + upgraded) && delete + upgrade <= live
    ensures heldAllNow + later == live - delete - upgrade + upgraded + made
  {
    forall f ensures (heldAllNow + later)[f] == (live - delete - upgrade + upgraded + made)[f] {
      assert (heldAllNow + held)[f] == (heldAll + heldNow)[f] && (heldAll + later)[f] == live[f];
      assert (heldNow + (delete + upgrade))[f] == (held + (made + upgraded))[f] && (delete + upgrade)[f] <= live[f];
    }
  }

  lemma {:induction false} CountIds(files: seq<ParquetFile>, id: nat)
    requires DistinctIds(files)
    ensures multiset(Ids(files))[id] == if id in Ids(files) then 1 else 0
  {
    if files != [] {
      var before, last := files[..|files| - 1], files[|files| - 1];
      assert Ids(files) == Ids(before) + [last.id];
      CountIds(before, id);
      InIds(before, id);
    }
  }

  /** The files deleted were live, so none of them had been deleted before. */
  lemma StillDeletedOnce(
    was: seq<Record>, now: seq<Record>, deletes: multiset<nat>, delete: seq<ParquetFile>, upgrade: seq<ParquetFile>,
    create: seq<FileParams>, target: Level)
    requires Numbered(was) && DeletedOnce(was, deletes) && multiset(delete) + multiset(upgrade) <= Live(was)
    requires Transacted(was, now, Ids(delete), Ids(upgrade), create, target)
    ensures DeletedOnce(now, deletes + multiset(Ids(delete)))
  {
    hide Live;
    BothLive(was, delete, upgrade);
    forall id: nat
      ensures (deletes + multiset(Ids(delete)))[id] == if 1 <= id <= |now| && now[id - 1].deleted then 1 else 0
    {
      CountIds(delete, id);
      InIds(delete, id);
      assert deletes[id] == if 1 <= id <= |was| && was[id - 1].deleted then 1 else 0;
      if 1 <= id <= |was| {
        assert now[id - 1] == Changed(was[id - 1], Ids(delete), Ids(upgrade), target);
      } else if |was| < id <= |now| {
        assert now[|was| + (id - 1 - |was|)] == NewRecord(create[id - 1 - |was|], id);
      }
    }
  }

  lemma CommitKeepsInv(s: State, t: State, i: nat, n: nat, out: seq<FileParams>)
    requires Inv(s) && CommitStep(s, t, i, n, out)
    ensures Inv(t)
  {
    hide Held, HeldAll, PendingIds, Live, Transacted, Numbered, DeletedOnce;
    var b := s.branches[i];
    var c := Advance(b, n, out, |s.records|);
    var delete := AllInputs(b.plans[..n]);
    HeldUpdate(s.branches, i, c);
    AdvanceHeld(b, n, out, |s.records|);
    Nested(Pending(b.plans[..n], b.upgrade), Held(b), HeldAll(s.branches), s.later);
    LiveAfter(s.records, t.records, delete, b.upgrade, out, b.target);
    TransactedNumbered(s.records, t.records, Ids(delete), Ids(b.upgrade), out, b.target);
    StillDeletedOnce(s.records, t.records, s.deletes, delete, b.upgrade, out, b.target);
    Balance(HeldAll(s.branches), HeldAll(t.branches), Held(b), Held(c), s.later, Live(s.records),
            multiset(delete), multiset(b.upgrade),
            multiset(Created(out, |s.records|)), multiset(Upgraded(b.upgrade, b.target)));
    PendingUpdate(s.branches, i, c);
    UpgradesMove(s.upgrades, PendingIds(s.branches), PendingIds(t.branches), multiset(Ids(b.upgrade)), s.planned);
  }

  lemma Nested(a: multiset<ParquetFile>, b: multiset<ParquetFile>, c: multiset<ParquetFile>, d: multiset<ParquetFile>)
    requires a <= b <= c
    ensures a <= c + d
  {
  }

  lemma UpgradesMove(
    done: multiset<nat>, pending: multiset<nat>, pendingNow: multiset<nat>, ids: multiset<nat>, planned: multiset<nat>)
    requires done + pending == planned && pendingNow + ids == pending + multiset{}
    ensures done + ids + pendingNow == planned
  {
    forall id ensures (done + ids + pendingNow)[id] == planned[id] {
      assert (done + pending)[id] == planned[id] && (pendingNow + ids)[id] == (pending + multiset{})[id];
    }
  }

  // ---------- all rounds ----------

  /** What the finished branches return. */
  ghost function Returned(branches: seq<Branch>): multiset<ParquetFile> {
    if branches == [] then multiset{}
    else Returned(branches[..|branches| - 1]) + multiset(branches[|branches| - 1].next + branches[|branches| - 1].keep)
  }

  lemma {:induction false} NothingPending(branches: seq<Branch>)
    requires forall i :: 0 <= i < |branches| ==> Sound(branches[i]) && branches[i].plans == []
    ensures PendingIds(branches) == multiset{} && HeldAll(branches) == Returned(branches)
  {
    if branches != [] {
      var init, last := branches[..|branches| - 1], branches[|branches| - 1];
      NothingPending(init);
      assert last == branches[|branches| - 1] && Sound(last);
      assert Ids(last.upgrade) == [];
      assert multiset(last.next + last.keep) == multiset(last.next) + multiset(last.keep);
    }
  }

  lemma StepKeepsInv(s: State, t: State)
    requires Inv(s) && Step(s, t)
    ensures Inv(t)
  {
    if NewRound(s, t) {
      NothingPending(s.branches);
    } else {
      var i: nat, n: nat, out: seq<FileParams> :| CommitStep(s, t, i, n, out);
      CommitKeepsInv(s, t, i, n, out);
    }
  }

  ghost predicate IsRun(run: seq<State>) {
    run != [] && forall k :: 0 <= k < |run| - 1 ==> Step(run[k], run[k + 1])
  }

  lemma {:induction false} RunKeepsInv(run: seq<State>, k: nat)
    requires IsRun(run) && Inv(run[0]) && k < |run|
    ensures Inv(run[k])
  {
    hide Inv, Step;
    if k > 0 {
      RunKeepsInv(run, k - 1);
      assert Step(run[k - 1], run[k - 1 + 1]);
      StepKeepsInv(run[k - 1], run[k]);
    }
  }

  /** Over all rounds, for any chunks and any interleaving: whenever the branches of a round are finished, what
      they return together with what was held back is exactly what is live in the catalog, no file is held twice,
      every upgrade handed out was committed once, and every deleted file was deleted by one request. */
  lemma NoFileLost(run: seq<State>, k: nat)
    requires IsRun(run) && Inv(run[0]) && k < |run| && Finished(run[k])
    ensures Returned(run[k].branches) + run[k].later == Live(run[k].records)
    ensures forall f :: (Returned(run[k].branches) + run[k].later)[f] <= 1
    ensures run[k].upgrades == run[k].planned
    ensures DeletedOnce(run[k].records, run[k].deletes)
  {
    RunKeepsInv(run, k);
    hide Live, HeldAll, Returned, PendingIds, DeletedOnce;
    var s := run[k];
    NothingPending(s.branches);
    forall f ensures (Returned(s.branches) + s.later)[f] <= 1 {
      LiveAt(s.records, f);
    }
  }

  /** A branch without plans returns all it holds exactly when it has nothing to upgrade. */
  lemma ReturnsAllIff(b: Branch)
    requires b.plans == []
    ensures multiset(b.next + b.keep) == Held(b) <==> Sound(b)
  {
    assert multiset(b.next + b.keep) == multiset(b.next) + multiset(b.keep);
    assert Held(b) == multiset(b.upgrade) + multiset(b.next) + multiset(b.keep);
    assert |Held(b)| == |b.upgrade| + |multiset(b.next + b.keep)|;
  }
}
