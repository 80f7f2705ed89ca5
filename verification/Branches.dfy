/** Executing a branch: its plans are run and committed chunk by chunk, and the upgrade goes with the first chunk. */
module Branches {
  import opened Wrappers
  import opened ParquetFiles
  import opened Plans
  import opened Catalog
  import opened CatalogStore
  import opened Driver

  // ---------- the chunks of a branch ----------

  /** The plans of a branch, in chunks of a size, what running a chunk yields, and the files to upgrade. */
  datatype Job = Job(
    plans: seq<Plan>, upgrade: seq<ParquetFile>, target: Level, size: nat,
    run: seq<Plan> -> Result<seq<FileParams>, string>)
  {
    /** The plans before chunk k. */
    ghost function Start(k: nat): (n: nat)
      ensures n <= |plans|
    {
      if k == 0 then 0 else if Start(k - 1) + size <= |plans| then Start(k - 1) + size else |plans|
    }

    lemma {:induction false} StartGrows(j: nat, k: nat)
      requires j <= k
      ensures Start(j) <= Start(k)
      decreases k
    {
      if j < k {
        StartGrows(j, k - 1);
      }
    }

    ghost function Chunk(k: nat): seq<Plan> {
      StartGrows(k, k + 1);
      plans[Start(k)..Start(k + 1)]
    }

    /** What goes with chunk k. */
    ghost function Upgrades(k: nat): seq<ParquetFile> {
      if k == 0 then upgrade else []
    }

    ghost function Output(k: nat): seq<FileParams> {
      var r := run(Chunk(k));
      if r.Success? then r.value else []
    }

    /** The output of the chunks before k. */
    ghost function Outputs(k: nat): seq<FileParams> {
      if k == 0 then [] else Outputs(k - 1) + Output(k - 1)
    }

    /** The files the chunks before k put in place: created ones, numbered on from the records there were, and
        upgraded ones. */
    ghost function Returned(k: nat, records: nat): seq<ParquetFile> {
      if k == 0 then []
      else
        var created := Created(Output(k - 1), records + |Outputs(k - 1)|);
        Returned(k - 1, records) + created + Upgraded(Upgrades(k - 1), target)
    }

    /** Chunk k runs, its request is well-formed, and all that is created up to then can be stored. */
    ghost predicate Commits(k: nat, records: seq<Record>, partitions: set<nat>) {
      && run(Chunk(k)).Success? && !BadRequest(AllInputs(Chunk(k)), Upgrades(k), Output(k))
      && Creatable(records, Outputs(k + 1), partitions)
    }
  }

  /** The upgrade is done, to the target level, with the first chunk. */
  lemma {:induction false} UpgradeReturned(job: Job, k: nat, records: nat)
    requires k > 0
    ensures multiset(Upgraded(job.upgrade, job.target)) <= multiset(job.Returned(k, records))
  {
    hide Created, Upgraded;
    if k == 1 {
      assert job.Upgrades(0) == job.upgrade;
    } else {
      UpgradeReturned(job, k - 1, records);
    }
  }

  // ---------- where the files of a branch are stored ----------

  /** The records there were, wherever they were stored, and behind them the new ones. */
  ghost predicate Stored(records: seq<Record>, was: seq<Record>, made: seq<FileParams>) {
    && |records| == |was| + |made|
    && (forall i :: 0 <= i < |was| ==> records[i].objectStoreId == was[i].objectStoreId)
    && (forall k :: 0 <= k < |made| ==> records[|was| + k].objectStoreId == made[k].objectStoreId)
  }

  lemma StoredUses(records: seq<Record>, was: seq<Record>, made: seq<FileParams>, id: nat)
    requires Stored(records, was, made)
    ensures Uses(records, id) <==> Uses(was, id) || exists k :: 0 <= k < |made| && made[k].objectStoreId == id
  {
    if Uses(records, id) {
      var i :| 0 <= i < |records| && records[i].objectStoreId == id;
      if i >= |was| {
        assert records[|was| + (i - |was|)].objectStoreId == made[i - |was|].objectStoreId;
      }
    }
    if Uses(was, id) {
      var i :| 0 <= i < |was| && was[i].objectStoreId == id;
      assert records[i].objectStoreId == id;
    }
    if k :| 0 <= k < |made| && made[k].objectStoreId == id {
      assert records[|was| + k].objectStoreId == id;
    }
  }

  /** What can be stored besides all that was made before can be stored in the table there is now. */
  lemma StoredCreatable(
    records: seq<Record>, was: seq<Record>, made: seq<FileParams>, create: seq<FileParams>, partitions: set<nat>)
    requires Stored(records, was, made) && Creatable(was, made, partitions)
    ensures Creatable(was, made + create, partitions) <==> Creatable(records, create, partitions)
  {
    hide Uses, Stored;
    var all := made + create;
    forall id
      ensures Uses(records, id) <==> Uses(was, id) || exists k :: 0 <= k < |made| && made[k].objectStoreId == id
    {
      StoredUses(records, was, made, id);
    }
    if Creatable(was, all, partitions) {
      forall k | 0 <= k < |create|
        ensures create[k].partition in partitions && !Uses(records, create[k].objectStoreId)
      {
        assert all[|made| + k] == create[k];
        forall j | 0 <= j < |made| ensures made[j].objectStoreId != create[k].objectStoreId {
          assert all[j] == made[j];
        }
      }
      forall j, k | 0 <= j < k < |create| ensures create[j].objectStoreId != create[k].objectStoreId {
        assert all[|made| + j] == create[j] && all[|made| + k] == create[k];
      }
    }
  }

  lemma StoredMore(
    was: seq<Record>, made: seq<FileParams>, before: seq<Record>, now: seq<Record>, delete: seq<nat>,
    upgrade: seq<nat>, create: seq<FileParams>, target: Level)
    requires Stored(before, was, made) && Transacted(before, now, delete, upgrade, create, target)
    ensures Stored(now, was, made + create)
  {
    var all := made + create;
    forall k | 0 <= k < |all| ensures now[|was| + k].objectStoreId == all[k].objectStoreId {
      if k >= |made| {
        assert now[|before| + (k - |made|)] == NewRecord(create[k - |made|], |was| + k + 1);
      }
    }
  }

  // ---------- executing a branch ----------

  /** What the first n plans of a branch take out, with the upgrade that goes with the first of them. */
  ghost function Committed(plans: seq<Plan>, upgrade: seq<ParquetFile>, n: nat): multiset<ParquetFile>
    requires n <= |plans|
  {
    if n == 0 then multiset{} else Pending(plans[..n], upgrade)
  }

  /** Commits the plans of a branch in chunks of four times the permits, and the upgrade with the first chunk. It
      succeeds exactly when every chunk does, and returns what they put in place and the kept files. Otherwise k is
      the first chunk that does not; those before it are committed, and it and those behind it leave no trace. */
  method ExecuteBranch(
    table: Table, plans: seq<Plan>, upgrade: seq<ParquetFile>, keep: seq<ParquetFile>, target: Level, permits: nat,
    run: seq<Plan> -> Result<seq<FileParams>, string>)
    returns (r: Result<seq<ParquetFile>, string>, ghost job: Job, ghost k: nat)
    requires permits > 0 && Numbered(table.records) && Pending(plans, upgrade) <= Live(table.records)
    modifies table`records
    ensures Numbered(table.records) && job == Job(plans, upgrade, target, permits * 4, run)
    ensures Stored(table.records, old(table.records), job.Outputs(k))
    ensures Live(table.records) ==
            old(Live(table.records)) - Committed(plans, upgrade, job.Start(k)) +
            multiset(job.Returned(k, |old(table.records)|))
    ensures r.Success? <==>
      forall j: nat :: job.Start(j) < |plans| ==> job.Commits(j, old(table.records), table.partitions)
    ensures r.Success? ==> job.Start(k) == |plans| && r.value == job.Returned(k, |old(table.records)|) + keep
    ensures forall j :: 0 <= j < k ==> job.Commits(j, old(table.records), table.partitions)
    ensures r.Failure? ==> job.Start(k) < |plans| && !job.Commits(k, old(table.records), table.partitions)
  {
    hide Live, Transacted, Numbered, Pending, Committed, Stored, Creatable, Progress, BadRequest;
    hide Job.Start, Job.Chunk, Job.Upgrades, Job.Outputs, Job.Returned, Job.Commits;
    var filesNext: seq<ParquetFile>, rest, left := [], plans, upgrade;
    ghost var was := table.records;
    job, k := Job(plans, upgrade, target, permits * 4, run), 0;
    NothingDone(job, was, table.partitions);
    while rest != []
      invariant Progress(job, k, was, table.records, table.partitions, filesNext)
      invariant rest == plans[job.Start(k)..] && left == job.Upgrades(k)
      decreases |rest|
    {
      var size := if permits * 4 <= |rest| then permits * 4 else |rest|;
      var chunk, after := rest[..size], rest[size..];
      ghost var before := table.records;
      NextChunk(job, k, chunk, after);
      ChunkReady(job, k, was, before, table.partitions, filesNext);
      var made := CommitChunk(table, chunk, left, target, run);
      if made.Failure? {
        SoFar(job, k, was, before, table.partitions, filesNext);
        return Failure(made.error), job, k;
      }
      ChunkDone(job, k, was, before, table.records, table.partitions, filesNext, made.value);
      filesNext, rest, left := filesNext + made.value, after, [];
      k := k + 1;
    }
    AllDone(job, k, was, table.records, table.partitions, filesNext);
    r := Success(filesNext + keep);
  }

  /** The chunks before k are committed, and nothing else is. */
  ghost predicate Progress(
    job: Job, k: nat, was: seq<Record>, records: seq<Record>, partitions: set<nat>, next: seq<ParquetFile>)
  {
    && Numbered(records) && (k > 0 ==> job.Start(k) > 0)
    && next == job.Returned(k, |was|) && Stored(records, was, job.Outputs(k))
    && Creatable(was, job.Outputs(k), partitions) && (forall j :: 0 <= j < k ==> job.Commits(j, was, partitions))
    && Live(records) == Live(was) - Committed(job.plans, job.upgrade, job.Start(k)) + multiset(next)
  }

  lemma NothingDone(job: Job, was: seq<Record>, partitions: set<nat>)
    requires Numbered(was)
    ensures Progress(job, 0, was, was, partitions, []) && job.plans[job.Start(0)..] == job.plans
    ensures job.Upgrades(0) == job.upgrade
  {
  }

  lemma SoFar(
    job: Job, k: nat, was: seq<Record>, records: seq<Record>, partitions: set<nat>, next: seq<ParquetFile>)
    requires Progress(job, k, was, records, partitions, next)
    ensures Numbered(records) && Stored(records, was, job.Outputs(k)) && (k > 0 ==> job.Start(k) > 0)
    ensures next == job.Returned(k, |was|)
    ensures Live(records) == Live(was) - Committed(job.plans, job.upgrade, job.Start(k)) + multiset(next)
    ensures forall j :: 0 <= j < k ==> job.Commits(j, was, partitions)
  {
  }

  lemma AllDone(
    job: Job, k: nat, was: seq<Record>, records: seq<Record>, partitions: set<nat>, next: seq<ParquetFile>)
    requires Progress(job, k, was, records, partitions, next) && job.plans[job.Start(k)..] == []
    ensures Numbered(records) && Stored(records, was, job.Outputs(k)) && job.Start(k) == |job.plans|
    ensures next == job.Returned(k, |was|)
    ensures Live(records) == Live(was) - Committed(job.plans, job.upgrade, job.Start(k)) + multiset(next)
    ensures forall j :: 0 <= j < k ==> job.Commits(j, was, partitions)
    ensures forall j: nat :: job.Start(j) < |job.plans| ==> job.Commits(j, was, partitions)
  {
    hide Job.Returned, Job.Commits, Live, Creatable, Stored;
    forall j: nat | job.Start(j) < |job.plans| ensures job.Commits(j, was, partitions) {
      if k <= j {
        job.StartGrows(k, j);
      }
    }
  }

  lemma NextChunk(job: Job, k: nat, chunk: seq<Plan>, after: seq<Plan>)
    requires job.size > 0 && job.Start(k) < |job.plans|
    requires
      var rest := job.plans[job.Start(k)..];
      var size := if job.size <= |rest| then job.size else |rest|;
      chunk == rest[..size] && after == rest[size..]
    ensures chunk == job.Chunk(k) && after == job.plans[job.Start(k + 1)..] && job.Upgrades(k + 1) == []
  {
  }

  /** What a chunk takes out is live before, and it will be committed exactly if the job says so. */
  lemma ChunkReady(
    job: Job, k: nat, was: seq<Record>, records: seq<Record>, partitions: set<nat>, next: seq<ParquetFile>)
    requires Progress(job, k, was, records, partitions, next)
    requires job.size > 0 && job.Start(k) < |job.plans| && Pending(job.plans, job.upgrade) <= Live(was)
    ensures Numbered(records) && Pending(job.Chunk(k), job.Upgrades(k)) <= Live(records)
    ensures job.Commits(k, was, partitions) <==>
      && job.run(job.Chunk(k)).Success?
      && !BadRequest(AllInputs(job.Chunk(k)), job.Upgrades(k), job.run(job.Chunk(k)).value)
      && Creatable(records, job.run(job.Chunk(k)).value, partitions)
  {
    hide Live, Pending, Committed, Creatable, Stored, BadRequest;
    var gone, out, todo := Taken(job, k);
    Replaced(Live(was), gone, multiset(next), out, todo, multiset{});
    StoredCreatable(records, was, job.Outputs(k), job.Output(k), partitions);
  }

  lemma Taken(job: Job, k: nat)
    returns (gone: multiset<ParquetFile>, out: multiset<ParquetFile>, todo: multiset<ParquetFile>)
    requires job.size > 0 && job.Start(k) < |job.plans| && (k > 0 ==> job.Start(k) > 0)
    ensures gone == Committed(job.plans, job.upgrade, job.Start(k)) && out == Pending(job.Chunk(k), job.Upgrades(k))
    ensures gone + (out + todo) == Pending(job.plans, job.upgrade)
    ensures gone + out == Committed(job.plans, job.upgrade, job.Start(k + 1))
  {
    hide Pending, Committed;
    var n, m := job.Start(k), job.Start(k + 1);
    gone, out := Committed(job.plans, job.upgrade, n), Pending(job.Chunk(k), job.Upgrades(k));
    todo := Pending(job.plans[m..], []);
    ChunkPending(job.plans, job.upgrade, n, m, job.Upgrades(k), job.Chunk(k), job.plans[m..], gone);
  }

  lemma ChunkDone(
    job: Job, k: nat, was: seq<Record>, before: seq<Record>, now: seq<Record>, partitions: set<nat>,
    next: seq<ParquetFile>, made: seq<ParquetFile>)
    requires Progress(job, k, was, before, partitions, next) && Numbered(now) && job.Commits(k, was, partitions)
    requires job.size > 0 && job.Start(k) < |job.plans| && Pending(job.plans, job.upgrade) <= Live(was)
    requires Live(now) == Live(before) - Pending(job.Chunk(k), job.Upgrades(k)) + multiset(made)
    requires
      Transacted(before, now, Ids(AllInputs(job.Chunk(k))), Ids(job.Upgrades(k)), job.Output(k), job.target)
    requires made == Created(job.Output(k), |before|) + Upgraded(job.Upgrades(k), job.target)
    ensures Progress(job, k + 1, was, now, partitions, next + made)
  {
    hide Live, Pending, Committed, Creatable, Stored, Transacted, Numbered, Created, Upgraded;
    hide Job.Chunk, Job.Start, Job.Outputs, Job.Output, Job.Upgrades, Job.Returned, Job.Commits;
    hide Progress, Ids, AllInputs;
    SoFar(job, k, was, before, partitions, next);
    LiveNext(job, k, Live(was), multiset(next), multiset(made));
    StoredMore(
      was, job.Outputs(k), before, now, Ids(AllInputs(job.Chunk(k))), Ids(job.Upgrades(k)), job.Output(k), job.target);
    StoredLength(before, was, job.Outputs(k));
    OneMoreChunk(job, k, |was|, made);
    assert multiset(next + made) == multiset(next) + multiset(made);
    CommittedSoFar(job, k, was, partitions);
    IsProgress(job, k + 1, was, now, partitions, next + made);
  }

  lemma IsProgress(
    job: Job, k: nat, was: seq<Record>, records: seq<Record>, partitions: set<nat>, next: seq<ParquetFile>)
    requires Numbered(records) && job.Start(k) > 0 && next == job.Returned(k, |was|)
    requires Stored(records, was, job.Outputs(k)) && Creatable(was, job.Outputs(k), partitions)
    requires forall j :: 0 <= j < k ==> job.Commits(j, was, partitions)
    requires Live(records) == Live(was) - Committed(job.plans, job.upgrade, job.Start(k)) + multiset(next)
    ensures Progress(job, k, was, records, partitions, next)
  {
  }

  lemma OneMoreChunk(job: Job, k: nat, records: nat, made: seq<ParquetFile>)
    requires made == Created(job.Output(k), records + |job.Outputs(k)|) + Upgraded(job.Upgrades(k), job.target)
    ensures job.Outputs(k + 1) == job.Outputs(k) + job.Output(k)
    ensures job.Returned(k + 1, records) == job.Returned(k, records) + made
  {
    hide Created, Upgraded, Job.Chunk, Job.Output;
    Assoc(
      job.Returned(k, records), Created(job.Output(k), records + |job.Outputs(k)|),
      Upgraded(job.Upgrades(k), job.target));
  }

  lemma LiveNext(
    job: Job, k: nat, live: multiset<ParquetFile>, next: multiset<ParquetFile>, made: multiset<ParquetFile>)
    requires job.size > 0 && job.Start(k) < |job.plans| && (k > 0 ==> job.Start(k) > 0)
    requires Pending(job.plans, job.upgrade) <= live
    ensures live - Committed(job.plans, job.upgrade, job.Start(k)) + next -
            Pending(job.Chunk(k), job.Upgrades(k)) + made ==
            live - Committed(job.plans, job.upgrade, job.Start(k + 1)) + (next + made)
    ensures job.Start(k + 1) > 0
  {
    hide Pending, Committed;
    var gone, out, todo := Taken(job, k);
    Replaced(live, gone, next, out, todo, made);
  }

  lemma CommittedSoFar(job: Job, k: nat, was: seq<Record>, partitions: set<nat>)
    requires job.Commits(k, was, partitions) && forall j :: 0 <= j < k ==> job.Commits(j, was, partitions)
    ensures forall j :: 0 <= j < k + 1 ==> job.Commits(j, was, partitions)
    ensures Creatable(was, job.Outputs(k + 1), partitions)
  {
    hide Creatable;
  }

  lemma StoredLength(records: seq<Record>, was: seq<Record>, made: seq<FileParams>)
    requires Stored(records, was, made)
    ensures |records| == |was| + |made|
  {
  }

  /** A chunk takes out its share of what is pending, and what comes after it the rest. */
  lemma ChunkPending(
    plans: seq<Plan>, upgrade: seq<ParquetFile>, n: nat, m: nat, left: seq<ParquetFile>, chunk: seq<Plan>,
    after: seq<Plan>, gone: multiset<ParquetFile>)
    requires n < m <= |plans| && left == (if n == 0 then upgrade else []) && gone == Committed(plans, upgrade, n)
    requires chunk == plans[n..m] && after == plans[m..]
    ensures gone + (Pending(chunk, left) + Pending(after, [])) == Pending(plans, upgrade)
    ensures gone + Pending(chunk, left) == Committed(plans, upgrade, m)
  {
    hide Pending;
    PendingSplit(plans, m, upgrade);
    PendingSplit(plans[..m], n, upgrade);
    assert plans[..m][..n] == plans[..n] && plans[..m][n..] == chunk;
    assert n == 0 ==> chunk == plans[..m];
    assert multiset{} + Pending(chunk, left) == Pending(chunk, left);
    SumAssoc(gone, Pending(chunk, left), Pending(after, []));
  }

  lemma SumAssoc(a: multiset<ParquetFile>, b: multiset<ParquetFile>, c: multiset<ParquetFile>)
    ensures a + b + c == a + (b + c)
  {
  }
}
