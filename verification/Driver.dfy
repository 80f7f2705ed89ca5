/** The compaction driver: running plans with a growing share of the permits, and committing a chunk of them. */
module Driver {
  import opened Wrappers
  import opened ParquetFiles
  import opened Plans
  import opened Catalog
  import opened CatalogStore

  // ---------- running one plan ----------

  datatype RunError = OutOfMemory | OtherError

  type Outcome = Result<seq<FileParams>, RunError>

  function Pow2(n: nat): (p: nat)
    ensures p > 0
  {
    if n == 0 then 1 else 2 * Pow2(n - 1)
  }

  /** Runs a plan with one permit and doubles the permits as long as it runs out of memory and there are enough.
      Without any permits the plan is not run at all, and that passes for success. */
  method ExecutePlan(permits: nat, job: nat -> Outcome) returns (r: Outcome, tried: seq<nat>)
    ensures forall i :: 0 <= i < |tried| ==> tried[i] == Pow2(i) && tried[i] <= permits
    ensures forall i :: 0 <= i < |tried| - 1 ==> job(tried[i]) == Failure(OutOfMemory)
    ensures permits == 0 <==> tried == []
    ensures r == if permits == 0 then Success([]) else job(tried[|tried| - 1])
    ensures r == Failure(OutOfMemory) ==> Pow2(|tried|) > permits
  {
    hide Pow2;
    Pow2Step(0);
    var requested := 1;
    r, tried := Success([]), [];
    while requested <= permits
      invariant requested == Pow2(|tried|)
      invariant forall i :: 0 <= i < |tried| ==> tried[i] == Pow2(i) && tried[i] <= permits
      invariant forall i :: 0 <= i < |tried| ==> job(tried[i]) == Failure(OutOfMemory)
      invariant r == if tried == [] then Success([]) else job(tried[|tried| - 1])
      decreases permits + 1 - requested
    {
      r := job(requested);
      tried := tried + [requested];
      if r != Failure(OutOfMemory) {
        return;
      }
      Pow2Step(|tried|);
      requested := requested * 2;
    }
  }

  lemma Pow2Step(n: nat)
    ensures n == 0 ==> Pow2(n) == 1
    ensures n > 0 ==> Pow2(n) == 2 * Pow2(n - 1)
  {
  }

  // ---------- committing ----------

  /** A commit must upgrade something, or replace some files by some others. */
  predicate BadRequest(delete: seq<ParquetFile>, upgrade: seq<ParquetFile>, create: seq<FileParams>) {
    || (delete == [] && create == [] && upgrade == [])
    || ((delete == []) != (create == []))
  }

  /** A request is well-formed exactly when it replaces some files by some others, or replaces none and upgrades
      some. */
  lemma WellFormedIff(delete: seq<ParquetFile>, upgrade: seq<ParquetFile>, create: seq<FileParams>)
    ensures !BadRequest(delete, upgrade, create) <==>
      (|delete| > 0 && |create| > 0) || (|delete| == |create| == 0 && |upgrade| > 0)
  {
  }

  /** Refuses malformed requests, and otherwise hands the ids of the files to the catalog. */
  method Commit(
    table: Table, delete: seq<ParquetFile>, upgrade: seq<ParquetFile>, create: seq<FileParams>, target: Level)
    returns (r: Result<seq<nat>, string>)
    requires Numbered(table.records) && multiset(delete) + multiset(upgrade) <= Live(table.records)
    modifies table`records
    ensures Numbered(table.records)
    ensures r.Success? <==>
      !BadRequest(delete, upgrade, create) && Creatable(old(table.records), create, table.partitions)
    ensures r.Failure? ==> table.records == old(table.records)
    ensures r.Success? ==> Transacted(old(table.records), table.records, Ids(delete), Ids(upgrade), create, target)
    ensures r.Success? ==>
      |r.value| == |create| && forall k :: 0 <= k < |create| ==> r.value[k] == |old(table.records)| + k + 1
  {
    hide Live, IsLive, Numbered, Transacted, DistinctIds, Creatable;
    if BadRequest(delete, upgrade, create) {
      return Failure("bad request");
    }
    BothLive(table.records, delete, upgrade);
    IdsOfLive(table.records, delete, upgrade);
    r := table.CreateUpgradeDelete(Ids(delete), Ids(upgrade), create, target);
  }

  /** Commits, and returns the created and the upgraded files as the catalog holds them now. */
  method UpdateCatalog(
    table: Table, delete: seq<ParquetFile>, upgrade: seq<ParquetFile>, create: seq<FileParams>, target: Level)
    returns (r: Result<(seq<ParquetFile>, seq<ParquetFile>), string>)
    requires Numbered(table.records) && multiset(delete) + multiset(upgrade) <= Live(table.records)
    modifies table`records
    ensures Numbered(table.records)
    ensures r.Success? <==>
      !BadRequest(delete, upgrade, create) && Creatable(old(table.records), create, table.partitions)
    ensures r.Failure? ==> table.records == old(table.records)
    ensures r.Success? ==> r.value == (Created(create, |old(table.records)|), Upgraded(upgrade, target))
    ensures r.Success? ==> Transacted(old(table.records), table.records, Ids(delete), Ids(upgrade), create, target)
    ensures r.Success? ==>
      var was := old(Live(table.records));
      Live(table.records) == was - multiset(delete) - multiset(upgrade) + multiset(r.value.0) + multiset(r.value.1)
  {
    hide Live, IsLive, Numbered, Transacted, DistinctIds, Creatable;
    ghost var was := table.records;
    var ids := Commit(table, delete, upgrade, create, target);
    if ids.Failure? {
      return Failure(ids.error);
    }
    LiveAfter(was, table.records, delete, upgrade, create, target);
    var created := WithIds(create, ids.value, |was|);
    return Success((created, Upgraded(upgrade, target)));
  }

  /** Gives the created files the ids the catalog assigned. */
  method WithIds(create: seq<FileParams>, ids: seq<nat>, ghost n: nat) returns (created: seq<ParquetFile>)
    requires |ids| == |create| && forall k :: 0 <= k < |create| ==> ids[k] == n + k + 1
    ensures created == Created(create, n)
  {
    created := seq(|create|, k requires 0 <= k < |create| => FromParams(create[k], ids[k]));
  }

  lemma IdsOfLive(was: seq<Record>, delete: seq<ParquetFile>, upgrade: seq<ParquetFile>)
    requires (forall f :: f in delete ==> IsLive(was, f)) && (forall f :: f in upgrade ==> IsLive(was, f))
    requires forall f, g :: f in delete && g in upgrade ==> f.id != g.id
    ensures forall id :: id in Ids(delete) ==> id !in Ids(upgrade) && 1 <= id <= |was|
  {
    forall id | id in Ids(delete) ensures id !in Ids(upgrade) && 1 <= id <= |was| {
      InIds(delete, id);
      InIds(upgrade, id);
    }
  }

  // ---------- one branch, chunk by chunk ----------

  lemma Assoc<T>(a: seq<T>, b: seq<T>, c: seq<T>)
    ensures a + b + c == a + (b + c)
  {
  }

  lemma InputsLast(plans: seq<Plan>, p: Plan)
    ensures AllInputs(plans + [p]) == AllInputs(plans) + p.Inputs()
  {
    assert (plans + [p])[..|plans|] == plans;
  }

  lemma InputsNone(plans: seq<Plan>)
    ensures AllInputs(plans + []) == AllInputs(plans) + AllInputs([])
  {
    assert plans + [] == plans;
  }

  lemma {:induction false} InputsConcat(a: seq<Plan>, b: seq<Plan>)
    ensures AllInputs(a + b) == AllInputs(a) + AllInputs(b)
  {
    hide AllInputs;
    if b == [] {
      InputsNone(a);
    } else {
      var before, last := b[..|b| - 1], b[|b| - 1];
      assert b == before + [last];
      InputsConcat(a, before);
      InputsLast(a + before, last);
      InputsLast(before, last);
      Assoc(a, before, [last]);
      Assoc(AllInputs(a), AllInputs(before), last.Inputs());
    }
  }

  /** The files that plans and an upgrade still take out. */
  ghost function Pending(plans: seq<Plan>, upgrade: seq<ParquetFile>): multiset<ParquetFile> {
    multiset(AllInputs(plans)) + multiset(upgrade)
  }

  lemma PendingSplit(plans: seq<Plan>, n: nat, upgrade: seq<ParquetFile>)
    requires n <= |plans|
    ensures Pending(plans, upgrade) == Pending(plans[..n], upgrade) + Pending(plans[n..], [])
  {
    InputsConcat(plans[..n], plans[n..]);
    assert plans[..n] + plans[n..] == plans;
  }

  /** Taking out some pending files and putting new ones in leaves the other pending ones live. */
  lemma Replaced(
    was: multiset<ParquetFile>, gone: multiset<ParquetFile>, next: multiset<ParquetFile>,
    out: multiset<ParquetFile>, rest: multiset<ParquetFile>, made: multiset<ParquetFile>)
    requires gone + (out + rest) <= was
    ensures out <= was - gone + next
    ensures gone + out + rest <= was && was - gone + next - out + made == was - (gone + out) + (next + made)
  {
    forall f ensures out[f] <= (was - gone + next)[f] && (gone + out + rest)[f] <= was[f] {
      assert (gone + (out + rest))[f] <= was[f];
    }
    forall f ensures (was - gone + next - out + made)[f] == (was - (gone + out) + (next + made))[f] {
      assert (gone + (out + rest))[f] <= was[f];
    }
  }

  /** Runs the plans of a chunk and commits them, with the upgrade given. */
  method CommitChunk(
    table: Table, chunk: seq<Plan>, upgrade: seq<ParquetFile>, target: Level,
    run: seq<Plan> -> Result<seq<FileParams>, string>)
    returns (r: Result<seq<ParquetFile>, string>)
    requires Numbered(table.records) && Pending(chunk, upgrade) <= Live(table.records)
    modifies table`records
    ensures Numbered(table.records)
    ensures r.Success? <==>
      && run(chunk).Success? && !BadRequest(AllInputs(chunk), upgrade, run(chunk).value)
      && Creatable(old(table.records), run(chunk).value, table.partitions)
    ensures r.Failure? ==> table.records == old(table.records)
    ensures r.Success? ==>
      (Live(table.records) == old(Live(table.records)) - Pending(chunk, upgrade) + multiset(r.value))
    ensures r.Success? ==>
      && run(chunk).Success?
      && Transacted(old(table.records), table.records, Ids(AllInputs(chunk)), Ids(upgrade), run(chunk).value, target)
      && r.value == Created(run(chunk).value, |old(table.records)|) + Upgraded(upgrade, target)
  {
    hide Live, AllInputs, Transacted, Numbered;
    var delete := AllInputs(chunk);
    var created := run(chunk);
    if created.Failure? {
      return Failure(created.error);
    }
    ghost var was := Live(table.records);
    var committed := UpdateCatalog(table, delete, upgrade, created.value, target);
    if committed.Failure? {
      return Failure(committed.error);
    }
    var (made, upgraded) := committed.value;
    Regroup(was, multiset(delete), multiset(upgrade), multiset(made), multiset(upgraded));
    assert multiset(made + upgraded) == multiset(made) + multiset(upgraded);
    return Success(made + upgraded);
  }

  lemma Regroup(
    live: multiset<ParquetFile>, d: multiset<ParquetFile>, u: multiset<ParquetFile>, m: multiset<ParquetFile>,
    v: multiset<ParquetFile>)
    ensures live - d - u + m + v == live - (d + u) + (m + v)
  {
  }
}
