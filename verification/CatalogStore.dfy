/** The catalog's table of parquet files: records that are created, upgraded and flagged as deleted in one
    transaction, and never removed. */
module CatalogStore {
  import opened Wrappers
  import opened ParquetFiles
  import opened Plans
  import opened Catalog

  /** A file, where it is stored, and whether it is flagged as deleted. */
  datatype Record = Record(file: ParquetFile, objectStoreId: nat, deleted: bool)

  /** Ids count up from one in the order of creation. */
  ghost predicate Numbered(records: seq<Record>) {
    forall i :: 0 <= i < |records| ==> records[i].file.id == i + 1
  }

  /** The files not flagged as deleted. */
  ghost function Live(records: seq<Record>): multiset<ParquetFile> {
    if records == [] then multiset{}
    else
      var last := records[|records| - 1];
      Live(records[..|records| - 1]) + (if last.deleted then multiset{} else multiset{last.file})
  }

  ghost predicate IsLive(records: seq<Record>, f: ParquetFile) {
    1 <= f.id <= |records| && records[f.id - 1].file == f && !records[f.id - 1].deleted
  }

  /** A file is live once or not at all. */
  lemma {:induction false} LiveAt(records: seq<Record>, f: ParquetFile)
    requires Numbered(records)
    ensures Live(records)[f] == if IsLive(records, f) then 1 else 0
  {
    if records != [] {
      var before, last := records[..|records| - 1], records[|records| - 1];
      LiveAt(before, f);
      assert last.file.id == |records|;
    }
  }

  /** One record after the transaction. */
  function Changed(r: Record, delete: seq<nat>, upgrade: seq<nat>, target: Level): Record {
    r.(
      file := if r.file.id in upgrade then r.file.(level := target) else r.file,
      deleted := r.deleted || r.file.id in delete)
  }

  function NewRecord(params: FileParams, id: nat): Record {
    Record(FromParams(params, id), params.objectStoreId, false)
  }

  /** Some record, deleted or not, is stored there. */
  ghost predicate Uses(records: seq<Record>, objectStoreId: nat) {
    exists i :: 0 <= i < |records| && records[i].objectStoreId == objectStoreId
  }

  /** New files are stored where no other is, and their partitions are known. */
  ghost predicate Creatable(records: seq<Record>, create: seq<FileParams>, partitions: set<nat>) {
    && (forall k :: 0 <= k < |create| ==> create[k].partition in partitions && !Uses(records, create[k].objectStoreId))
    && (forall j, k :: 0 <= j < k < |create| ==> create[j].objectStoreId != create[k].objectStoreId)
  }

  /** The created files, numbered after the existing ones. */
  function Created(create: seq<FileParams>, n: nat): (files: seq<ParquetFile>)
    ensures |files| == |create| && forall k :: 0 <= k < |create| ==> files[k] == FromParams(create[k], n + k + 1)
  {
    seq(|create|, k requires 0 <= k < |create| => FromParams(create[k], n + k + 1))
  }

  /** The table after the transaction. */
  ghost predicate Transacted(
    was: seq<Record>, now: seq<Record>, delete: seq<nat>, upgrade: seq<nat>, create: seq<FileParams>, target: Level)
  {
    && |now| == |was| + |create|
    && (forall i :: 0 <= i < |was| ==> now[i] == Changed(was[i], delete, upgrade, target))
    && (forall k :: 0 <= k < |create| ==> now[|was| + k] == NewRecord(create[k], |was| + k + 1))
  }

  lemma TransactedNumbered(
    was: seq<Record>, now: seq<Record>, delete: seq<nat>, upgrade: seq<nat>, create: seq<FileParams>, target: Level)
    requires Numbered(was) && Transacted(was, now, delete, upgrade, create, target)
    ensures Numbered(now)
  {
    forall i | 0 <= i < |now| ensures now[i].file.id == i + 1 {
      if i >= |was| {
        assert now[|was| + (i - |was|)] == NewRecord(create[i - |was|], i + 1);
      }
    }
  }

  class Table {
    var records: seq<Record>
    var partitions: set<nat>

    constructor (partitions: set<nat>)
      ensures records == [] && Numbered(records) && this.partitions == partitions
    {
      records := [];
      this.partitions := partitions;
    }

    /** Stages all changes and applies them only if every file to delete is found and every new file is stored in a
        place of its own and in a known partition. */
    method CreateUpgradeDelete(delete: seq<nat>, upgrade: seq<nat>, create: seq<FileParams>, target: Level)
      returns (r: Result<seq<nat>, string>)
      requires Numbered(records) && (forall id :: id in delete ==> id !in upgrade)
      modifies this`records
      ensures Numbered(records)
      ensures r.Success? <==>
        (forall id :: id in delete ==> 1 <= id <= |old(records)|) && Creatable(old(records), create, partitions)
      ensures r.Failure? ==> records == old(records)
      ensures r.Success? ==> Transacted(old(records), records, delete, upgrade, create, target)
      ensures r.Success? ==>
        |r.value| == |create| && forall k :: 0 <= k < |create| ==> r.value[k] == |old(records)| + k + 1
    {
      hide Creatable;
      var found, stage := FlagForDelete(records, delete);
      if !found {
        return Failure("parquet record not found");
      }
      var upgraded := UpdateLevel(stage, upgrade, target);
      SameStores(records, upgraded, create, partitions);
      var ok, all, ids := CreateAll(upgraded, create, partitions);
      if !ok {
        return Failure("file exists or partition not found");
      }
      assert forall i :: 0 <= i < |stage| ==> all[i] == all[..|stage|][i] == upgraded[i];
      TransactedNumbered(records, all, delete, upgrade, create, target);
      records := all;
      return Success(ids);
    }
  }

  /** Flags the files named, one after the other, until one is not found. */
  method FlagForDelete(records: seq<Record>, delete: seq<nat>) returns (found: bool, stage: seq<Record>)
    requires Numbered(records)
    ensures found <==> forall id :: id in delete ==> 1 <= id <= |records|
    ensures found ==>
      |stage| == |records| && forall i :: 0 <= i < |stage| ==> stage[i] == Changed(records[i], delete, [], Initial)
  {
    stage := records;
    for i := 0 to |delete|
      invariant |stage| == |records|
      invariant forall j :: 0 <= j < i ==> 1 <= delete[j] <= |records|
      invariant forall j :: 0 <= j < |stage| ==> stage[j] == Changed(records[j], delete[..i], [], Initial)
    {
      assert delete[..i + 1] == delete[..i] + [delete[i]];
      if !(1 <= delete[i] <= |stage|) {
        assert delete[i] in delete;
        return false, stage;
      }
      stage := stage[delete[i] - 1 := stage[delete[i] - 1].(deleted := true)];
    }
    assert delete[..|delete|] == delete;
    return true, stage;
  }

  /** Sets the level of the files named; ids that are not found are passed over. */
  method UpdateLevel(records: seq<Record>, upgrade: seq<nat>, target: Level) returns (r: seq<Record>)
    ensures |r| == |records| && forall i :: 0 <= i < |r| ==> r[i] == Changed(records[i], [], upgrade, target)
  {
    r := [];
    for i := 0 to |records|
      invariant |r| == i && forall j :: 0 <= j < i ==> r[j] == Changed(records[j], [], upgrade, target)
    {
      var f := records[i].file;
      r := r + [if f.id in upgrade then records[i].(file := f.(level := target)) else records[i]];
    }
  }

  /** Neither flagging nor upgrading moves a file. */
  lemma SameStores(a: seq<Record>, b: seq<Record>, create: seq<FileParams>, partitions: set<nat>)
    requires |a| == |b| && forall i :: 0 <= i < |a| ==> a[i].objectStoreId == b[i].objectStoreId
    ensures Creatable(a, create, partitions) == Creatable(b, create, partitions)
  {
    forall id ensures Uses(a, id) == Uses(b, id) {
    }
  }

  method IsUsed(records: seq<Record>, objectStoreId: nat) returns (r: bool)
    ensures r <==> Uses(records, objectStoreId)
  {
    for i := 0 to |records|
      invariant forall j :: 0 <= j < i ==> records[j].objectStoreId != objectStoreId
    {
      if records[i].objectStoreId == objectStoreId {
        return true;
      }
    }
    return false;
  }

  method CreateAll(records: seq<Record>, create: seq<FileParams>, partitions: set<nat>)
    returns (ok: bool, r: seq<Record>, ids: seq<nat>)
    ensures ok <==> Creatable(records, create, partitions)
    ensures ok ==> |r| == |records| + |create| && r[..|records|] == records
    ensures ok ==> forall k :: 0 <= k < |create| ==> r[|records| + k] == NewRecord(create[k], |records| + k + 1)
    ensures ok ==> |ids| == |create| && forall k :: 0 <= k < |create| ==> ids[k] == |records| + k + 1
  {
    hide Creatable, Uses;
    r, ids := records, [];
    NoneCreated(records, create, partitions);
    for i := 0 to |create|
      invariant |r| == |records| + i && r[..|records|] == records
      invariant forall k :: 0 <= k < i ==> r[|records| + k] == NewRecord(create[k], |records| + k + 1)
      invariant |ids| == i && forall k :: 0 <= k < i ==> ids[k] == |records| + k + 1
      invariant Creatable(records, create[..i], partitions)
    {
      var used := IsUsed(r, create[i].objectStoreId);
      OneMore(records, r, create, i, partitions);
      if used || create[i].partition !in partitions {
        NotAll(records, create, i + 1, partitions);
        return false, r, ids;
      }
      var record := NewRecord(create[i], |r| + 1);
      r, ids := r + [record], ids + [|r| + 1];
    }
    assert create[..|create|] == create;
    ok := true;
  }

  lemma NoneCreated(records: seq<Record>, create: seq<FileParams>, partitions: set<nat>)
    ensures Creatable(records, create[..0], partitions)
  {
  }

  lemma OneMore(records: seq<Record>, r: seq<Record>, create: seq<FileParams>, i: nat, partitions: set<nat>)
    requires i < |create| && |r| == |records| + i && r[..|records|] == records
    requires forall k :: 0 <= k < i ==> r[|records| + k].objectStoreId == create[k].objectStoreId
    requires Creatable(records, create[..i], partitions)
    ensures Creatable(records, create[..i + 1], partitions) <==>
      !Uses(r, create[i].objectStoreId) && create[i].partition in partitions
  {
    var id := create[i].objectStoreId;
    UsesParts(records, r, create, i, id);
    var more := create[..i + 1];
    assert forall k :: 0 <= k < i ==> more[k] == create[..i][k];
    assert more[i] == create[i];
  }

  lemma UsesParts(records: seq<Record>, r: seq<Record>, create: seq<FileParams>, i: nat, id: nat)
    requires i < |create| && |r| == |records| + i && r[..|records|] == records
    requires forall k :: 0 <= k < i ==> r[|records| + k].objectStoreId == create[k].objectStoreId
    ensures Uses(r, id) <==> Uses(records, id) || exists k :: 0 <= k < i && create[k].objectStoreId == id
  {
    if Uses(r, id) {
      var j :| 0 <= j < |r| && r[j].objectStoreId == id;
      if j < |records| {
        assert records[j] == r[j];
      } else {
        assert r[|records| + (j - |records|)].objectStoreId == create[j - |records|].objectStoreId;
      }
    }
    if Uses(records, id) {
      var j :| 0 <= j < |records| && records[j].objectStoreId == id;
      assert r[j] == records[j];
    }
    forall k | 0 <= k < i && create[k].objectStoreId == id ensures Uses(r, id) {
      assert r[|records| + k].objectStoreId == id;
    }
  }

  lemma NotAll(records: seq<Record>, create: seq<FileParams>, n: nat, partitions: set<nat>)
    requires n <= |create|
    ensures Creatable(records, create, partitions) ==> Creatable(records, create[..n], partitions)
  {
  }

  // ---------- what a transaction does to the live files ----------

  function Ids(files: seq<ParquetFile>): (ids: seq<nat>)
    ensures |ids| == |files| && forall i :: 0 <= i < |files| ==> ids[i] == files[i].id
  {
    seq(|files|, i requires 0 <= i < |files| => files[i].id)
  }

  function Upgraded(files: seq<ParquetFile>, target: Level): (r: seq<ParquetFile>)
    ensures |r| == |files| && forall i :: 0 <= i < |files| ==> r[i] == files[i].(level := target)
  {
    seq(|files|, i requires 0 <= i < |files| => files[i].(level := target))
  }

  /** Files all live at the same time have distinct ids. */
  lemma LiveDistinct(records: seq<Record>, files: seq<ParquetFile>)
    requires Numbered(records) && multiset(files) <= Live(records)
    ensures DistinctIds(files) && forall f :: f in files ==> IsLive(records, f)
  {
    forall f | f in files ensures IsLive(records, f) {
      assert f in multiset(files) && f in Live(records);
      LiveAt(records, f);
    }
    forall i, j | 0 <= i < j < |files| ensures files[i].id != files[j].id {
      assert files[i] in files && files[j] in files;
      LiveAt(records, files[i]);
      CountTwo(files, i, j);
      assert multiset(files)[files[i]] <= Live(records)[files[i]];
    }
  }

  lemma InIds(files: seq<ParquetFile>, id: nat)
    ensures id in Ids(files) <==> exists f :: f in files && f.id == id
  {
    if id in Ids(files) {
      var i :| 0 <= i < |files| && Ids(files)[i] == id;
      assert files[i] in files;
    }
    forall f | f in files && f.id == id ensures id in Ids(files) {
      var i :| 0 <= i < |files| && files[i] == f;
      assert Ids(files)[i] == id;
    }
  }

  /** Deleting and upgrading live files and creating new ones does just that to the live files. */
  lemma LiveAfter(
    was: seq<Record>, now: seq<Record>, delete: seq<ParquetFile>, upgrade: seq<ParquetFile>, create: seq<FileParams>,
    target: Level)
    requires Numbered(was) && multiset(delete) + multiset(upgrade) <= Live(was)
    requires Transacted(was, now, Ids(delete), Ids(upgrade), create, target)
    ensures Live(now) ==
            Live(was) - multiset(delete) - multiset(upgrade) +
            multiset(Upgraded(upgrade, target)) + multiset(Created(create, |was|))
  {
    hide Live, Transacted;
    TransactedNumbered(was, now, Ids(delete), Ids(upgrade), create, target);
    var made := multiset(Upgraded(upgrade, target)) + multiset(Created(create, |was|));
    forall f ensures Live(now)[f] == (Live(was) - multiset(delete) - multiset(upgrade) + made)[f] {
      LiveCount(was, now, delete, upgrade, create, target, f);
    }
  }

  /** Both kinds are live, with distinct ids over all. */
  lemma BothLive(was: seq<Record>, delete: seq<ParquetFile>, upgrade: seq<ParquetFile>)
    requires Numbered(was) && multiset(delete) + multiset(upgrade) <= Live(was)
    ensures DistinctIds(delete) && DistinctIds(upgrade)
    ensures (forall f :: f in delete ==> IsLive(was, f)) && (forall f :: f in upgrade ==> IsLive(was, f))
    ensures forall f, g :: f in delete && g in upgrade ==> f.id != g.id
  {
    hide Live;
    assert multiset(delete + upgrade) == multiset(delete) + multiset(upgrade);
    LiveDistinct(was, delete + upgrade);
    var both := delete + upgrade;
    assert forall i :: 0 <= i < |delete| ==> both[i] == delete[i];
    assert forall i :: 0 <= i < |upgrade| ==> both[|delete| + i] == upgrade[i];
    forall f, g | f in delete && g in upgrade ensures f.id != g.id {
      var i :| 0 <= i < |delete| && delete[i] == f;
      var j :| 0 <= j < |upgrade| && upgrade[j] == g;
      assert both[i].id != both[|delete| + j].id;
    }
  }

  lemma OutputsDistinct(upgrade: seq<ParquetFile>, target: Level, create: seq<FileParams>, n: nat)
    requires DistinctIds(upgrade)
    ensures DistinctIds(Upgraded(upgrade, target)) && DistinctIds(Created(create, n))
  {
  }

  lemma LiveCount(
    was: seq<Record>, now: seq<Record>, delete: seq<ParquetFile>, upgrade: seq<ParquetFile>, create: seq<FileParams>,
    target: Level, f: ParquetFile)
    requires Numbered(was) && Numbered(now) && multiset(delete) + multiset(upgrade) <= Live(was)
    requires Transacted(was, now, Ids(delete), Ids(upgrade), create, target)
    ensures Live(now)[f] == Live(was)[f] - multiset(delete)[f] - multiset(upgrade)[f]
      + multiset(Upgraded(upgrade, target))[f] + multiset(Created(create, |was|))[f]
  {
    hide Live, Transacted, Numbered, IsLive, DistinctIds, Ids;
    BothLive(was, delete, upgrade);
    OutputsDistinct(upgrade, target, create, |was|);
    LiveAt(was, f);
    LiveAt(now, f);
    CountDistinct(delete, f);
    CountDistinct(upgrade, f);
    CountDistinct(Upgraded(upgrade, target), f);
    CountDistinct(Created(create, |was|), f);
    if 1 <= f.id <= |was| {
      OldCount(was, now, delete, upgrade, create, target, f);
    } else {
      NewCount(was, now, delete, upgrade, create, target, f);
    }
  }

  /** A file with an old id is live afterwards if it stays as it was, or is an upgraded one. */
  lemma OldCount(
    was: seq<Record>, now: seq<Record>, delete: seq<ParquetFile>, upgrade: seq<ParquetFile>, create: seq<FileParams>,
    target: Level, f: ParquetFile)
    requires Numbered(was) && Transacted(was, now, Ids(delete), Ids(upgrade), create, target) && 1 <= f.id <= |was|
    requires DistinctIds(upgrade)
    requires (forall f :: f in delete ==> IsLive(was, f)) && (forall f :: f in upgrade ==> IsLive(was, f))
    requires forall f, g :: f in delete && g in upgrade ==> f.id != g.id
    ensures f !in Created(create, |was|)
    ensures IsLive(now, f) <==> (IsLive(was, f) && f !in delete && f !in upgrade) || f in Upgraded(upgrade, target)
    ensures f in delete ==> IsLive(was, f) && f !in upgrade && f !in Upgraded(upgrade, target)
    ensures f in upgrade ==> IsLive(was, f) && f !in delete
    ensures f in Upgraded(upgrade, target) && IsLive(was, f) ==> f in upgrade
  {
    InIds(delete, f.id);
    InIds(upgrade, f.id);
    InUpgraded(upgrade, target, f);
    assert now[f.id - 1] == Changed(was[f.id - 1], Ids(delete), Ids(upgrade), target);
  }

  lemma NewCount(
    was: seq<Record>, now: seq<Record>, delete: seq<ParquetFile>, upgrade: seq<ParquetFile>, create: seq<FileParams>,
    target: Level, f: ParquetFile)
    requires Transacted(was, now, Ids(delete), Ids(upgrade), create, target) && !(1 <= f.id <= |was|)
    requires (forall f :: f in delete ==> IsLive(was, f)) && (forall f :: f in upgrade ==> IsLive(was, f))
    ensures f !in delete && f !in upgrade && f !in Upgraded(upgrade, target) && !IsLive(was, f)
    ensures IsLive(now, f) <==> f in Created(create, |was|)
  {
    InUpgraded(upgrade, target, f);
    var made, k := Created(create, |was|), f.id - |was| - 1;
    if 0 <= k < |create| {
      assert now[|was| + k] == NewRecord(create[k], |was| + k + 1) && made[k] == now[|was| + k].file;
      assert made[k] in made;
    }
  }

  lemma InUpgraded(files: seq<ParquetFile>, target: Level, f: ParquetFile)
    ensures f in Upgraded(files, target) <==> exists u :: u in files && f == u.(level := target)
  {
    var up := Upgraded(files, target);
    if f in up {
      var i :| 0 <= i < |up| && up[i] == f;
      assert files[i] in files;
    }
    forall u | u in files && f == u.(level := target) ensures f in up {
      var i :| 0 <= i < |files| && files[i] == u;
      assert up[i] == f;
    }
  }
}
