/** String interning: ids for strings, found through a hash table over a packed string array. */
module StringDictionaries {
  import opened Wrappers
  import opened PackedStrings

  /** A slot of the hash table: an id, kept under the hash of the string it stands for. */
  datatype Entry = Entry(hash: nat, key: nat)

  ghost predicate Distinct(ss: seq<string>) {
    forall i, j :: 0 <= i < j < |ss| ==> ss[i] != ss[j]
  }

  ghost predicate DistinctKeys(table: seq<Entry>) {
    forall t, u :: 0 <= t < u < |table| ==> table[t].key != table[u].key
  }

  /** The table holds exactly one slot for every id. */
  ghost predicate Indexes(table: seq<Entry>, hash: string -> nat, ss: seq<string>) {
    && (forall t :: 0 <= t < |table| ==> table[t].key < |ss| && table[t].hash == hash(ss[table[t].key]))
    && DistinctKeys(table)
    && (forall k :: 0 <= k < |ss| ==> Entry(hash(ss[k]), k) in table)
  }

  /** The strings in the order of their first occurrence. */
  ghost function FirstSeen(vs: seq<string>): (ss: seq<string>) {
    if vs == [] then []
    else Interned(FirstSeen(vs[..|vs| - 1]), vs[|vs| - 1])
  }

  ghost function Interned(ss: seq<string>, v: string): (r: seq<string>) {
    if v in ss then ss else ss + [v]
  }

  lemma {:induction false} FirstSeenDistinct(vs: seq<string>)
    ensures Distinct(FirstSeen(vs)) && forall v :: v in FirstSeen(vs) <==> v in vs
  {
    if vs != [] {
      var n := |vs| - 1;
      FirstSeenDistinct(vs[..n]);
      assert vs == vs[..n] + [vs[n]];
    }
  }

  class StringDictionary {
    /** Any hash function at all, a constant one included. */
    const hash: string -> nat
    var table: seq<Entry>
    const storage: PackedStringArray

    ghost predicate Valid()
      reads this, storage
    {
      && storage.Valid()
      && |storage.Strings()| <= storage.maxOffset + 1
      && Distinct(storage.Strings())
      && Indexes(table, hash, storage.Strings())
    }

    ghost function Strings(): (ss: seq<string>)
      requires Valid()
      reads this, storage
      ensures Distinct(ss)
    {
      storage.Strings()
    }

    constructor (hash: string -> nat, maxKey: nat)
      ensures Valid() && fresh(storage) && this.hash == hash && storage.maxOffset == maxKey && Strings() == []
    {
      this.hash := hash;
      table := [];
      storage := new PackedStringArray(maxKey);
    }

    /** Takes over an array that is already indexed by `table`. */
    constructor Over(hash: string -> nat, table: seq<Entry>, storage: PackedStringArray)
      requires storage.Valid() && |storage.Strings()| <= storage.maxOffset + 1
      requires Distinct(storage.Strings()) && Indexes(table, hash, storage.Strings())
      ensures Valid() && this.storage == storage && this.hash == hash
    {
      this.hash := hash;
      this.table := table;
      this.storage := storage;
    }

    /** The id of `value`, interning it if it is new. */
    method LookupValueOrInsert(value: string) returns (key: nat)
      requires Valid()
      requires value in Strings() || |storage.storage| + |value| <= storage.maxOffset
      requires value in Strings() || |Strings()| <= storage.maxOffset
      modifies this, storage
      ensures Valid() && Strings() == Interned(old(Strings()), value)
      ensures key < |Strings()| && Strings()[key] == value
    {
      var h := hash(value);
      var entry := Probe(table, h, value, storage);
      if entry.Some? {
        return entry.value;
      }
      MissMeansNew(table, hash, Strings(), value);
      IndexesMore(table, hash, Strings(), value);
      key := storage.Append(value);
      table := table + [Entry(h, key)];
    }

    method LookupValue(value: string) returns (r: Option<nat>)
      requires Valid()
      ensures r.Some? <==> value in Strings()
      ensures r.Some? ==> r.value < |Strings()| && Strings()[r.value] == value
    {
      r := Probe(table, hash(value), value, storage);
      if r == None {
        MissMeansNew(table, hash, Strings(), value);
      }
    }

    method LookupId(id: nat) returns (r: Option<string>)
      requires Valid()
      ensures r == if id < |Strings()| then Some(Strings()[id]) else None
    {
      r := storage.Get(id);
    }

    /** Removes all ids larger than `id`. */
    method Truncate(id: nat)
      requires Valid()
      modifies this, storage
      ensures Valid()
      ensures Strings() == if id + 1 <= old(|Strings()|) then old(Strings())[..id + 1] else old(Strings())
    {
      hide Packed, StringsOf, Indexes;
      RetainedIndexes(table, hash, Strings(), id);
      var kept := [];
      var t := 0;
      while t < |table|
        invariant 0 <= t <= |table| && kept == Retained(table[..t], id)
      {
        assert table[..t + 1][..t] == table[..t];
        if table[t].key <= id {
          kept := kept + [table[t]];
        }
        t := t + 1;
      }
      assert table[..t] == table;
      table := kept;
      storage.Truncate(id + 1);
    }

    method Clear()
      requires Valid()
      modifies this, storage
      ensures Valid() && Strings() == []
    {
      storage.Clear();
      table := [];
    }
  }

  /** Probes the table for a slot with hash `h` whose string is `value`. */
  method Probe(table: seq<Entry>, h: nat, value: string, storage: PackedStringArray) returns (r: Option<nat>)
    requires storage.Valid() && forall t :: 0 <= t < |table| ==> table[t].key < |storage.Strings()|
    ensures r.Some? ==>
      r.value < |storage.Strings()| && storage.Strings()[r.value] == value && Entry(h, r.value) in table
    ensures r == None ==> forall t :: 0 <= t < |table| ==>
      table[t].hash != h || storage.Strings()[table[t].key] != value
  {
    var t := 0;
    while t < |table|
      invariant 0 <= t <= |table|
      invariant forall u :: 0 <= u < t ==> table[u].hash != h || storage.Strings()[table[u].key] != value
    {
      if table[t].hash == h {
        var s := storage.Get(table[t].key);
        if s.value == value {
          return Some(table[t].key);
        }
      }
      t := t + 1;
    }
    r := None;
  }

  /** Indexing one more, new string. */
  lemma IndexesMore(table: seq<Entry>, hash: string -> nat, ss: seq<string>, value: string)
    requires Distinct(ss) && Indexes(table, hash, ss) && value !in ss
    ensures Distinct(ss + [value]) && Indexes(table + [Entry(hash(value), |ss|)], hash, ss + [value])
  {
    var more := table + [Entry(hash(value), |ss|)];
    forall k | 0 <= k < |ss| + 1 ensures Entry(hash((ss + [value])[k]), k) in more {
      if k < |ss| {
        assert Entry(hash(ss[k]), k) in table;
      } else {
        assert more[|table|] == Entry(hash(value), |ss|);
      }
    }
  }

  /** Position `j` is the first to repeat an earlier string. */
  ghost predicate FirstRepeat(ss: seq<string>, j: nat) {
    j < |ss| && Distinct(ss[..j]) && ss[j] in ss[..j]
  }

  lemma RepeatIsDuplicate(ss: seq<string>, j: nat)
    requires FirstRepeat(ss, j)
    ensures !Distinct(ss)
  {
    var i :| 0 <= i < j && ss[..j][i] == ss[j];
    assert ss[i] == ss[j];
  }

  /** A miss in a table that indexes all strings means that the string is new. */
  lemma MissMeansNew(table: seq<Entry>, hash: string -> nat, ss: seq<string>, value: string)
    requires Indexes(table, hash, ss)
    requires forall t :: 0 <= t < |table| ==> table[t].hash != hash(value) || ss[table[t].key] != value
    ensures value !in ss
  {
    forall k | 0 <= k < |ss| ensures ss[k] != value {
      assert Entry(hash(ss[k]), k) in table;
    }
  }

  /** The slots with an id of at most `id`. */
  ghost function Retained(table: seq<Entry>, id: nat): (r: seq<Entry>) {
    if table == [] then []
    else
      var n := |table| - 1;
      Retained(table[..n], id) + (if table[n].key <= id then [table[n]] else [])
  }

  lemma {:induction false} RetainedEntries(table: seq<Entry>, id: nat)
    requires DistinctKeys(table)
    ensures DistinctKeys(Retained(table, id))
    ensures forall e :: e in Retained(table, id) <==> e in table && e.key <= id
  {
    if table != [] {
      var n := |table| - 1;
      RetainedEntries(table[..n], id);
      assert table == table[..n] + [table[n]];
      RetainedLast(table, Retained(table[..n], id));
    }
  }

  lemma RetainedLast(table: seq<Entry>, r: seq<Entry>)
    requires table != [] && DistinctKeys(table) && DistinctKeys(r)
    requires forall e :: e in r ==> e in table[..|table| - 1]
    ensures DistinctKeys(r + [table[|table| - 1]])
  {
    var n := |table| - 1;
    forall t | 0 <= t < |r| ensures r[t].key != table[n].key {
      assert r[t] in r;
      var w :| 0 <= w < n && table[..n][w] == r[t];
      assert table[w].key != table[n].key;
    }
  }

  lemma RetainedIndexes(table: seq<Entry>, hash: string -> nat, ss: seq<string>, id: nat)
    requires Indexes(table, hash, ss)
    ensures Indexes(Retained(table, id), hash, if id + 1 <= |ss| then ss[..id + 1] else ss)
  {
    hide DistinctKeys, Retained;
    RetainedEntries(table, id);
    var r := Retained(table, id);
    var kept := if id + 1 <= |ss| then ss[..id + 1] else ss;
    forall t | 0 <= t < |r| ensures r[t].key < |kept| && r[t].hash == hash(kept[r[t].key]) {
      assert r[t] in r;
      assert kept[r[t].key] == ss[r[t].key];
    }
    forall k | 0 <= k < |kept| ensures Entry(hash(kept[k]), k) in r {
      assert Entry(hash(ss[k]), k) in table;
    }
  }

  /** Builds a dictionary over an existing array. Fails exactly when the array holds a duplicate, and
      then reports the first string that repeats an earlier one. */
  method TryFrom(hash: string -> nat, storage: PackedStringArray) returns (r: Result<StringDictionary, string>)
    requires storage.Valid() && |storage.Strings()| <= storage.maxOffset + 1
    ensures r.Success? <==> Distinct(storage.Strings())
    ensures r.Success? ==> fresh(r.value) && r.value.storage == storage && r.value.Valid()
    ensures r.Failure? ==> exists j: nat :: FirstRepeat(storage.Strings(), j) && r.error == storage.Strings()[j]
  {
    hide Packed, StringsOf, Indexes;
    ghost var ss := storage.Strings();
    var table: seq<Entry> := [];
    NothingIndexed(hash);
    var idx := 0;
    var value := storage.Get(idx);
    while value != None
      invariant 0 <= idx <= |ss|
      invariant value == if idx < |ss| then Some(ss[idx]) else None
      invariant Distinct(ss[..idx]) && Indexes(table, hash, ss[..idx])
      decreases |ss| - idx
    {
      var h := hash(value.value);
      var entry := ProbePrefix(table, h, value.value, storage, idx, hash);
      if entry {
        assert FirstRepeat(ss, idx);
        RepeatIsDuplicate(ss, idx);
        return Failure(value.value);
      }
      IndexesMore(table, hash, ss[..idx], value.value);
      assert ss[..idx] + [value.value] == ss[..idx + 1];
      table := table + [Entry(h, idx)];
      idx := idx + 1;
      value := storage.Get(idx);
    }
    assert ss[..idx] == ss;
    var d := new StringDictionary.Over(hash, table, storage);
    r := Success(d);
  }

  lemma NothingIndexed(hash: string -> nat)
    ensures Indexes([], hash, [])
  {
  }

  /** Whether `value` is among the first `n` strings, which `table` indexes. */
  method ProbePrefix(table: seq<Entry>, h: nat, value: string, storage: PackedStringArray, ghost n: nat,
                     ghost hash: string -> nat) returns (found: bool)
    requires storage.Valid() && n <= |storage.Strings()| && h == hash(value)
    requires Indexes(table, hash, storage.Strings()[..n])
    ensures found <==> value in storage.Strings()[..n]
  {
    ghost var ss := storage.Strings();
    var entry := Probe(table, h, value, storage);
    found := entry.Some?;
    if found {
      ghost var t :| 0 <= t < |table| && table[t] == Entry(h, entry.value);
      assert ss[..n][entry.value] == value;
    } else {
      MissMeansNew(table, hash, ss[..n], value);
    }
  }

  // ---------- whole histories ----------

  datatype Op = Insert(value: string) | Truncate(id: nat) | Clear

  ghost function Apply(ss: seq<string>, op: Op): (r: seq<string>) {
    match op
    case Insert(v) => Interned(ss, v)
    case Truncate(id) => if id + 1 <= |ss| then ss[..id + 1] else ss
    case Clear => []
  }

  ghost function RunStrings(ss: seq<string>, ops: seq<Op>): (r: seq<string>)
    decreases |ops|
  {
    if ops == [] then ss else RunStrings(Apply(ss, ops[0]), ops[1..])
  }

  /** Every prefix of the history fits the key type, in ids and in bytes. */
  ghost predicate Fits(ss: seq<string>, ops: seq<Op>, maxKey: nat)
    decreases |ops|
  {
    && |ss| <= maxKey + 1 && Total(ss) <= maxKey
    && (ops == [] || Fits(Apply(ss, ops[0]), ops[1..], maxKey))
  }

  method Step(d: StringDictionary, op: Op)
    requires d.Valid()
    requires |Apply(d.Strings(), op)| <= d.storage.maxOffset + 1 && Total(Apply(d.Strings(), op)) <= d.storage.maxOffset
    modifies d, d.storage
    ensures d.Valid() && d.Strings() == Apply(old(d.Strings()), op)
  {
    match op {
      case Insert(v) =>
        StorageSize(d.storage);
        TotalAppend(d.Strings(), [v]);
        var _ := d.LookupValueOrInsert(v);
      case Truncate(id) => d.Truncate(id);
      case Clear => d.Clear();
    }
  }

  /** Any mix of inserts, truncations and clears leaves the dictionary of the strings it denotes. */
  method Run(hash: string -> nat, maxKey: nat, ops: seq<Op>) returns (d: StringDictionary)
    requires Fits([], ops, maxKey)
    ensures d.Valid() && d.Strings() == RunStrings([], ops)
  {
    hide Packed, StringsOf, Indexes, Apply, Total, Distinct;
    d := new StringDictionary(hash, maxKey);
    var i := 0;
    while i < |ops|
      invariant 0 <= i <= |ops|
      invariant fresh(d) && fresh(d.storage) && d.Valid() && d.storage.maxOffset == maxKey
      invariant Fits(d.Strings(), ops[i..], maxKey)
      invariant RunStrings(d.Strings(), ops[i..]) == RunStrings([], ops)
    {
      assert ops[i..][0] == ops[i] && ops[i..][1..] == ops[i + 1..];
      Step(d, ops[i]);
      i := i + 1;
    }
  }

  ghost function Inserts(vs: seq<string>): (ops: seq<Op>) {
    seq(|vs|, i requires 0 <= i < |vs| => Insert(vs[i]))
  }

  /** Inserting alone assigns dense ids in the order of first occurrence. */
  lemma {:induction false} InsertsFirstSeen(seen: seq<string>, vs: seq<string>)
    ensures RunStrings(FirstSeen(seen), Inserts(vs)) == FirstSeen(seen + vs)
    decreases |vs|
  {
    if vs == [] {
      assert seen + vs == seen;
    } else {
      assert (seen + [vs[0]])[..|seen|] == seen;
      InsertsFirstSeen(seen + [vs[0]], vs[1..]);
      assert seen + [vs[0]] + vs[1..] == seen + vs;
      assert Inserts(vs)[1..] == Inserts(vs[1..]);
    }
  }

  lemma StorageSize(a: PackedStringArray)
    requires a.Valid()
    ensures |a.storage| == Total(a.Strings())
  {
    PackedCanonical(a.offsets, a.storage, |a.offsets| - 1);
    assert a.Strings()[..|a.offsets| - 1] == a.Strings();
  }
}
