/** Rewriting a dictionary column so that its dictionary has no duplicate and no unused value. */
module OptimizeDict {
  import opened Wrappers
  import opened PackedStrings
  import opened StringDictionaries

  const I32_MAX: nat := 0x7FFF_FFFF

  datatype DataType = Int32 | Utf8 | Other(name: string)

  datatype ArrowError = NotYetImplemented(dataType: DataType)

  /** A dictionary column: per row a validity flag and a key into the values. The values themselves
      are never null. */
  datatype Column = Column(keys: seq<int>, valid: seq<bool>, values: seq<string>)

  /** What the column format guarantees: the key of every valid row is an index of the values, and
      keys and value offsets fit 32 bits. */
  ghost predicate WellFormed(c: Column) {
    && |c.keys| == |c.valid|
    && Total(c.values) <= I32_MAX
    && forall i :: 0 <= i < |c.keys| && c.valid[i] ==> 0 <= c.keys[i] < |c.values| && c.keys[i] <= I32_MAX
  }

  /** The optional strings a column stands for. */
  ghost function Decode(c: Column): (rows: seq<Option<string>>)
    requires WellFormed(c)
  {
    seq(|c.keys|, i requires 0 <= i < |c.keys| => if c.valid[i] then Some(c.values[c.keys[i]]) else None)
  }

  ghost predicate SortedBy(le: (string, string) -> bool, ss: seq<string>) {
    forall i, j :: 0 <= i < j < |ss| ==> le(ss[i], ss[j])
  }

  /** Some valid row has key `k`. */
  ghost predicate Uses(c: Column, k: int)
    requires |c.keys| == |c.valid|
  {
    exists i :: 0 <= i < |c.keys| && c.valid[i] && c.keys[i] == k
  }

  ghost predicate EveryValueUsed(c: Column)
    requires |c.keys| == |c.valid|
  {
    forall k :: 0 <= k < |c.values| ==> Uses(c, k)
  }

  /** `picked` are the values at the increasing, used positions `src` below `n`. */
  ghost predicate Picks(picked: seq<string>, values: seq<string>, used: set<int>, src: seq<int>, n: nat) {
    && |src| == |picked|
    && (forall i :: 0 <= i < |src| ==> 0 <= src[i] < n <= |values| && src[i] in used && picked[i] == values[src[i]])
    && (forall i, j :: 0 <= i < j < |src| ==> src[i] < src[j])
  }

  /** The positions are the first used ones of their values. */
  ghost predicate Firsts(src: seq<int>, values: seq<string>, used: set<int>) {
    && (forall i :: 0 <= i < |src| ==> 0 <= src[i] < |values|)
    && forall i, k :: 0 <= i < |src| && k in used && 0 <= k < src[i] ==> values[k] != values[src[i]]
  }

  /** Position `k` is the first one of its value that a valid row uses. */
  ghost predicate FirstUse(c: Column, k: int)
    requires |c.keys| == |c.valid|
  {
    0 <= k < |c.values| && Uses(c, k) && forall j :: 0 <= j < k && Uses(c, j) ==> c.values[j] != c.values[k]
  }

  /** The values are those at first uses, in the order they had. */
  ghost predicate InOrder(values: seq<string>, c: Column)
    requires |c.keys| == |c.valid|
  {
    exists src: seq<int> ::
      && |src| == |values| && (forall i, j :: 0 <= i < j < |src| ==> src[i] < src[j])
      && (forall i :: 0 <= i < |src| ==> FirstUse(c, src[i]) && values[i] == c.values[src[i]])
  }

  lemma PickedInOrder(values: seq<string>, c: Column, used: set<int>, src: seq<int>)
    requires |c.keys| == |c.valid| && forall k :: k in used <==> Uses(c, k)
    requires Picks(values, c.values, used, src, |c.values|) && Firsts(src, c.values, used)
    ensures InOrder(values, c)
  {
    hide Uses;
    forall i | 0 <= i < |src| ensures FirstUse(c, src[i]) && values[i] == c.values[src[i]] {
      forall j | 0 <= j < src[i] && Uses(c, j) ensures c.values[j] != c.values[src[i]] {
        assert j in used;
      }
    }
  }

  /** `ids` maps every used position below `n` to the place of its value among `picked`. */
  ghost predicate Renumbers(ids: map<int, int>, picked: seq<string>, values: seq<string>, used: set<int>, n: nat) {
    && n <= |values|
    && (forall k :: k in ids <==> k in used && 0 <= k < n)
    && (forall k :: k in ids ==> 0 <= ids[k] < |picked| && picked[ids[k]] == values[k])
  }

  /** Picks at most one value per position, so the result is no longer than what it was picked from. */
  lemma {:induction false} PicksFit(picked: seq<string>, values: seq<string>, used: set<int>, src: seq<int>, n: nat)
    requires n <= |values| && Picks(picked, values, used, src, n)
    ensures |picked| <= n && Total(picked) <= Total(values[..n])
    decreases n
  {
    if n == 0 {
      assert picked == [];
    } else {
      assert values[..n][..n - 1] == values[..n - 1];
      if src != [] && src[|src| - 1] == n - 1 {
        PicksFit(picked[..|src| - 1], values, used, src[..|src| - 1], n - 1);
      } else {
        PicksFit(picked, values, used, src, n - 1);
      }
    }
  }

  lemma TotalPrefix(ss: seq<string>, n: nat)
    requires n <= |ss|
    ensures Total(ss[..n]) <= Total(ss)
  {
    TotalAppend(ss[..n], ss[n..]);
    assert ss[..n] + ss[n..] == ss;
  }

  method OptimizeDictCol(col: Column, keyType: DataType, valueType: DataType, hash: string -> nat,
                         ghost le: (string, string) -> bool)
    returns (r: Result<Column, ArrowError>)
    requires WellFormed(col)
    ensures r.Success? <==> keyType == Int32 && valueType == Utf8
    ensures r.Failure? ==> r.error == NotYetImplemented(if keyType != Int32 then keyType else valueType)
    ensures r.Success? ==> WellFormed(r.value) && Decode(r.value) == Decode(col)
    ensures r.Success? ==> Distinct(r.value.values) && EveryValueUsed(r.value)
    ensures r.Success? ==> InOrder(r.value.values, col)
    ensures r.Success? && SortedBy(le, col.values) ==> SortedBy(le, r.value.values)
    ensures r.Success? ==> forall i :: 0 <= i < |col.keys| && !col.valid[i] ==> r.value.keys[i] == -1
  {
    if keyType != Int32 {
      return Failure(NotYetImplemented(keyType));
    }
    if valueType != Utf8 {
      return Failure(NotYetImplemented(valueType));
    }
    hide Picks, Renumbers, Uses, EveryValueUsed, Total, Firsts, InOrder;
    var used := UsedKeys(col);
    var values, ids, src := Renumber(col, used, hash);
    var keys := NewKeys(col, ids, used, values);
    r := Success(Column(keys, col.valid, values));
    Preserved(col, used, values, ids, src, r.value);
    SortedPicks(le, values, col.values, used, src);
    PickedInOrder(values, col, used, src);
  }

  /** The set of keys that occur in valid rows. */
  method UsedKeys(col: Column) returns (used: set<int>)
    requires WellFormed(col)
    ensures forall k :: k in used <==> Uses(col, k)
  {
    used := {};
    var i := 0;
    while i < |col.keys|
      invariant 0 <= i <= |col.keys|
      invariant forall k :: k in used <==> exists j :: 0 <= j < i && col.valid[j] && col.keys[j] == k
    {
      if col.valid[i] {
        used := used + {col.keys[i]};
      }
      i := i + 1;
    }
  }

  /** Interns the used values in the order of their keys. */
  method Renumber(col: Column, used: set<int>, hash: string -> nat)
    returns (values: seq<string>, ids: map<int, int>, ghost src: seq<int>)
    requires WellFormed(col) && forall k :: k in used <==> Uses(col, k)
    ensures Distinct(values) && |values| <= I32_MAX + 1
    ensures Picks(values, col.values, used, src, |col.values|) && Firsts(src, col.values, used)
    ensures Renumbers(ids, values, col.values, used, |col.values|)
  {
    hide Packed, StringsOf, Indexes, Picks, Renumbers, Total, Distinct, Interned, Firsts;
    var dict := new StringDictionary(hash, I32_MAX);
    ids := map[];
    src := [];
    NothingPicked(col.values, used);
    var key := 0;
    while key < |col.values|
      invariant 0 <= key <= |col.values|
      invariant fresh(dict) && fresh(dict.storage) && dict.Valid() && dict.storage.maxOffset == I32_MAX
      invariant Picks(dict.Strings(), col.values, used, src, key)
      invariant Renumbers(ids, dict.Strings(), col.values, used, key) && Firsts(src, col.values, used)
    {
      ghost var was := dict.Strings();
      if key in used {
        assert Uses(col, key);
        Room(dict.storage, col.values, used, src, key);
        var newKey := dict.LookupValueOrInsert(col.values[key]);
        PickNext(was, col.values, used, src, key);
        FirstNext(was, col.values, used, src, key, ids);
        RenumberNext(was, col.values, used, key, ids, newKey);
        ids := ids[key := newKey];
        src := if col.values[key] in was then src else src + [key];
      } else {
        SkipNext(was, col.values, used, src, key, ids);
      }
      key := key + 1;
    }
    values := Collect(dict.storage);
  }

  lemma NothingPicked(values: seq<string>, used: set<int>)
    ensures Picks([], values, used, [], 0) && Renumbers(map[], [], values, used, 0) && Firsts([], values, used)
  {
  }

  lemma PickNext(ss: seq<string>, values: seq<string>, used: set<int>, src: seq<int>, key: nat)
    requires key < |values| && key in used && Picks(ss, values, used, src, key)
    ensures
      var src' := if values[key] in ss then src else src + [key];
      Picks(Interned(ss, values[key]), values, used, src', key + 1)
  {
  }

  lemma FirstNext(ss: seq<string>, values: seq<string>, used: set<int>, src: seq<int>, key: nat, ids: map<int, int>)
    requires key < |values| && Renumbers(ids, ss, values, used, key) && Firsts(src, values, used)
    ensures values[key] !in ss ==> Firsts(src + [key], values, used)
  {
    if values[key] !in ss {
      forall k | k in used && 0 <= k < key ensures values[k] != values[key] {
        assert k in ids && ss[ids[k]] in ss;
      }
    }
  }

  lemma RenumberNext(ss: seq<string>, values: seq<string>, used: set<int>, key: nat, ids: map<int, int>, newKey: nat)
    requires key < |values| && key in used && Renumbers(ids, ss, values, used, key)
    requires newKey < |Interned(ss, values[key])| && Interned(ss, values[key])[newKey] == values[key]
    ensures Renumbers(ids[key := newKey], Interned(ss, values[key]), values, used, key + 1)
  {
    var more := ids[key := newKey];
    forall k | k in more
      ensures 0 <= more[k] < |Interned(ss, values[key])| && Interned(ss, values[key])[more[k]] == values[k]
    {
      if k != key {
        assert k in ids;
      }
    }
  }

  lemma SkipNext(ss: seq<string>, values: seq<string>, used: set<int>, src: seq<int>, key: nat, ids: map<int, int>)
    requires key < |values| && key !in used
    requires Picks(ss, values, used, src, key) && Renumbers(ids, ss, values, used, key)
    ensures Picks(ss, values, used, src, key + 1) && Renumbers(ids, ss, values, used, key + 1)
  {
  }

  /** The next used value always fits, in bytes and in ids. */
  lemma Room(storage: PackedStringArray, values: seq<string>, used: set<int>, src: seq<int>, key: nat)
    requires storage.Valid() && key < |values| && key <= I32_MAX && Total(values) <= I32_MAX
    requires Picks(storage.Strings(), values, used, src, key)
    ensures |storage.storage| + |values[key]| <= I32_MAX && |storage.Strings()| <= I32_MAX
  {
    StorageSize(storage);
    PicksFit(storage.Strings(), values, used, src, key);
    TotalPrefix(values, key + 1);
    assert values[..key + 1][..key] == values[..key];
  }

  /** The old keys through the renumbering; null rows get the key -1. */
  method NewKeys(col: Column, ids: map<int, int>, ghost used: set<int>, ghost values: seq<string>)
    returns (keys: seq<int>)
    requires WellFormed(col) && forall k :: k in used <==> Uses(col, k)
    requires Renumbers(ids, values, col.values, used, |col.values|)
    ensures |keys| == |col.keys|
    ensures forall i :: 0 <= i < |keys| ==>
      if col.valid[i] then col.keys[i] in ids && keys[i] == ids[col.keys[i]] else keys[i] == -1
  {
    keys := [];
    while |keys| < |col.keys|
      invariant |keys| <= |col.keys|
      invariant forall i :: 0 <= i < |keys| ==>
        if col.valid[i] then col.keys[i] in ids && keys[i] == ids[col.keys[i]] else keys[i] == -1
    {
      var i := |keys|;
      if col.valid[i] {
        assert Uses(col, col.keys[i]);
        keys := keys + [ids[col.keys[i]]];
      } else {
        keys := keys + [-1];
      }
    }
  }

  /** The rewritten column means the same and is minimal. */
  lemma Preserved(col: Column, used: set<int>, values: seq<string>, ids: map<int, int>, src: seq<int>, r: Column)
    requires WellFormed(col) && forall k :: k in used <==> Uses(col, k)
    requires Distinct(values) && |values| <= I32_MAX + 1 && Picks(values, col.values, used, src, |col.values|)
    requires Renumbers(ids, values, col.values, used, |col.values|)
    requires r.values == values && r.valid == col.valid && |r.keys| == |col.keys|
    requires forall i :: 0 <= i < |col.keys| && col.valid[i] ==> col.keys[i] in ids && r.keys[i] == ids[col.keys[i]]
    ensures WellFormed(r) && Decode(r) == Decode(col) && EveryValueUsed(r)
  {
    hide Total;
    PicksFit(values, col.values, used, src, |col.values|);
    assert col.values[..|col.values|] == col.values;
    forall i | 0 <= i < |col.keys| && col.valid[i]
      ensures 0 <= r.keys[i] < |values| && values[r.keys[i]] == col.values[col.keys[i]]
    {
      assert col.keys[i] in ids;
    }
    forall k | 0 <= k < |values| ensures Uses(r, k) {
      assert Uses(col, src[k]);
      var i :| 0 <= i < |col.keys| && col.valid[i] && col.keys[i] == src[k];
      assert values[r.keys[i]] == values[k];
    }
  }

  /** Picking at increasing positions keeps any order the values were in. */
  lemma SortedPicks(
    le: (string, string) -> bool, picked: seq<string>, values: seq<string>, used: set<int>, src: seq<int>)
    requires Picks(picked, values, used, src, |values|)
    ensures SortedBy(le, values) ==> SortedBy(le, picked)
  {
    if SortedBy(le, values) {
      forall i, j | 0 <= i < j < |picked| ensures le(picked[i], picked[j]) {
        assert src[i] < src[j];
      }
    }
  }
}
