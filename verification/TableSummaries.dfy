/** Table summaries: merging per-column statistics of two row sets whose columns may differ. */
module TableSummaries {
  import opened Orders
  import opened Wrappers
  import opened Summaries

  datatype InfluxDbType = Tag | Field | Timestamp
  datatype StatisticsKind = I64 | U64 | F64 | Bool | String
  datatype ColumnType = ColumnType(influx: InfluxDbType, kind: StatisticsKind)

  datatype ColumnSummary<T> = ColumnSummary(name: string, ctype: ColumnType, stats: StatValues<T>)

  /** The summary of a column, by name. */
  function FindColumn<T>(cols: seq<ColumnSummary<T>>, name: string): (r: Option<ColumnSummary<T>>)
    ensures r.Some? ==> r.value in cols && r.value.name == name
    ensures r == None ==> forall i :: 0 <= i < |cols| ==> cols[i].name != name
  {
    if cols == [] then None else if cols[0].name == name then Some(cols[0]) else FindColumn(cols[1..], name)
  }

  /** The row count of a table: that of its first column. */
  function TotalOf<T>(cols: seq<ColumnSummary<T>>): nat {
    if cols == [] then 0 else cols[0].stats.totalCount
  }

  /** Pads a column with nulls up to `total` rows; a longer one cannot be shrunk. */
  function PadTo<T>(col: ColumnSummary<T>, total: nat): ColumnSummary<T> {
    if total < col.stats.totalCount then col
    else col.(stats := col.stats.UpdateForNulls(total - col.stats.totalCount))
  }

  /** A column can be merged with the one of its name if both are of one kind, and padded if there is none and it
      is not too long. */
  predicate ColumnFits<T>(col: ColumnSummary<T>, others: seq<ColumnSummary<T>>, total: nat) {
    match FindColumn(others, col.name)
    case Some(o) => col.ctype.kind == o.ctype.kind
    case None => col.stats.totalCount <= total
  }

  /** A column of the other table is found in this one or can be padded. */
  predicate IsKnownOrFits<T>(cols: seq<ColumnSummary<T>>, others: seq<ColumnSummary<T>>, name: string, total: nat) {
    && (FindColumn(cols, name) == None && FindColumn(others, name).Some? ==>
      FindColumn(others, name).value.stats.totalCount <= total)
  }

  /** What keeps the code from panicking: shared names of one kind, and no column too long to be padded. */
  ghost predicate Mergeable<T(!new)>(a: seq<ColumnSummary<T>>, b: seq<ColumnSummary<T>>) {
    var total := TotalOf(a) + TotalOf(b);
    && (forall i :: 0 <= i < |a| ==> ColumnFits(a[i], b, total))
    && (forall name :: IsKnownOrFits(a, b, name, total))
  }

  /** Two columns of one name and different kinds make the code panic, although its documentation says that nothing
      is done then. */
  lemma KindsClash<T(!new)>(stats: StatValues<T>)
    ensures
      var a := ColumnSummary("c", ColumnType(Field, I64), stats);
      !Mergeable([a], [a.(ctype := ColumnType(Field, F64))])
  {
    var a := ColumnSummary("c", ColumnType(Field, I64), stats);
    var b := a.(ctype := ColumnType(Field, F64));
    assert !ColumnFits([a][0], [b], TotalOf([a]) + TotalOf([b]));
  }

  function MergeColumn<T>(
    less: (T, T) -> bool, col: ColumnSummary<T>, others: seq<ColumnSummary<T>>, total: nat): ColumnSummary<T> {
    match FindColumn(others, col.name)
    case Some(o) => col.(stats := col.stats.UpdateFrom(less, o.stats))
    case None => PadTo(col, total)
  }

  function MergeShared<T>(less: (T, T) -> bool, cols: seq<ColumnSummary<T>>, others: seq<ColumnSummary<T>>, total: nat)
    : (r: seq<ColumnSummary<T>>)
    ensures |r| == |cols|
  {
    seq(|cols|, i requires 0 <= i < |cols| => MergeColumn(less, cols[i], others, total))
  }

  /** `cols` extended by those of `others` it does not have yet, padded. */
  function AddNew<T>(cols: seq<ColumnSummary<T>>, others: seq<ColumnSummary<T>>, total: nat): (r: seq<ColumnSummary<T>>)
    decreases |others|
  {
    if others == [] then cols
    else if FindColumn(cols, others[0].name).Some? then AddNew(cols, others[1..], total)
    else AddNew(cols + [PadTo(others[0], total)], others[1..], total)
  }

  function Merged<T(!new)>(
    less: (T, T) -> bool, a: seq<ColumnSummary<T>>, b: seq<ColumnSummary<T>>): (r: seq<ColumnSummary<T>>) {
    var total := TotalOf(a) + TotalOf(b);
    AddNew(MergeShared(less, a, b, total), b, total)
  }

  class TableSummary<T(!new)> {
    var columns: seq<ColumnSummary<T>>

    constructor (columns: seq<ColumnSummary<T>>)
      ensures this.columns == columns
    {
      this.columns := columns;
    }

    /** The first column of the name. */
    method Column(name: string) returns (r: Option<ColumnSummary<T>>)
      ensures r == None ==> forall i :: 0 <= i < |columns| ==> columns[i].name != name
      ensures r.Some? ==> exists i :: 0 <= i < |columns| && IsFirst(columns, i, name) && columns[i] == r.value
    {
      for i := 0 to |columns|
        invariant forall j :: 0 <= j < i ==> columns[j].name != name
      {
        if columns[i].name == name {
          assert IsFirst(columns, i, name);
          return Some(columns[i]);
        }
      }
      return None;
    }

    /** Merges the summary of further rows into this one, or fails on columns that do not go together. */
    method UpdateFrom(less: (T, T) -> bool, other: TableSummary<T>) returns (ok: bool)
      requires other != this
      modifies this
      ensures ok <==> Mergeable(old(columns), other.columns)
      ensures ok ==> columns == Merged(less, old(columns), other.columns)
    {
      hide FindColumn, AddNew, MergeShared, TotalOf, ColumnFits, IsKnownOrFits, NewFit;
      var newTotal := TotalOf(columns) + TotalOf(other.columns);
      ghost var was := columns;
      ok := MergeExisting(less, other, newTotal);
      if ok {
        NewFitIff(less, was, other.columns, newTotal);
        ok := AddMissing(other, newTotal);
      }
    }

    /** Updates every column from the other table, or pads it if the other table lacks it. */
    method MergeExisting(less: (T, T) -> bool, other: TableSummary<T>, newTotal: nat) returns (ok: bool)
      requires other != this
      modifies this
      ensures ok <==> forall i :: 0 <= i < |old(columns)| ==> ColumnFits(old(columns)[i], other.columns, newTotal)
      ensures ok ==> columns == MergeShared(less, old(columns), other.columns, newTotal)
    {
      hide FindColumn, PadTo, MergeShared, MergeColumn, ColumnFits;
      ghost var was := columns;
      ghost var done: seq<ColumnSummary<T>> := [];
      NothingShared(less, other.columns, newTotal);
      var i := 0;
      while i < |columns|
        invariant 0 <= i <= |columns| == |was| && other.columns == old(other.columns)
        invariant done == MergeShared(less, was[..i], other.columns, newTotal)
        invariant columns[..i] == done && columns[i..] == was[i..]
        invariant forall k :: 0 <= k < i ==> ColumnFits(was[k], other.columns, newTotal)
      {
        assert columns[i..][0] == was[i..][0];
        var fits, col := MergedOne(less, columns[i], other, newTotal);
        if !fits {
          return false;
        }
        MergeSharedSnoc(less, was, other.columns, newTotal, i);
        columns := columns[i := col];
        done := done + [col];
        assert columns[i + 1..] == was[i + 1..];
        i := i + 1;
      }
      assert was[..i] == was && columns[..i] == columns;
      return true;
    }

    method MergedOne(less: (T, T) -> bool, col: ColumnSummary<T>, other: TableSummary<T>, newTotal: nat)
      returns (ok: bool, r: ColumnSummary<T>)
      ensures ok <==> ColumnFits(col, other.columns, newTotal)
      ensures ok ==> r == MergeColumn(less, col, other.columns, newTotal)
    {
      var otherCol := other.Column(col.name);
      FirstIsFound(other.columns, col.name, otherCol);
      r := col;
      if otherCol.Some? {
        ok := col.ctype.kind == otherCol.value.ctype.kind;
        if ok {
          r := col.(stats := col.stats.UpdateFrom(less, otherCol.value.stats));
        }
      } else {
        ok := col.stats.totalCount <= newTotal;
        if ok {
          r := PadTo(col, newTotal);
        }
      }
    }

    /** Adds the columns that only the other table has. */
    method AddMissing(other: TableSummary<T>, newTotal: nat) returns (ok: bool)
      requires other != this
      modifies this
      ensures ok <==> NewFit(old(columns), other.columns, newTotal)
      ensures ok ==> columns == AddNew(old(columns), other.columns, newTotal)
    {
      hide FindColumn, PadTo;
      ghost var others := other.columns;
      var j := 0;
      assert others[0..] == others;
      while j < |other.columns|
        invariant 0 <= j <= |other.columns| && other.columns == others
        invariant AddNew(columns, others[j..], newTotal) == AddNew(old(columns), others, newTotal)
        invariant NewFit(columns, others[j..], newTotal) == NewFit(old(columns), others, newTotal)
      {
        var col := other.columns[j];
        assert others[j..][0] == col && others[j..][1..] == others[j + 1..];
        var mine := Column(col.name);
        FirstIsFound(columns, col.name, mine);
        if mine == None {
          if newTotal < col.stats.totalCount {
            return false;
          }
          columns := columns + [PadTo(col, newTotal)];
        }
        j := j + 1;
      }
      return true;
    }
  }

  /** The column at `i` has the name and none before it has. */
  ghost predicate IsFirst<T>(cols: seq<ColumnSummary<T>>, i: nat, name: string) {
    i < |cols| && cols[i].name == name && forall j :: 0 <= j < i ==> cols[j].name != name
  }

  /** The first column of a name is the one that is found. */
  lemma {:induction false} FirstIsFound<T>(cols: seq<ColumnSummary<T>>, name: string, r: Option<ColumnSummary<T>>)
    requires r == None ==> forall i :: 0 <= i < |cols| ==> cols[i].name != name
    requires r.Some? ==> exists i :: 0 <= i < |cols| && IsFirst(cols, i, name) && cols[i] == r.value
    ensures r == FindColumn(cols, name)
  {
    if r.Some? {
      var i :| 0 <= i < |cols| && IsFirst(cols, i, name) && cols[i] == r.value;
      FoundAt(cols, i, name);
    }
  }

  lemma {:induction false} FoundAt<T>(cols: seq<ColumnSummary<T>>, i: nat, name: string)
    requires IsFirst(cols, i, name)
    ensures FindColumn(cols, name) == Some(cols[i])
  {
    if i > 0 {
      assert cols[0].name != name;
      FoundAt(cols[1..], i - 1, name);
    }
  }

  /** No column to be added is too long. */
  predicate NewFit<T>(cols: seq<ColumnSummary<T>>, others: seq<ColumnSummary<T>>, total: nat)
    decreases |others|
  {
    if others == [] then true
    else if FindColumn(cols, others[0].name).Some? then NewFit(cols, others[1..], total)
    else others[0].stats.totalCount <= total && NewFit(cols + [PadTo(others[0], total)], others[1..], total)
  }

  lemma {:induction false} NewFitNames<T>(cols: seq<ColumnSummary<T>>, others: seq<ColumnSummary<T>>, total: nat)
    ensures NewFit(cols, others, total) <==> forall name :: IsKnownOrFits(cols, others, name, total)
    decreases |others|
  {
    if others == [] {
    } else {
      var o, rest := others[0], others[1..];
      var more := cols + [PadTo(o, total)];
      if FindColumn(cols, o.name).Some? {
        NewFitNames(cols, rest, total);
        forall name ensures IsKnownOrFits(cols, others, name, total) == IsKnownOrFits(cols, rest, name, total) {
        }
      } else {
        NewFitNames(more, rest, total);
        assert IsKnownOrFits(cols, others, o.name, total) <==> o.stats.totalCount <= total;
        forall name ensures IsKnownOrFits(cols, others, name, total) <==>
          IsKnownOrFits(more, rest, name, total) && (name == o.name ==> o.stats.totalCount <= total)
        {
          FindAppend(cols, [PadTo(o, total)], name);
        }
      }
    }
  }

  /** The names are those before and after merging the shared columns. */
  lemma NewFitIff<T(!new)>(less: (T, T) -> bool, cols: seq<ColumnSummary<T>>, others: seq<ColumnSummary<T>>, total: nat)
    ensures NewFit(MergeShared(less, cols, others, total), others, total) <==>
      forall name :: IsKnownOrFits(cols, others, name, total)
  {
    hide MergeShared, NewFit, FindColumn;
    var merged := MergeShared(less, cols, others, total);
    NewFitNames(merged, others, total);
    forall name ensures IsKnownOrFits(merged, others, name, total) == IsKnownOrFits(cols, others, name, total) {
      FindShared(less, cols, others, total, name);
    }
  }

  lemma NothingShared<T>(less: (T, T) -> bool, others: seq<ColumnSummary<T>>, total: nat)
    ensures MergeShared(less, [], others, total) == []
  {
  }

  lemma MergeSharedSnoc<T>(
    less: (T, T) -> bool, cols: seq<ColumnSummary<T>>, others: seq<ColumnSummary<T>>, total: nat, i: nat)
    requires i < |cols|
    ensures MergeShared(less, cols[..i + 1], others, total)
      == MergeShared(less, cols[..i], others, total) + [MergeColumn(less, cols[i], others, total)]
  {
  }

  // ---------- the rows behind a summary ----------

  type TableData<T> = map<string, (ColumnType, seq<Cell<T>>)>

  /** All columns have `n` rows; a table without columns has none. */
  ghost predicate HasRows<T(!new)>(data: TableData<T>, n: nat) {
    (forall c :: c in data ==> |data[c].1| == n) && (data == map[] ==> n == 0)
  }

  /** The rows of `a` followed by the rows of `b`, missing columns filled with nulls. */
  ghost function Appended<T(!new)>(a: TableData<T>, n: nat, b: TableData<T>, m: nat): (r: TableData<T>) {
    map c | c in a.Keys + b.Keys ::
      if c in a && c in b then (a[c].0, a[c].1 + b[c].1)
      else if c in a then (a[c].0, a[c].1 + Nulls(m))
      else (b[c].0, Nulls(n) + b[c].1)
  }

  ghost predicate DistinctNames<T>(cols: seq<ColumnSummary<T>>) {
    forall i, j :: 0 <= i < j < |cols| ==> cols[i].name != cols[j].name
  }

  ghost predicate Describes<T(!new)>(less: (T, T) -> bool, col: ColumnSummary<T>, data: TableData<T>) {
    col.name in data && col.ctype == data[col.name].0 && Summarises(less, col.stats, data[col.name].1)
  }

  /** One summary per column of the data, and none besides. */
  ghost predicate SummarisesTable<T(!new)>(less: (T, T) -> bool, cols: seq<ColumnSummary<T>>, data: TableData<T>) {
    && DistinctNames(cols)
    && (forall i :: 0 <= i < |cols| ==> Describes(less, cols[i], data))
    && (forall c :: c in data ==> FindColumn(cols, c).Some?)
  }

  ghost predicate SameTypes<T(!new)>(a: TableData<T>, b: TableData<T>) {
    forall c :: c in a && c in b ==> a[c].0 == b[c].0
  }

  lemma CountIs<T(!new)>(less: (T, T) -> bool, cols: seq<ColumnSummary<T>>, data: TableData<T>, n: nat)
    requires SummarisesTable(less, cols, data) && HasRows(data, n)
    ensures TotalOf(cols) == n && forall i :: 0 <= i < |cols| ==> cols[i].stats.totalCount == n
  {
    if cols == [] {
      assert forall c :: c in data ==> FindColumn(cols, c).Some?;
      assert data == map[];
    } else {
      assert Describes(less, cols[0], data);
    }
    forall i | 0 <= i < |cols| ensures cols[i].stats.totalCount == n {
      assert Describes(less, cols[i], data);
    }
  }

  lemma SummariesMergeable<T(!new)>(less: (T, T) -> bool, a: seq<ColumnSummary<T>>, d: TableData<T>, n: nat,
                                   b: seq<ColumnSummary<T>>, e: TableData<T>, m: nat)
    requires SummarisesTable(less, a, d) && HasRows(d, n) && SummarisesTable(less, b, e) && HasRows(e, m)
    requires SameTypes(d, e)
    ensures Mergeable(a, b)
  {
    CountIs(less, a, d, n);
    CountIs(less, b, e, m);
    forall i | 0 <= i < |a| ensures ColumnFits(a[i], b, n + m) {
      assert Describes(less, a[i], d);
      if FindColumn(b, a[i].name).Some? {
        FoundDescribes(less, b, e, a[i].name);
      }
    }
    var total := n + m;
    forall name ensures IsKnownOrFits(a, b, name, total) {
      if FindColumn(b, name).Some? {
        FoundDescribes(less, b, e, name);
      }
    }
  }

  lemma MergedColumnDescribes<T(!new)>(less: (T, T) -> bool, col: ColumnSummary<T>, d: TableData<T>, n: nat,
                                      b: seq<ColumnSummary<T>>, e: TableData<T>, m: nat)
    requires StrictTotal(less) && Describes(less, col, d) && HasRows(d, n) && SummarisesTable(less, b, e)
    requires HasRows(e, m)
    ensures col.stats.totalCount <= n + m && Describes(less, MergeColumn(less, col, b, n + m), Appended(d, n, e, m))
  {
    var o := FindColumn(b, col.name);
    if o.Some? {
      var j :| 0 <= j < |b| && b[j] == o.value;
      assert Describes(less, b[j], e);
      MergeSummarises(less, col.stats, d[col.name].1, o.value.stats, e[col.name].1);
    } else {
      assert col.name !in e;
      PadSummarises(less, col.stats, d[col.name].1, m);
    }
  }

  lemma NewColumnDescribes<T(!new)>(
    less: (T, T) -> bool, col: ColumnSummary<T>, d: TableData<T>, n: nat, e: TableData<T>, m: nat)
    requires StrictTotal(less) && Describes(less, col, e) && HasRows(e, m) && col.name !in d
    ensures col.stats.totalCount <= n + m && Describes(less, PadTo(col, n + m), Appended(d, n, e, m))
  {
    PadSummarises(less, col.stats, e[col.name].1, n);
  }

  lemma {:induction false} FindAppend<T>(a: seq<ColumnSummary<T>>, b: seq<ColumnSummary<T>>, name: string)
    ensures FindColumn(a + b, name) == if FindColumn(a, name).Some? then FindColumn(a, name) else FindColumn(b, name)
  {
    if a == [] {
      assert a + b == b;
    } else {
      FindAppend(a[1..], b, name);
      assert (a + b)[1..] == a[1..] + b;
    }
  }

  /** What looking a column up after `AddNew` finds. */
  lemma {:induction false} FindAdded<T>(
    cols: seq<ColumnSummary<T>>, others: seq<ColumnSummary<T>>, total: nat, name: string)
    requires DistinctNames(cols) && DistinctNames(others)
    ensures DistinctNames(AddNew(cols, others, total))
    ensures FindColumn(AddNew(cols, others, total), name) ==
      if FindColumn(cols, name).Some? then FindColumn(cols, name)
      else if FindColumn(others, name).Some? then Some(PadTo(FindColumn(others, name).value, total))
      else None
    decreases |others|
  {
    if others != [] {
      var col := PadTo(others[0], total);
      if FindColumn(cols, others[0].name).Some? {
        FindAdded(cols, others[1..], total, name);
      } else {
        FindAppend(cols, [col], name);
        FindAdded(cols + [col], others[1..], total, name);
      }
    }
  }

  lemma {:induction false} FindShared<T>(
    less: (T, T) -> bool, cols: seq<ColumnSummary<T>>, others: seq<ColumnSummary<T>>, total: nat, name: string)
    ensures FindColumn(MergeShared(less, cols, others, total), name) ==
      if FindColumn(cols, name).Some?
      then Some(MergeColumn(less, FindColumn(cols, name).value, others, total))
      else None
  {
    if cols != [] {
      FindShared(less, cols[1..], others, total, name);
      assert MergeShared(less, cols, others, total)[1..] == MergeShared(less, cols[1..], others, total);
    }
  }

  lemma SharedNames<T>(less: (T, T) -> bool, cols: seq<ColumnSummary<T>>, others: seq<ColumnSummary<T>>, total: nat)
    requires DistinctNames(cols)
    ensures DistinctNames(MergeShared(less, cols, others, total))
  {
    hide FindColumn;
  }

  /** The column a merge yields under a name. */
  lemma FindMerged<T(!new)>(less: (T, T) -> bool, a: seq<ColumnSummary<T>>, b: seq<ColumnSummary<T>>, name: string)
    requires DistinctNames(a) && DistinctNames(b)
    ensures DistinctNames(Merged(less, a, b))
    ensures
      var total := TotalOf(a) + TotalOf(b);
      FindColumn(Merged(less, a, b), name) ==
        if FindColumn(a, name).Some? then Some(MergeColumn(less, FindColumn(a, name).value, b, total))
        else if FindColumn(b, name).Some? then Some(PadTo(FindColumn(b, name).value, total))
        else None
  {
    hide FindColumn, PadTo, MergeColumn, TotalOf;
    var total := TotalOf(a) + TotalOf(b);
    FindShared(less, a, b, total, name);
    SharedNames(less, a, b, total);
    FindAdded(MergeShared(less, a, b, total), b, total, name);
  }

  lemma {:induction false} FindSelf<T>(cols: seq<ColumnSummary<T>>, i: nat)
    requires DistinctNames(cols) && i < |cols|
    ensures FindColumn(cols, cols[i].name) == Some(cols[i])
  {
    if i != 0 {
      FindSelf(cols[1..], i - 1);
      assert cols[0].name != cols[i].name;
    }
  }

  lemma AppendedRows<T(!new)>(d: TableData<T>, n: nat, e: TableData<T>, m: nat)
    requires HasRows(d, n) && HasRows(e, m)
    ensures HasRows(Appended(d, n, e, m), n + m)
  {
    if d != map[] {
      var c :| c in d;
      assert c in Appended(d, n, e, m);
    } else if e != map[] {
      var c :| c in e;
      assert c in Appended(d, n, e, m);
    }
  }

  /** Merging the summaries of two row sets gives a summary of their concatenation. */
  lemma MergeSummarisesTable<T(!new)>(less: (T, T) -> bool, a: seq<ColumnSummary<T>>, d: TableData<T>, n: nat,
                                     b: seq<ColumnSummary<T>>, e: TableData<T>, m: nat)
    requires StrictTotal(less) && SameTypes(d, e)
    requires SummarisesTable(less, a, d) && HasRows(d, n) && SummarisesTable(less, b, e) && HasRows(e, m)
    ensures Mergeable(a, b)
    ensures SummarisesTable(less, Merged(less, a, b), Appended(d, n, e, m)) && HasRows(Appended(d, n, e, m), n + m)
  {
    hide MergeColumn, Describes, Summarises, Merged, PadTo, FindColumn, DistinctNames, TotalOf, Mergeable;
    AppendedRows(d, n, e, m);
    SummariesMergeable(less, a, d, n, b, e, m);
    CountIs(less, a, d, n);
    CountIs(less, b, e, m);
    var r := Merged(less, a, b);
    var data := Appended(d, n, e, m);
    FindMerged(less, a, b, "");
    forall c | c in data ensures FindColumn(r, c).Some? {
      FindMerged(less, a, b, c);
    }
    forall i | 0 <= i < |r| ensures Describes(less, r[i], data) {
      FindSelf(r, i);
      MergedDescribes(less, a, d, n, b, e, m, r[i].name);
    }
  }

  lemma MergedDescribes<T(!new)>(less: (T, T) -> bool, a: seq<ColumnSummary<T>>, d: TableData<T>, n: nat,
                                b: seq<ColumnSummary<T>>, e: TableData<T>, m: nat, name: string)
    requires StrictTotal(less) && Mergeable(a, b)
    requires SummarisesTable(less, a, d) && HasRows(d, n) && SummarisesTable(less, b, e) && HasRows(e, m)
    ensures
      var r := FindColumn(Merged(less, a, b), name);
      r.Some? ==> Describes(less, r.value, Appended(d, n, e, m))
  {
    hide MergeColumn, Summarises, PadTo, Merged, TotalOf, Mergeable, Appended, FindColumn, Describes, DistinctNames;
    CountIs(less, a, d, n);
    CountIs(less, b, e, m);
    FindMerged(less, a, b, name);
    if FindColumn(a, name).Some? {
      FoundDescribes(less, a, d, name);
      MergedColumnDescribes(less, FindColumn(a, name).value, d, n, b, e, m);
    } else if FindColumn(b, name).Some? {
      FoundDescribes(less, b, e, name);
      NewColumnDescribes(less, FindColumn(b, name).value, d, n, e, m);
    }
  }

  lemma FoundDescribes<T(!new)>(less: (T, T) -> bool, cols: seq<ColumnSummary<T>>, data: TableData<T>, name: string)
    requires SummarisesTable(less, cols, data) && FindColumn(cols, name).Some?
    ensures Describes(less, FindColumn(cols, name).value, data)
  {
    hide Describes;
    var i :| 0 <= i < |cols| && cols[i] == FindColumn(cols, name).value;
  }

  /** The two merge orders agree on every column. */
  lemma MergeCommutes<T(!new)>(less: (T, T) -> bool, a: seq<ColumnSummary<T>>, d: TableData<T>, n: nat,
                              b: seq<ColumnSummary<T>>, e: TableData<T>, m: nat, name: string)
    requires StrictTotal(less) && SameTypes(d, e)
    requires SummarisesTable(less, a, d) && HasRows(d, n) && SummarisesTable(less, b, e) && HasRows(e, m)
    ensures Mergeable(a, b) && Mergeable(b, a)
    ensures FindColumn(Merged(less, a, b), name) == FindColumn(Merged(less, b, a), name)
  {
    hide Summarises, Merged;
    SummariesMergeable(less, a, d, n, b, e, m);
    SummariesMergeable(less, b, e, m, a, d, n);
    CountIs(less, a, d, n);
    CountIs(less, b, e, m);
    FindMerged(less, a, b, name);
    FindMerged(less, b, a, name);
    if FindColumn(a, name).Some? && FindColumn(b, name).Some? {
      var i :| 0 <= i < |a| && a[i] == FindColumn(a, name).value;
      var j :| 0 <= j < |b| && b[j] == FindColumn(b, name).value;
      assert Describes(less, a[i], d) && Describes(less, b[j], e);
      StatsCommute(less, a[i].stats, b[j].stats);
    }
  }

  lemma StatsCommute<T(!new)>(less: (T, T) -> bool, s: StatValues<T>, t: StatValues<T>)
    requires StrictTotal(less)
    ensures s.UpdateFrom(less, t) == t.UpdateFrom(less, s)
  {
  }
}
