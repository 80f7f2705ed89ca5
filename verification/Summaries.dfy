/** Column and table statistics: merging two summaries summarises the concatenated rows. */
module Summaries {
  import opened Orders
  import opened Wrappers

  /** A cell of a column: missing, not a number, or a value of an ordered type. */
  datatype Cell<T> = Null | NaN | Val(v: T)

  // ---------- one column ----------

  /** Summary statistics; `nullCount` is missing when the number of nulls is not known. */
  datatype StatValues<T> = StatValues(min: Option<T>, max: Option<T>, totalCount: nat, nullCount: Option<nat>)
  {
    /** No values, and no nulls either. */
    static function NewEmpty(): StatValues<T> { StatValues(None, None, 0, Some(0)) }

    /** Accounts for `n` more nulls. */
    function UpdateForNulls(n: nat): StatValues<T> {
      this.(totalCount := totalCount + n, nullCount := if nullCount.Some? then Some(nullCount.value + n) else None)
    }

    /** Accounts for one more value that is not null; NaN only counts. */
    function Update(less: (T, T) -> bool, x: Cell<T>): StatValues<T>
      requires !x.Null?
    {
      var s := this.(totalCount := totalCount + 1);
      if x.NaN? then s
      else
        s.(min := if s.min == None || less(x.v, s.min.value) then Some(x.v) else s.min,
           max := if s.max == None || less(s.max.value, x.v) then Some(x.v) else s.max)
    }

    /** Merges the statistics of further rows into these. */
    function UpdateFrom(less: (T, T) -> bool, other: StatValues<T>): StatValues<T> {
      StatValues(
        if min == None then other.min
        else if other.min == None then min
        else if less(other.min.value, min.value) then other.min else min,
        if max == None then other.max
        else if other.max == None then max
        else if less(max.value, other.max.value) then other.max else max,
        totalCount + other.totalCount,
        if nullCount.Some? && other.nullCount.Some? then Some(nullCount.value + other.nullCount.value) else None)
    }
  }

  ghost function CountNulls<T>(cells: seq<Cell<T>>): (n: nat) {
    if cells == [] then 0 else CountNulls(cells[..|cells| - 1]) + (if cells[|cells| - 1].Null? then 1 else 0)
  }

  /** `m` is the greatest lower bound among the values, missing when there are none. */
  ghost predicate IsMin<T(!new)>(less: (T, T) -> bool, m: Option<T>, cells: seq<Cell<T>>) {
    match m
    case None => forall i :: 0 <= i < |cells| ==> !cells[i].Val?
    case Some(x) => Val(x) in cells && forall i :: 0 <= i < |cells| && cells[i].Val? ==> !less(cells[i].v, x)
  }

  ghost predicate IsMax<T(!new)>(less: (T, T) -> bool, m: Option<T>, cells: seq<Cell<T>>) {
    match m
    case None => forall i :: 0 <= i < |cells| ==> !cells[i].Val?
    case Some(x) => Val(x) in cells && forall i :: 0 <= i < |cells| && cells[i].Val? ==> !less(x, cells[i].v)
  }

  /** `s` describes `cells`: the extremes ignoring nulls and NaN, the count, and the nulls if known. */
  ghost predicate Summarises<T(!new)>(less: (T, T) -> bool, s: StatValues<T>, cells: seq<Cell<T>>) {
    && IsMin(less, s.min, cells) && IsMax(less, s.max, cells)
    && s.totalCount == |cells|
    && (s.nullCount.Some? ==> s.nullCount.value == CountNulls(cells))
  }

  lemma {:induction false} CountNullsConcat<T>(a: seq<Cell<T>>, b: seq<Cell<T>>)
    ensures CountNulls(a + b) == CountNulls(a) + CountNulls(b)
  {
    if b == [] {
      assert a + b == a;
    } else {
      CountNullsConcat(a, b[..|b| - 1]);
      assert (a + b)[..|a + b| - 1] == a + b[..|b| - 1];
    }
  }

  lemma MinConcat<T(!new)>(less: (T, T) -> bool, m: Option<T>, a: seq<Cell<T>>, n: Option<T>, b: seq<Cell<T>>)
    requires StrictTotal(less) && IsMin(less, m, a) && IsMin(less, n, b)
    ensures
      var least := if m == None then n else if n == None then m else if less(n.value, m.value) then n else m;
      IsMin(less, least, a + b)
  {
  }

  lemma MaxConcat<T(!new)>(less: (T, T) -> bool, m: Option<T>, a: seq<Cell<T>>, n: Option<T>, b: seq<Cell<T>>)
    requires StrictTotal(less) && IsMax(less, m, a) && IsMax(less, n, b)
    ensures
      var greatest := if m == None then n else if n == None then m else if less(m.value, n.value) then n else m;
      IsMax(less, greatest, a + b)
  {
  }

  /** Merging statistics summarises the concatenation, and the nulls stay known where both numbers are. */
  lemma MergeSummarises<T(!new)>(
    less: (T, T) -> bool, s: StatValues<T>, a: seq<Cell<T>>, t: StatValues<T>, b: seq<Cell<T>>)
    requires StrictTotal(less) && Summarises(less, s, a) && Summarises(less, t, b)
    ensures Summarises(less, s.UpdateFrom(less, t), a + b)
    ensures s.UpdateFrom(less, t).nullCount.Some? <==> s.nullCount.Some? && t.nullCount.Some?
  {
    MinConcat(less, s.min, a, t.min, b);
    MaxConcat(less, s.max, a, t.max, b);
    CountNullsConcat(a, b);
  }

  ghost function Nulls<T>(n: nat): (cells: seq<Cell<T>>)
    ensures |cells| == n && forall i :: 0 <= i < n ==> cells[i] == Null
  {
    seq(n, _ => Null)
  }

  lemma {:induction false} NullsCount<T>(n: nat)
    ensures CountNulls(Nulls<T>(n)) == n
  {
    if n != 0 {
      NullsCount<T>(n - 1);
      assert Nulls<T>(n)[..n - 1] == Nulls<T>(n - 1);
    }
  }

  /** Padding with nulls summarises the padded column, on whichever side the nulls go. */
  lemma PadSummarises<T(!new)>(less: (T, T) -> bool, s: StatValues<T>, a: seq<Cell<T>>, n: nat)
    requires StrictTotal(less) && Summarises(less, s, a)
    ensures Summarises(less, s.UpdateForNulls(n), a + Nulls(n)) && Summarises(less, s.UpdateForNulls(n), Nulls(n) + a)
    ensures s.UpdateForNulls(n).nullCount.Some? <==> s.nullCount.Some?
  {
    NullsCount<T>(n);
    CountNullsConcat(a, Nulls(n));
    CountNullsConcat(Nulls(n), a);
    MinConcat(less, s.min, a, None, Nulls(n));
    MinConcat(less, None, Nulls(n), s.min, a);
    MaxConcat(less, s.max, a, None, Nulls(n));
    MaxConcat(less, None, Nulls(n), s.max, a);
  }

  /** Statistics built cell by cell. */
  function FoldCells<T>(less: (T, T) -> bool, cells: seq<Cell<T>>): (s: StatValues<T>) {
    if cells == [] then StatValues<T>.NewEmpty()
    else
      var s := FoldCells(less, cells[..|cells| - 1]);
      var x := cells[|cells| - 1];
      if x.Null? then s.UpdateForNulls(1) else s.Update(less, x)
  }

  lemma {:induction false} FoldSummarises<T(!new)>(less: (T, T) -> bool, cells: seq<Cell<T>>)
    requires StrictTotal(less)
    ensures Summarises(less, FoldCells(less, cells), cells) && FoldCells(less, cells).nullCount.Some?
  {
    if cells != [] {
      var n := |cells| - 1;
      FoldSummarises(less, cells[..n]);
      var s := FoldCells(less, cells[..n]);
      assert cells == cells[..n] + [cells[n]];
      var one := if cells[n].Val? then Some(cells[n].v) else None;
      assert cells[n].Val? ==> Val(cells[n].v) in [cells[n]];
      MinConcat(less, s.min, cells[..n], one, [cells[n]]);
      MaxConcat(less, s.max, cells[..n], one, [cells[n]]);
    }
  }

  /** A description is unique, whatever the order of the cells. */
  lemma SummaryUnique<T(!new)>(
    less: (T, T) -> bool, s: StatValues<T>, a: seq<Cell<T>>, t: StatValues<T>, b: seq<Cell<T>>)
    requires StrictTotal(less) && Summarises(less, s, a) && Summarises(less, t, b)
    requires multiset(a) == multiset(b) && (s.nullCount.Some? <==> t.nullCount.Some?)
    ensures s == t
  {
    SameNulls(a, b);
    assert forall x :: x in a <==> x in b by {
      assert forall x :: x in a <==> x in multiset(a);
      assert forall x :: x in b <==> x in multiset(b);
    }
    assert |a| == |multiset(a)| == |multiset(b)| == |b|;
    MembersOnly(a, b);
  }

  lemma MembersOnly<T(!new)>(a: seq<Cell<T>>, b: seq<Cell<T>>)
    requires forall x :: x in a <==> x in b
    ensures (exists i :: 0 <= i < |a| && a[i].Val?) <==> (exists i :: 0 <= i < |b| && b[i].Val?)
    ensures forall i :: 0 <= i < |a| ==> a[i] in b
    ensures forall i :: 0 <= i < |b| ==> b[i] in a
  {
    forall i | 0 <= i < |a| ensures a[i] in b { assert a[i] in a; }
    forall i | 0 <= i < |b| ensures b[i] in a { assert b[i] in b; }
  }

  lemma {:induction false} NullsInMultiset<T>(a: seq<Cell<T>>)
    ensures CountNulls(a) == multiset(a)[Null]
  {
    if a != [] {
      NullsInMultiset(a[..|a| - 1]);
      assert a == a[..|a| - 1] + [a[|a| - 1]];
    }
  }

  lemma SameNulls<T>(a: seq<Cell<T>>, b: seq<Cell<T>>)
    requires multiset(a) == multiset(b)
    ensures CountNulls(a) == CountNulls(b)
  {
    NullsInMultiset(a);
    NullsInMultiset(b);
  }
}
