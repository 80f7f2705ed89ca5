/** Computing the partition keys of a whole batch: with rows skipped that repeat the previous key, and with equal
    neighbours merged into ranges. All of it gives each row the key it would get on its own, except where a null in a
    column that is not a tag follows a value. */
module PartitionBatch {
  import opened Wrappers
  import opened PartitionKeys
  import opened RowKeys

  // ---------- skipping rows that repeat the last key ----------

  /** All parts have values, or nulls, for the first `n` rows. */
  ghost predicate HaveRows(sources: seq<Source>, n: nat) {
    forall s, i :: s in sources && 0 <= i < n ==> s.Has(i)
  }

  /** The last row before `i` whose rendering came to part `q`. */
  ghost function LastReaching(sources: seq<Source>, q: nat, i: nat, seg: Bytes -> seq<Bytes>): (r: Option<nat>)
    requires Segments(seg) && q < |sources| && HaveRows(sources, i)
    ensures r.Some? ==> r.value < i && sources[q].Has(r.value)
  {
    if i == 0 then None
    else if KeyPrefix(sources, q, i - 1, seg).Success? then assert sources[q] in sources; Some(i - 1)
    else LastReaching(sources, q, i - 1, seg)
  }

  /** The part looks in row `i` as it did in the row rendered last, or as a null if it never was. */
  predicate Looks(s: Source, i: nat, last: Option<nat>)
    requires s.Has(i) && (last.Some? ==> s.Has(last.value))
  {
    match s
    case Tag(valid, ids, _) =>
      if last == None then !valid[i] else valid[i] == valid[last.value] && (valid[i] ==> ids[i] == ids[last.value])
    case NotTag(valid, _) => !valid[i]
    case Time(times, format) => last.Some? && Reduced(format, times[i]) == Reduced(format, times[last.value])
    case MissingTag => true
  }

  /** Every part looks as it did when it was rendered last. */
  ghost predicate Repeats(sources: seq<Source>, i: nat, seg: Bytes -> seq<Bytes>)
    requires Segments(seg) && HaveRows(sources, i + 1)
  {
    forall q :: 0 <= q < |sources| ==> LooksAt(sources, q, i, seg)
  }

  ghost predicate LooksAt(sources: seq<Source>, q: nat, i: nat, seg: Bytes -> seq<Bytes>)
    requires Segments(seg) && HaveRows(sources, i + 1) && q < |sources|
  {
    assert sources[q] in sources;
    Looks(sources[q], i, LastReaching(sources, q, i, seg))
  }

  /** What the code yields for a row: nothing for one that repeats, and its key otherwise. */
  ghost function KeyItem(sources: seq<Source>, i: nat, seg: Bytes -> seq<Bytes>): Option<Result<Bytes, KeyError>>
    requires Segments(seg) && HaveRows(sources, i + 1)
  {
    if i > 0 && Repeats(sources, i, seg) then None else Some(RowKey(sources, i, seg))
  }

  ghost function KeyItems(
    sources: seq<Source>, n: nat, seg: Bytes -> seq<Bytes>): (items: seq<Option<Result<Bytes, KeyError>>>)
    requires Segments(seg) && HaveRows(sources, n)
    ensures |items| == n && forall i :: 0 <= i < n ==> items[i] == KeyItem(sources, i, seg)
    ensures n > 0 ==> items[0].Some?
  {
    seq(n, i requires 0 <= i < n => KeyItem(sources, i, seg))
  }

  /** Nothing is remembered yet. */
  predicate Blank(t: Template) {
    (t.source.Tag? ==> t.lastKey == None) && (t.source.Time? ==> t.cache.lastTs == None)
  }

  /** Part `q` remembers the row it was rendered for last before row `i`. */
  ghost predicate Remembers(template: seq<Template>, q: nat, i: nat, seg: Bytes -> seq<Bytes>)
    requires Segments(seg) && q < |template| && HaveRows(Sources(template), i)
  {
    match LastReaching(Sources(template), q, i, seg)
    case Some(k) => Current(template[q], k)
    case None => Blank(template[q])
  }

  ghost predicate AllRemember(template: seq<Template>, i: nat, seg: Bytes -> seq<Bytes>)
    requires Segments(seg) && HaveRows(Sources(template), i)
  {
    forall q :: 0 <= q < |template| ==> Remembers(template, q, i, seg)
  }

  lemma IdenticalLooks(template: seq<Template>, q: nat, n: nat, i: nat, seg: Bytes -> seq<Bytes>)
    requires Segments(seg) && AllValid(template, n, seg) && i < n && q < |template| && Remembers(template, q, i, seg)
    ensures template[q].source.Has(i) && (IsIdentical(template[q], i) <==> LooksAt(Sources(template), q, i, seg))
  {
    hide LastReaching, Segments;
    assert Sources(template)[q] in Sources(template);
    assert TemplateValid(template[q], seg);
  }

  /** A row that repeats leaves behind what is remembered already. */
  lemma SkipRemembers(template: seq<Template>, n: nat, i: nat, seg: Bytes -> seq<Bytes>)
    requires Segments(seg) && AllValid(template, n, seg) && i < n && Repeats(Sources(template), i, seg)
    requires AllRemember(template, i, seg)
    ensures AllRemember(template, i + 1, seg)
  {
    hide Segments, KeyPrefix;
    var next := i + 1;
    forall q | 0 <= q < |template| ensures Remembers(template, q, next, seg) {
      assert LooksAt(Sources(template), q, i, seg);
      assert Remembers(template, q, i, seg);
    }
  }

  lemma RowRemembers(was: seq<Template>, now: seq<Template>, n: nat, i: nat, seg: Bytes -> seq<Bytes>)
    requires Segments(seg) && AllValid(was, n, seg) && i < n && Sources(now) == Sources(was)
    requires AllRemember(was, i, seg) && forall q :: 0 <= q < |was| ==> Touched(was, now, q, i, seg)
    ensures AllRemember(now, i + 1, seg)
  {
    hide Segments, KeyPrefix, Current;
    assert |Sources(now)| == |Sources(was)|;
    var next := i + 1;
    forall q | 0 <= q < |now| ensures Remembers(now, q, next, seg) {
      assert Remembers(was, q, i, seg) && Touched(was, now, q, i, seg);
    }
  }

  const EMPTY: Cache := Cache([None, None, None, None, None], SLOTS - 1, None)

  function Start(sources: seq<Source>): (template: seq<Template>)
    ensures |template| == |sources|
    ensures forall q :: 0 <= q < |sources| ==> template[q] == Template(sources[q], None, EMPTY)
  {
    seq(|sources|, q requires 0 <= q < |sources| => Template(sources[q], None, EMPTY))
  }

  lemma StartValid(sources: seq<Source>, n: nat, seg: Bytes -> seq<Bytes>)
    requires Segments(seg) && HaveRows(sources, n)
    ensures Sources(Start(sources)) == sources && AllValid(Start(sources), n, seg)
    ensures AllRemember(Start(sources), 0, seg)
  {
    hide Segments, TimeKey, KeyPrefix, LastReaching;
    assert Sources(Start(sources)) == sources;
  }

  /** One optional key per row; a row without one repeats the key before it. */
  method PartitionKeysOf(sources: seq<Source>, n: nat, seg: Bytes -> seq<Bytes>)
    returns (items: seq<Option<Result<Bytes, KeyError>>>)
    requires Segments(seg) && HaveRows(sources, n)
    ensures items == KeyItems(sources, n, seg)
  {
    hide RowKey, Segments, TemplateValid, Current, IsIdentical, Remembers, LooksAt, Touched;
    var template := Start(sources);
    StartValid(sources, n, seg);
    items := [];
    while |items| < n
      invariant |items| <= n && Sources(template) == sources && |template| == |sources| && AllValid(template, n, seg)
      invariant forall i :: 0 <= i < |items| ==> items[i] == KeyItem(sources, i, seg)
      invariant AllRemember(template, |items|, seg)
    {
      var i := |items|;
      var identical := AllIdentical(template, n, i, seg);
      if i > 0 && identical {
        SkipRemembers(template, n, i, seg);
        items := items + [None];
      } else {
        var next, key := EvaluateTemplate(template, n, i, seg);
        RowRemembers(template, next, n, i, seg);
        template := next;
        items := items + [Some(key)];
      }
    }
  }

  method AllIdentical(template: seq<Template>, n: nat, i: nat, seg: Bytes -> seq<Bytes>) returns (r: bool)
    requires Segments(seg) && AllValid(template, n, seg) && i < n
    requires AllRemember(template, i, seg)
    ensures r <==> Repeats(Sources(template), i, seg)
  {
    hide Segments, TemplateValid, IsIdentical, Remembers, LooksAt;
    assert |Sources(template)| == |template|;
    for q := 0 to |template|
      invariant forall p :: 0 <= p < q ==> LooksAt(Sources(template), p, i, seg)
    {
      IdenticalLooks(template, q, n, i, seg);
      if !IsIdentical(template[q], i) {
        return false;
      }
    }
    return true;
  }

  // ---------- when every row gets its own key ----------

  /** The latest key at or before row `i`. */
  ghost function Latest<T>(items: seq<Option<T>>, i: nat): (r: T)
    requires i < |items| && items[0].Some?
  {
    if items[i].Some? then items[i].value else Latest(items, i - 1)
  }

  /** A value in a column that is not a tag. */
  predicate Valued(s: Source, i: nat)
    requires s.Has(i)
  {
    s.NotTag? && s.valid[i]
  }

  /** Rendering row `j` fails on a value in part `p`, which is not a tag. */
  ghost predicate FailsAt(sources: seq<Source>, p: nat, j: nat, seg: Bytes -> seq<Bytes>)
    requires Segments(seg) && p < |sources| && HaveRows(sources, j + 1)
  {
    assert sources[p] in sources;
    Valued(sources[p], j) && KeyPrefix(sources, p, j, seg).Success?
  }

  ghost predicate NotTagFails(sources: seq<Source>, j: nat, seg: Bytes -> seq<Bytes>)
    requires Segments(seg) && HaveRows(sources, j + 1)
  {
    exists p :: 0 <= p < |sources| && FailsAt(sources, p, j, seg)
  }

  /** A row that repeats, nulls included, behind one that failed on a value where a tag was expected. */
  ghost predicate FallsBack(sources: seq<Source>, i: nat, seg: Bytes -> seq<Bytes>)
    requires Segments(seg) && i > 0 && HaveRows(sources, i + 1)
  {
    Repeats(sources, i, seg) && NotTagFails(sources, i - 1, seg)
  }

  /** Row `i` is given its own key, or its own error. */
  ghost predicate RightAt(sources: seq<Source>, n: nat, i: nat, seg: Bytes -> seq<Bytes>)
    requires Segments(seg) && HaveRows(sources, n) && i < n
  {
    Latest(KeyItems(sources, n, seg), i) == RowKey(sources, i, seg)
  }

  /** A part that looks as it did in row `j` renders as it did, unless it was not a tag there. */
  lemma SamePart(s: Source, i: nat, j: nat, seg: Bytes -> seq<Bytes>)
    requires Segments(seg) && s.Has(i) && s.Has(j) && Looks(s, i, Some(j)) && !Valued(s, j)
    ensures PartKey(s, i, seg) == PartKey(s, j, seg)
  {
    if s.Time? {
      hide TimeKey;
      ReducedKey(s.format, s.times[i], seg);
      ReducedKey(s.format, s.times[j], seg);
    }
  }

  /** A row that repeats has the key or error of the row before it, unless that one failed on a value where a tag
      was expected. */
  lemma {:induction false} RepeatedPrefix(sources: seq<Source>, k: nat, i: nat, seg: Bytes -> seq<Bytes>)
    requires Segments(seg) && k <= |sources| && 0 < i && HaveRows(sources, i + 1)
    requires Repeats(sources, i, seg) && !NotTagFails(sources, i - 1, seg)
    ensures KeyPrefix(sources, k, i, seg) == KeyPrefix(sources, k, i - 1, seg)
    decreases k
  {
    if k == 0 {
      PrefixStep(sources, k, i, seg);
      PrefixStep(sources, k, i - 1, seg);
    } else {
      hide Segments, PartKey, KeyPrefix, Repeats, NotTagFails;
      RepeatedPrefix(sources, k - 1, i, seg);
      if KeyPrefix(sources, k - 1, i - 1, seg).Success? {
        RepeatedPart(sources, k - 1, i, seg);
      }
      PrefixEqual(sources, k, i, i - 1, seg);
    }
  }

  lemma RepeatedPart(sources: seq<Source>, q: nat, i: nat, seg: Bytes -> seq<Bytes>)
    requires Segments(seg) && q < |sources| && 0 < i && HaveRows(sources, i + 1)
    requires KeyPrefix(sources, q, i - 1, seg).Success? && Repeats(sources, i, seg) && !NotTagFails(sources, i - 1, seg)
    ensures sources[q] in sources && PartKey(sources[q], i, seg) == PartKey(sources[q], i - 1, seg)
  {
    hide Segments, PartKey, Looks, KeyPrefix;
    assert sources[q] in sources;
    assert LooksAt(sources, q, i, seg) && !FailsAt(sources, q, i - 1, seg);
    assert LastReaching(sources, q, i, seg) == Some(i - 1);
    SamePart(sources[q], i, i - 1, seg);
  }

  /** Nulls do not fail for not being tags. */
  lemma {:induction false} NullsRender(sources: seq<Source>, k: nat, i: nat, seg: Bytes -> seq<Bytes>)
    requires Segments(seg) && k <= |sources| && forall s :: s in sources ==> s.Has(i)
    requires forall s :: s in sources ==> !Valued(s, i)
    ensures KeyPrefix(sources, k, i, seg).Failure? ==> KeyPrefix(sources, k, i, seg).error == InvalidStrftime
  {
    if k > 0 {
      hide Segments;
      NullsRender(sources, k - 1, i, seg);
      assert sources[k - 1] in sources;
    }
  }

  lemma FailsNotTag(sources: seq<Source>, p: nat, j: nat, seg: Bytes -> seq<Bytes>)
    requires Segments(seg) && p < |sources| && HaveRows(sources, j + 1) && FailsAt(sources, p, j, seg)
    ensures RowKey(sources, j, seg) == Failure(TagValueNotTag(sources[p].columnType))
  {
    hide Segments;
    assert sources[p] in sources;
    assert KeyPrefix(sources, p + 1, j, seg) == Failure(TagValueNotTag(sources[p].columnType));
    FailureStays(sources, p + 1, |sources|, j, seg);
  }

  /** Such a row is given the error of the row before it, which is not its own. */
  lemma FallsBackWrong(sources: seq<Source>, n: nat, i: nat, seg: Bytes -> seq<Bytes>)
    requires Segments(seg) && HaveRows(sources, n) && 0 < i < n && FallsBack(sources, i, seg)
    ensures !RightAt(sources, n, i, seg)
  {
    hide Segments, RowKey, KeyPrefix, PartKey;
    var p :| 0 <= p < |sources| && FailsAt(sources, p, i - 1, seg);
    assert i > 1 ==> !LooksAt(sources, p, i - 1, seg);
    FailsNotTag(sources, p, i - 1, seg);
    forall s | s in sources ensures s.Has(i) && !Valued(s, i) {
      var q :| 0 <= q < |sources| && sources[q] == s;
      assert LooksAt(sources, q, i, seg);
    }
    NullsFail(sources, i, seg);
    var items := KeyItems(sources, n, seg);
    assert items[i] == KeyItem(sources, i, seg) == None;
    assert items[i - 1] == KeyItem(sources, i - 1, seg) == Some(RowKey(sources, i - 1, seg));
    assert Latest(items, i) == Latest(items, i - 1) == RowKey(sources, i - 1, seg);
    assert RowKey(sources, i, seg) != RowKey(sources, i - 1, seg);
  }

  lemma NullsFail(sources: seq<Source>, i: nat, seg: Bytes -> seq<Bytes>)
    requires Segments(seg) && forall s :: s in sources ==> s.Has(i)
    requires forall s :: s in sources ==> !Valued(s, i)
    ensures RowKey(sources, i, seg).Failure? ==> RowKey(sources, i, seg).error == InvalidStrftime
  {
    NullsRender(sources, |sources|, i, seg);
  }

  lemma {:induction false} RightUpTo(sources: seq<Source>, n: nat, i: nat, seg: Bytes -> seq<Bytes>)
    requires Segments(seg) && HaveRows(sources, n) && i < n
    requires forall j :: 0 < j <= i ==> !FallsBack(sources, j, seg)
    ensures RightAt(sources, n, i, seg)
  {
    hide Segments, KeyPrefix, Repeats, NotTagFails;
    assert KeyItems(sources, n, seg)[i] == KeyItem(sources, i, seg);
    if i > 0 && Repeats(sources, i, seg) {
      RightUpTo(sources, n, i - 1, seg);
      assert !FallsBack(sources, i, seg);
      RepeatedPrefix(sources, |sources|, i, seg);
    }
  }

  /** The first rows of a batch are all given their own keys, or errors, exactly when none of them falls back. */
  lemma RightIff(sources: seq<Source>, n: nat, m: nat, seg: Bytes -> seq<Bytes>)
    requires Segments(seg) && HaveRows(sources, n) && m <= n
    ensures (forall i :: 0 <= i < m ==> RightAt(sources, n, i, seg)) <==>
      (forall i :: 0 < i < m ==> !FallsBack(sources, i, seg))
  {
    hide Segments, FallsBack, RightAt;
    if forall i :: 0 < i < m ==> !FallsBack(sources, i, seg) {
      forall i | 0 <= i < m ensures RightAt(sources, n, i, seg) {
        RightUpTo(sources, n, i, seg);
      }
    } else {
      var i :| 0 < i < m && FallsBack(sources, i, seg);
      FallsBackWrong(sources, n, i, seg);
    }
  }

  // ---------- merging equal neighbours ----------

  datatype KeyRange<T> = KeyRange(key: T, start: nat, end: nat)

  /** Non-empty ranges that follow each other from 0 to `n`. */
  ghost predicate Tiles<T>(out: seq<KeyRange<T>>, n: nat) {
    && (forall k :: 0 <= k < |out| ==> out[k].start < out[k].end)
    && (forall k :: 0 <= k < |out| - 1 ==> out[k].end == out[k + 1].start)
    && (if out == [] then n == 0 else out[0].start == 0 && out[|out| - 1].end == n)
  }

  /** The ranges up to row `n` carry the keys of their rows, and neighbours differ. */
  ghost predicate Encodes<T(!new)>(out: seq<KeyRange<T>>, items: seq<Option<T>>, n: nat)
    requires n <= |items| && (n > 0 ==> items[0].Some?)
  {
    && Tiles(out, n)
    && (forall k :: 0 <= k < |out| ==> out[k].end <= n && Uniform(items, out[k]))
    && (forall k :: 0 <= k < |out| - 1 ==> out[k].key != out[k + 1].key)
  }

  /** All rows of a range have its key. */
  ghost predicate Uniform<T(!new)>(items: seq<Option<T>>, r: KeyRange<T>)
    requires r.end <= |items| && (r.end > 0 ==> items[0].Some?)
  {
    forall i :: r.start <= i < r.end ==> Latest(items, i) == r.key
  }

  lemma EncodesMore<T(!new)>(out: seq<KeyRange<T>>, items: seq<Option<T>>, r: KeyRange<T>)
    requires r.start < r.end <= |items| && items[0].Some?
    requires Encodes(out, items, r.start) && Uniform(items, r)
    requires out != [] ==> out[|out| - 1].key != r.key
    ensures Encodes(out + [r], items, r.end)
  {
    hide Uniform;
  }

  /** Merges consecutive rows of equal key; a missing key repeats the one before it. */
  method RangeEncode<T(!new, ==)>(items: seq<Option<T>>) returns (out: seq<KeyRange<T>>)
    requires items != [] ==> items[0].Some?
    ensures Encodes(out, items, |items|)
  {
    hide Encodes;
    out := [];
    var last: Option<T> := None;
    var start, end := 0, 0;
    NothingEncoded(items);
    while end < |items|
      invariant 0 <= start <= end <= |items|
      invariant last == None <==> end == 0
      invariant last.Some? ==> start < end && Uniform(items, KeyRange(last.value, start, end))
      invariant Encodes(out, items, start)
      invariant out != [] ==> last.Some? && out[|out| - 1].key != last.value
    {
      var cur := items[end];
      if last == None {
        last := cur;
      } else if cur != None && cur != last {
        EncodesMore(out, items, KeyRange(last.value, start, end));
        out := out + [KeyRange(last.value, start, end)];
        start := end;
        last := cur;
      }
      assert Latest(items, end) == last.value;
      end := end + 1;
    }
    if last.Some? {
      EncodesMore(out, items, KeyRange(last.value, start, end));
      out := out + [KeyRange(last.value, start, end)];
    }
  }

  lemma NothingEncoded<T(!new)>(items: seq<Option<T>>)
    ensures Encodes([], items, 0)
  {
  }

  /** The batch is cut into consecutive ranges, neighbours differing in key. Every row lies in a range of its own key
      exactly when no row falls back. */
  method PartitionBatch(sources: seq<Source>, n: nat, seg: Bytes -> seq<Bytes>)
    returns (out: seq<KeyRange<Result<Bytes, KeyError>>>)
    requires Segments(seg) && HaveRows(sources, n)
    ensures Encodes(out, KeyItems(sources, n, seg), n)
    ensures OwnKeys(out, sources, n, seg) <==> forall i :: 0 < i < n ==> !FallsBack(sources, i, seg)
  {
    var items := PartitionKeysOf(sources, n, seg);
    out := RangeEncode(items);
    OwnKeysIff(out, sources, n, seg);
  }

  /** Every row lies in a range of its own key, or error. */
  ghost predicate OwnKeys(
    out: seq<KeyRange<Result<Bytes, KeyError>>>, sources: seq<Source>, n: nat, seg: Bytes -> seq<Bytes>)
    requires Segments(seg) && HaveRows(sources, n)
  {
    forall i :: 0 <= i < n ==> OwnKeyAt(out, sources, i, seg)
  }

  ghost predicate OwnKeyAt(
    out: seq<KeyRange<Result<Bytes, KeyError>>>, sources: seq<Source>, i: nat, seg: Bytes -> seq<Bytes>)
    requires Segments(seg) && HaveRows(sources, i + 1)
  {
    exists k :: 0 <= k < |out| && InRange(out[k], i) && out[k].key == RowKey(sources, i, seg)
  }

  predicate InRange<T>(r: KeyRange<T>, i: nat) {
    r.start <= i < r.end
  }

  lemma {:induction false} FindRange<T>(out: seq<KeyRange<T>>, n: nat, i: nat, k: nat) returns (j: nat)
    requires Tiles(out, n) && k < |out| && i < out[k].end
    ensures j <= k && InRange(out[j], i)
  {
    if k == 0 || out[k].start <= i {
      j := k;
    } else {
      assert out[k - 1].end == out[k - 1 + 1].start;
      j := FindRange(out, n, i, k - 1);
    }
  }

  lemma OwnKeysIff(out: seq<KeyRange<Result<Bytes, KeyError>>>, sources: seq<Source>, n: nat, seg: Bytes -> seq<Bytes>)
    requires Segments(seg) && HaveRows(sources, n) && Encodes(out, KeyItems(sources, n, seg), n)
    ensures OwnKeys(out, sources, n, seg) <==> forall i :: 0 < i < n ==> !FallsBack(sources, i, seg)
  {
    hide Segments, FallsBack, RowKey, KeyItem;
    RightIff(sources, n, n, seg);
    if OwnKeys(out, sources, n, seg) {
      forall i | 0 <= i < n ensures RightAt(sources, n, i, seg) {
        assert OwnKeyAt(out, sources, i, seg);
        var k :| 0 <= k < |out| && InRange(out[k], i) && out[k].key == RowKey(sources, i, seg);
        assert Uniform(KeyItems(sources, n, seg), out[k]);
      }
    }
    if forall i :: 0 <= i < n ==> RightAt(sources, n, i, seg) {
      forall i | 0 <= i < n ensures OwnKeyAt(out, sources, i, seg) {
        var k := FindRange(out, n, i, |out| - 1);
        assert Uniform(KeyItems(sources, n, seg), out[k]) && RightAt(sources, n, i, seg);
      }
    }
  }
}
