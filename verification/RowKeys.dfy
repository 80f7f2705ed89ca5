/** The partition key of a row: part by part, with cached timestamps, and with parts that remember the row they
    rendered last. */
module RowKeys {
  import opened Wrappers
  import opened PartitionKeys
  import opened PartitionTime

  datatype KeyError = InvalidStrftime | TagValueNotTag(columnType: nat)

  /** How a timestamp is printed: by date only, or by any other format, which may be invalid and then prints none. */
  datatype Format =
    | YearMonthDay(text: Date -> Bytes)
    | Custom(show: Option<int -> Bytes>)
  {
    function Text(ts: int): Option<Bytes> {
      match this
      case YearMonthDay(text) => Some(text(DateOf(ts)))
      case Custom(show) => if show == None then None else Some(show.value(ts))
    }
  }

  /** Where a template part takes its values from in a batch. */
  datatype Source =
    | Tag(valid: seq<bool>, ids: seq<int>, dict: int -> Bytes)
    | NotTag(valid: seq<bool>, columnType: nat)
    | Time(times: seq<int>, format: Format)
    | MissingTag
  {
    /** Has a value, or a null, for row `i`. */
    predicate Has(i: nat) {
      match this
      case Tag(valid, ids, _) => i < |valid| && i < |ids|
      case NotTag(valid, _) => i < |valid|
      case Time(times, _) => i < |times|
      case MissingTag => true
    }
  }

  // ---------- the simple form ----------

  /** A way to cut every value into graphemes. */
  ghost predicate Segments(seg: Bytes -> seq<Bytes>) {
    forall s :: Concat(seg(s)) == s
  }

  function TimeKey(f: Format, ts: int, seg: Bytes -> seq<Bytes>): (r: Result<Bytes, KeyError>)
    requires Segments(seg)
  {
    match f.Text(ts)
    case Some(text) => Success(EncodePart(text, seg(text)))
    case None => Failure(InvalidStrftime)
  }

  function PartKey(s: Source, i: nat, seg: Bytes -> seq<Bytes>): (r: Result<Bytes, KeyError>)
    requires Segments(seg) && s.Has(i)
  {
    match s
    case Tag(valid, ids, dict) =>
      Success(if valid[i] then EncodePart(dict(ids[i]), seg(dict(ids[i]))) else [VALUE_NULL])
    case NotTag(valid, columnType) => if valid[i] then Failure(TagValueNotTag(columnType)) else Success([VALUE_NULL])
    case Time(times, format) => TimeKey(format, times[i], seg)
    case MissingTag => Success([VALUE_NULL])
  }

  /** The first `k` parts of the key of row `i`, each followed by a delimiter unless it is the last of all. */
  function KeyPrefix(sources: seq<Source>, k: nat, i: nat, seg: Bytes -> seq<Bytes>): (r: Result<Bytes, KeyError>)
    requires k <= |sources| && Segments(seg) && forall s :: s in sources ==> s.Has(i)
  {
    if k == 0 then Success([])
    else
      var front := KeyPrefix(sources, k - 1, i, seg);
      if front.Failure? then front
      else
        var part := PartKey(sources[k - 1], i, seg);
        if part.Failure? then part
        else Success(front.value + part.value + (if k != |sources| then [DELIMITER] else []))
  }

  function RowKey(sources: seq<Source>, i: nat, seg: Bytes -> seq<Bytes>): (r: Result<Bytes, KeyError>)
    requires Segments(seg) && forall s :: s in sources ==> s.Has(i)
  {
    KeyPrefix(sources, |sources|, i, seg)
  }

  /** Rows that agree on every part have the same key. */
  lemma {:induction false} SameParts(sources: seq<Source>, k: nat, i: nat, j: nat, seg: Bytes -> seq<Bytes>)
    requires k <= |sources| && Segments(seg) && forall s :: s in sources ==> s.Has(i) && s.Has(j)
    requires forall p :: 0 <= p < k ==> PartKey(sources[p], i, seg) == PartKey(sources[p], j, seg)
    ensures KeyPrefix(sources, k, i, seg) == KeyPrefix(sources, k, j, seg)
  {
    if k != 0 {
      SameParts(sources, k - 1, i, j, seg);
    }
  }

  /** A key without an error joins its parts. */
  lemma RowKeyJoins(sources: seq<Source>, i: nat, seg: Bytes -> seq<Bytes>, parts: seq<Bytes>)
    requires Segments(seg) && sources != [] && forall s :: s in sources ==> s.Has(i)
    requires |parts| == |sources|
    requires forall p :: 0 <= p < |sources| ==> PartKey(sources[p], i, seg) == Success(parts[p])
    ensures RowKey(sources, i, seg) == Success(Join(parts))
  {
    hide KeyPrefix, PartKey, Segments;
    var n := |sources|;
    PrefixJoins(sources, n - 1, i, seg, parts);
    PrefixStep(sources, n, i, seg);
    assert parts[n - 1..] == [parts[n - 1]];
    var front := KeyPrefix(sources, n - 1, i, seg).value;
    assert front + parts[n - 1] + [] == front + parts[n - 1];
  }

  lemma {:induction false} PrefixJoins(
    sources: seq<Source>, k: nat, i: nat, seg: Bytes -> seq<Bytes>, parts: seq<Bytes>)
    requires Segments(seg) && forall s :: s in sources ==> s.Has(i)
    requires k < |parts| == |sources|
    requires forall p :: 0 <= p < |sources| ==> PartKey(sources[p], i, seg) == Success(parts[p])
    ensures KeyPrefix(sources, k, i, seg).Success?
    ensures KeyPrefix(sources, k, i, seg).value + Join(parts[k..]) == Join(parts)
  {
    if k == 0 {
      assert parts[0..] == parts;
    } else {
      hide PartKey, Segments;
      PrefixJoins(sources, k - 1, i, seg, parts);
      var front := KeyPrefix(sources, k - 1, i, seg).value;
      assert parts[k - 1..][1..] == parts[k..];
      Regroup(front, parts[k - 1], Join(parts[k..]));
    }
  }

  /** What a part holds in a row when it has a key: a null, or a value with its graphemes. */
  ghost function CellOf(s: Source, i: nat, seg: Bytes -> seq<Bytes>): Cell
    requires s.Has(i)
  {
    match s
    case Tag(valid, ids, dict) => if valid[i] then Value(dict(ids[i]), seg(dict(ids[i]))) else Null
    case NotTag(_, _) => Null
    case Time(times, format) =>
      var text := format.Text(times[i]);
      if text.Some? then Value(text.value, seg(text.value)) else Null
    case MissingTag => Null
  }

  /** What the template names for each part does not matter to the key. */
  ghost function RowCells(sources: seq<Source>, i: nat, seg: Bytes -> seq<Bytes>): (row: seq<Cell>)
    requires forall s :: s in sources ==> s.Has(i)
    ensures |row| == |sources| && forall p :: 0 <= p < |row| ==> row[p] == CellOf(sources[p], i, seg)
  {
    seq(|sources|, p requires 0 <= p < |sources| => assert sources[p] in sources; CellOf(sources[p], i, seg))
  }

  /** A part renders as the cell it holds. */
  lemma PartIsCell(s: Source, i: nat, seg: Bytes -> seq<Bytes>)
    requires Segments(seg) && s.Has(i) && PartKey(s, i, seg).Success?
    ensures
      var c := CellOf(s, i, seg);
      (c.Value? ==> Concat(c.graphemes) == c.bytes) && PartKey(s, i, seg).value == RenderCell(c)
  {
  }

  /** The key generated for a row of a batch is the key that is read back: a null for every tag that is null, missing
      or absent, and the encoded value or time otherwise. */
  lemma RowKeyIsKey(template: seq<TemplatePart>, sources: seq<Source>, i: nat, seg: Bytes -> seq<Bytes>)
    requires Segments(seg) && sources != [] && (forall s :: s in sources ==> s.Has(i)) && |template| == |sources|
    requires forall p :: 0 <= p < |sources| ==> (template[p].TagValue? <==> !sources[p].Time?)
    requires forall p :: 0 <= p < |sources| ==> PartKey(sources[p], i, seg).Success?
    ensures WellFormedRow(template, RowCells(sources, i, seg))
    ensures RowKey(sources, i, seg) == Success(Key(template, RowCells(sources, i, seg)))
  {
    hide PartKey, RowKey, KeyPrefix, Join;
    var row := RowCells(sources, i, seg);
    forall p | 0 <= p < |row|
      ensures row[p].Value? ==> Concat(row[p].graphemes) == row[p].bytes
      ensures PartKey(sources[p], i, seg) == Success(RenderCell(row[p])) && (row[p] == Null ==> template[p].TagValue?)
    {
      PartIsCell(sources[p], i, seg);
      TimeHasCell(sources[p], i, seg);
    }
    RowKeyJoins(sources, i, seg, RenderParts(row));
  }

  lemma TimeHasCell(s: Source, i: nat, seg: Bytes -> seq<Bytes>)
    requires Segments(seg) && s.Has(i) && PartKey(s, i, seg).Success?
    ensures s.Time? ==> CellOf(s, i, seg).Value?
  {
  }

  lemma Regroup(a: Bytes, b: Bytes, c: Bytes)
    ensures a + (b + [DELIMITER] + c) == a + b + [DELIMITER] + c
  {
  }

  // ---------- timestamps through a cache ----------

  const SLOTS: nat := 5

  /** The most recent renderings, in a ring, and the last timestamp rendered. */
  datatype Cache = Cache(slots: seq<Option<(int, Bytes)>>, lastIdx: nat, lastTs: Option<int>)

  ghost predicate CacheValid(f: Format, c: Cache, seg: Bytes -> seq<Bytes>)
    requires Segments(seg)
  {
    && |c.slots| == SLOTS && c.lastIdx < SLOTS
    && forall k ::
         0 <= k < SLOTS && c.slots[k].Some? ==> TimeKey(f, c.slots[k].value.0, seg) == Success(c.slots[k].value.1)
  }

  /** Rounds a timestamp down to its day when only the date is printed. */
  function Reduced(f: Format, ts: int): (r: int) {
    if !f.YearMonthDay? || ts < DAY_NANOSECONDS then ts else ts - ts % DAY_NANOSECONDS
  }

  lemma ReducedKey(f: Format, ts: int, seg: Bytes -> seq<Bytes>)
    requires Segments(seg)
    ensures TimeKey(f, Reduced(f, ts), seg) == TimeKey(f, ts, seg)
  {
    assert (ts - ts % DAY_NANOSECONDS) / DAY_NANOSECONDS == ts / DAY_NANOSECONDS;
  }

  /** Searches the slots in order; an empty slot ends the search. */
  method FindSlot(slots: seq<Option<(int, Bytes)>>, ts: int) returns (r: Option<Bytes>)
    ensures r.Some? ==> Some((ts, r.value)) in slots
    ensures r == None ==>
      forall k :: 0 <= k < |slots| && slots[k].Some? && slots[k].value.0 == ts ==> None in slots[..k]
  {
    var k := 0;
    while k < |slots|
      invariant 0 <= k <= |slots|
      invariant forall j :: 0 <= j < k ==> slots[j].Some? && slots[j].value.0 != ts
    {
      if slots[k] == None {
        assert forall j :: k < j < |slots| ==> slots[..j][k] == None;
        return None;
      }
      if slots[k].value.0 == ts {
        return Some(slots[k].value.1);
      }
      k := k + 1;
    }
    r := None;
  }

  method Render(f: Format, c: Cache, timestamp: int, seg: Bytes -> seq<Bytes>)
    returns (c': Cache, r: Result<Bytes, KeyError>)
    requires Segments(seg) && CacheValid(f, c, seg)
    ensures CacheValid(f, c', seg) && c'.lastTs == Some(Reduced(f, timestamp))
    ensures r == TimeKey(f, timestamp, seg)
    // what was rendered is kept, in place of the oldest rendering if it was not there yet
    ensures r.Success? ==> Some((Reduced(f, timestamp), r.value)) in c'.slots
    ensures c'.slots == c.slots || (c'.lastIdx == (c.lastIdx + 1) % SLOTS && OthersKept(c, c'))
  {
    hide Reduced, EncodePart, CacheValid, OthersKept;
    CacheHolds(f, c, seg);
    var ts := Reduced(f, timestamp);
    ReducedKey(f, timestamp, seg);
    c' := c.(lastTs := Some(ts));
    var hit := FindSlot(c.slots, ts);
    if hit.Some? {
      return c', Success(hit.value);
    }
    var next := (c.lastIdx + 1) % SLOTS;
    var text := f.Text(ts);
    if text == None {
      SlotSet(f, c, ts, next, None, seg);
      return c'.(lastIdx := next, slots := c.slots[next := None]), Failure(InvalidStrftime);
    }
    var rendered := EncodePart(text.value, seg(text.value));
    SlotSet(f, c, ts, next, Some((ts, rendered)), seg);
    c' := c'.(lastIdx := next, slots := c.slots[next := Some((ts, rendered))]);
    r := Success(rendered);
  }

  /** All slots but the one written last are as they were. */
  ghost predicate OthersKept(c: Cache, c': Cache) {
    && |c'.slots| == |c.slots| == SLOTS
    && forall k :: 0 <= k < SLOTS && k != c'.lastIdx ==> c'.slots[k] == c.slots[k]
  }

  lemma CacheHolds(f: Format, c: Cache, seg: Bytes -> seq<Bytes>)
    requires Segments(seg) && CacheValid(f, c, seg)
    ensures |c.slots| == SLOTS && forall ts :: CacheValid(f, c.(lastTs := ts), seg)
    ensures forall e :: e in c.slots && e.Some? ==> TimeKey(f, e.value.0, seg) == Success(e.value.1)
  {
    hide TimeKey, Segments;
  }

  lemma SlotSet(f: Format, c: Cache, ts: int, next: nat, entry: Option<(int, Bytes)>, seg: Bytes -> seq<Bytes>)
    requires Segments(seg) && CacheValid(f, c, seg) && next < SLOTS
    requires entry.Some? ==> TimeKey(f, entry.value.0, seg) == Success(entry.value.1)
    ensures
      var c' := Cache(c.slots[next := entry], next, Some(ts));
      CacheValid(f, c', seg) && OthersKept(c, c') && entry in c'.slots
  {
    hide TimeKey, Segments;
    assert c.slots[next := entry][next] == entry;
  }

  // ---------- template parts that remember the last row ----------

  datatype Template = Template(source: Source, lastKey: Option<int>, cache: Cache)

  ghost predicate TemplateValid(t: Template, seg: Bytes -> seq<Bytes>)
    requires Segments(seg)
  {
    && (t.source.Time? ==> CacheValid(t.source.format, t.cache, seg))
    && (t.source.NotTag? ==> t.lastKey == None)
  }

  /** What the part remembers is what row `i` would leave behind. */
  ghost predicate Current(t: Template, i: nat)
    requires t.source.Has(i)
  {
    match t.source
    case Tag(valid, ids, _) => t.lastKey == if valid[i] then Some(ids[i]) else None
    case Time(times, format) => t.cache.lastTs == Some(Reduced(format, times[i]))
    case _ => true
  }

  /** Whether row `i` is known to render like the remembered row. */
  predicate IsIdentical(t: Template, i: nat)
    requires t.source.Has(i)
  {
    match t.source
    case Tag(valid, ids, _) => if valid[i] then t.lastKey == Some(ids[i]) else t.lastKey == None
    case NotTag(valid, _) => !valid[i] && t.lastKey == None
    case Time(times, format) => t.cache.lastTs == Some(Reduced(format, times[i]))
    case MissingTag => true
  }

  method FmtRow(t: Template, i: nat, seg: Bytes -> seq<Bytes>) returns (t': Template, r: Result<Bytes, KeyError>)
    requires Segments(seg) && TemplateValid(t, seg) && t.source.Has(i)
    ensures t'.source == t.source && TemplateValid(t', seg) && Current(t', i)
    ensures r == PartKey(t.source, i, seg)
  {
    t' := t;
    match t.source {
      case Tag(valid, ids, dict) =>
        if valid[i] {
          t' := t.(lastKey := Some(ids[i]));
          r := Success(EncodePart(dict(ids[i]), seg(dict(ids[i]))));
        } else {
          t' := t.(lastKey := None);
          r := Success([VALUE_NULL]);
        }
      case NotTag(valid, columnType) =>
        if valid[i] {
          r := Failure(TagValueNotTag(columnType));
        } else {
          r := Success([VALUE_NULL]);
        }
      case Time(times, format) =>
        var c, rendered := Render(format, t.cache, times[i], seg);
        t' := t.(cache := c);
        r := rendered;
      case MissingTag =>
        r := Success([VALUE_NULL]);
    }
  }

  ghost function Sources(template: seq<Template>): (ss: seq<Source>) {
    seq(|template|, p requires 0 <= p < |template| => template[p].source)
  }

  /** All parts are consistent, and have values for `n` rows. */
  ghost predicate AllValid(template: seq<Template>, n: nat, seg: Bytes -> seq<Bytes>)
    requires Segments(seg)
  {
    && (forall p :: 0 <= p < |template| ==> TemplateValid(template[p], seg))
    && (forall s, i :: s in Sources(template) && 0 <= i < n ==> s.Has(i))
  }

  /** The rows that a part was rendered for last are the ones it remembers; a part behind a failing one is not
      rendered. */
  method EvaluateTemplate(template: seq<Template>, n: nat, i: nat, seg: Bytes -> seq<Bytes>)
    returns (template': seq<Template>, r: Result<Bytes, KeyError>)
    requires Segments(seg) && AllValid(template, n, seg) && i < n
    ensures Sources(template') == Sources(template) && AllValid(template', n, seg)
    ensures r == RowKey(Sources(template), i, seg)
    ensures forall q :: 0 <= q < |template| ==> Touched(template, template', q, i, seg)
  {
    hide TemplateValid, Current, PartKey, Segments, KeyPrefix, Touched;
    ghost var sources := Sources(template);
    PrefixStep(sources, 0, i, seg);
    AllHave(template, n, i, seg);
    template' := template;
    var buf := [];
    var p := 0;
    while p < |template|
      invariant 0 <= p <= |template| == |template'|
      invariant Sources(template') == sources && AllValid(template', n, seg)
      invariant forall q :: 0 <= q < p ==> template'[q].source == template[q].source && Current(template'[q], i)
      invariant forall q :: p <= q < |template| ==> template'[q] == template[q]
      invariant KeyPrefix(sources, p, i, seg) == Success(buf)
    {
      assert sources[p] in sources && template'[p].source == sources[p];
      var t, part := FmtRow(template'[p], i, seg);
      template' := template'[p := t];
      assert Sources(template') == sources;
      PrefixStep(sources, p + 1, i, seg);
      if part.Failure? {
        FailureStays(sources, p + 1, |sources|, i, seg);
        FailedAt(template, template', p, i, seg);
        return template', Failure(part.error);
      }
      buf := buf + part.value;
      if p + 1 != |template| {
        buf := buf + [DELIMITER];
      } else {
        assert buf + [] == buf;
      }
      p := p + 1;
    }
    RenderedAll(template, template', i, seg);
    r := Success(buf);
  }

  lemma PrefixStep(sources: seq<Source>, k: nat, i: nat, seg: Bytes -> seq<Bytes>)
    requires k <= |sources| && Segments(seg) && forall s :: s in sources ==> s.Has(i)
    ensures k == 0 ==> KeyPrefix(sources, k, i, seg) == Success([])
    ensures k > 0 ==>
      var front, part := KeyPrefix(sources, k - 1, i, seg), PartKey(sources[k - 1], i, seg);
      var joined := if front.Failure? then front
                    else if part.Failure? then part
                    else Success(front.value + part.value + (if k != |sources| then [DELIMITER] else []));
      KeyPrefix(sources, k, i, seg) == joined
  {
  }

  lemma PrefixEqual(sources: seq<Source>, k: nat, i: nat, j: nat, seg: Bytes -> seq<Bytes>)
    requires 0 < k <= |sources| && Segments(seg) && forall s :: s in sources ==> s.Has(i) && s.Has(j)
    requires KeyPrefix(sources, k - 1, i, seg) == KeyPrefix(sources, k - 1, j, seg)
    requires KeyPrefix(sources, k - 1, j, seg).Success? ==>
      PartKey(sources[k - 1], i, seg) == PartKey(sources[k - 1], j, seg)
    ensures KeyPrefix(sources, k, i, seg) == KeyPrefix(sources, k, j, seg)
  {
    hide KeyPrefix, PartKey, Segments;
    PrefixStep(sources, k, i, seg);
    PrefixStep(sources, k, j, seg);
  }

  lemma {:induction false} AllRender(sources: seq<Source>, k: nat, i: nat, seg: Bytes -> seq<Bytes>)
    requires k <= |sources| && Segments(seg) && forall s :: s in sources ==> s.Has(i)
    requires forall q :: 0 <= q < k ==> PartKey(sources[q], i, seg).Success?
    ensures KeyPrefix(sources, k, i, seg).Success?
    decreases k
  {
    hide KeyPrefix, PartKey, Segments;
    PrefixStep(sources, k, i, seg);
    if k > 0 {
      AllRender(sources, k - 1, i, seg);
    }
  }

  lemma RenderedAll(was: seq<Template>, now: seq<Template>, i: nat, seg: Bytes -> seq<Bytes>)
    requires Segments(seg) && |was| == |now| && forall s :: s in Sources(was) ==> s.Has(i)
    requires KeyPrefix(Sources(was), |was|, i, seg).Success?
    requires forall q :: 0 <= q < |was| ==> was[q].source.Has(i) && now[q].source == was[q].source && Current(now[q], i)
    ensures forall q :: 0 <= q < |was| ==> Touched(was, now, q, i, seg)
  {
    hide Current, KeyPrefix;
    forall q | 0 <= q < |was| ensures Touched(was, now, q, i, seg) {
      SuccessBefore(Sources(was), q, |was|, i, seg);
    }
  }

  /** The part remembers row `i` if rendering the row came to it, and is as it was otherwise. */
  ghost predicate Touched(was: seq<Template>, now: seq<Template>, q: nat, i: nat, seg: Bytes -> seq<Bytes>)
    requires Segments(seg) && q < |was| && forall s :: s in Sources(was) ==> s.Has(i)
  {
    && |now| == |was| && now[q].source == was[q].source && was[q].source.Has(i)
    && if KeyPrefix(Sources(was), q, i, seg).Success? then Current(now[q], i) else now[q] == was[q]
  }

  lemma FailedAt(was: seq<Template>, now: seq<Template>, p: nat, i: nat, seg: Bytes -> seq<Bytes>)
    requires Segments(seg) && p < |was| == |now| && forall s :: s in Sources(was) ==> s.Has(i)
    requires KeyPrefix(Sources(was), p, i, seg).Success? && KeyPrefix(Sources(was), p + 1, i, seg).Failure?
    requires forall q :: 0 <= q <= p ==> was[q].source.Has(i) && now[q].source == was[q].source && Current(now[q], i)
    requires forall q :: p < q < |was| ==> now[q] == was[q]
    ensures forall q :: 0 <= q < |was| ==> Touched(was, now, q, i, seg)
  {
    hide Current, KeyPrefix;
    forall q | 0 <= q < |was| ensures Touched(was, now, q, i, seg) {
      assert Sources(was)[q] in Sources(was);
      if q <= p {
        SuccessBefore(Sources(was), q, p, i, seg);
      } else {
        FailureStays(Sources(was), p + 1, q, i, seg);
      }
    }
  }

  lemma {:induction false} FailureStays(sources: seq<Source>, k: nat, m: nat, i: nat, seg: Bytes -> seq<Bytes>)
    requires k <= m <= |sources| && Segments(seg) && forall s :: s in sources ==> s.Has(i)
    requires KeyPrefix(sources, k, i, seg).Failure?
    ensures KeyPrefix(sources, m, i, seg) == KeyPrefix(sources, k, i, seg)
    decreases m
  {
    hide KeyPrefix, PartKey, Segments;
    if k < m {
      FailureStays(sources, k, m - 1, i, seg);
      PrefixStep(sources, m, i, seg);
    }
  }

  lemma {:induction false} SuccessBefore(sources: seq<Source>, k: nat, m: nat, i: nat, seg: Bytes -> seq<Bytes>)
    requires k <= m <= |sources| && Segments(seg) && forall s :: s in sources ==> s.Has(i)
    requires KeyPrefix(sources, m, i, seg).Success?
    ensures KeyPrefix(sources, k, i, seg).Success?
    decreases m
  {
    hide KeyPrefix, PartKey, Segments;
    if k < m {
      PrefixStep(sources, m, i, seg);
      SuccessBefore(sources, k, m - 1, i, seg);
    }
  }

  lemma AllHave(template: seq<Template>, n: nat, i: nat, seg: Bytes -> seq<Bytes>)
    requires Segments(seg) && AllValid(template, n, seg) && i < n
    ensures forall q :: 0 <= q < |template| ==> template[q].source.Has(i)
  {
    forall q | 0 <= q < |template| ensures template[q].source.Has(i) {
      assert Sources(template)[q] in Sources(template);
    }
  }
}
