/** Which batches get every row its own partition key. */
module BatchKinds {
  import opened Wrappers
  import opened PartitionKeys
  import opened RowKeys
  import opened PartitionBatch

  /** No value in a column that is not a tag is followed by a null. */
  ghost predicate NeverFalls(s: Source, n: nat)
    requires forall i :: 0 <= i < n ==> s.Has(i)
  {
    forall i :: 0 < i < n ==> !FallsAt(s, i)
  }

  predicate FallsAt(s: Source, i: nat)
    requires i > 0 && s.Has(i - 1) && s.Has(i)
  {
    Valued(s, i - 1) && !Valued(s, i)
  }

  /** Where a row falls back, a null follows a value in a column that is not a tag. */
  lemma FallsBackFalls(sources: seq<Source>, i: nat, seg: Bytes -> seq<Bytes>) returns (s: Source)
    requires Segments(seg) && i > 0 && HaveRows(sources, i + 1) && FallsBack(sources, i, seg)
    ensures s in sources && s.Has(i - 1) && s.Has(i) && FallsAt(s, i)
  {
    hide Segments, KeyPrefix;
    var p :| 0 <= p < |sources| && FailsAt(sources, p, i - 1, seg);
    s := sources[p];
    assert LooksAt(sources, p, i, seg);
  }

  /** So batches of tags and timestamps are always right, behind rows without a key as well, and so are those whose
      other columns hold no null behind a value. */
  lemma NeverFallsRight(sources: seq<Source>, n: nat, i: nat, seg: Bytes -> seq<Bytes>)
    requires Segments(seg) && HaveRows(sources, n) && i < n
    requires forall s :: s in sources ==> NeverFalls(s, n)
    ensures RightAt(sources, n, i, seg)
  {
    hide Segments, KeyPrefix, RightAt;
    forall j | 0 < j < n ensures !FallsBack(sources, j, seg) {
      if FallsBack(sources, j, seg) {
        var s := FallsBackFalls(sources, j, seg);
      }
    }
    RightIff(sources, n, n, seg);
  }

  /** Whatever the columns, every row up to the first failing one is given its own key. */
  lemma RightUpToFirstError(sources: seq<Source>, n: nat, i: nat, seg: Bytes -> seq<Bytes>)
    requires Segments(seg) && HaveRows(sources, n) && i < n
    requires forall j :: 0 <= j < i ==> RowKey(sources, j, seg).Success?
    ensures RightAt(sources, n, i, seg)
  {
    hide Segments, RowKey, Repeats, RightAt;
    forall j | 0 < j <= i ensures !FallsBack(sources, j, seg) {
      if NotTagFails(sources, j - 1, seg) {
        var p :| 0 <= p < |sources| && FailsAt(sources, p, j - 1, seg);
        FailsNotTag(sources, p, j - 1, seg);
      }
    }
    RightUpTo(sources, n, i, seg);
  }

  /** The kinds of columns a template meets, without their rows. */
  datatype Kind = TagKind | NotTagKind(columnType: nat) | TimeKind(format: Format) | MissingKind

  function KindOf(s: Source): Kind {
    match s
    case Tag(_, _, _) => TagKind
    case NotTag(_, columnType) => NotTagKind(columnType)
    case Time(_, format) => TimeKind(format)
    case MissingTag => MissingKind
  }

  /** The columns are of these kinds, and there is one time column. */
  ghost predicate OfKinds(sources: seq<Source>, kinds: seq<Kind>) {
    && |sources| == |kinds| && (forall q :: 0 <= q < |sources| ==> KindOf(sources[q]) == kinds[q])
    && (forall s, t :: s in sources && t in sources && s.Time? && t.Time? ==> s.times == t.times)
  }

  ghost predicate AllRight(sources: seq<Source>, n: nat, seg: Bytes -> seq<Bytes>)
    requires Segments(seg)
  {
    HaveRows(sources, n) ==> forall i :: 0 <= i < n ==> RightAt(sources, n, i, seg)
  }

  predicate Invalid(kind: Kind) {
    kind.TimeKind? && kind.format.Custom? && kind.format.show.None?
  }

  ghost predicate InvalidBefore(kinds: seq<Kind>, r: nat)
    requires r <= |kinds|
  {
    exists q :: 0 <= q < r && Invalid(kinds[q])
  }

  /** An invalid time format comes before part `p`, so that it is never rendered, or before another time part, so that
      no row ever looks repeated. */
  ghost predicate Silenced(kinds: seq<Kind>, p: nat)
    requires p < |kinds|
  {
    InvalidBefore(kinds, p) || TimeSilenced(kinds)
  }

  ghost predicate TimeSilenced(kinds: seq<Kind>) {
    exists r :: 0 <= r < |kinds| && kinds[r].TimeKind? && InvalidBefore(kinds, r)
  }

  /** All batches of given kinds of columns are right exactly when every column that should be a tag but is not one is
      silenced. So with valid formats it is exactly when there is no such column. */
  lemma KindsRightIff(kinds: seq<Kind>, seg: Bytes -> seq<Bytes>)
    requires Segments(seg)
    ensures (forall sources: seq<Source>, n: nat :: OfKinds(sources, kinds) ==> AllRight(sources, n, seg))
      <==> forall p :: 0 <= p < |kinds| && kinds[p].NotTagKind? ==> Silenced(kinds, p)
    ensures (forall k :: k in kinds ==> !Invalid(k)) ==> forall p :: 0 <= p < |kinds| ==> !Silenced(kinds, p)
  {
    hide Segments, RightAt, Silenced, OfKinds;
    ValidSilencesNone(kinds);
    if forall p :: 0 <= p < |kinds| && kinds[p].NotTagKind? ==> Silenced(kinds, p) {
      forall sources: seq<Source>, n: nat | OfKinds(sources, kinds) ensures AllRight(sources, n, seg) {
        if HaveRows(sources, n) {
          SilencedRight(sources, kinds, n, seg);
        }
      }
    } else {
      var p :| 0 <= p < |kinds| && kinds[p].NotTagKind? && !Silenced(kinds, p);
      WrongOfKinds(kinds, p, seg);
      assert OfKinds(Witness(kinds, p), kinds) && !AllRight(Witness(kinds, p), 3, seg);
    }
  }

  lemma ValidSilencesNone(kinds: seq<Kind>)
    ensures (forall k :: k in kinds ==> !Invalid(k)) ==> forall p :: 0 <= p < |kinds| ==> !Silenced(kinds, p)
  {
    if forall k :: k in kinds ==> !Invalid(k) {
      forall r: nat | r <= |kinds| ensures !InvalidBefore(kinds, r) {
        forall q | 0 <= q < r ensures !Invalid(kinds[q]) { assert kinds[q] in kinds; }
      }
    }
  }

  /** Rendering never comes past an invalid format. */
  lemma InvalidStops(sources: seq<Source>, kinds: seq<Kind>, k: nat, i: nat, seg: Bytes -> seq<Bytes>)
    requires Segments(seg) && OfKinds(sources, kinds) && k <= |kinds| && InvalidBefore(kinds, k)
    requires forall s :: s in sources ==> s.Has(i)
    ensures KeyPrefix(sources, k, i, seg).Failure?
  {
    hide Segments, KeyPrefix;
    var q :| 0 <= q < k && Invalid(kinds[q]);
    assert PartKey(sources[q], i, seg) == Failure(InvalidStrftime);
    PrefixStep(sources, q + 1, i, seg);
    FailureStays(sources, q + 1, k, i, seg);
  }

  lemma {:induction false} NeverReached(
    sources: seq<Source>, kinds: seq<Kind>, r: nat, i: nat, seg: Bytes -> seq<Bytes>)
    requires Segments(seg) && OfKinds(sources, kinds) && r < |kinds| && InvalidBefore(kinds, r) && HaveRows(sources, i)
    ensures LastReaching(sources, r, i, seg) == None
  {
    hide Segments, OfKinds, InvalidBefore, KeyPrefix;
    if i > 0 {
      InvalidStops(sources, kinds, r, i - 1, seg);
      NeverReached(sources, kinds, r, i - 1, seg);
    }
  }

  lemma SilencedStays(sources: seq<Source>, kinds: seq<Kind>, i: nat, seg: Bytes -> seq<Bytes>)
    requires Segments(seg) && OfKinds(sources, kinds) && 0 < i && HaveRows(sources, i + 1)
    requires forall p :: 0 <= p < |kinds| && kinds[p].NotTagKind? ==> Silenced(kinds, p)
    ensures !FallsBack(sources, i, seg)
  {
    hide Segments, InvalidBefore, KeyPrefix;
    if TimeSilenced(kinds) {
      var r :| 0 <= r < |kinds| && kinds[r].TimeKind? && InvalidBefore(kinds, r);
      NeverReached(sources, kinds, r, i, seg);
      assert KindOf(sources[r]) == kinds[r] && !LooksAt(sources, r, i, seg);
    } else {
      var j := i - 1;
      forall p | 0 <= p < |sources| ensures !FailsAt(sources, p, j, seg) {
        assert KindOf(sources[p]) == kinds[p];
        if kinds[p].NotTagKind? {
          InvalidStops(sources, kinds, p, j, seg);
        }
      }
    }
  }

  lemma SilencedRight(sources: seq<Source>, kinds: seq<Kind>, n: nat, seg: Bytes -> seq<Bytes>)
    requires Segments(seg) && OfKinds(sources, kinds) && HaveRows(sources, n)
    requires forall p :: 0 <= p < |kinds| && kinds[p].NotTagKind? ==> Silenced(kinds, p)
    ensures forall i :: 0 <= i < n ==> RightAt(sources, n, i, seg)
  {
    hide Segments, Silenced, OfKinds, FallsBack, RightAt;
    forall i | 0 < i < n ensures !FallsBack(sources, i, seg) {
      SilencedStays(sources, kinds, i, seg);
    }
    RightIff(sources, n, n, seg);
  }

  /** Three rows: all nulls at one timestamp, but for a value in the middle of column `p`. */
  function WitnessColumn(kind: Kind, here: bool): Source {
    match kind
    case TagKind => Tag([false, false, false], [0, 0, 0], _ => [])
    case NotTagKind(columnType) => NotTag([false, here, false], columnType)
    case TimeKind(format) => Time([0, 0, 0], format)
    case MissingKind => MissingTag
  }

  function Witness(kinds: seq<Kind>, p: nat): (sources: seq<Source>)
    ensures |sources| == |kinds| && forall q :: 0 <= q < |kinds| ==> sources[q] == WitnessColumn(kinds[q], q == p)
  {
    seq(|kinds|, q requires 0 <= q < |kinds| => WitnessColumn(kinds[q], q == p))
  }

  lemma WitnessOfKinds(kinds: seq<Kind>, p: nat)
    ensures OfKinds(Witness(kinds, p), kinds)
  {
    var sources := Witness(kinds, p);
    forall s | s in sources && s.Time? ensures s.times == [0, 0, 0] {
      var q :| 0 <= q < |sources| && sources[q] == s;
    }
  }

  lemma WitnessRenders(kinds: seq<Kind>, p: nat, k: nat, i: nat, seg: Bytes -> seq<Bytes>)
    requires Segments(seg) && p < |kinds| && k <= |kinds| && i < 3 && !InvalidBefore(kinds, k)
    requires i == 1 ==> k <= p
    requires forall s :: s in Witness(kinds, p) ==> s.Has(i)
    ensures KeyPrefix(Witness(kinds, p), k, i, seg).Success?
  {
    hide Segments, PartKey, KeyPrefix;
    var sources := Witness(kinds, p);
    forall q | 0 <= q < k ensures PartKey(sources[q], i, seg).Success? {
      WitnessPart(kinds, p, q, i, seg);
    }
    AllRender(sources, k, i, seg);
  }

  lemma WitnessPart(kinds: seq<Kind>, p: nat, q: nat, i: nat, seg: Bytes -> seq<Bytes>)
    requires Segments(seg) && q < |kinds| && i < 3 && !Invalid(kinds[q]) && (i == 1 ==> q < p)
    ensures Witness(kinds, p)[q] in Witness(kinds, p)
    ensures Witness(kinds, p)[q].Has(i) && PartKey(Witness(kinds, p)[q], i, seg).Success?
  {
    hide Segments;
  }

  lemma WrongOfKinds(kinds: seq<Kind>, p: nat, seg: Bytes -> seq<Bytes>)
    requires Segments(seg) && p < |kinds| && kinds[p].NotTagKind? && !Silenced(kinds, p)
    ensures OfKinds(Witness(kinds, p), kinds)
    ensures HaveRows(Witness(kinds, p), 3) && !RightAt(Witness(kinds, p), 3, 2, seg)
  {
    hide Segments, KeyPrefix, RightAt, OfKinds, InvalidBefore;
    var sources := Witness(kinds, p);
    WitnessHas(kinds, p);
    WitnessOfKinds(kinds, p);
    WitnessRenders(kinds, p, p, 1, seg);
    assert FailsAt(sources, p, 1, seg);
    forall q | 0 <= q < |sources| ensures LooksAt(sources, q, 2, seg) {
      if kinds[q].TimeKind? {
        WitnessRenders(kinds, p, q, 0, seg);
      }
      WitnessLooks(kinds, p, q, seg);
    }
    FallsBackWrong(sources, 3, 2, seg);
  }

  lemma WitnessHas(kinds: seq<Kind>, p: nat)
    ensures HaveRows(Witness(kinds, p), 3)
  {
    var sources := Witness(kinds, p);
    forall s, i | s in sources && 0 <= i < 3 ensures s.Has(i) {
      var q :| 0 <= q < |sources| && sources[q] == s;
    }
  }

  lemma WitnessLooks(kinds: seq<Kind>, p: nat, q: nat, seg: Bytes -> seq<Bytes>)
    requires Segments(seg) && q < |kinds| && HaveRows(Witness(kinds, p), 3)
    requires kinds[q].TimeKind? ==> KeyPrefix(Witness(kinds, p), q, 0, seg).Success?
    ensures LooksAt(Witness(kinds, p), q, 2, seg)
  {
    hide Segments, KeyPrefix;
    var sources := Witness(kinds, p);
    assert sources[q] in sources;
    if kinds[q].TimeKind? {
      assert LastReaching(sources, q, 1, seg) == Some(0);
    }
  }

  /** A batch that goes wrong: a value where a tag was expected, then a null. Both rows end up in one range with the
      error, although the second one has a key. */
  lemma WrongBatch(columnType: nat, out: seq<KeyRange<Result<Bytes, KeyError>>>, seg: Bytes -> seq<Bytes>)
    requires Segments(seg) && HaveRows([NotTag([true, false], columnType)], 2)
    requires Encodes(out, KeyItems([NotTag([true, false], columnType)], 2, seg), 2)
    ensures out == [KeyRange(Failure(TagValueNotTag(columnType)), 0, 2)]
    ensures RowKey([NotTag([true, false], columnType)], 1, seg) == Success([VALUE_NULL])
  {
    hide Segments;
    var s := NotTag([true, false], columnType);
    var sources := [s];
    var error: Result<Bytes, KeyError> := Failure(TagValueNotTag(columnType));
    var items := KeyItems(sources, 2, seg);
    assert sources[0] in sources;
    assert KeyPrefix(sources, 0, 0, seg) == Success([]) && KeyPrefix(sources, 0, 1, seg) == Success([]);
    assert [] + [VALUE_NULL] + [] == [VALUE_NULL];
    assert KeyPrefix(sources, 1, 1, seg) == Success([VALUE_NULL]);
    assert LooksAt(sources, 0, 1, seg);
    assert items[0] == Some(error) && items[1] == None;
    assert Latest(items, 0) == error && Latest(items, 1) == error;
    OneRange(out, items, error);
  }

  /** Two rows of one key make one range. */
  lemma OneRange<T(!new)>(out: seq<KeyRange<T>>, items: seq<Option<T>>, key: T)
    requires |items| == 2 && items[0].Some? && Encodes(out, items, 2) && Latest(items, 0) == key
    requires Latest(items, 1) == key
    ensures out == [KeyRange(key, 0, 2)]
  {
    assert out != [] && Uniform(items, out[0]);
    hide Encodes, Uniform, Latest;
    if |out| > 1 {
      NeighboursDiffer(out, items, 2, 0);
      assert false;
    }
  }

  lemma NeighboursDiffer<T(!new)>(out: seq<KeyRange<T>>, items: seq<Option<T>>, n: nat, k: nat)
    requires n <= |items| && (n > 0 ==> items[0].Some?) && Encodes(out, items, n) && k + 1 < |out|
    ensures out[k].start < n && out[k + 1].start < n && Latest(items, out[k].start) != Latest(items, out[k + 1].start)
  {
    hide Latest;
    assert Uniform(items, out[k]) && Uniform(items, out[k + 1]);
  }
}
