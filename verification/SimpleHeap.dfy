/** The list-based heap that serves as the specification of the addressable heap, and the refinement
    between the two over every sequence of actions. */
module SimpleHeaps {
  import opened Orders
  import opened Wrappers
  import opened AddressableHeaps

  type Item<K, V, O> = (K, V, O)

  function Pair<K, V, O>(x: Item<K, V, O>): (O, K) { (x.2, x.0) }

  // ---------- the simple heap: a list in insertion order ----------

  /** The first index holding key `k`, or the length of the list. */
  function Find<K(==), V, O>(s: seq<Item<K, V, O>>, k: K): (i: nat)
    ensures i <= |s| && (i < |s| ==> s[i].0 == k) && forall j :: 0 <= j < i ==> s[j].0 != k
  {
    if s == [] || s[0].0 == k then 0 else 1 + Find(s[1..], k)
  }

  function SGet<K(==), V, O>(s: seq<Item<K, V, O>>, k: K): Option<(V, O)> {
    var i := Find(s, k);
    if i < |s| then Some((s[i].1, s[i].2)) else None
  }

  function SRemove<K(==), V, O>(s: seq<Item<K, V, O>>, k: K): seq<Item<K, V, O>> {
    var i := Find(s, k);
    if i < |s| then s[..i] + s[i + 1..] else s
  }

  function SInsert<K(==), V, O>(s: seq<Item<K, V, O>>, k: K, v: V, o: O): seq<Item<K, V, O>> {
    SRemove(s, k) + [(k, v, o)]
  }

  /** The index of the first smallest element. */
  function MinIndex<K, V, O>(less: ((O, K), (O, K)) -> bool, s: seq<Item<K, V, O>>): (i: nat)
    requires s != []
    ensures i < |s|
  {
    if |s| == 1 then 0
    else
      var n := |s| - 1;
      var j := MinIndex(less, s[..n]);
      if less(Pair(s[n]), Pair(s[j])) then n else j
  }

  function SPeek<K, V, O>(less: ((O, K), (O, K)) -> bool, s: seq<Item<K, V, O>>): Option<Item<K, V, O>> {
    if s == [] then None else Some(s[MinIndex(less, s)])
  }

  function SPop<K, V, O>(less: ((O, K), (O, K)) -> bool, s: seq<Item<K, V, O>>): seq<Item<K, V, O>> {
    if s == [] then [] else var i := MinIndex(less, s); s[..i] + s[i + 1..]
  }

  function SUpdateOrder<K(==), V, O>(s: seq<Item<K, V, O>>, k: K, o: O): seq<Item<K, V, O>> {
    var was := SGet(s, k);
    if was.Some? then SInsert(SRemove(s, k), k, was.value.0, o) else s
  }

  function SortedInsert<K, V, O>(
    less: ((O, K), (O, K)) -> bool, x: Item<K, V, O>, s: seq<Item<K, V, O>>): (r: seq<Item<K, V, O>>) {
    if s == [] || less(Pair(x), Pair(s[0])) then [x] + s
    else [s[0]] + SortedInsert(less, x, s[1..])
  }

  /** The elements sorted by order and key. */
  function SDump<K, V, O>(less: ((O, K), (O, K)) -> bool, s: seq<Item<K, V, O>>): (r: seq<Item<K, V, O>>) {
    if s == [] then [] else SortedInsert(less, s[|s| - 1], SDump(less, s[..|s| - 1]))
  }

  // ---------- the refinement relation ----------

  ghost predicate HasKey<K, V, O>(s: seq<Item<K, V, O>>, k: K) {
    exists i :: 0 <= i < |s| && s[i].0 == k
  }

  /** The map holds exactly the elements of the list, whose keys are distinct. */
  ghost predicate Refines<K(!new), V, O>(entries: map<K, (V, O)>, s: seq<Item<K, V, O>>) {
    && (forall i, j :: 0 <= i < j < |s| ==> s[i].0 != s[j].0)
    && (forall i :: 0 <= i < |s| ==> s[i].0 in entries && entries[s[i].0] == (s[i].1, s[i].2))
    && (forall k :: k in entries ==> HasKey(s, k))
  }

  lemma GetRefines<K(!new), V, O>(entries: map<K, (V, O)>, s: seq<Item<K, V, O>>, k: K)
    requires Refines(entries, s)
    ensures SGet(s, k) == if k in entries then Some(entries[k]) else None
  {
    if k in entries {
      assert HasKey(s, k);
    }
  }

  /** Dropping one element of the list drops its key from the map. */
  lemma DropRefines<K(!new), V, O>(entries: map<K, (V, O)>, s: seq<Item<K, V, O>>, i: nat)
    requires Refines(entries, s) && i < |s|
    ensures Refines(entries - {s[i].0}, s[..i] + s[i + 1..])
  {
    var r := s[..i] + s[i + 1..];
    var rest := entries - {s[i].0};
    forall k | k in rest ensures HasKey(r, k) {
      assert HasKey(s, k);
      var j :| 0 <= j < |s| && s[j].0 == k;
      if j < i {
        assert r[j].0 == k;
      } else {
        assert r[j - 1].0 == k;
      }
    }
    forall j | 0 <= j < |r| ensures r[j].0 in rest && rest[r[j].0] == (r[j].1, r[j].2) {
      var l := if j < i then j else j + 1;
      assert r[j] == s[l] && s[l].0 != s[i].0;
    }
  }

  lemma RemoveRefines<K(!new), V, O>(entries: map<K, (V, O)>, s: seq<Item<K, V, O>>, k: K)
    requires Refines(entries, s)
    ensures Refines(entries - {k}, SRemove(s, k))
  {
    var i := Find(s, k);
    if i < |s| {
      DropRefines(entries, s, i);
    } else {
      assert k in entries ==> HasKey(s, k);
      assert entries - {k} == entries;
    }
  }

  lemma PushRefines<K(!new), V, O>(entries: map<K, (V, O)>, s: seq<Item<K, V, O>>, x: Item<K, V, O>)
    requires Refines(entries, s) && x.0 !in entries
    ensures Refines(entries[x.0 := (x.1, x.2)], s + [x])
  {
    var r := s + [x];
    var more := entries[x.0 := (x.1, x.2)];
    forall k | k in more ensures HasKey(r, k) {
      if k == x.0 {
        assert r[|s|].0 == k;
      } else {
        assert HasKey(s, k);
        var j :| 0 <= j < |s| && s[j].0 == k;
        assert r[j].0 == k;
      }
    }
  }

  lemma InsertRefines<K(!new), V, O>(entries: map<K, (V, O)>, s: seq<Item<K, V, O>>, k: K, v: V, o: O)
    requires Refines(entries, s)
    ensures Refines(entries[k := (v, o)], SInsert(s, k, v, o))
  {
    RemoveRefines(entries, s, k);
    PushRefines(entries - {k}, SRemove(s, k), (k, v, o));
    assert (entries - {k})[k := (v, o)] == entries[k := (v, o)];
  }

  lemma UpdateRefines<K(!new), V, O>(entries: map<K, (V, O)>, s: seq<Item<K, V, O>>, k: K, o: O)
    requires Refines(entries, s)
    ensures Refines(if k in entries then entries[k := (entries[k].0, o)] else entries, SUpdateOrder(s, k, o))
  {
    GetRefines(entries, s, k);
    if k in entries {
      RemoveRefines(entries, s, k);
      InsertRefines(entries - {k}, SRemove(s, k), k, entries[k].0, o);
      assert (entries - {k})[k := (entries[k].0, o)] == entries[k := (entries[k].0, o)];
    }
  }

  lemma {:induction false} MinIndexLeast<K(!new), V(!new), O(!new)>(
    less: ((O, K), (O, K)) -> bool, s: seq<Item<K, V, O>>)
    requires StrictTotal(less) && s != []
    ensures forall j :: 0 <= j < |s| ==> !less(Pair(s[j]), Pair(s[MinIndex(less, s)]))
  {
    if |s| > 1 {
      var n := |s| - 1;
      MinIndexLeast(less, s[..n]);
      var m := s[MinIndex(less, s[..n])];
      forall j | 0 <= j < n ensures !less(Pair(s[j]), Pair(m)) {
        assert s[..n][j] == s[j];
      }
    }
  }

  /** The smallest element of the list is the first of the queue. */
  lemma PeekRefines<K(!new), V(!new), O(!new)>(less: ((O, K), (O, K)) -> bool, entries: map<K, (V, O)>,
                                             queue: seq<(O, K)>, s: seq<Item<K, V, O>>)
    requires StrictTotal(less) && Sorted(less, queue) && InSync(entries, queue) && Refines(entries, s)
    ensures SPeek(less, s) == if queue == [] then None else Some(ItemsOf(entries, queue)[0])
    ensures Refines(if queue == [] then entries else entries - {queue[0].1}, SPop(less, s))
  {
    if queue == [] {
      EmptyTogether(entries, queue);
    } else {
      assert queue[0] in queue;
      assert HasKey(s, queue[0].1);
      MinIndexLeast(less, s);
      var i := MinIndex(less, s);
      var j :| 0 <= j < |s| && s[j].0 == queue[0].1;
      assert Pair(s[i]) in queue && Pair(s[j]) == queue[0];
      assert Pair(s[i]) == queue[0];
      DropRefines(entries, s, i);
    }
  }

  // ---------- sorting the list gives the queue order ----------

  ghost predicate SortedItems<K(!new), V, O(!new)>(less: ((O, K), (O, K)) -> bool, s: seq<Item<K, V, O>>) {
    forall i, j :: 0 <= i < j < |s| ==> less(Pair(s[i]), Pair(s[j]))
  }

  lemma {:induction false} SortedInsertCorrect<K(!new), V(!new), O(!new)>(
    less: ((O, K), (O, K)) -> bool, x: Item<K, V, O>, s: seq<Item<K, V, O>>)
    requires StrictTotal(less) && SortedItems(less, s) && forall i :: 0 <= i < |s| ==> Pair(s[i]) != Pair(x)
    ensures SortedItems(less, SortedInsert(less, x, s))
    ensures forall y :: y in SortedInsert(less, x, s) <==> y == x || y in s
  {
    if s == [] || less(Pair(x), Pair(s[0])) {
    } else {
      SortedInsertCorrect(less, x, s[1..]);
      var rest := SortedInsert(less, x, s[1..]);
      forall i | 0 <= i < |rest| ensures less(Pair(s[0]), Pair(rest[i])) {
        assert rest[i] in rest;
        if rest[i] != x {
          assert rest[i] in s[1..];
        }
      }
      assert s == [s[0]] + s[1..];
    }
  }

  lemma {:induction false} DumpCorrect<K(!new), V(!new), O(!new)>(less: ((O, K), (O, K)) -> bool, s: seq<Item<K, V, O>>)
    requires StrictTotal(less) && forall i, j :: 0 <= i < j < |s| ==> s[i].0 != s[j].0
    ensures SortedItems(less, SDump(less, s)) && forall y :: y in SDump(less, s) <==> y in s
  {
    if s != [] {
      var n := |s| - 1;
      DumpCorrect(less, s[..n]);
      var d := SDump(less, s[..n]);
      forall i | 0 <= i < |d| ensures Pair(d[i]) != Pair(s[n]) {
        assert d[i] in d;
        var j :| 0 <= j < n && s[..n][j] == d[i];
        assert s[j].0 != s[n].0;
      }
      SortedInsertCorrect(less, s[n], d);
      assert s == s[..n] + [s[n]];
    }
  }

  lemma DumpRefines<K(!new), V(!new), O(!new)>(less: ((O, K), (O, K)) -> bool, entries: map<K, (V, O)>,
                                             queue: seq<(O, K)>, s: seq<Item<K, V, O>>)
    requires StrictTotal(less) && Sorted(less, queue) && InSync(entries, queue) && Refines(entries, s)
    ensures SDump(less, s) == ItemsOf(entries, queue)
  {
    var d := SDump(less, s);
    DumpCorrect(less, s);
    var pairs := seq(|d|, i requires 0 <= i < |d| => Pair(d[i]));
    forall p ensures p in pairs <==> p in queue {
      if p in pairs {
        var i :| 0 <= i < |pairs| && pairs[i] == p;
        assert d[i] in d;
        var j :| 0 <= j < |s| && s[j] == d[i];
      }
      if p in queue {
        assert HasKey(s, p.1);
        var j :| 0 <= j < |s| && s[j].0 == p.1;
        assert s[j] in d;
        var i :| 0 <= i < |d| && d[i] == s[j];
        assert pairs[i] == p;
      }
    }
    SortedUnique(less, pairs, queue);
    forall i | 0 <= i < |d| ensures d[i] == ItemsOf(entries, queue)[i] {
      assert d[i] in d && pairs[i] == queue[i];
      var j :| 0 <= j < |s| && s[j] == d[i];
    }
  }

  // ---------- action sequences ----------

  datatype Action<K, V, O> =
    | IsEmpty
    | Insert(k: K, v: V, o: O)
    | Peek
    | Iter
    | Pop
    | Get(k: K)
    | Remove(k: K)
    | UpdateOrder(k: K, o: O)

  datatype Outcome<K, V, O> =
    | Flag(b: bool)
    | ValueAndOrder(vo: Option<(V, O)>)
    | Element(x: Option<Item<K, V, O>>)
    | Elements(xs: seq<Item<K, V, O>>)
    | Order(oo: Option<O>)

  /** The list after an action. */
  function SNext<K(==), V, O>(
    less: ((O, K), (O, K)) -> bool, s: seq<Item<K, V, O>>, a: Action<K, V, O>): seq<Item<K, V, O>> {
    match a
    case Insert(k, v, o) => SInsert(s, k, v, o)
    case Pop => SPop(less, s)
    case Remove(k) => SRemove(s, k)
    case UpdateOrder(k, o) => SUpdateOrder(s, k, o)
    case _ => s
  }

  /** What the simple heap answers to an action. */
  function SAnswer<K(==), V, O>(
    less: ((O, K), (O, K)) -> bool, s: seq<Item<K, V, O>>, a: Action<K, V, O>): Outcome<K, V, O> {
    match a
    case IsEmpty => Flag(|s| == 0)
    case Insert(k, _, _) => ValueAndOrder(SGet(s, k))
    case Peek => Element(SPeek(less, s))
    case Iter => Elements(SDump(less, s))
    case Pop => Element(SPeek(less, s))
    case Get(k) => ValueAndOrder(SGet(s, k))
    case Remove(k) => ValueAndOrder(SGet(s, k))
    case UpdateOrder(k, _) => Order(var r := SGet(s, k); if r.Some? then Some(r.value.1) else None)
  }

  function SRun<K(==), V, O>(
    less: ((O, K), (O, K)) -> bool, s: seq<Item<K, V, O>>, actions: seq<Action<K, V, O>>): (rs: seq<Outcome<K, V, O>>)
    decreases |actions|
  {
    if actions == [] then []
    else [SAnswer(less, s, actions[0])] + SRun(less, SNext(less, s, actions[0]), actions[1..])
  }

  /** One action on the addressable heap answers what the simple heap answers and keeps them related. */
  method Act<K(!new, ==), V(!new), O(!new, ==)>(
    heap: AddressableHeap<K, V, O>, a: Action<K, V, O>, ghost s: seq<Item<K, V, O>>)
    returns (r: Outcome<K, V, O>)
    requires heap.Valid() && Refines(heap.entries, s)
    modifies heap
    ensures heap.Valid() && Refines(heap.entries, SNext(heap.less, s, a))
    ensures r == SAnswer(heap.less, s, a)
  {
    hide Refines, InSync, ItemsOf, Sorted, StrictTotal, SGet, SRemove, SInsert, SUpdateOrder;
    match a {
      case IsEmpty =>
        var b := heap.IsEmpty();
        EmptyRefines(heap.entries, s);
        r := Flag(b);
      case Insert(k, v, o) =>
        GetRefines(heap.entries, s, k);
        InsertRefines(heap.entries, s, k, v, o);
        var vo := heap.Insert(k, v, o);
        r := ValueAndOrder(vo);
      case Peek =>
        PeekRefines(heap.less, heap.entries, heap.queue, s);
        FirstItem(heap.entries, heap.queue);
        var x := heap.Peek();
        r := Element(x);
      case Iter =>
        DumpRefines(heap.less, heap.entries, heap.queue, s);
        var xs := heap.Iter();
        r := Elements(xs);
      case Pop =>
        PeekRefines(heap.less, heap.entries, heap.queue, s);
        FirstItem(heap.entries, heap.queue);
        var x := heap.Pop();
        r := Element(x);
      case Get(k) =>
        GetRefines(heap.entries, s, k);
        var vo := heap.Get(k);
        ItemsHold(heap.entries, heap.queue, k);
        r := ValueAndOrder(vo);
      case Remove(k) =>
        GetRefines(heap.entries, s, k);
        RemoveRefines(heap.entries, s, k);
        var vo := heap.Remove(k);
        r := ValueAndOrder(vo);
      case UpdateOrder(k, o) =>
        GetRefines(heap.entries, s, k);
        UpdateRefines(heap.entries, s, k, o);
        var oo := heap.UpdateOrder(k, o);
        r := Order(oo);
    }
  }

  lemma FirstItem<K(!new), V, O(!new)>(entries: map<K, (V, O)>, queue: seq<(O, K)>)
    requires InSync(entries, queue)
    ensures |ItemsOf(entries, queue)| == |queue|
    ensures queue == [] ==> entries == map[]
    ensures queue != [] ==> ItemsOf(entries, queue)[0].0 == queue[0].1
  {
    if queue == [] {
      EmptyTogether(entries, queue);
    }
  }

  lemma EmptyRefines<K(!new), V, O>(entries: map<K, (V, O)>, s: seq<Item<K, V, O>>)
    requires Refines(entries, s)
    ensures entries == map[] <==> s == []
  {
    if s != [] {
      assert s[0].0 in entries;
    }
    if entries != map[] {
      var k :| k in entries;
      assert HasKey(s, k);
    }
  }

  /** Over every sequence of actions the two heaps give the same answers. */
  method Run<K(!new, ==), V(!new), O(!new, ==)>(less: ((O, K), (O, K)) -> bool, actions: seq<Action<K, V, O>>)
    returns (rs: seq<Outcome<K, V, O>>)
    requires StrictTotal(less)
    ensures rs == SRun(less, [], actions)
  {
    var heap := new AddressableHeap<K, V, O>(less);
    ghost var s: seq<Item<K, V, O>> := [];
    rs := [];
    var i := 0;
    while i < |actions|
      invariant 0 <= i <= |actions|
      invariant fresh(heap) && heap.Valid() && heap.less == less && Refines(heap.entries, s)
      invariant rs + SRun(less, s, actions[i..]) == SRun(less, [], actions)
    {
      assert actions[i..][0] == actions[i] && actions[i..][1..] == actions[i + 1..];
      var r := Act(heap, actions[i], s);
      rs := rs + [r];
      s := SNext(less, s, actions[i]);
      i := i + 1;
    }
  }
}
