/** The addressable heap: a key-addressed map and an ordered queue kept in step. */
module AddressableHeaps {
  import opened Orders
  import opened Wrappers

  // ---------- the ordered set ----------

  /** Inserts into an ordered set; reports whether the element is new. */
  method TreeInsert<T(!new, ==)>(less: (T, T) -> bool, q: seq<T>, p: T) returns (r: seq<T>, inserted: bool)
    requires StrictTotal(less) && Sorted(less, q)
    ensures Sorted(less, r) && inserted == (p !in q)
    ensures forall x :: x in r <==> x in q || x == p
  {
    var i := 0;
    while i < |q| && less(q[i], p)
      invariant 0 <= i <= |q| && forall j :: 0 <= j < i ==> less(q[j], p)
    {
      i := i + 1;
    }
    if i < |q| && q[i] == p {
      return q, false;
    }
    assert forall j :: i <= j < |q| ==> less(p, q[j]);
    r := q[..i] + [p] + q[i..];
    assert q == q[..i] + q[i..];
    inserted := true;
  }

  /** Removes from an ordered set; reports whether the element was there. */
  method TreeRemove<T(!new, ==)>(less: (T, T) -> bool, q: seq<T>, p: T) returns (r: seq<T>, existed: bool)
    requires StrictTotal(less) && Sorted(less, q)
    ensures Sorted(less, r) && existed == (p in q)
    ensures forall x :: x in r <==> x in q && x != p
  {
    var i := 0;
    while i < |q| && q[i] != p
      invariant 0 <= i <= |q| && p !in q[..i]
    {
      i := i + 1;
    }
    if i == |q| {
      return q, false;
    }
    r := q[..i] + q[i + 1..];
    assert q == q[..i] + [q[i]] + q[i + 1..];
    existed := true;
  }

  /** Two sorted sequences of the same elements are the same. */
  lemma {:induction false} SortedUnique<T(!new)>(less: (T, T) -> bool, a: seq<T>, b: seq<T>)
    requires StrictTotal(less) && Sorted(less, a) && Sorted(less, b)
    requires forall x :: x in a <==> x in b
    ensures a == b
  {
    if a == [] {
      SomeMember(b);
    } else {
      assert a[0] in b && b[0] in a;
      assert a[0] == b[0];
      forall x ensures x in a[1..] <==> x in b[1..] {
        TailMember(less, a, x);
        TailMember(less, b, x);
      }
      SortedUnique(less, a[1..], b[1..]);
      assert a == [a[0]] + a[1..] && b == [b[0]] + b[1..];
    }
  }

  lemma SomeMember<T>(b: seq<T>)
    ensures b != [] ==> exists x :: x in b
  {
    if b != [] {
      assert b[0] in b;
    }
  }

  lemma TailMember<T(!new)>(less: (T, T) -> bool, a: seq<T>, x: T)
    requires StrictTotal(less) && Sorted(less, a) && a != []
    ensures x in a[1..] <==> x in a && x != a[0]
  {
    if x in a && x != a[0] {
      var i :| 0 <= i < |a| && a[i] == x;
      assert a[1..][i - 1] == x;
    }
    if x in a[1..] {
      var i :| 0 <= i < |a| - 1 && a[1..][i] == x;
      assert less(a[0], a[i + 1]);
    }
  }

  /** The queue lists exactly the orders and keys of the map. */
  ghost predicate InSync<K(!new), V, O(!new)>(entries: map<K, (V, O)>, queue: seq<(O, K)>) {
    forall p :: p in queue <==> p.1 in entries && entries[p.1].1 == p.0
  }

  /** The elements in queue order. */
  ghost function ItemsOf<K(!new), V, O(!new)>(entries: map<K, (V, O)>, queue: seq<(O, K)>): (items: seq<(K, V, O)>)
    requires InSync(entries, queue)
  {
    seq(|queue|, i requires 0 <= i < |queue| =>
      assert queue[i] in queue; (queue[i].1, entries[queue[i].1].0, queue[i].0))
  }

  class AddressableHeap<K(!new, ==), V(!new), O(!new, ==)> {
    /** The order of the queue: by `O` first, and by `K` among equal orders. */
    const less: ((O, K), (O, K)) -> bool
    var entries: map<K, (V, O)>
    var queue: seq<(O, K)>

    ghost predicate Valid()
      reads this
    {
      StrictTotal(less) && Sorted(less, queue) && InSync(entries, queue)
    }

    ghost function Items(): (items: seq<(K, V, O)>)
      requires Valid()
      reads this
    {
      ItemsOf(entries, queue)
    }

    constructor (less: ((O, K), (O, K)) -> bool)
      requires StrictTotal(less)
      ensures Valid() && entries == map[] && this.less == less
    {
      this.less := less;
      entries, queue := map[], [];
    }

    method IsEmpty() returns (r: bool)
      requires Valid()
      ensures r <==> entries == map[]
    {
      var res1 := entries == map[];
      var res2 := queue == [];
      EmptyTogether(entries, queue);
      assert res1 == res2;
      r := res1;
    }

    /** Inserts an element and returns the one it replaces, if its key was already there. */
    method Insert(k: K, v: V, o: O) returns (r: Option<(V, O)>)
      requires Valid()
      modifies this
      ensures Valid() && entries == old(entries)[k := (v, o)]
      ensures r == if k in old(entries) then Some(old(entries)[k]) else None
    {
      var q := queue;
      if k in entries {
        var (vOld, oOld) := entries[k];
        var existed: bool;
        q, existed := TreeRemove(less, queue, (oOld, k));
        assert existed;
        r := Some((vOld, oOld));
      } else {
        r := None;
      }
      assert forall p :: p in q <==> p in queue && p.1 != k;
      var inserted: bool;
      queue, inserted := TreeInsert(less, q, (o, k));
      entries := entries[k := (v, o)];
      assert inserted;
    }

    /** Removes and returns the smallest element. */
    method Pop() returns (r: Option<(K, V, O)>)
      requires Valid()
      modifies this
      ensures Valid()
      ensures r == None <==> old(entries) == map[]
      ensures r == None ==> entries == map[]
      ensures r.Some? ==>
        var (k, v, o) := r.value;
        && k in old(entries) && old(entries)[k] == (v, o) && entries == old(entries) - {k}
        && forall l :: l in entries ==> less((o, k), (entries[l].1, l))
      ensures r == if old(Items()) == [] then None else Some(old(Items())[0])
      ensures Items() == if old(Items()) == [] then [] else old(Items())[1..]
    {
      if queue == [] {
        EmptyTogether(entries, queue);
        return None;
      }
      assert queue[0] in queue;
      var (o, k) := queue[0];
      var (v, o2) := entries[k];
      assert o == o2;
      PopFirst(less, entries, queue);
      r := Some((k, v, o));
      queue := queue[1..];
      entries := entries - {k};
    }

    /** Looks an item up by its key: it finds the value and order of the one item with the key, if there is one. */
    method Get(k: K) returns (r: Option<(V, O)>)
      requires Valid()
      ensures forall v, o :: r == Some((v, o)) <==> (k, v, o) in Items()
      ensures r == None <==> forall x :: x in Items() ==> x.0 != k
    {
      ItemsHold(entries, queue, k);
      r := if k in entries then Some(entries[k]) else None;
    }

    method Remove(k: K) returns (r: Option<(V, O)>)
      requires Valid()
      modifies this
      ensures Valid() && entries == old(entries) - {k}
      ensures r == if k in old(entries) then Some(old(entries)[k]) else None
    {
      if k !in entries {
        assert entries == entries - {k};
        return None;
      }
      var (v, o) := entries[k];
      var q, existed := TreeRemove(less, queue, (o, k));
      assert existed;
      queue := q;
      entries := entries - {k};
      r := Some((v, o));
    }

    /** Changes the order of a key and returns the old one, if the key is there. */
    method UpdateOrder(k: K, o: O) returns (r: Option<O>)
      requires Valid()
      modifies this
      ensures Valid()
      ensures entries == if k in old(entries) then old(entries)[k := (old(entries)[k].0, o)] else old(entries)
      ensures r == if k in old(entries) then Some(old(entries)[k].1) else None
    {
      if k !in entries {
        return None;
      }
      var (v, oOld) := entries[k];
      var q, existed := TreeRemove(less, queue, (oOld, k));
      assert existed;
      var inserted: bool;
      queue, inserted := TreeInsert(less, q, (o, k));
      assert inserted;
      entries := entries[k := (v, o)];
      r := Some(oOld);
    }

    /** Lists the elements from the smallest on, without changing the heap. */
    method Iter() returns (items: seq<(K, V, O)>)
      requires Valid()
      ensures items == Items()
    {
      items := [];
      var i := 0;
      while i < |queue|
        invariant 0 <= i <= |queue| && items == Items()[..i]
      {
        assert queue[i] in queue;
        var (o, k) := queue[i];
        var (v, o2) := entries[k];
        assert o == o2;
        items := items + [(k, v, o)];
        i := i + 1;
      }
    }

    method Peek() returns (r: Option<(K, V, O)>)
      requires Valid()
      ensures r == if Items() == [] then None else Some(Items()[0])
    {
      if queue == [] {
        return None;
      }
      assert queue[0] in queue;
      var (o, k) := queue[0];
      var (v, o2) := entries[k];
      assert o == o2;
      r := Some((k, v, o));
    }

    /** Popping until nothing is left yields what iterating lists. */
    method Drain() returns (items: seq<(K, V, O)>)
      requires Valid()
      modifies this
      ensures Valid() && entries == map[] && items == old(Items())
    {
      hide ItemsOf, InSync, Sorted, StrictTotal;
      items := [];
      var next := Pop();
      while next.Some?
        invariant Valid()
        invariant next == None ==> entries == map[] && items == old(Items())
        invariant next.Some? ==> items + [next.value] + Items() == old(Items())
        decreases if next == None then 0 else 1 + |Items()|
      {
        items := items + [next.value];
        next := Pop();
      }
    }
  }

  /** The items are those of the map, and a key has at most one. */
  lemma ItemsHold<K(!new), V(!new), O(!new)>(entries: map<K, (V, O)>, queue: seq<(O, K)>, k: K)
    requires InSync(entries, queue)
    ensures forall v, o :: (k, v, o) in ItemsOf(entries, queue) <==> k in entries && entries[k] == (v, o)
    ensures k in entries <==> exists x :: x in ItemsOf(entries, queue) && x.0 == k
  {
    var items := ItemsOf(entries, queue);
    if k in entries {
      var p := (entries[k].1, k);
      assert p in queue;
      var i :| 0 <= i < |queue| && queue[i] == p;
      assert items[i] == (k, entries[k].0, entries[k].1);
    }
    forall x | x in items && x.0 == k ensures k in entries && entries[k] == (x.1, x.2) {
      var i :| 0 <= i < |items| && items[i] == x;
      assert queue[i] in queue;
    }
  }

  /** The map is empty exactly when the queue is. */
  lemma EmptyTogether<K(!new), V, O(!new)>(entries: map<K, (V, O)>, queue: seq<(O, K)>)
    requires InSync(entries, queue)
    ensures entries == map[] <==> queue == []
  {
    if queue != [] {
      assert queue[0] in queue;
    }
    if entries != map[] {
      var k :| k in entries;
      assert (entries[k].1, k) in queue;
    }
  }

  /** Taking the first of the queue keeps the two structures in step and takes a smallest element. */
  lemma PopFirst<K(!new), V(!new), O(!new)>(less: ((O, K), (O, K)) -> bool, entries: map<K, (V, O)>, queue: seq<(O, K)>)
    requires StrictTotal(less) && Sorted(less, queue) && InSync(entries, queue) && queue != []
    ensures
      var (o, k) := queue[0];
      var rest := entries - {k};
      && Sorted(less, queue[1..]) && InSync(rest, queue[1..])
      && (forall l :: l in rest ==> less((o, k), (rest[l].1, l)))
      && ItemsOf(rest, queue[1..]) == ItemsOf(entries, queue)[1..]
  {
    var (o, k) := queue[0];
    var rest := entries - {k};
    assert queue[0] in queue;
    forall p ensures p in queue[1..] <==> p.1 in rest && rest[p.1].1 == p.0 {
      TailMember(less, queue, p);
    }
    forall l | l in rest ensures less((o, k), (rest[l].1, l)) {
      assert (rest[l].1, l) in queue[1..];
    }
    forall i | 0 <= i < |queue| - 1 ensures ItemsOf(rest, queue[1..])[i] == ItemsOf(entries, queue)[1..][i] {
      assert queue[i + 1] in queue[1..];
    }
  }
}
